/**
 * `getRandomPositions`: the numbers 1 .. n-1 shuffled in place by a descending
 * Fisher-Yates loop. The values of `Math.random()` the loop asks for, in order,
 * are an input.
 */
module Utils {
  import opened Random

  /** The array before shuffling: [1, 2, ..., n-1], empty when n <= 1. */
  function Ascending(n: int): (s: seq<int>)
    ensures |s| == if n >= 1 then n - 1 else 0
    ensures forall k :: 0 <= k < |s| ==> s[k] == k + 1
  {
    if n <= 1 then [] else Ascending(n - 1) + [n - 1]
  }

  /** The destructuring swap of positions i and j; with i == j nothing changes. */
  function Swap(s: seq<int>, i: nat, j: nat): (r: seq<int>)
    requires i < |s| && j < |s|
    ensures |r| == |s| && r[i] == s[j] && r[j] == s[i]
    ensures forall k :: 0 <= k < |s| && k != i && k != j ==> r[k] == s[k]
  {
    s[i := s[j]][j := s[i]]
  }

  /**
   * The index each step swaps with: js[i] for position i, never past i (js[0] is
   * never used, since the loop stops before position 0).
   */
  predicate SwapIndices(js: seq<nat>) {
    forall i :: 0 <= i < |js| ==> js[i] <= i
  }

  /** The index the step for position i swaps with, in a loop over len positions: `floor(random * (i + 1))`. */
  function SwapIndex(draws: seq<Draw>, len: nat, i: nat): (j: nat)
    requires |draws| >= len - 1 && AllValid(draws) && 0 < i < len
    ensures j <= i
  {
    Pick(draws[len - 1 - i], i + 1)
  }

  /**
   * The swap indices of a loop over len positions: position i (from len - 1 down
   * to 1) takes the next draw.
   */
  function SwapIndicesOf(draws: seq<Draw>, len: nat): (js: seq<nat>)
    requires |draws| >= len - 1 && AllValid(draws)
    ensures |js| == len && SwapIndices(js)
    ensures forall i :: 0 < i < len ==> js[i] == SwapIndex(draws, len, i)
  {
    seq(len, i => if 0 < i < len then SwapIndex(draws, len, i) else 0)
  }

  /**
   * The loop from position i down to position 1. It never touches a position after i.
   */
  function ShuffleFrom(s: seq<int>, js: seq<nat>, i: nat): (r: seq<int>)
    requires i < |s| == |js| && SwapIndices(js)
    ensures |r| == |s|
    ensures forall k :: i < k < |s| ==> r[k] == s[k]
    decreases i
  {
    if i == 0 then s
    else ShuffleFrom(Swap(s, i, js[i]), js, i - 1)
  }

  /** The whole loop: from the last position down to position 1. */
  function Shuffle(s: seq<int>, js: seq<nat>): (r: seq<int>)
    requires |s| == |js| && SwapIndices(js)
    ensures |r| == |s|
    ensures |s| <= 1 ==> r == s
  {
    if |s| == 0 then s else ShuffleFrom(s, js, |s| - 1)
  }

  /** The loop only swaps, so its result is a permutation of its input. */
  lemma {:induction false} ShuffleFromPermutes(s: seq<int>, js: seq<nat>, i: nat)
    requires i < |s| == |js| && SwapIndices(js)
    ensures multiset(ShuffleFrom(s, js, i)) == multiset(s)
    decreases i
  {
    if i > 0 {
      ShuffleFromPermutes(Swap(s, i, js[i]), js, i - 1);
    }
  }

  /** A sequence without repeated elements holds each value at most once. */
  lemma {:induction false} DistinctCountsAtMostOne(s: seq<int>, v: int)
    requires forall k, l :: 0 <= k < l < |s| ==> s[k] != s[l]
    ensures multiset(s)[v] <= 1
  {
    if |s| > 0 {
      DistinctCountsAtMostOne(s[1..], v);
      assert s == [s[0]] + s[1..];
      if v == s[0] {
        assert v !in s[1..];
      }
    }
  }

  /** A permutation of 1 .. n-1 holds exactly the values 1 .. n-1, each once. */
  lemma PermutationOfAscending(r: seq<int>, n: int)
    requires multiset(r) == multiset(Ascending(n))
    ensures forall k :: 0 <= k < |r| ==> 1 <= r[k] < n
    ensures forall k, l :: 0 <= k < l < |r| ==> r[k] != r[l]
  {
    var a := Ascending(n);
    forall k | 0 <= k < |r|
      ensures 1 <= r[k] < n
    {
      assert r[k] in multiset(r);
      assert r[k] in a;
    }
    forall k, l | 0 <= k < l < |r|
      ensures r[k] != r[l]
    {
      if r[k] == r[l] {
        assert r == r[..l] + r[l..];
        assert r[k] in r[..l] && r[l] in r[l..];
        assert multiset(r)[r[k]] == multiset(r[..l])[r[k]] + multiset(r[l..])[r[k]];
        DistinctCountsAtMostOne(a, r[k]);
      }
    }
  }

  /** One turn of the loop: swapping position i with its index leaves the rest of the loop to do. */
  lemma ShuffleStep(s: seq<int>, js: seq<nat>, i: nat, t: seq<int>)
    requires 0 < i < |s| == |js| && SwapIndices(js)
    requires t == Swap(s, i, js[i])
    ensures ShuffleFrom(s, js, i) == ShuffleFrom(t, js, i - 1)
  {
  }

  /** r holds 1 .. n-1, each exactly once, in some order. */
  predicate ArrangesRange(r: seq<int>, n: int) {
    && |r| == (if n >= 1 then n - 1 else 0)
    && multiset(r) == multiset(Ascending(n))
    && (forall k :: 0 <= k < |r| ==> 1 <= r[k] < n)
    && (forall k, l :: 0 <= k < l < |r| ==> r[k] != r[l])
  }

  /** What the shuffle promises: 1 .. n-1, each exactly once, in some order; with fewer than two numbers, no swap happens. */
  lemma ShuffleOfAscending(n: int, js: seq<nat>)
    requires |js| == |Ascending(n)| && SwapIndices(js)
    ensures ArrangesRange(Shuffle(Ascending(n), js), n)
    ensures n <= 2 ==> Shuffle(Ascending(n), js) == Ascending(n)
  {
    var a := Ascending(n);
    if |a| > 0 {
      ShuffleFromPermutes(a, js, |a| - 1);
    }
    PermutationOfAscending(Shuffle(a, js), n);
  }

  /** Fills [1, ..., n-1] and shuffles it in place, one draw per swap. */
  method GetRandomPositions(n: int, draws: seq<Draw>) returns (positions: seq<int>)
    requires |draws| >= n - 2 && AllValid(draws)
    ensures positions == Shuffle(Ascending(n), SwapIndicesOf(draws, |Ascending(n)|))
    ensures ArrangesRange(positions, n)
    ensures n <= 2 ==> positions == Ascending(n)
  {
    var len := if n >= 1 then n - 1 else 0;
    var a := new int[len](k => k + 1);
    assert a[..] == Ascending(n);
    ghost var js := SwapIndicesOf(draws, len);
    ghost var target := Shuffle(a[..], js);
    var i := len - 1;
    while i > 0
      invariant -1 <= i < len
      invariant len > 0 ==> 0 <= i
      invariant len > 0 ==> ShuffleFrom(a[..], js, i) == target
    {
      ghost var before := a[..];
      var j := SwapIndex(draws, len, i);
      assert j == js[i];
      a[i], a[j] := a[j], a[i];
      ShuffleStep(before, js, i, a[..]);
      assert ShuffleFrom(a[..], js, i - 1) == target;
      i := i - 1;
    }
    positions := a[..];
    ShuffleOfAscending(n, js);
  }
}
