/**
 * A value of `Math.random()` is modelled as the fraction num/den, which lies in
 * [0, 1) exactly when num < den. Randomness is therefore an input to the model.
 */
module Random {
  import Arith

  datatype Draw = Draw(num: nat, den: nat) {
    /** The fraction lies in [0, 1), as `Math.random()` guarantees. */
    predicate Valid() {
      num < den
    }
  }

  predicate AllValid(draws: seq<Draw>) {
    forall k :: 0 <= k < |draws| ==> draws[k].Valid()
  }

  /** `Math.floor(random * n)`: an index into a collection of n elements. */
  function Pick(d: Draw, n: nat): (k: nat)
    requires d.Valid() && n > 0
    ensures k < n
  {
    var p := d.num * n;
    Arith.MulMonotone(0, d.num, n);
    Arith.MulMonotone(d.num, d.den - 1, n);
    assert (d.den - 1) * n == d.den * n - n;
    Arith.DivBelow(p, d.den, n);
    p / d.den
  }
}
