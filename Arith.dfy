/** Small facts about integer multiplication and floor division used by the models. */
module Arith {

  lemma {:induction false} MulMonotone(a: int, b: int, c: nat)
    requires a <= b
    ensures a * c <= b * c
  {
    if c > 0 {
      MulMonotone(a, b, c - 1);
      assert a * c == a * (c - 1) + a;
      assert b * c == b * (c - 1) + b;
    }
  }

  /** A non-zero multiple of a positive number is at least that number. */
  lemma MulAtLeastOne(m: int, c: nat)
    requires m >= 1
    ensures m * c >= c
  {
    MulMonotone(1, m, c);
  }

  /** Multiples of a positive number less than one step apart come from ordered factors. */
  lemma MulCancel(x: int, y: int, c: nat)
    requires c > 0 && x * c < y * c + c
    ensures x <= y
  {
    if x > y {
      MulMonotone(y + 1, x, c);
    }
  }

  /** Floor division by a positive number is below n when the dividend is below den * n. */
  lemma DivBelow(p: int, den: nat, n: int)
    requires den > 0 && p < den * n
    ensures p / den < n
  {
    var q := p / den;
    assert p == den * q + p % den;
    if q >= n {
      MulMonotone(n, q, den);
    }
  }
}
