/**
 * The pure pixel arithmetic of the puzzle board: snapping a dropped coordinate to
 * the indent/line grid, clamping it into the board, and the per-axis sign of a hint.
 * Pixels are integers; a grid cell is a positive number of pixels.
 */
module Geometry {
  import Arith

  /** The padding below the last line that the vertical clamp keeps free. */
  const BottomPadding: int := 39

  function Abs(v: int): (r: nat)
    ensures r == v || r == -v
  {
    if v < 0 then -v else v
  }

  /** `Math.sign` on integers. */
  function Sign(v: int): (r: int)
    ensures r == -1 || r == 0 || r == 1
    ensures r * v == Abs(v)
  {
    if v < 0 then -1 else if v == 0 then 0 else 1
  }

  /**
   * `Math.round(num / den)` for den > 0: the nearest integer, a half rounding up.
   * The ensures pins the result down (see RoundUnique).
   */
  function Round(num: int, den: int): (q: int)
    requires den > 0
    ensures -den < 2 * (q * den - num) <= den
  {
    var t := 2 * num + den;
    var q := t / (2 * den);
    assert t == 2 * den * q + t % (2 * den);
    q
  }

  /** Round is the only integer within half a step (upper half included) of num / den. */
  lemma RoundUnique(num: int, den: int, k: int)
    requires den > 0
    requires -den < 2 * (k * den - num) <= den
    ensures k == Round(num, den)
  {
    var q := Round(num, den);
    if k > q {
      assert (k - q) * den == k * den - q * den;
      Arith.MulAtLeastOne(k - q, den);
    } else if k < q {
      assert (q - k) * den == q * den - k * den;
      Arith.MulAtLeastOne(q - k, den);
    }
  }

  /** v lies on the grid of pitch cell whose first line is at cell. */
  predicate OnGrid(v: int, cell: int)
    requires cell > 0
  {
    (v - cell) % cell == 0
  }

  /** Every whole number of cells past the first grid line is on the grid. */
  lemma MultipleOnGrid(q: int, cell: int)
    requires cell > 0
    ensures OnGrid(cell + q * cell, cell)
  {
    var d := q * cell;
    var m := q - d / cell;
    assert d == cell * (d / cell) + d % cell;
    assert m * cell == d % cell;
    if m >= 1 {
      Arith.MulAtLeastOne(m, cell);
    } else if m <= -1 {
      Arith.MulAtLeastOne(-m, cell);
    }
  }

  /** The snapping of the drag-end handler, `cell + round((raw - cell) / cell) * cell`. */
  function Snap(raw: int, cell: int): (r: int)
    requires cell > 0
    ensures -cell < 2 * (r - raw) <= cell
  {
    cell + Round(raw - cell, cell) * cell
  }

  /** Snapping gives a grid position within half a cell of raw (a half rounds up). */
  lemma SnapOnGrid(raw: int, cell: int)
    requires cell > 0
    ensures OnGrid(Snap(raw, cell), cell)
    ensures -cell < 2 * (Snap(raw, cell) - raw) <= cell
  {
    MultipleOnGrid(Round(raw - cell, cell), cell);
  }

  /** No grid line is closer to the raw value than the snapped one. */
  lemma SnapNearest(raw: int, cell: int, g: int)
    requires cell > 0 && OnGrid(g, cell)
    ensures Abs(Snap(raw, cell) - raw) <= Abs(g - raw)
  {
    var s := Snap(raw, cell);
    var q := Round(raw - cell, cell);
    SnapOnGrid(raw, cell);
    var k := (g - cell) / cell;
    assert g - cell == cell * k + (g - cell) % cell;
    assert g == cell + k * cell;
    if k > q {
      Arith.MulAtLeastOne(k - q, cell);
      assert g - s == (k - q) * cell;
    } else if k < q {
      Arith.MulAtLeastOne(q - k, cell);
      assert s - g == (q - k) * cell;
    }
  }

  /** Rounding is monotone: a larger numerator never rounds to a smaller integer. */
  lemma RoundMono(a: int, b: int, den: int)
    requires den > 0 && a <= b
    ensures Round(a, den) <= Round(b, den)
  {
    var qa, qb := Round(a, den), Round(b, den);
    assert qa * den < qb * den + den;
    Arith.MulCancel(qa, qb, den);
  }

  /** Snapping is monotone: a larger raw value never snaps to a smaller grid line. */
  lemma SnapMono(a: int, b: int, cell: int)
    requires cell > 0 && a <= b
    ensures Snap(a, cell) <= Snap(b, cell)
  {
    RoundMono(a - cell, b - cell, cell);
    Arith.MulMonotone(Round(a - cell, cell), Round(b - cell, cell), cell);
  }

  /** Snapping a value already on the grid leaves it where it is. */
  lemma SnapFixesGrid(v: int, cell: int)
    requires cell > 0 && OnGrid(v, cell)
    ensures Snap(v, cell) == v
  {
    SnapNearest(v, cell, v);
  }

  /** `Math.max(lo, Math.min(v, hi))`: the lower bound wins when the bounds cross. */
  function Clamp(v: int, lo: int, hi: int): (r: int)
    ensures r >= lo
    ensures lo <= hi ==> lo <= r <= hi
    ensures hi < lo ==> r == lo
    ensures lo <= v <= hi ==> r == v
    ensures lo <= hi && v < lo ==> r == lo
    ensures lo <= hi && hi < v ==> r == hi
  {
    var m := if v < hi then v else hi;
    if lo > m then lo else m
  }

  /** Where one axis of a dropped block lands: snapped to the grid, then clamped to [cell, hi]. */
  function Land(raw: int, cell: int, hi: int): (r: int)
    requires cell > 0
    ensures r >= cell
    ensures cell <= hi ==> r <= hi
    ensures cell <= raw <= hi ==> -cell < 2 * (r - raw) <= cell
  {
    Clamp(Snap(raw, cell), cell, hi)
  }

  /**
   * A landed coordinate is never before the first grid line, never past hi when hi
   * leaves room, and is on the grid unless it was pushed back to hi.
   */
  lemma LandInBounds(raw: int, cell: int, hi: int)
    requires cell > 0
    ensures Land(raw, cell, hi) >= cell
    ensures cell <= hi ==> Land(raw, cell, hi) <= hi
    ensures OnGrid(Land(raw, cell, hi), cell) || Land(raw, cell, hi) == hi
  {
    SnapOnGrid(raw, cell);
    assert OnGrid(cell, cell);
  }

  /** Dropping a block on a grid position inside the bounds leaves it there. */
  lemma LandFixesGridInBounds(v: int, cell: int, hi: int)
    requires cell > 0 && OnGrid(v, cell) && cell <= v <= hi
    ensures Land(v, cell, hi) == v
  {
    SnapFixesGrid(v, cell);
  }

  /**
   * Dropping a block again where it landed after a release inside the bounds leaves
   * it there: inside the bounds, landing is idempotent.
   */
  lemma LandIdempotentInBounds(p: int, cell: int, hi: int)
    requires cell > 0 && cell <= p <= hi
    ensures Land(Land(p, cell, hi), cell, hi) == Land(p, cell, hi)
  {
    var s := Snap(p, cell);
    SnapOnGrid(p, cell);
    if s > hi {
      SnapMono(p, hi, cell);
    } else {
      assert OnGrid(cell, cell);
      LandFixesGridInBounds(Land(p, cell, hi), cell, hi);
    }
  }

  /**
   * Landing is not idempotent when hi is off the grid: a block pushed back to hi
   * moves again when it is dropped where it stands.
   */
  lemma LandNotIdempotentAtOffGridEdge()
    ensures Land(27, 10, 24) == 24
    ensures Land(Land(27, 10, 24), 10, 24) == 20
  {
    RoundUnique(17, 10, 2);
    RoundUnique(14, 10, 1);
  }

  /**
   * One component of a hint direction: 0 when the difference is within tolerance,
   * otherwise the sign of the difference (target minus current).
   */
  function HintAxis(diff: int, tolerance: nat): (r: int)
    ensures r == -1 || r == 0 || r == 1
    ensures r == 0 <==> Abs(diff) <= tolerance
    ensures r == 1 <==> diff > tolerance
    ensures r == -1 <==> diff + tolerance < 0
  {
    Sign(if Abs(diff) <= tolerance then 0 else diff)
  }
}
