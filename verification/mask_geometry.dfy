/** Integer geometry of the mask grid: the center cell, per-cell offsets from
    it, and squared distances. Everything here is exact integer arithmetic;
    the square root and the division that turn a squared distance into a
    normalized radius live in the FrequencyBandSplit module.
 */
module MaskGeometry {

  /** Center index along an axis of `n` cells (integer halving, `n // 2`):
      the half of `n` rounded down, which is a cell of every non-empty axis. */
  function Center(n: nat): (c: nat)
    ensures 2 * c <= n <= 2 * c + 1
    ensures 0 < n ==> c < n
  {
    n / 2
  }

  /** Signed offset of index `i` from the center of its axis. Inside the
      axis it never exceeds the center index in absolute value. */
  function Offset(i: nat, n: nat): (k: int)
    ensures i < n ==> -(Center(n) as int) <= k <= Center(n)
  {
    i - Center(n)
  }

  function Square(k: int): nat {
    if k < 0 then (-k) * (-k) else k * k
  }

  /** A cell `(y, x)` of an `h`-by-`w` grid. */
  predicate InGrid(h: nat, w: nat, y: nat, x: nat) {
    y < h && x < w
  }

  predicate IsCenter(h: nat, w: nat, y: nat, x: nat) {
    y == Center(h) && x == Center(w)
  }

  /** Squared Euclidean distance of cell `(y, x)` from the center. It
      vanishes at the center cell and nowhere else. */
  function DistSq(h: nat, w: nat, y: nat, x: nat): (r: nat)
    ensures r == 0 <==> IsCenter(h, w, y, x)
  {
    SquareZeroIff(Offset(y, h));
    SquareZeroIff(Offset(x, w));
    Square(Offset(x, w)) + Square(Offset(y, h))
  }

  /** Squared center-to-corner distance, `center_h² + center_w²`. It is zero
      exactly when both axes have at most one cell. */
  function MaxDistSq(h: nat, w: nat): (r: nat)
    ensures r == 0 <==> h <= 1 && w <= 1
  {
    SquareZeroIff(Center(h));
    SquareZeroIff(Center(w));
    Square(Center(h)) + Square(Center(w))
  }

  /** The normalized distance is well defined on every cell of the grid: either
      there is no cell at all, or the corner distance is not zero. */
  predicate GridDefined(h: nat, w: nat) {
    h == 0 || w == 0 || MaxDistSq(h, w) > 0
  }

  /** Squares are monotone in the absolute value, and strictly so. */
  lemma SquareMonotone(k: int, b: nat)
    requires -(b as int) <= k <= b
    ensures Square(k) <= Square(b)
    ensures Square(k) == Square(b) <==> (k == b || k == -(b as int))
  {
    var a: nat := if k < 0 then -k else k;
    assert Square(k) == a * a;
    assert a <= b;
    if a < b {
      calc {
        a * a;
      <= { assert a * a <= a * b; }
        a * b;
      < { assert a * b < b * b; }
        b * b;
      }
    }
  }

  /** The offset reaches the center index in absolute value only at the
      axis' ends: at index 0, and at index `n - 1` when `n` is odd. */
  lemma OffsetBounded(i: nat, n: nat)
    requires i < n
    ensures Offset(i, n) == -(Center(n) as int) <==> i == 0
    ensures Offset(i, n) == Center(n) <==> i == 2 * Center(n)
  {
  }

  /** No cell of the grid is farther from the center than the corner, so the
      normalized distance never exceeds 1. */
  lemma DistSqBounded(h: nat, w: nat, y: nat, x: nat)
    requires InGrid(h, w, y, x)
    ensures DistSq(h, w, y, x) <= MaxDistSq(h, w)
  {
    SquareMonotone(Offset(y, h), Center(h));
    SquareMonotone(Offset(x, w), Center(w));
  }

  /** The cells at maximal distance are exactly the grid's corners that lie a
      full center index away on both axes: row 0 (and row `h - 1` when `h` is
      odd), and likewise for columns. */
  lemma DistSqMaxIff(h: nat, w: nat, y: nat, x: nat)
    requires InGrid(h, w, y, x)
    ensures DistSq(h, w, y, x) == MaxDistSq(h, w)
            <==> (y == 0 || y == 2 * Center(h)) && (x == 0 || x == 2 * Center(w))
  {
    OffsetBounded(y, h);
    OffsetBounded(x, w);
    SquareMonotone(Offset(y, h), Center(h));
    SquareMonotone(Offset(x, w), Center(w));
  }

  lemma SquareZeroIff(k: int)
    ensures Square(k) == 0 <==> k == 0
  {
    if k != 0 {
      SquareMonotone(0, if k < 0 then -k else k);
    }
  }

  /** The center cell lies inside every non-empty grid. */
  lemma CenterInGrid(h: nat, w: nat)
    requires 0 < h && 0 < w
    ensures InGrid(h, w, Center(h), Center(w))
    ensures DistSq(h, w, Center(h), Center(w)) == 0
  {
  }

  /** The only non-empty grid on which the normalization divides by a zero
      corner distance is the 1-by-1 grid. */
  lemma GridDefinedIff(h: nat, w: nat)
    ensures GridDefined(h, w) <==> !(h == 1 && w == 1)
  {
  }
}
