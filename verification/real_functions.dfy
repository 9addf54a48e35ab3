/** The two transcendental functions the mask builder calls, `sigmoid` and
    `sqrt`, are not defined here. Every operation that needs one takes it as a
    parameter, and the predicates below state the only facts the model may
    assume about it. Anything proved from them holds for every function that
    satisfies them, the true sigmoid and square root included.
 */
module RealFunctions {

  /** A logistic-like squashing function: every value lies strictly between 0
      and 1, and a larger argument never gives a smaller value. */
  ghost predicate IsSigmoid(sigmoid: real -> real) {
    && (forall t :: 0.0 < sigmoid(t) < 1.0)
    && (forall a, b :: a <= b ==> sigmoid(a) <= sigmoid(b))
  }

  /** The non-negative square root on the non-negative reals. */
  ghost predicate IsSqrt(sqrt: real -> real) {
    forall x :: 0.0 <= x ==> 0.0 <= sqrt(x) && sqrt(x) * sqrt(x) == x
  }

  /** Squaring is strictly monotone on the non-negative reals. */
  lemma SquareStrictMonotone(x: real, y: real)
    requires 0.0 <= x < y
    ensures x * x < y * y
  {
    calc {
      x * x;
    <= { assert x * x <= x * y; }
      x * y;
    < { assert x * y < y * y; }
      y * y;
    }
  }

  /** A square root is monotone: it preserves the order of its arguments. */
  lemma SqrtMonotone(sqrt: real -> real, a: real, b: real)
    requires IsSqrt(sqrt)
    requires 0.0 <= a <= b
    ensures sqrt(a) <= sqrt(b)
  {
    assert 0.0 <= sqrt(a) && sqrt(a) * sqrt(a) == a;
    assert 0.0 <= sqrt(b) && sqrt(b) * sqrt(b) == b;
    if sqrt(b) < sqrt(a) {
      SquareStrictMonotone(sqrt(b), sqrt(a));
      assert false;
    }
  }

  /** The root is zero exactly at zero, so it is positive on positive reals. */
  lemma SqrtZeroIff(sqrt: real -> real, x: real)
    requires IsSqrt(sqrt)
    requires 0.0 <= x
    ensures sqrt(x) == 0.0 <==> x == 0.0
    ensures 0.0 < x ==> 0.0 < sqrt(x)
  {
    assert 0.0 <= sqrt(x) && sqrt(x) * sqrt(x) == x;
    if 0.0 < sqrt(x) {
      SquareStrictMonotone(0.0, sqrt(x));
    }
  }

  /** The ratio of the roots of `a` and `b`, for `0 <= a <= b` and `b` not
      zero, lies in [0, 1]; it is 0 exactly when `a` is and 1 exactly when
      `a == b`. */
  lemma SqrtRatio(sqrt: real -> real, a: real, b: real)
    requires IsSqrt(sqrt)
    requires 0.0 <= a <= b && 0.0 < b
    ensures 0.0 < sqrt(b)
    ensures 0.0 <= sqrt(a) / sqrt(b) <= 1.0
    ensures sqrt(a) / sqrt(b) == 0.0 <==> a == 0.0
    ensures sqrt(a) / sqrt(b) == 1.0 <==> a == b
  {
    SqrtMonotone(sqrt, a, b);
    SqrtZeroIff(sqrt, a);
    SqrtZeroIff(sqrt, b);
    var ra, rb := sqrt(a), sqrt(b);
    assert ra / rb * rb == ra;
    if ra / rb == 1.0 {
      assert ra == rb;
      assert a == ra * ra == rb * rb == b;
    }
  }

  /** Dividing roots by one common positive root preserves their order. */
  lemma SqrtRatioMonotone(sqrt: real -> real, a1: real, a2: real, b: real)
    requires IsSqrt(sqrt)
    requires 0.0 <= a1 <= a2 && 0.0 < b
    ensures sqrt(a1) / sqrt(b) <= sqrt(a2) / sqrt(b)
  {
    SqrtMonotone(sqrt, a1, a2);
    SqrtZeroIff(sqrt, b);
    var r1, r2, rb := sqrt(a1), sqrt(a2), sqrt(b);
    assert r2 / rb - r1 / rb == (r2 - r1) / rb;
  }

  /** The root of a square is the non-negative base. */
  lemma SqrtOfSquare(sqrt: real -> real, x: real, c: real)
    requires IsSqrt(sqrt)
    requires 0.0 <= c && x == c * c
    ensures sqrt(x) == c
  {
    var r := sqrt(x);
    assert 0.0 <= r && r * r == c * c;
    if r < c {
      SquareStrictMonotone(r, c);
    } else if c < r {
      SquareStrictMonotone(c, r);
    }
  }

  /** A ratio of roots equals a non-negative `c` exactly when the ratio of
      the radicands is `c²`. */
  lemma SqrtRatioSquares(sqrt: real -> real, a: real, b: real, c: real)
    requires IsSqrt(sqrt)
    requires 0.0 <= a && 0.0 < b && 0.0 <= c
    ensures sqrt(a) / sqrt(b) == c <==> a == c * c * b
  {
    SqrtZeroIff(sqrt, b);
    var ra, rb := sqrt(a), sqrt(b);
    if ra / rb == c {
      assert ra == c * rb by {
        assert ra / rb * rb == ra;
      }
      calc {
        a;
        ra * ra;
        (c * rb) * (c * rb);
        c * c * (rb * rb);
        c * c * b;
      }
    }
    if a == c * c * b {
      assert 0.0 <= c * rb;
      assert a == (c * rb) * (c * rb);
      SqrtOfSquare(sqrt, a, c * rb);
      assert ra / rb == c * rb / rb == c;
    }
  }
}
