/**
 * Sign facts about products and quotients of reals. Each lemma takes the
 * product it talks about as an extra parameter tied to the factors by an
 * equality, so callers name a product once and reason about it linearly.
 */
module RealArith {

  lemma ProductPos(a: real, b: real, p: real)
    requires a > 0.0 && b > 0.0 && p == a * b
    ensures p > 0.0
  {
  }

  lemma ProductNonNeg(a: real, b: real, p: real)
    requires !(a < 0.0) && !(b < 0.0) && p == a * b
    ensures !(p < 0.0)
  {
  }

  lemma QuotientPos(a: real, b: real, q: real)
    requires a > 0.0 && b > 0.0 && q == a / b
    ensures q > 0.0
  {
  }

  lemma QuotientNonNeg(a: real, b: real, q: real)
    requires !(a < 0.0) && b > 0.0 && q == a / b
    ensures !(q < 0.0)
  {
  }

  lemma SquarePos(a: real, sq: real)
    requires (a < 0.0 || a > 0.0) && sq == a * a
    ensures sq > 0.0
  {
    if a < 0.0 {
      ProductPos(-a, -a, sq);
    } else {
      ProductPos(a, a, sq);
    }
  }

  lemma SquareNonNeg(a: real, sq: real)
    requires sq == a * a
    ensures !(sq < 0.0)
  {
    if a < 0.0 {
      ProductNonNeg(-a, -a, sq);
    } else {
      ProductNonNeg(a, a, sq);
    }
  }

  /** k*x^2 + m*v^2 is positive for positive weights unless x = v = 0. */
  lemma WeightedSquaresPos(k: real, m: real, x: real, v: real, e: real)
    requires k > 0.0 && m > 0.0 && (x < 0.0 || x > 0.0 || v < 0.0 || v > 0.0)
    requires e == k * (x * x) + m * (v * v)
    ensures e > 0.0
  {
    var xx, vv := x * x, v * v;
    SquareNonNeg(x, xx);
    SquareNonNeg(v, vv);
    var p, q := k * xx, m * vv;
    ProductNonNeg(k, xx, p);
    ProductNonNeg(m, vv, q);
    if x < 0.0 || x > 0.0 {
      SquarePos(x, xx);
      ProductPos(k, xx, p);
    } else {
      SquarePos(v, vv);
      ProductPos(m, vv, q);
    }
    assert e == p + q;
  }

  /** a^2 + b^2 + c^2 is positive unless a = b = c = 0. */
  lemma SquaresSumPos(a: real, b: real, c: real, d: real)
    requires a < 0.0 || a > 0.0 || b < 0.0 || b > 0.0 || c < 0.0 || c > 0.0
    requires d == a * a + b * b + c * c
    ensures d > 0.0
  {
    var aa, bb, cc := a * a, b * b, c * c;
    SquareNonNeg(a, aa);
    SquareNonNeg(b, bb);
    SquareNonNeg(c, cc);
    if a < 0.0 || a > 0.0 {
      SquarePos(a, aa);
    } else if b < 0.0 || b > 0.0 {
      SquarePos(b, bb);
    } else {
      SquarePos(c, cc);
    }
  }

  /** A non-zero multiple of a non-zero triple is non-zero. */
  lemma ScaledNonZero(c: real, x: real, y: real, z: real)
    requires c != 0.0 && (x != 0.0 || y != 0.0 || z != 0.0)
    ensures c * x != 0.0 || c * y != 0.0 || c * z != 0.0
  {
    if x != 0.0 {
      assert (c * x) / c == x;
    } else if y != 0.0 {
      assert (c * y) / c == y;
    } else {
      assert (c * z) / c == z;
    }
  }

  /** A non-zero real has a non-zero square and cube. */
  lemma PowersNonZero(r: real)
    requires r != 0.0
    ensures r * r != 0.0 && r * r * r != 0.0
  {
    SquarePos(r, r * r);
    if r > 0.0 {
      ProductPos(r * r, r, r * r * r);
    } else {
      ProductPos(r * r, -r, -(r * r * r));
    }
  }
}
