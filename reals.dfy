/** Small facts about products of reals. Each names its product (`p == a * b`)
    so that the inequalities it states are linear in the names. */
module RealArith {

  lemma CancelFactor(a: real, b: real, d: real)
    requires d != 0.0 && a * d == b * d
    ensures a == b
  {
    assert (a - b) * d == 0.0;
  }

  lemma ProductPositive(a: real, b: real, p: real)
    requires p == a * b && a > 0.0 && b > 0.0
    ensures p > 0.0
  {
  }

  lemma ProductAtMost(a: real, b: real, c: real, p: real, p': real)
    requires p == a * c && p' == b * c && a <= b && c >= 0.0
    ensures p <= p'
  {
  }

  lemma ProductLess(a: real, b: real, c: real, p: real, p': real)
    requires p == a * c && p' == b * c && a < b && c > 0.0
    ensures p < p'
  {
  }

  /** A product is positive exactly when both factors are non-zero and of one sign. */
  lemma ProductPositiveIff(a: real, b: real, p: real)
    requires p == a * b
    ensures p > 0.0 <==> (a > 0.0 && b > 0.0) || (a < 0.0 && b < 0.0)
  {
    if a > 0.0 && b > 0.0 {
      ProductPositive(a, b, p);
    } else if a < 0.0 && b < 0.0 {
      ProductPositive(-a, -b, p);
    } else if a > 0.0 && b < 0.0 {
      ProductPositive(a, -b, -p);
    } else if a < 0.0 && b > 0.0 {
      ProductPositive(-a, b, -p);
    } else {
      assert a == 0.0 || b == 0.0;
    }
  }

  /** A square is non-negative, and positive unless its root is zero. */
  lemma SquareSign(a: real, p: real)
    requires p == a * a
    ensures p >= 0.0
    ensures a != 0.0 ==> p > 0.0
  {
    ProductPositiveIff(a, a, p);
  }

  lemma SquareLess(q: real, m: real, qq: real, mm: real)
    requires qq == q * q && mm == m * m && 0.0 <= q < m
    ensures qq < mm
  {
    var qm := q * m;
    ProductAtMost(q, m, q, qq, qm);
    ProductLess(q, m, m, qm, mm);
  }

  /** Two non-negative reals with equal squares are equal. */
  lemma RootUnique(q: real, m: real)
    requires 0.0 <= q && 0.0 <= m && q * q == m * m
    ensures q == m
  {
    if q < m {
      SquareLess(q, m, q * q, m * m);
    } else if m < q {
      SquareLess(m, q, m * m, q * q);
    }
  }

  lemma DivThenMul(a: real, r: real)
    requires r != 0.0
    ensures (a / r) * r == a
  {
  }

  /** A vector (x0, y0) of length r, scaled by k / r to (x, y), has length k. */
  lemma ScaledByRatio(x: real, y: real, x0: real, y0: real, r: real, k: real)
    requires r > 0.0 && x * r == x0 * k && y * r == y0 * k
    requires x0 * x0 + y0 * y0 == r * r
    ensures x * x + y * y == k * k
  {
    var rr, kk := r * r, k * k;
    ProductPositive(r, r, rr);
    assert (x * x) * rr == (x0 * x0) * kk by {
      assert (x * r) * (x * r) == (x0 * k) * (x0 * k);
    }
    assert (y * y) * rr == (y0 * y0) * kk by {
      assert (y * r) * (y * r) == (y0 * k) * (y0 * k);
    }
    assert (x * x + y * y) * rr == kk * rr;
    CancelFactor(x * x + y * y, kk, rr);
  }

  /** Cramer's rule, checked: the parameters s and t it gives for the system
      t * d1 - s * d2 == -p solve it. */
  lemma CramerSolves(d1x: real, d1y: real, d2x: real, d2y: real, px: real, py: real, s: real, t: real)
    requires d1x * d2y - d2x * d1y != 0.0
    requires s * (d1x * d2y - d2x * d1y) == d1x * py - d1y * px
    requires t * (d1x * d2y - d2x * d1y) == d2x * py - d2y * px
    ensures t * d1x - s * d2x == -px && t * d1y - s * d2y == -py
  {
    var d := d1x * d2y - d2x * d1y;
    var a, b := s * d, t * d;
    assert (t * d1x - s * d2x) * d == b * d1x - a * d2x;
    assert b * d1x - a * d2x == -px * d;
    CancelFactor(t * d1x - s * d2x, -px, d);
    assert (t * d1y - s * d2y) * d == b * d1y - a * d2y;
    assert b * d1y - a * d2y == -py * d;
    CancelFactor(t * d1y - s * d2y, -py, d);
  }
}
