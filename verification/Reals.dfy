/** Division facts the solver needs spelled out. */
module Reals {

  /** What is assumed of a square root passed as a parameter. */
  ghost predicate IsSqrt(sqrt: real -> real) {
    forall x | x >= 0.0 :: sqrt(x) >= 0.0 && sqrt(x) * sqrt(x) == x
  }

  /** x / d; the caller has already excluded d == 0. */
  function Ratio(x: real, d: real): real {
    if d == 0.0 then 0.0 else x / d
  }

  /** A product the solver is to treat as a name. */
  function Times(x: real, y: real): real {
    x * y
  }

  lemma Cancel(a: real, b: real, c: real)
    requires c != 0.0 && a * c == b * c
    ensures a == b
  {
    assert (a - b) * c == 0.0;
  }

  lemma QuotientOrder(p: real, q: real, r: real, s: real)
    requires q > 0.0 && s > 0.0 && p * s <= r * q
    ensures p / q <= r / s
  {
    var u, v := p / q, r / s;
    assert u * q == p && v * s == r;
    assert (u - v) * (q * s) == (u * q) * s - (v * s) * q;
  }

  /** The two parts of a whole make up one. */
  lemma ShareOfWhole(part: real, whole: real)
    requires whole != 0.0
    ensures (whole - part) / whole == 1.0 - part / whole
  {
    var u, v := (whole - part) / whole, part / whole;
    assert u * whole == whole - part && v * whole == part;
    assert (1.0 - v) * whole == whole - part;
    Cancel(u, 1.0 - v, whole);
  }

  lemma ProductPositive(a: real, b: real)
    requires a > 0.0 && b > 0.0
    ensures a * b > 0.0
  {
  }

  lemma PositiveSquare(s: real, w: real)
    requires s != 0.0 && w == s * s
    ensures w > 0.0
  {
    if s > 0.0 {
      PositiveProduct(s, s, w);
    } else {
      PositiveProduct(-s, -s, w);
    }
  }

  lemma PositiveProduct(a: real, b: real, w: real)
    requires a > 0.0 && b > 0.0 && w == a * b
    ensures w > 0.0
  {
    ProductPositive(a, b);
  }

  lemma DivideOrder(u: real, v: real, w: real)
    requires w > 0.0 && u * w <= v * w
    ensures u <= v
  {
    if u > v {
      ProductPositive(u - v, w);
    }
  }

  lemma SquareOrder(x: real, y: real)
    requires x > y >= 0.0
    ensures x * x > y * y
  {
    ProductPositive(x - y, x + y);
    assert (x - y) * (x + y) == x * x - y * y;
  }

  lemma RootOrder(x: real, y: real)
    requires y >= 0.0 && x * x <= y * y
    ensures x <= y
  {
    if x > y {
      SquareOrder(x, y);
    }
  }

  lemma SquareNonNegative(x: real)
    ensures x * x >= 0.0
  {
  }

  lemma MaxScaled(x: real, y: real, w: real)
    requires w > 0.0
    ensures (if y > x then y else x) * w == if y * w > x * w then y * w else x * w
  {
    if y > x {
      ProductPositive(y - x, w);
    } else if y < x {
      ProductPositive(x - y, w);
    }
  }

  /** x / d < y / d exactly when x < y. */
  lemma RatioLess(x: real, y: real, d: real)
    requires d > 0.0
    ensures Ratio(x, d) < Ratio(y, d) <==> x < y
  {
    var u, v := x / d, y / d;
    assert u * d == x && v * d == y;
    if u < v {
      ProductPositive(v - u, d);
    } else if u > v {
      ProductPositive(u - v, d);
    }
  }

  lemma RatioTimes(x: real, d: real)
    requires d != 0.0
    ensures Ratio(x, d) * d == x
  {
  }

}
