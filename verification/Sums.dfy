/** Finite sums of real terms over an integer range. The laws take their terms' relation as a
    hypothesis, so that callers never compare functions. */
module Sums {
  import opened Reals

  function Sum(f: int -> real, lo: int, hi: int): real
    requires lo <= hi
    decreases hi - lo
  {
    if lo == hi then 0.0 else Sum(f, lo, hi - 1) + f(hi - 1)
  }

  lemma {:induction false} SumSame(f: int -> real, g: int -> real, lo: int, hi: int)
    requires lo <= hi && forall i | lo <= i < hi :: f(i) == g(i)
    ensures Sum(f, lo, hi) == Sum(g, lo, hi)
    decreases hi - lo
  {
    if lo < hi {
      SumSame(f, g, lo, hi - 1);
    }
  }

  lemma {:induction false} SumAdd(f: int -> real, g: int -> real, h: int -> real, lo: int, hi: int)
    requires lo <= hi && forall i | lo <= i < hi :: h(i) == f(i) + g(i)
    ensures Sum(h, lo, hi) == Sum(f, lo, hi) + Sum(g, lo, hi)
    decreases hi - lo
  {
    if lo < hi {
      SumAdd(f, g, h, lo, hi - 1);
    }
  }

  lemma {:induction false} SumScale(c: real, f: int -> real, h: int -> real, lo: int, hi: int)
    requires lo <= hi && forall i | lo <= i < hi :: h(i) == c * f(i)
    ensures Sum(h, lo, hi) == c * Sum(f, lo, hi)
    decreases hi - lo
  {
    if lo < hi {
      SumScale(c, f, h, lo, hi - 1);
    }
  }

  lemma {:induction false} SumShift(f: int -> real, g: int -> real, lo: int, hi: int, d: int)
    requires lo <= hi && forall i | lo <= i < hi :: g(i) == f(i + d)
    ensures Sum(g, lo, hi) == Sum(f, lo + d, hi + d)
    decreases hi - lo
  {
    if lo < hi {
      SumShift(f, g, lo, hi - 1, d);
    }
  }

  lemma {:induction false} SumSplit(f: int -> real, lo: int, mid: int, hi: int)
    requires lo <= mid <= hi
    ensures Sum(f, lo, hi) == Sum(f, lo, mid) + Sum(f, mid, hi)
    decreases hi - mid
  {
    if mid < hi {
      SumSplit(f, lo, mid, hi - 1);
    }
  }

  lemma {:induction false} SumZero(f: int -> real, lo: int, hi: int)
    requires lo <= hi && forall i | lo <= i < hi :: f(i) == 0.0
    ensures Sum(f, lo, hi) == 0.0
    decreases hi - lo
  {
    if lo < hi {
      SumZero(f, lo, hi - 1);
    }
  }

  lemma {:induction false} SumNonNegative(f: int -> real, lo: int, hi: int)
    requires lo <= hi && forall i | lo <= i < hi :: f(i) >= 0.0
    ensures Sum(f, lo, hi) >= 0.0
    decreases hi - lo
  {
    if lo < hi {
      SumNonNegative(f, lo, hi - 1);
    }
  }

  lemma {:induction false} SumMonotone(f: int -> real, g: int -> real, lo: int, hi: int)
    requires lo <= hi && forall i | lo <= i < hi :: f(i) <= g(i)
    ensures Sum(f, lo, hi) <= Sum(g, lo, hi)
    decreases hi - lo
  {
    if lo < hi {
      SumMonotone(f, g, lo, hi - 1);
    }
  }

  lemma {:induction false} SumConstant(f: int -> real, c: real, lo: int, hi: int)
    requires lo <= hi && forall i | lo <= i < hi :: f(i) == c
    ensures Sum(f, lo, hi) == (hi - lo) as real * c
    decreases hi - lo
  {
    if lo < hi {
      SumConstant(f, c, lo, hi - 1);
    }
  }

  /** A non-negative sum vanishes only if every term does. */
  lemma {:induction false} SumZeroTerms(f: int -> real, lo: int, hi: int, i: int)
    requires lo <= i < hi && (forall k | lo <= k < hi :: f(k) >= 0.0)
    requires Sum(f, lo, hi) == 0.0
    ensures f(i) == 0.0
    decreases hi - lo
  {
    SumNonNegative(f, lo, hi - 1);
    if i < hi - 1 {
      SumZeroTerms(f, lo, hi - 1, i);
    }
  }

  /** Two term functions that differ at one place only. */
  lemma {:induction false} SumOneMore(f: int -> real, g: int -> real, p: int, lo: int, hi: int)
    requires lo <= hi && forall i | lo <= i < hi && i != p :: f(i) == g(i)
    ensures Sum(g, lo, hi) == Sum(f, lo, hi) + if lo <= p < hi then g(p) - f(p) else 0.0
    decreases hi - lo
  {
    if lo < hi {
      SumOneMore(f, g, p, lo, hi - 1);
    }
  }

  /** Terms that vanish outside [a, b) may be summed over any larger range. */
  lemma {:induction false} SumSupport(f: int -> real, lo: int, a: int, b: int, hi: int)
    requires lo <= a <= b <= hi
    requires forall i | lo <= i < hi && !(a <= i < b) :: f(i) == 0.0
    ensures Sum(f, lo, hi) == Sum(f, a, b)
  {
    SumSplit(f, lo, a, hi);
    SumSplit(f, a, b, hi);
    SumZero(f, lo, a);
    SumZero(f, b, hi);
  }

  // ----- double sums

  function Row(f: (int, int) -> real, i: int, n: nat): real {
    Sum(j => f(i, j), 0, n)
  }

  function Sum2(f: (int, int) -> real, n: nat): real {
    Sum(i => Row(f, i, n), 0, n)
  }

  lemma {:induction false} Sum2Add(f: (int, int) -> real, g: (int, int) -> real, h: (int, int) -> real, n: nat)
    requires forall i, j | 0 <= i < n && 0 <= j < n :: h(i, j) == f(i, j) + g(i, j)
    ensures Sum2(h, n) == Sum2(f, n) + Sum2(g, n)
  {
    forall i | 0 <= i < n ensures Row(h, i, n) == Row(f, i, n) + Row(g, i, n) {
      SumAdd(j => f(i, j), j => g(i, j), j => h(i, j), 0, n);
    }
    SumAdd(i => Row(f, i, n), i => Row(g, i, n), i => Row(h, i, n), 0, n);
  }

  lemma {:induction false} Sum2Same(f: (int, int) -> real, g: (int, int) -> real, n: nat)
    requires forall i, j | 0 <= i < n && 0 <= j < n :: f(i, j) == g(i, j)
    ensures Sum2(f, n) == Sum2(g, n)
  {
    forall i | 0 <= i < n ensures Row(f, i, n) == Row(g, i, n) {
      SumSame(j => f(i, j), j => g(i, j), 0, n);
    }
    SumSame(i => Row(f, i, n), i => Row(g, i, n), 0, n);
  }

  lemma {:induction false} Sum2Monotone(f: (int, int) -> real, g: (int, int) -> real, n: nat)
    requires forall i, j | 0 <= i < n && 0 <= j < n :: f(i, j) <= g(i, j)
    ensures Sum2(f, n) <= Sum2(g, n)
  {
    forall i | 0 <= i < n ensures Row(f, i, n) <= Row(g, i, n) {
      SumMonotone(j => f(i, j), j => g(i, j), 0, n);
    }
    SumMonotone(i => Row(f, i, n), i => Row(g, i, n), 0, n);
  }

  lemma {:induction false} RowScale(b: int -> real, f: (int, int) -> real, i: int, n: nat)
    requires forall j | 0 <= j < n :: f(i, j) == b(i) * b(j)
    ensures Row(f, i, n) == Sum(b, 0, n) * b(i)
  {
    SumScale(b(i), b, j => f(i, j), 0, n);
  }

  /** A rank-one double sum is a square. */
  lemma {:induction false} Sum2Square(b: int -> real, f: (int, int) -> real, n: nat)
    requires forall i, j | 0 <= i < n && 0 <= j < n :: f(i, j) == b(i) * b(j)
    ensures Sum2(f, n) == Sum(b, 0, n) * Sum(b, 0, n)
  {
    hide Row, Sum;
    var total := Sum(b, 0, n);
    var rows: int -> real := i => Row(f, i, n);
    forall i | 0 <= i < n ensures rows(i) == total * b(i) {
      RowScale(b, f, i, n);
    }
    SumScale(total, b, rows, 0, n);
    assert Sum2(f, n) == Sum(rows, 0, n);
  }

  /** A double sum with terms on the diagonal only. */
  lemma {:induction false} Sum2Diagonal(d: int -> real, f: (int, int) -> real, n: nat)
    requires forall i, j | 0 <= i < n && 0 <= j < n :: f(i, j) == if i == j then d(i) else 0.0
    ensures Sum2(f, n) == Sum(d, 0, n)
  {
    forall i | 0 <= i < n ensures Row(f, i, n) == d(i) {
      var zero: int -> real := j => 0.0;
      SumOneMore(zero, j => f(i, j), i, 0, n);
      SumZero(zero, 0, n);
    }
    SumSame(i => Row(f, i, n), d, 0, n);
  }

  // ----- Cauchy-Schwarz

  lemma CauchyStep(s: real, a: real, b: real, x: real, y: real)
    requires a >= 0.0 && b >= 0.0 && s * s <= a * b
    ensures (s + x * y) * (s + x * y) <= (a + x * x) * (b + y * y)
  {
    var p, q := a * (y * y), b * (x * x);
    assert y * y >= 0.0 && x * x >= 0.0;
    assert p >= 0.0 && q >= 0.0;
    var t := s * (x * y);
    assert t * t <= p * q by {
      assert t * t == (s * s) * ((x * x) * (y * y));
      assert p * q == (a * b) * ((x * x) * (y * y));
    }
    GeometricMean(t, p, q);
    assert (s + x * y) * (s + x * y) == s * s + 2.0 * t + (x * x) * (y * y);
    assert (a + x * x) * (b + y * y) == a * b + p + q + (x * x) * (y * y);
  }

  lemma GeometricMean(t: real, p: real, q: real)
    requires p >= 0.0 && q >= 0.0 && t * t <= p * q
    ensures 2.0 * t <= p + q
  {
    var m := p + q;
    assert m * m - 4.0 * (p * q) == (p - q) * (p - q) >= 0.0;
    RootOrder(2.0 * t, m);
  }

  lemma {:induction false} CauchySchwarz(f: int -> real, g: int -> real,
                                         fg: int -> real, ff: int -> real, gg: int -> real, n: nat)
    requires forall i | 0 <= i < n :: fg(i) == f(i) * g(i) && ff(i) == f(i) * f(i) && gg(i) == g(i) * g(i)
    ensures Sum(fg, 0, n) * Sum(fg, 0, n) <= Sum(ff, 0, n) * Sum(gg, 0, n)
    decreases n
  {
    if n > 0 {
      CauchySchwarz(f, g, fg, ff, gg, n - 1);
      SumNonNegative(ff, 0, n - 1) by { SquaresNonNegative(f, ff, n); }
      SumNonNegative(gg, 0, n - 1) by { SquaresNonNegative(g, gg, n); }
      CauchyStep(Sum(fg, 0, n - 1), Sum(ff, 0, n - 1), Sum(gg, 0, n - 1), f(n - 1), g(n - 1));
    }
  }

  lemma SquaresNonNegative(f: int -> real, ff: int -> real, n: nat)
    requires forall i | 0 <= i < n :: ff(i) == f(i) * f(i)
    ensures forall i | 0 <= i < n :: ff(i) >= 0.0
  {
    forall i | 0 <= i < n ensures ff(i) >= 0.0 {
      SquareNonNegative(f(i));
    }
  }
}
