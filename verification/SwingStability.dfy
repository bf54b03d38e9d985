/** Swings never repaint: what detection sees on a prefix is exactly the confirmed part of
    what it sees on the whole series (strategy/bias_4h.py, detect_swings). */
module SwingStability {
  import opened Market
  import opened Bias4H

  function SwingsBefore(s: seq<Swing>, n: int): seq<Swing> {
    if s == [] then [] else
    SwingsBefore(s[..|s| - 1], n) + if s[|s| - 1].endIndex < n then [s[|s| - 1]] else []
  }

  lemma {:induction false} SwingsBeforeAppend(a: seq<Swing>, b: seq<Swing>, n: int)
    ensures SwingsBefore(a + b, n) == SwingsBefore(a, n) + SwingsBefore(b, n)
    decreases |b|
  {
    if b == [] {
      assert a + b == a;
    } else {
      assert (a + b)[..|a + b| - 1] == a + b[..|b| - 1];
      SwingsBeforeAppend(a, b[..|b| - 1], n);
    }
  }

  lemma {:induction false} SwingsBeforeUniform(s: seq<Swing>, n: int)
    ensures (forall k | 0 <= k < |s| :: s[k].endIndex < n) ==> SwingsBefore(s, n) == s
    ensures (forall k | 0 <= k < |s| :: s[k].endIndex >= n) ==> SwingsBefore(s, n) == []
  {
    if s != [] {
      SwingsBeforeUniform(s[..|s| - 1], n);
    }
  }

  lemma FractalPrefix(cs: seq<Candle>, m: nat, i: nat, width: nat)
    requires i < m <= |cs|
    ensures IsFractalHigh(cs[..m], i, width) == (i + width < m && IsFractalHigh(cs, i, width))
    ensures IsFractalLow(cs[..m], i, width) == (i + width < m && IsFractalLow(cs, i, width))
  {
    if width <= i && i + width < m {
      ExtremesPrefix(cs, m, i - width, i + width + 1);
    }
  }

  /** How many leading bars can hold a fractal confirmed within the first m bars. */
  function Confirmable(m: nat, width: nat): nat {
    if m < width then 0 else m - width
  }

  /** The points of bar i as the first m bars show them. */
  lemma {:induction false} PointsAtPrefix(cs: seq<Candle>, m: nat, width: nat, i: nat)
    requires i < m <= |cs|
    ensures HighAt(cs[..m], width, i) == if i + width < m then HighAt(cs, width, i) else []
    ensures LowAt(cs[..m], width, i) == if i + width < m then LowAt(cs, width, i) else []
  {
    hide IsFractalHigh, IsFractalLow;
    FractalPrefix(cs, m, i, width);
  }

  lemma {:induction false} PointsPrefix(cs: seq<Candle>, m: nat, width: nat, n: nat)
    requires n <= m <= |cs|
    ensures n <= Confirmable(m, width) ==> Points(cs[..m], width, n) == Points(cs, width, n)
    ensures n > Confirmable(m, width) ==>
              Points(cs[..m], width, n) == Points(cs, width, Confirmable(m, width))
  {
    hide HighAt, LowAt;
    if n > 0 {
      PointsPrefix(cs, m, width, n - 1);
      PointsAtPrefix(cs, m, width, n - 1);
    }
  }

  lemma {:induction false} BeforeStep(a: seq<Swing>, tail: seq<Swing>, n: int, k: int)
    requires forall j | 0 <= j < |tail| :: tail[j].endIndex == k
    ensures SwingsBefore(a + tail, n) == SwingsBefore(a, n) + if k < n then tail else []
  {
    SwingsBeforeAppend(a, tail, n);
    SwingsBeforeUniform(tail, n);
  }

  /** The concatenation of the first k per-bar pieces. */
  function Flat(tails: seq<seq<Swing>>, k: nat): seq<Swing>
    requires k <= |tails|
  {
    if k == 0 then [] else Flat(tails, k - 1) + tails[k - 1]
  }

  /** Piece j holds the swings that end on bar j. */
  ghost predicate PerBar(tails: seq<seq<Swing>>) {
    forall j, i | 0 <= j < |tails| && 0 <= i < |tails[j]| :: tails[j][i].endIndex == j
  }

  lemma {:induction false} FlatBefore(tails: seq<seq<Swing>>, n: nat, k: nat)
    requires PerBar(tails) && n <= |tails| && k <= |tails|
    ensures SwingsBefore(Flat(tails, k), n) == Flat(tails, if k <= n then k else n)
  {
    if k > 0 {
      FlatBefore(tails, n, k - 1);
      BeforeStep(Flat(tails, k - 1), tails[k - 1], n, k - 1);
    }
  }

  function Tails(cs: seq<Candle>, width: nat): (r: seq<seq<Swing>>)
    ensures |r| == |cs| && PerBar(r)
    ensures forall i | 0 <= i < |cs| :: r[i] == TailAt(cs, width, i)
  {
    seq(|cs|, i requires 0 <= i < |cs| => TailAt(cs, width, i))
  }

  lemma {:induction false} FlatTails(cs: seq<Candle>, width: nat, n: nat)
    requires n <= |cs|
    ensures Flat(Tails(cs, width), n) == Legs(Points(cs, width, n))
  {
    hide TailAt, HighAt, LowAt;
    if n > 0 {
      FlatTails(cs, width, n - 1);
      LegsOfNextBar(cs, width, n - 1);
    }
  }

  /** Detection on the first m bars sees exactly the swings of the full series whose end has
      `width` bars after it within those m bars. */
  lemma {:induction false} NeverRepaints(cs: seq<Candle>, m: nat, width: nat)
    requires m <= |cs|
    ensures Swings(cs[..m], width) == SwingsBefore(Swings(cs, width), m - width)
  {
    hide TailAt, HighAt, LowAt;
    var n := Confirmable(m, width);
    assert Points(cs[..m], width, m) == Points(cs, width, n) by { PointsPrefix(cs, m, width, m); }
    FlatTails(cs, width, n);
    FlatTails(cs, width, |cs|);
    FlatBefore(Tails(cs, width), n, |cs|);
    SwingsBeforeUniform(Swings(cs, width), 0);
    SwingsBeforeUniform(Swings(cs, width), m - width);
  }
}
