/** Vocabulary shared by the models: candles, directions, biases, and the small
    arithmetic the Python built-ins provide. Prices are exact reals and times are
    integer milliseconds. */
module Market {

  datatype Option<+T> = None | Some(value: T)

  /** A call that may raise: the message stands for the exception. */
  datatype Result<+T> = Ok(value: T) | Err(error: string)

  datatype Candle = Candle(openTime: int, closeTime: int,
                           open: real, high: real, low: real, close: real, volume: real)

  datatype Bias = Bullish | Bearish | Neutral

  datatype Direction = Long | Short

  const TAKER_FEE: real := 0.00075

  function Abs(x: real): real {
    if x < 0.0 then -x else x
  }

  function Min(x: real, y: real): real {
    if y < x then y else x
  }

  function Max(x: real, y: real): real {
    if y > x then y else x
  }

  function Opposite(d: Direction): Direction {
    if d == Long then Short else Long
  }

  /** A bar whose close lies inside its own range. */
  predicate WellFormed(c: Candle) {
    c.low <= c.close <= c.high
  }

  lemma SomeElement<T>(s: set<T>) returns (x: T)
    requires s != {}
    ensures x in s
  {
    x :| x in s;
  }

  /** Close times never go back. */
  ghost predicate Chronological(cs: seq<Candle>) {
    forall i, j | 0 <= i < j < |cs| :: cs[i].closeTime <= cs[j].closeTime
  }

  /** [c.close for c in cs] */
  function Closes(cs: seq<Candle>): (r: seq<real>)
    ensures |r| == |cs| && forall i | 0 <= i < |cs| :: r[i] == cs[i].close
  {
    seq(|cs|, i requires 0 <= i < |cs| => cs[i].close)
  }

  /** max(c.high for c in cs[lo:hi]) */
  function HighestHigh(cs: seq<Candle>, lo: nat, hi: nat): real
    requires lo < hi <= |cs|
  {
    if hi == lo + 1 then cs[lo].high else Max(HighestHigh(cs, lo, hi - 1), cs[hi - 1].high)
  }

  /** min(c.low for c in cs[lo:hi]) */
  function LowestLow(cs: seq<Candle>, lo: nat, hi: nat): real
    requires lo < hi <= |cs|
  {
    if hi == lo + 1 then cs[lo].low else Min(LowestLow(cs, lo, hi - 1), cs[hi - 1].low)
  }

  lemma {:induction false} ExtremesPrefix(cs: seq<Candle>, m: nat, lo: nat, hi: nat)
    requires lo < hi <= m <= |cs|
    ensures HighestHigh(cs[..m], lo, hi) == HighestHigh(cs, lo, hi)
    ensures LowestLow(cs[..m], lo, hi) == LowestLow(cs, lo, hi)
  {
    if hi > lo + 1 {
      ExtremesPrefix(cs, m, lo, hi - 1);
    }
  }

  /** min(p for p in ps if p > x), None when there is none; and its mirror. */
  function LowestAbove(ps: seq<real>, x: real): Option<real> {
    if ps == [] then None else
    var best, last := LowestAbove(ps[..|ps| - 1], x), ps[|ps| - 1];
    if last <= x then best else if best.None? then Some(last) else Some(Min(best.value, last))
  }

  function HighestBelow(ps: seq<real>, x: real): Option<real> {
    if ps == [] then None else
    var best, last := HighestBelow(ps[..|ps| - 1], x), ps[|ps| - 1];
    if last >= x then best else if best.None? then Some(last) else Some(Max(best.value, last))
  }

  lemma {:induction false} LowestAboveIs(ps: seq<real>, x: real)
    ensures var r := LowestAbove(ps, x);
            && (r.Some? ==> r.value > x && r.value in ps)
            && (forall i | 0 <= i < |ps| && ps[i] > x :: r.Some? && r.value <= ps[i])
  {
    if ps != [] {
      var init, last := ps[..|ps| - 1], ps[|ps| - 1];
      LowestAboveIs(init, x);
      assert ps == init + [last];
    }
  }

  lemma {:induction false} HighestBelowIs(ps: seq<real>, x: real)
    ensures var r := HighestBelow(ps, x);
            && (r.Some? ==> r.value < x && r.value in ps)
            && (forall i | 0 <= i < |ps| && ps[i] < x :: r.Some? && r.value >= ps[i])
  {
    if ps != [] {
      var init, last := ps[..|ps| - 1], ps[|ps| - 1];
      HighestBelowIs(init, x);
      assert ps == init + [last];
    }
  }

  /** `bisect_right` on an ascending list: the index of the first element beyond `x`. */
  function BisectRight(xs: seq<int>, x: int): (k: nat)
    ensures k <= |xs|
    ensures forall i | 0 <= i < k :: xs[i] <= x
    ensures k < |xs| ==> x < xs[k]
  {
    if xs == [] || x < xs[0] then 0 else 1 + BisectRight(xs[1..], x)
  }

  /** Reflection of prices about K/2: highs become lows. */
  function MirrorCandle(K: real, c: Candle): Candle {
    Candle(c.openTime, c.closeTime, K - c.open, K - c.low, K - c.high, K - c.close, c.volume)
  }

  function Mirror(K: real, cs: seq<Candle>): (r: seq<Candle>)
    ensures |r| == |cs|
    ensures forall i | 0 <= i < |cs| :: r[i] == MirrorCandle(K, cs[i])
  {
    seq(|cs|, i requires 0 <= i < |cs| => MirrorCandle(K, cs[i]))
  }

  lemma {:induction false} ExtremesMirror(K: real, cs: seq<Candle>, lo: nat, hi: nat)
    requires lo < hi <= |cs|
    ensures HighestHigh(Mirror(K, cs), lo, hi) == K - LowestLow(cs, lo, hi)
    ensures LowestLow(Mirror(K, cs), lo, hi) == K - HighestHigh(cs, lo, hi)
  {
    if hi > lo + 1 {
      ExtremesMirror(K, cs, lo, hi - 1);
    }
  }

  function MirrorBias(b: Bias): Bias {
    match b
    case Bullish => Bearish
    case Bearish => Bullish
    case Neutral => Neutral
  }
}
