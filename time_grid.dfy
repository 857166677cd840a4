/** The time grid of the reconciliation job: the supported candle intervals,
    their durations and exchange codes, the exchange symbol of an asset, and
    the boundary of the last closed candle. */
module TimeGrid {
  import opened Util

  /** The supported interval identifiers, shortest first. */
  const Intervals: seq<string> := ["15m", "30m", "1h", "2h", "4h", "6h", "12h", "1d"]

  const MinuteMs: int := 60 * 1000

  /** `getIntervalMs`: the duration of an interval in milliseconds; any other
      identifier is looked up in vain (`undefined`). */
  function IntervalMs(interval: string): (r: Option<int>)
    ensures r.Some? <==> interval in Intervals
    ensures r.Some? ==> r.value > 0 && r.value % MinuteMs == 0
  {
    if interval == "15m" then Some(15 * 60 * 1000)
    else if interval == "30m" then Some(30 * 60 * 1000)
    else if interval == "1h" then Some(60 * 60 * 1000)
    else if interval == "2h" then Some(2 * 60 * 60 * 1000)
    else if interval == "4h" then Some(4 * 60 * 60 * 1000)
    else if interval == "6h" then Some(6 * 60 * 60 * 1000)
    else if interval == "12h" then Some(12 * 60 * 60 * 1000)
    else if interval == "1d" then Some(24 * 60 * 60 * 1000)
    else None
  }

  /** `getBybitInterval`: the exchange's code for an interval. */
  function BybitInterval(interval: string): (r: Option<string>)
    ensures r.Some? <==> interval in Intervals
    ensures r.Some? ==> |r.value| > 0
  {
    if interval == "15m" then Some("15")
    else if interval == "30m" then Some("30")
    else if interval == "1h" then Some("60")
    else if interval == "2h" then Some("120")
    else if interval == "4h" then Some("240")
    else if interval == "6h" then Some("360")
    else if interval == "12h" then Some("720")
    else if interval == "1d" then Some("D")
    else None
  }

  /** The durations grow strictly along the list of supported intervals. */
  lemma DurationsAscending(i: nat, j: nat)
    requires i < j < |Intervals|
    ensures IntervalMs(Intervals[i]).Some? && IntervalMs(Intervals[j]).Some?
    ensures IntervalMs(Intervals[i]).value < IntervalMs(Intervals[j]).value
  {
  }

  /** Decimal digits of a natural number, most significant first. */
  function Decimal(n: nat): string
  {
    if n < 10 then ['0' + n as char]
    else Decimal(n / 10) + ['0' + (n % 10) as char]
  }

  /** Every code below a day is the interval's length in minutes, written in
      decimal; the day interval is coded `D`. */
  lemma BybitCodeIsMinutes(interval: string)
    requires interval in Intervals
    ensures interval != "1d" ==>
      BybitInterval(interval) == Some(Decimal(IntervalMs(interval).value / MinuteMs))
    ensures interval == "1d" ==> BybitInterval(interval) == Some("D")
  {
    MinuteCodes();
    if interval == "15m" {
      MinutesOf(IntervalMs(interval).value, 15);
    } else if interval == "30m" {
      MinutesOf(IntervalMs(interval).value, 30);
    } else if interval == "1h" {
      MinutesOf(IntervalMs(interval).value, 60);
    } else if interval == "2h" {
      MinutesOf(IntervalMs(interval).value, 120);
    } else if interval == "4h" {
      MinutesOf(IntervalMs(interval).value, 240);
    } else if interval == "6h" {
      MinutesOf(IntervalMs(interval).value, 360);
    } else if interval == "12h" {
      MinutesOf(IntervalMs(interval).value, 720);
    }
  }

  /** A whole number of minutes, in milliseconds, divided back into
      minutes. */
  lemma MinutesOf(ms: int, minutes: int)
    requires ms == minutes * MinuteMs
    ensures ms / MinuteMs == minutes
  {
  }

  /** The decimal spellings of the minute counts below a day. */
  lemma MinuteCodes()
    ensures Decimal(15) == "15" && Decimal(30) == "30" && Decimal(60) == "60"
    ensures Decimal(120) == "120" && Decimal(240) == "240"
    ensures Decimal(360) == "360" && Decimal(720) == "720"
  {
    assert Decimal(12) == "12";
    assert Decimal(24) == "24";
    assert Decimal(36) == "36";
    assert Decimal(72) == "72";
  }

  /** The exchange's linear-contract symbol for an asset: PEPE trades as the
      thousand-unit contract. */
  function ExchangeSymbol(asset: string): (r: string)
    ensures |r| >= 4 && r[|r| - 4..] == "USDT"
    ensures asset == "PEPE" ==> r == "1000PEPEUSDT"
    ensures asset != "PEPE" ==> |r| == |asset| + 4 && r[..|asset|] == asset
  {
    if asset == "PEPE" then "1000PEPEUSDT" else asset + "USDT"
  }

  /** The open time of the most recent candle whose whole duration has
      elapsed at wall-clock time `now`: one interval before the boundary of
      the candle that is still open. */
  function LastClosedBoundary(now: int, intervalMs: int): (r: int)
    requires intervalMs > 0
    ensures r % intervalMs == 0
    ensures r + intervalMs <= now < r + 2 * intervalMs
  {
    FloorToGrid(now, intervalMs);
    (now / intervalMs) * intervalMs - intervalMs
  }

  /** `floor(t / d) * d` is the grid point at or below `t`, less than one
      interval away. */
  lemma FloorToGrid(t: int, d: int)
    requires d > 0
    ensures (t / d) * d <= t < (t / d) * d + d
    ensures ((t / d) * d - d) % d == 0
  {
    var q := t / d;
    assert t == d * q + t % d;
    assert (q - 1) * d == q * d - d;
    MultipleModulo(q - 1, d);
  }

  /** A multiple of `d` leaves no remainder. */
  lemma MultipleModulo(k: int, d: int)
    requires d > 0
    ensures (k * d) % d == 0
  {
    var a := k * d;
    var q := a / d;
    assert d * (k - q) == a % d;
    assert k - q >= 1 ==> d * (k - q) >= d;
    assert k - q <= -1 ==> d * (k - q) <= -d;
  }

  /** A non-zero multiple of `d` is at least `d` away from zero. */
  lemma ScaleBounds(d: int, k: int)
    requires d > 0
    ensures k >= 1 ==> d * k >= d
    ensures k <= -1 ==> d * k <= -d
  {
  }

  /** `t` is a candle boundary of an interval of `d` milliseconds. */
  predicate Aligned(t: int, d: int)
    requires d > 0
  {
    t % d == 0
  }

  /** Two distinct boundaries are at least one interval apart. */
  lemma AlignedApart(a: int, b: int, d: int)
    requires d > 0 && Aligned(a, d) && Aligned(b, d) && a < b
    ensures a + d <= b
  {
    var qa, qb := a / d, b / d;
    assert a == d * qa && b == d * qb;
    assert d * (qb - qa) == b - a;
    assert qb - qa <= 0 ==> d * (qb - qa) <= 0;
    assert qb - qa >= 1 ==> d * (qb - qa) >= d;
  }

  /** Moving a boundary by one interval keeps it a boundary. */
  lemma AlignedShift(a: int, d: int)
    requires d > 0 && Aligned(a, d)
    ensures Aligned(a + d, d) && Aligned(a - d, d)
  {
    var q := a / d;
    assert a == d * q;
    assert a + d == (q + 1) * d && a - d == (q - 1) * d;
    MultipleModulo(q + 1, d);
    MultipleModulo(q - 1, d);
  }

  /** The job's closed-candle test: a candle that opens on a boundary is at
      or before the last closed boundary exactly when its whole interval has
      elapsed by `now`. */
  lemma ClosedMeansElapsed(ts: int, now: int, d: int)
    requires d > 0 && Aligned(ts, d)
    ensures ts <= LastClosedBoundary(now, d) <==> ts + d <= now
  {
    var current := LastClosedBoundary(now, d) + d;
    FloorToGrid(now, d);
    AlignedShift(ts, d);
    AlignedShift(LastClosedBoundary(now, d), d);
    if current < ts + d {
      AlignedApart(current, ts + d, d);
    }
  }
}
