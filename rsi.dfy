/** The relative strength index with Wilder's smoothing, as the reconciliation
    job computes it (`calculateRSI_Production`). Prices are reals; an entry of
    the result is `None` where the job pushes `null`.

    The job's layout is reproduced exactly: it pushes `period + 1` nulls, then
    the value seeded from the first `period` changes, then one value per
    remaining change starting with change number `period + 1`; change number
    `period` is never read. */
module Rsi {
  import opened Util

  /** The upward part of a price change. */
  function Gain(change: real): real
  {
    if change > 0.0 then change else 0.0
  }

  /** The downward part of a price change, as a non-negative number. */
  function Loss(change: real): real
  {
    if change < 0.0 then -change else 0.0
  }

  /** How many consecutive changes a series of `n` prices has. */
  function ChangeCount(n: nat): nat
  {
    if n == 0 then 0 else n - 1
  }

  /** The `gains` array: the upward part of each consecutive change. */
  function Gains(prices: seq<real>): (g: seq<real>)
    ensures |g| == ChangeCount(|prices|)
    ensures NonNegative(g)
  {
    seq(ChangeCount(|prices|), i requires 0 <= i < ChangeCount(|prices|) => Gain(prices[i + 1] - prices[i]))
  }

  /** The `losses` array: the downward part of each consecutive change. */
  function Losses(prices: seq<real>): (l: seq<real>)
    ensures |l| == ChangeCount(|prices|)
    ensures NonNegative(l)
  {
    seq(ChangeCount(|prices|), i requires 0 <= i < ChangeCount(|prices|) => Loss(prices[i + 1] - prices[i]))
  }

  /** Gains and losses split each change: their difference is the change and
      at most one of them is non-zero. */
  lemma ChangeSplit(prices: seq<real>, i: nat)
    requires i + 1 < |prices|
    ensures Gains(prices)[i] - Losses(prices)[i] == prices[i + 1] - prices[i]
    ensures Gains(prices)[i] == 0.0 || Losses(prices)[i] == 0.0
  {
  }

  /** One step of Wilder's smoothing. */
  function Smooth(avg: real, x: real, period: nat): real
    requires period > 0
  {
    (avg * (period - 1) as real + x) / period as real
  }

  /** The running average the job holds when it emits output index `k`:
      the plain mean of `xs[0..period-1]` for `k == period + 1`, then one
      smoothing step with `xs[k - 1]` per further index. */
  function Wilder(xs: seq<real>, period: nat, k: nat): (avg: real)
    requires 0 < period <= |xs| && period < k && (k == period + 1 || k <= |xs|)
    ensures NonNegative(xs) ==> avg >= 0.0
    decreases k
  {
    if k == period + 1 then
      var mean := Sum(xs[..period]) / period as real;
      assert NonNegative(xs) ==> mean >= 0.0 by {
        if NonNegative(xs) {
          SumAtLeast(xs[..period], 0.0);
          DivideAtLeast(Sum(xs[..period]), period as real, 0.0);
        }
      }
      mean
    else
      var previous := Wilder(xs, period, k - 1);
      assert NonNegative(xs) ==> Smooth(previous, xs[k - 1], period) >= 0.0 by {
        if NonNegative(xs) {
          SmoothAtLeast(previous, xs[k - 1], period, 0.0);
        }
      }
      Smooth(previous, xs[k - 1], period)
  }

  /** No element is negative. */
  predicate NonNegative(xs: seq<real>)
  {
    forall i :: 0 <= i < |xs| ==> xs[i] >= 0.0
  }

  /** The RSI of an average gain and an average loss (both are never
      negative, so the division is defined). */
  function RsiOf(avgGain: real, avgLoss: real): real
    requires avgGain >= 0.0 && avgLoss >= 0.0
  {
    if avgLoss == 0.0 then 100.0 else 100.0 - 100.0 / (1.0 + avgGain / avgLoss)
  }

  /** The length of the job's output for `n` prices: one more than the input
      when `n == period + 1`, the input's length otherwise. */
  function RsiLength(n: nat, period: nat): nat
  {
    if n == period + 1 then n + 1 else n
  }

  /** Output entry `i`. */
  function RsiAt(prices: seq<real>, period: nat, i: nat): Option<real>
    requires 0 < period && i < RsiLength(|prices|, period)
  {
    if i <= period then None
    else Some(RsiOf(Wilder(Gains(prices), period, i), Wilder(Losses(prices), period, i)))
  }

  /** The whole output of `calculateRSI_Production(prices, period)`. */
  function RsiSeries(prices: seq<real>, period: nat): seq<Option<real>>
    requires period > 0
  {
    seq(RsiLength(|prices|, period), i requires 0 <= i < RsiLength(|prices|, period) => RsiAt(prices, period, i))
  }

  /** The first loop of `calculateRSI_Production`: split every consecutive
      change into its gain and its loss. */
  method PriceChanges(prices: seq<real>) returns (gains: seq<real>, losses: seq<real>)
    requires |prices| > 0
    ensures gains == Gains(prices) && losses == Losses(prices)
  {
    gains, losses := [], [];
    for i := 1 to |prices|
      invariant gains == Gains(prices)[..i - 1]
      invariant losses == Losses(prices)[..i - 1]
    {
      var change := prices[i] - prices[i - 1];
      gains := gains + [if change > 0.0 then change else 0.0];
      losses := losses + [if change < 0.0 then -change else 0.0];
    }
  }

  /** `calculateRSI_Production`: builds the output with the job's loops and
      running averages. */
  method CalculateRsi(prices: seq<real>, period: nat) returns (rsi: seq<Option<real>>)
    requires period > 0
    ensures rsi == RsiSeries(prices, period)
  {
    if |prices| <= period {
      rsi := Nulls(|prices|);
      return;
    }
    var gains, losses := PriceChanges(prices);
    rsi := SmoothedValues(prices, period, gains, losses);
  }

  /** The seed value and the smoothing loop of `calculateRSI_Production`,
      after the changes have been split. */
  method SmoothedValues(prices: seq<real>, period: nat, gains: seq<real>, losses: seq<real>)
    returns (rsi: seq<Option<real>>)
    requires 0 < period < |prices|
    requires gains == Gains(prices) && losses == Losses(prices)
    ensures |rsi| == RsiLength(|prices|, period)
    ensures forall j :: 0 <= j < |rsi| ==> rsi[j] == RsiAt(prices, period, j)
  {
    var avgGain := Sum(gains[..period]) / period as real;
    var avgLoss := Sum(losses[..period]) / period as real;
    assert avgGain == Wilder(gains, period, period + 1);
    assert avgLoss == Wilder(losses, period, period + 1);

    rsi := Nulls(period + 1);
    rsi := rsi + [Some(RsiOf(avgGain, avgLoss))];

    var i := period + 1;
    while i < |gains|
      invariant period + 1 <= i && (i == period + 1 || i <= |gains|)
      invariant avgGain == Wilder(gains, period, i) && avgLoss == Wilder(losses, period, i)
      invariant |rsi| == i + 1
      invariant forall j :: 0 <= j < |rsi| ==> rsi[j] == RsiAt(prices, period, j)
    {
      SmoothedNext(prices, period, i);
      avgGain := Smooth(avgGain, gains[i], period);
      avgLoss := Smooth(avgLoss, losses[i], period);
      ghost var before := rsi;
      rsi := rsi + [Some(RsiOf(avgGain, avgLoss))];
      forall j | 0 <= j < |rsi| ensures rsi[j] == RsiAt(prices, period, j) {
        if j < |before| {
          assert rsi[j] == before[j];
        }
      }
      i := i + 1;
    }
  }

  /** One pass of the smoothing loop: smoothing the averages of index `i`
      with change number `i` gives the averages, and the value, of index
      `i + 1`. */
  lemma SmoothedNext(prices: seq<real>, period: nat, i: nat)
    requires 0 < period && period + 1 <= i < |Gains(prices)|
    ensures Smooth(Wilder(Gains(prices), period, i), Gains(prices)[i], period) == Wilder(Gains(prices), period, i + 1)
    ensures Smooth(Wilder(Losses(prices), period, i), Losses(prices)[i], period) == Wilder(Losses(prices), period, i + 1)
    ensures i + 1 < RsiLength(|prices|, period)
    ensures RsiAt(prices, period, i + 1) ==
      Some(RsiOf(Wilder(Gains(prices), period, i + 1), Wilder(Losses(prices), period, i + 1)))
  {
  }

  /** The output's shape: `period + 1` leading nulls (all nulls for a series
      of at most `period` prices), a value everywhere after them, and the
      input's length except for one extra entry when there are exactly
      `period + 1` prices. */
  lemma RsiShape(prices: seq<real>, period: nat)
    requires period > 0
    ensures |prices| <= period ==> |RsiSeries(prices, period)| == |prices|
    ensures |prices| == period + 1 ==> |RsiSeries(prices, period)| == |prices| + 1
    ensures |prices| >= period + 2 ==> |RsiSeries(prices, period)| == |prices|
    ensures forall i :: 0 <= i < |RsiSeries(prices, period)| ==>
      (RsiSeries(prices, period)[i].None? <==> i <= period)
  {
  }

  /** The first value sits at index `period + 1` and comes from the plain
      means of the first `period` gains and losses. */
  lemma RsiSeed(prices: seq<real>, period: nat)
    requires 0 < period < |prices|
    ensures period + 1 < |RsiSeries(prices, period)|
    ensures Wilder(Gains(prices), period, period + 1) == Sum(Gains(prices)[..period]) / period as real
    ensures Wilder(Losses(prices), period, period + 1) == Sum(Losses(prices)[..period]) / period as real
    ensures RsiSeries(prices, period)[period + 1] ==
      Some(RsiOf(Wilder(Gains(prices), period, period + 1), Wilder(Losses(prices), period, period + 1)))
  {
  }

  /** Every later value smooths the previous averages with the change that
      ends at the same index. */
  lemma RsiStep(prices: seq<real>, period: nat, i: nat)
    requires 0 < period && period + 2 <= i < |prices|
    ensures i < |RsiSeries(prices, period)|
    ensures RsiSeries(prices, period)[i] == Some(RsiOf(
      Smooth(Wilder(Gains(prices), period, i - 1), Gain(prices[i] - prices[i - 1]), period),
      Smooth(Wilder(Losses(prices), period, i - 1), Loss(prices[i] - prices[i - 1]), period)))
  {
  }

  /** Change number `period` is never read: overwriting it leaves every
      running average unchanged. */
  lemma {:induction false} WilderSkipsPeriod(xs: seq<real>, period: nat, k: nat, y: real)
    requires 0 < period < |xs| && period < k && (k == period + 1 || k <= |xs|)
    ensures Wilder(xs, period, k) == Wilder(xs[period := y], period, k)
    decreases k
  {
    if k > period + 1 {
      WilderSkipsPeriod(xs, period, k - 1, y);
    } else {
      assert xs[..period] == xs[period := y][..period];
    }
  }

  /** A smoothing step of values at least `lo` stays at least `lo`. */
  lemma SmoothAtLeast(avg: real, x: real, period: nat, lo: real)
    requires period > 0 && lo <= avg && lo <= x
    ensures lo <= Smooth(avg, x, period)
  {
    var n := (period - 1) as real;
    ScaleAtMost(lo, avg, n);
    assert n == period as real - 1.0;
    assert period as real * lo == lo * n + lo;
    DivideAtLeast(avg * n + x, period as real, lo);
  }

  /** A smoothing step of values at most `hi` stays at most `hi`. */
  lemma SmoothAtMost(avg: real, x: real, period: nat, hi: real)
    requires period > 0 && avg <= hi && x <= hi
    ensures Smooth(avg, x, period) <= hi
  {
    var n := (period - 1) as real;
    ScaleAtMost(avg, hi, n);
    assert n == period as real - 1.0;
    assert period as real * hi == hi * n + hi;
    DivideAtMost(avg * n + x, period as real, hi);
  }

  /** A running average of values at least `lo` is at least `lo`. */
  lemma {:induction false} WilderAtLeast(xs: seq<real>, period: nat, k: nat, lo: real)
    requires 0 < period <= |xs| && period < k && (k == period + 1 || k <= |xs|)
    requires forall i :: 0 <= i < |xs| ==> lo <= xs[i]
    ensures lo <= Wilder(xs, period, k)
    decreases k
  {
    if k == period + 1 {
      SumAtLeast(xs[..period], lo);
      DivideAtLeast(Sum(xs[..period]), period as real, lo);
    } else {
      WilderAtLeast(xs, period, k - 1, lo);
      SmoothAtLeast(Wilder(xs, period, k - 1), xs[k - 1], period, lo);
    }
  }

  /** A running average of values at most `hi` is at most `hi`. */
  lemma {:induction false} WilderAtMost(xs: seq<real>, period: nat, k: nat, hi: real)
    requires 0 < period <= |xs| && period < k && (k == period + 1 || k <= |xs|)
    requires forall i :: 0 <= i < |xs| ==> xs[i] <= hi
    ensures Wilder(xs, period, k) <= hi
    decreases k
  {
    if k == period + 1 {
      SumAtMost(xs[..period], hi);
      DivideAtMost(Sum(xs[..period]), period as real, hi);
    } else {
      WilderAtMost(xs, period, k - 1, hi);
      SmoothAtMost(Wilder(xs, period, k - 1), xs[k - 1], period, hi);
    }
  }

  /** The RSI of non-negative averages lies in `[0, 100]`. */
  lemma RsiOfRange(avgGain: real, avgLoss: real)
    requires avgGain >= 0.0 && avgLoss >= 0.0
    ensures 0.0 <= RsiOf(avgGain, avgLoss) <= 100.0
  {
    if avgLoss != 0.0 {
      var rs := avgGain / avgLoss;
      assert rs >= 0.0;
      DivideAtMost(100.0, 1.0 + rs, 100.0);
      DivideAtLeast(100.0, 1.0 + rs, 0.0);
    }
  }

  /** Every value the job emits lies in `[0, 100]`. */
  lemma RsiInRange(prices: seq<real>, period: nat, i: nat)
    requires period > 0 && i < |RsiSeries(prices, period)|
    requires RsiSeries(prices, period)[i].Some?
    ensures 0.0 <= RsiSeries(prices, period)[i].value <= 100.0
  {
    WilderAtLeast(Gains(prices), period, i, 0.0);
    WilderAtLeast(Losses(prices), period, i, 0.0);
    RsiOfRange(Wilder(Gains(prices), period, i), Wilder(Losses(prices), period, i));
  }

  /** A value whose average loss is zero is 100; one whose average gain is
      zero and average loss is not is 0. */
  lemma RsiAtExtremes(prices: seq<real>, period: nat, i: nat)
    requires period > 0 && period < i < RsiLength(|prices|, period)
    ensures Wilder(Losses(prices), period, i) == 0.0 ==> RsiAt(prices, period, i) == Some(100.0)
    ensures Wilder(Gains(prices), period, i) == 0.0 && Wilder(Losses(prices), period, i) != 0.0 ==>
      RsiAt(prices, period, i) == Some(0.0)
  {
  }

  /** A series that never falls has no losses, so every value is 100. */
  lemma RsiNonDecreasing(prices: seq<real>, period: nat)
    requires period > 0
    requires forall j :: 0 < j < |prices| ==> prices[j - 1] <= prices[j]
    ensures forall i :: 0 <= i < |RsiSeries(prices, period)| && RsiSeries(prices, period)[i].Some? ==>
      RsiSeries(prices, period)[i].value == 100.0
  {
    var losses := Losses(prices);
    forall j | 0 <= j < |losses|
      ensures losses[j] <= 0.0
    {
      assert prices[j] <= prices[j + 1];
    }
    forall i | period < i < RsiLength(|prices|, period)
      ensures RsiAt(prices, period, i) == Some(100.0)
    {
      NoLossesAt(prices, period, i);
    }
  }

  /** Without losses the average loss is zero, so the value is 100. */
  lemma NoLossesAt(prices: seq<real>, period: nat, i: nat)
    requires 0 < period < i < RsiLength(|prices|, period)
    requires forall j :: 0 <= j < |Losses(prices)| ==> Losses(prices)[j] <= 0.0
    ensures RsiAt(prices, period, i) == Some(100.0)
  {
    WilderAtMost(Losses(prices), period, i, 0.0);
    RsiAtExtremes(prices, period, i);
  }

  /** A series that never rises has no gains, so every value is 0 or 100
      (100 exactly when the average loss is zero). */
  lemma RsiNonIncreasing(prices: seq<real>, period: nat)
    requires period > 0
    requires forall j :: 0 < j < |prices| ==> prices[j - 1] >= prices[j]
    ensures forall i :: 0 <= i < |RsiSeries(prices, period)| && RsiSeries(prices, period)[i].Some? ==>
      RsiSeries(prices, period)[i].value == 0.0 || RsiSeries(prices, period)[i].value == 100.0
  {
    var gains := Gains(prices);
    forall j | 0 <= j < |gains|
      ensures gains[j] <= 0.0
    {
      assert prices[j] >= prices[j + 1];
    }
    forall i | period < i < RsiLength(|prices|, period)
      ensures RsiAt(prices, period, i) == Some(0.0) || RsiAt(prices, period, i) == Some(100.0)
    {
      NoGainsAt(prices, period, i);
    }
  }

  /** Without gains the average gain is zero, so the value is 0 or 100. */
  lemma NoGainsAt(prices: seq<real>, period: nat, i: nat)
    requires 0 < period < i < RsiLength(|prices|, period)
    requires forall j :: 0 <= j < |Gains(prices)| ==> Gains(prices)[j] <= 0.0
    ensures RsiAt(prices, period, i) == Some(0.0) || RsiAt(prices, period, i) == Some(100.0)
  {
    WilderAtMost(Gains(prices), period, i, 0.0);
    RsiAtExtremes(prices, period, i);
  }
}
