/** The exponential and simple moving averages of the reconciliation job
    (`calculateEMA`, `calculateSMA`). Prices are reals; an entry of the
    result is `None` where the job pushes `null`. */
module MovingAverages {
  import opened Util

  /** The EMA weight of the newest price, `2 / (period + 1)`. */
  function Multiplier(period: nat): (m: real)
    requires period > 0
    ensures 0.0 < m <= 1.0
  {
    DivideAtMost(2.0, (period + 1) as real, 1.0);
    2.0 / (period + 1) as real
  }

  /** The EMA at index `i >= period - 1`: the plain mean of the first
      `period` prices, then one weighted step per later price. */
  function EmaAt(prices: seq<real>, period: nat, i: nat): real
    requires 0 < period && period - 1 <= i < |prices|
    decreases i
  {
    if i == period - 1 then Sum(prices[..period]) / period as real
    else
      var previous := EmaAt(prices, period, i - 1);
      (prices[i] - previous) * Multiplier(period) + previous
  }

  /** The whole output of `calculateEMA(prices, period)`. */
  function EmaSeries(prices: seq<real>, period: nat): seq<Option<real>>
    requires period > 0
  {
    seq(|prices|, i requires 0 <= i < |prices| =>
      if i < period - 1 then None else Some(EmaAt(prices, period, i)))
  }

  /** The mean of a window of `period` prices. */
  function SmaAt(prices: seq<real>, period: nat, i: nat): real
    requires 0 < period && period - 1 <= i < |prices|
  {
    Sum(prices[i - (period - 1)..i + 1]) / period as real
  }

  /** The whole output of `calculateSMA(prices, period)`. */
  function SmaSeries(prices: seq<real>, period: nat): seq<Option<real>>
    requires period > 0
  {
    seq(|prices|, i requires 0 <= i < |prices| =>
      if i < period - 1 then None else Some(SmaAt(prices, period, i)))
  }

  /** The running total of the first `period` prices. */
  method PrefixSum(prices: seq<real>, period: nat) returns (sum: real)
    requires period <= |prices|
    ensures sum == Sum(prices[..period])
  {
    sum := 0.0;
    for i := 0 to period
      invariant sum == Sum(prices[..i])
    {
      SumSnoc(prices, i);
      sum := sum + prices[i];
    }
  }

  /** `calculateEMA`: all nulls for fewer than `period` prices; otherwise
      `period - 1` nulls, the mean of the first window, and the weighted
      recurrence over the previous output entry. */
  method CalculateEma(prices: seq<real>, period: nat) returns (ema: seq<Option<real>>)
    requires period > 0
    ensures ema == EmaSeries(prices, period)
  {
    if |prices| < period {
      ema := Nulls(|prices|);
      return;
    }
    var multiplier := 2.0 / (period + 1) as real;
    ema := Nulls(period - 1);
    var sma := PrefixSum(prices, period);
    sma := sma / period as real;
    ema := ema + [Some(sma)];
    assert multiplier == Multiplier(period);
    for i := period to |prices|
      invariant |ema| == i
      invariant forall j :: 0 <= j < i ==> ema[j] == EmaSeries(prices, period)[j]
    {
      var previous := ema[i - 1].value;
      assert previous == EmaAt(prices, period, i - 1);
      var next := (prices[i] - previous) * multiplier + previous;
      assert EmaAt(prices, period, i) == next;
      ema := ema + [Some(next)];
    }
  }

  /** The sum of the window ending at `i`, added from its newest price back,
      as the inner loop of `calculateSMA` does. */
  method WindowSum(prices: seq<real>, period: nat, i: nat) returns (sum: real)
    requires period - 1 <= i < |prices|
    ensures sum == Sum(prices[i + 1 - period..i + 1])
  {
    sum := 0.0;
    for j := 0 to period
      invariant sum == Sum(prices[i + 1 - j..i + 1])
    {
      assert prices[i - j..i + 1] == [prices[i - j]] + prices[i + 1 - j..i + 1];
      SumCons(prices[i - j], prices[i + 1 - j..i + 1]);
      sum := sum + prices[i - j];
    }
  }

  /** `calculateSMA`: all nulls for fewer than `period` prices; otherwise
      `period - 1` nulls, then the mean of every window of `period` prices. */
  method CalculateSma(prices: seq<real>, period: nat) returns (sma: seq<Option<real>>)
    requires period > 0
    ensures sma == SmaSeries(prices, period)
  {
    if |prices| < period {
      sma := Nulls(|prices|);
      return;
    }
    sma := Nulls(period - 1);
    for i := period - 1 to |prices|
      invariant |sma| == i
      invariant forall j :: 0 <= j < i ==> sma[j] == SmaSeries(prices, period)[j]
    {
      var sum := WindowSum(prices, period, i);
      sma := sma + [Some(sum / period as real)];
    }
  }

  /** Both averages keep the input's length and are null exactly on the
      first `period - 1` entries (on all entries of a series shorter than
      `period`). */
  lemma AveragesShape(prices: seq<real>, period: nat)
    requires period > 0
    ensures |EmaSeries(prices, period)| == |prices| == |SmaSeries(prices, period)|
    ensures forall i :: 0 <= i < |prices| ==>
      (EmaSeries(prices, period)[i].None? <==> i < period - 1) &&
      (SmaSeries(prices, period)[i].None? <==> i < period - 1)
    ensures |prices| < period ==> forall i :: 0 <= i < |prices| ==>
      EmaSeries(prices, period)[i].None? && SmaSeries(prices, period)[i].None?
  {
  }

  /** The EMA is seeded with the first SMA value. */
  lemma EmaSeededWithSma(prices: seq<real>, period: nat)
    requires 0 < period <= |prices|
    ensures EmaSeries(prices, period)[period - 1] == SmaSeries(prices, period)[period - 1]
    ensures SmaSeries(prices, period)[period - 1] == Some(Sum(prices[..period]) / period as real)
  {
    assert prices[period - 1 - (period - 1)..period - 1 + 1] == prices[..period];
  }

  /** Each later EMA moves from the previous one towards the new price by
      the fraction `2 / (period + 1)` of the distance. */
  lemma EmaStep(prices: seq<real>, period: nat, i: nat)
    requires 0 < period <= i < |prices|
    ensures EmaSeries(prices, period)[i - 1] == Some(EmaAt(prices, period, i - 1))
    ensures EmaSeries(prices, period)[i] == Some(EmaAt(prices, period, i - 1) +
      Multiplier(period) * (prices[i] - EmaAt(prices, period, i - 1)))
  {
    assert EmaSeries(prices, period)[i - 1] == Some(EmaAt(prices, period, i - 1));
    assert EmaSeries(prices, period)[i] == Some(EmaAt(prices, period, i));
    assert EmaAt(prices, period, i) ==
      (prices[i] - EmaAt(prices, period, i - 1)) * Multiplier(period) + EmaAt(prices, period, i - 1);
    assert (prices[i] - EmaAt(prices, period, i - 1)) * Multiplier(period) ==
      Multiplier(period) * (prices[i] - EmaAt(prices, period, i - 1));
  }

  /** A weighted step between two values in `[lo, hi]` stays in `[lo, hi]`. */
  lemma StepWithin(x: real, previous: real, m: real, lo: real, hi: real)
    requires 0.0 <= m <= 1.0
    requires lo <= x <= hi && lo <= previous <= hi
    ensures lo <= (x - previous) * m + previous <= hi
  {
    var r := (x - previous) * m + previous;
    assert r - lo == m * (x - lo) + (1.0 - m) * (previous - lo);
    assert hi - r == m * (hi - x) + (1.0 - m) * (hi - previous);
    NonNegativeProduct(m, x - lo);
    NonNegativeProduct(1.0 - m, previous - lo);
    NonNegativeProduct(m, hi - x);
    NonNegativeProduct(1.0 - m, hi - previous);
  }

  /** Prices that all lie in `[lo, hi]` give EMA values in `[lo, hi]`. */
  lemma {:induction false} EmaWithin(prices: seq<real>, period: nat, i: nat, lo: real, hi: real)
    requires 0 < period && period - 1 <= i < |prices|
    requires forall j :: 0 <= j < |prices| ==> lo <= prices[j] <= hi
    ensures lo <= EmaAt(prices, period, i) <= hi
    decreases i
  {
    if i == period - 1 {
      MeanWithin(prices[..period], lo, hi);
    } else {
      EmaWithin(prices, period, i - 1, lo, hi);
      StepWithin(prices[i], EmaAt(prices, period, i - 1), Multiplier(period), lo, hi);
    }
  }

  /** A constant series has a constant EMA and SMA equal to that price. */
  lemma ConstantAverages(prices: seq<real>, period: nat, c: real)
    requires period > 0
    requires forall j :: 0 <= j < |prices| ==> prices[j] == c
    ensures forall i :: period - 1 <= i < |prices| ==>
      EmaSeries(prices, period)[i] == Some(c) && SmaSeries(prices, period)[i] == Some(c)
  {
    forall i | period - 1 <= i < |prices|
      ensures EmaSeries(prices, period)[i] == Some(c) && SmaSeries(prices, period)[i] == Some(c)
    {
      EmaWithin(prices, period, i, c, c);
      SmaWithinWindow(prices, period, i);
      SmaBetween(prices, period, i, c, c);
    }
  }

  /** Every SMA value lies between the smallest and the largest price of its
      window. */
  lemma SmaBetween(prices: seq<real>, period: nat, i: nat, lo: real, hi: real)
    requires 0 < period && period - 1 <= i < |prices|
    requires forall j :: i + 1 - period <= j <= i ==> lo <= prices[j] <= hi
    ensures lo <= SmaAt(prices, period, i) <= hi
  {
    var window := prices[i + 1 - period..i + 1];
    assert forall k :: 0 <= k < |window| ==> window[k] == prices[i + 1 - period + k];
    MeanWithin(window, lo, hi);
  }

  /** The window of the SMA at `i` holds exactly the `period` prices ending
      at `i`. */
  lemma SmaWithinWindow(prices: seq<real>, period: nat, i: nat)
    requires 0 < period && period - 1 <= i < |prices|
    ensures |prices[i + 1 - period..i + 1]| == period
    ensures SmaSeries(prices, period)[i] == Some(Sum(prices[i + 1 - period..i + 1]) / period as real)
  {
  }

  /** Sliding the window by one adds the new price and drops the oldest one. */
  lemma SmaSlides(prices: seq<real>, period: nat, i: nat)
    requires 0 < period <= i < |prices|
    ensures SmaAt(prices, period, i) ==
      SmaAt(prices, period, i - 1) + (prices[i] - prices[i - period]) / period as real
  {
    var middle := prices[i + 1 - period..i];
    var window := prices[i + 1 - period..i + 1];
    var previous := prices[i - period..i];
    assert window == middle + [prices[i]];
    assert window[..|middle|] == middle;
    assert Sum(window) == Sum(middle) + prices[i];
    assert previous == [prices[i - period]] + middle;
    SumCons(prices[i - period], middle);
    DivideSum(Sum(previous), prices[i] - prices[i - period], period as real);
  }
}
