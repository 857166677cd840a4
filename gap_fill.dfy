/** Filling the gaps of one asset/interval pair (`fillDataGapsParallel`):
    each gap's fetched candles are normalised into rows, unclosed candles
    are dropped, the rest are upserted, and the per-gap results are summed.
    The fetch itself and the per-row write outcome are inputs. */
module GapFill {
  import opened Util
  import opened LastWins
  import opened TimeGrid
  import opened Gaps
  import opened Store

  /** One candle as the exchange returns it (already parsed to numbers). */
  datatype RawCandle = RawCandle(ts: int, open: real, high: real, low: real, close: real, volume: real)

  /** What fetching a gap's range gave: the candles, or an error raised after
      the retries were used up. */
  datatype Fetch = Fetched(candles: seq<RawCandle>) | FetchFailed

  datatype FillResult = FillResult(filled: nat, errors: nat)

  /** The outcome of one gap's task as `Promise.allSettled` reports it. */
  datatype Settled = Fulfilled(value: FillResult) | Rejected

  /** The row a fetched candle becomes. */
  function Normalise(asset: string, interval: string, c: RawCandle): (Key, Ohlcv)
  {
    (Key(asset, interval, c.ts), Ohlcv(c.open, c.high, c.low, c.close, Some(c.volume)))
  }

  /** `insertData`: the normalised rows of the candles whose open time is at
      or before the last closed boundary, in fetch order. */
  function InsertData(asset: string, interval: string, candles: seq<RawCandle>, d: int, now: int)
    : seq<(Key, Ohlcv)>
    requires d > 0
    decreases |candles|
  {
    if candles == [] then []
    else
      var earlier := InsertData(asset, interval, candles[..|candles| - 1], d, now);
      var c := candles[|candles| - 1];
      if c.ts <= LastClosedBoundary(now, d) then earlier + [Normalise(asset, interval, c)] else earlier
  }

  /** The rows whose upsert succeeded; a failed upsert is caught, logged and
      not counted. */
  function Written(rows: seq<(Key, Ohlcv)>, writeOk: Key -> bool): seq<(Key, Ohlcv)>
    decreases |rows|
  {
    if rows == [] then []
    else
      var earlier := Written(rows[..|rows| - 1], writeOk);
      var row := rows[|rows| - 1];
      if writeOk(row.0) then earlier + [row] else earlier
  }

  /** The table and the result of filling one gap. */
  function FillOne(t: Table, asset: string, interval: string, d: int, now: int,
                   fetched: Fetch, writeOk: Key -> bool): (Table, FillResult)
    requires d > 0
  {
    if fetched.FetchFailed? || |fetched.candles| == 0 then (t, FillResult(0, 1))
    else
      var written := Written(InsertData(asset, interval, fetched.candles, d, now), writeOk);
      assert |written| <= |fetched.candles| by {
        WrittenShrinks(InsertData(asset, interval, fetched.candles, d, now), writeOk);
        InsertDataRows(asset, interval, fetched.candles, d, now);
      }
      (UpsertAll(t, written), FillResult(|written|, |fetched.candles| - |written|))
  }

  /** One gap's task: fetch (given), normalise and filter, then upsert row by
      row, counting the successful writes. */
  method FillGap(t: Table, asset: string, interval: string, d: int, now: int,
                 fetched: Fetch, writeOk: Key -> bool) returns (t': Table, r: FillResult)
    requires d > 0
    ensures (t', r) == FillOne(t, asset, interval, d, now, fetched, writeOk)
  {
    if fetched.FetchFailed? {
      return t, FillResult(0, 1);
    }
    var candleData := fetched.candles;
    if |candleData| == 0 {
      return t, FillResult(0, 1);
    }
    var insertData := KeepClosed(asset, interval, candleData, d, now);
    var inserted;
    t', inserted := WriteRows(t, insertData, writeOk);
    WrittenShrinks(insertData, writeOk);
    InsertDataRows(asset, interval, candleData, d, now);
    r := FillResult(inserted, |candleData| - inserted);
  }

  /** The normalise-and-filter loop: the rows of the closed candles, in
      fetch order. */
  method KeepClosed(asset: string, interval: string, candleData: seq<RawCandle>, d: int, now: int)
    returns (insertData: seq<(Key, Ohlcv)>)
    requires d > 0
    ensures insertData == InsertData(asset, interval, candleData, d, now)
  {
    insertData := [];
    for i := 0 to |candleData|
      invariant insertData == InsertData(asset, interval, candleData[..i], d, now)
    {
      assert candleData[..i + 1][..i] == candleData[..i];
      var row := Normalise(asset, interval, candleData[i]);
      var currentBoundary := (now / d) * d;
      var lastClosed := currentBoundary - d;
      if row.0.ts <= lastClosed {
        insertData := insertData + [row];
      }
    }
    assert candleData[..|candleData|] == candleData;
  }

  /** The write loop: upsert row by row, skipping a failed write, and count
      the successful ones. */
  method WriteRows(t: Table, insertData: seq<(Key, Ohlcv)>, writeOk: Key -> bool) returns (t': Table, inserted: nat)
    ensures t' == UpsertAll(t, Written(insertData, writeOk))
    ensures inserted == |Written(insertData, writeOk)|
  {
    t' := t;
    inserted := 0;
    for i := 0 to |insertData|
      invariant t' == UpsertAll(t, Written(insertData[..i], writeOk))
      invariant inserted == |Written(insertData[..i], writeOk)|
    {
      assert insertData[..i + 1][..i] == insertData[..i];
      var row := insertData[i];
      if writeOk(row.0) {
        t' := Upsert(t', row.0, row.1);
        inserted := inserted + 1;
      }
    }
    assert insertData[..|insertData|] == insertData;
  }

  /** The rows kept are exactly the pair's closed candles, in fetch order. */
  lemma {:induction false} InsertDataRows(asset: string, interval: string, candles: seq<RawCandle>, d: int, now: int)
    requires d > 0
    ensures |InsertData(asset, interval, candles, d, now)| <= |candles|
    ensures forall row :: row in InsertData(asset, interval, candles, d, now) <==>
      exists c :: c in candles && c.ts <= LastClosedBoundary(now, d) && row == Normalise(asset, interval, c)
    decreases |candles|
  {
    if candles != [] {
      var prefix := candles[..|candles| - 1];
      InsertDataRows(asset, interval, prefix, d, now);
      assert candles == prefix + [candles[|candles| - 1]];
    }
  }

  /** The successful writes are some of the rows, each with a successful
      write outcome. */
  lemma {:induction false} WrittenShrinks(rows: seq<(Key, Ohlcv)>, writeOk: Key -> bool)
    ensures |Written(rows, writeOk)| <= |rows|
    ensures forall row :: row in Written(rows, writeOk) <==> row in rows && writeOk(row.0)
    decreases |rows|
  {
    if rows != [] {
      var prefix := rows[..|rows| - 1];
      WrittenShrinks(prefix, writeOk);
      assert rows == prefix + [rows[|rows| - 1]];
    }
  }

  /** A gap's task always reports at least one candle or one error; the
      counts add up to the number of fetched candles when any arrived. */
  lemma FillAccounting(t: Table, asset: string, interval: string, d: int, now: int,
                       fetched: Fetch, writeOk: Key -> bool)
    requires d > 0
    ensures var r := FillOne(t, asset, interval, d, now, fetched, writeOk).1;
      r.filled + r.errors >= 1 &&
      (fetched.Fetched? && |fetched.candles| > 0 ==> r.filled + r.errors == |fetched.candles|) &&
      (fetched.FetchFailed? || |fetched.candles| == 0 ==> r == FillResult(0, 1))
  {
  }

  /** A gap whose task filled nothing leaves the table as it was. */
  lemma FillNothingUnchanged(t: Table, asset: string, interval: string, d: int, now: int,
                             fetched: Fetch, writeOk: Key -> bool)
    requires d > 0
    ensures FillOne(t, asset, interval, d, now, fetched, writeOk).1.filled == 0 ==>
      FillOne(t, asset, interval, d, now, fetched, writeOk).0 == t
  {
  }

  /** Filling a gap changes only rows of the pair whose candle is closed and
      whose write succeeded, and it keeps the indicators of rows that
      already existed. */
  lemma FillTouchesOnlyClosedPairRows(t: Table, asset: string, interval: string, d: int, now: int,
                                      fetched: Fetch, writeOk: Key -> bool, k: Key)
    requires d > 0
    ensures var (t', r) := FillOne(t, asset, interval, d, now, fetched, writeOk);
      (k in t ==> k in t' && t'[k].indicators == t[k].indicators) &&
      ((k !in t && k in t') || (k in t && t'[k] != t[k]) ==>
        k.asset == asset && k.interval == interval && k.ts <= LastClosedBoundary(now, d) && writeOk(k))
  {
    if fetched.Fetched? && |fetched.candles| > 0 {
      var rows := InsertData(asset, interval, fetched.candles, d, now);
      var written := Written(rows, writeOk);
      UpsertAllLookup(t, written, k);
      LastValueIsLast(written, k);
      WrittenShrinks(rows, writeOk);
      InsertDataRows(asset, interval, fetched.candles, d, now);
      if LastValue(written, k).Some? {
        var i :| 0 <= i < |written| && written[i] == (k, LastValue(written, k).value);
        assert written[i] in written;
      }
    }
  }

  /** The `reduce` over the settled tasks: fulfilled tasks add their counts,
      a rejected task adds one error. */
  function Reduce(results: seq<Settled>): FillResult
    decreases |results|
  {
    if results == [] then FillResult(0, 0)
    else
      var acc := Reduce(results[..|results| - 1]);
      match results[|results| - 1]
      case Fulfilled(v) => FillResult(acc.filled + v.filled, acc.errors + v.errors)
      case Rejected => FillResult(acc.filled, acc.errors + 1)
  }

  /** When every fulfilled task reports at least one candle or error, the
      total accounts for every task; the filled total is zero only when
      every fulfilled task filled nothing. */
  lemma {:induction false} ReduceAccountsForEveryTask(results: seq<Settled>)
    requires forall i :: 0 <= i < |results| && results[i].Fulfilled? ==>
      results[i].value.filled + results[i].value.errors >= 1
    ensures Reduce(results).filled + Reduce(results).errors >= |results|
    ensures Reduce(results).filled == 0 <==>
      forall i :: 0 <= i < |results| && results[i].Fulfilled? ==> results[i].value.filled == 0
    decreases |results|
  {
    if results != [] {
      var prefix := results[..|results| - 1];
      ReduceAccountsForEveryTask(prefix);
      assert forall i :: 0 <= i < |prefix| ==> prefix[i] == results[i];
    }
  }

  /** The table after filling the gaps one after the other, and each gap's
      settled result. */
  function FillAll(t: Table, asset: string, interval: string, d: int, now: int,
                   gaps: seq<Gap>, fetch: Gap -> Fetch, writeOk: Key -> bool): (Table, seq<Settled>)
    requires d > 0
    decreases |gaps|
  {
    if gaps == [] then (t, [])
    else
      var (before, results) := FillAll(t, asset, interval, d, now, gaps[..|gaps| - 1], fetch, writeOk);
      var (after, r) := FillOne(before, asset, interval, d, now, fetch(gaps[|gaps| - 1]), writeOk);
      (after, results + [Fulfilled(r)])
  }

  /** `fillDataGapsParallel`, with the gap tasks run one after the other. */
  method FillDataGaps(t: Table, asset: string, interval: string, d: int, now: int,
                      gaps: seq<Gap>, fetch: Gap -> Fetch, writeOk: Key -> bool)
    returns (t': Table, r: FillResult)
    requires d > 0
    ensures gaps == [] ==> t' == t && r == FillResult(0, 0)
    ensures t' == FillAll(t, asset, interval, d, now, gaps, fetch, writeOk).0
    ensures r == Reduce(FillAll(t, asset, interval, d, now, gaps, fetch, writeOk).1)
  {
    if |gaps| == 0 {
      return t, FillResult(0, 0);
    }
    t' := t;
    var results: seq<Settled> := [];
    for i := 0 to |gaps|
      invariant (t', results) == FillAll(t, asset, interval, d, now, gaps[..i], fetch, writeOk)
    {
      assert gaps[..i + 1][..i] == gaps[..i];
      var one;
      t', one := FillGap(t', asset, interval, d, now, fetch(gaps[i]), writeOk);
      results := results + [Fulfilled(one)];
    }
    assert gaps[..|gaps|] == gaps;
    r := Reduce(results);
  }

  /** Every gap counts at least once in the totals, and a fill that added no
      candle left the table unchanged. */
  lemma {:induction false} FillAllAccounting(t: Table, asset: string, interval: string, d: int, now: int,
                                             gaps: seq<Gap>, fetch: Gap -> Fetch, writeOk: Key -> bool)
    requires d > 0
    ensures var (t', results) := FillAll(t, asset, interval, d, now, gaps, fetch, writeOk);
      |results| == |gaps| &&
      Reduce(results).filled + Reduce(results).errors >= |gaps| &&
      (Reduce(results).filled == 0 ==> t' == t)
    decreases |gaps|
  {
    if gaps != [] {
      var prefix := gaps[..|gaps| - 1];
      FillAllAccounting(t, asset, interval, d, now, prefix, fetch, writeOk);
      var (before, earlier) := FillAll(t, asset, interval, d, now, prefix, fetch, writeOk);
      var fetched := fetch(gaps[|gaps| - 1]);
      FillAccounting(before, asset, interval, d, now, fetched, writeOk);
      FillNothingUnchanged(before, asset, interval, d, now, fetched, writeOk);
      var r := FillOne(before, asset, interval, d, now, fetched, writeOk).1;
      assert (earlier + [Fulfilled(r)])[..|earlier|] == earlier;
    }
  }
}
