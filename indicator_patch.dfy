/** The indicator phase of one asset/interval pair
    (`calculateIndicatorsForAssetOptimized`): when some row of the pair has a
    null indicator and the pair has enough rows, RSI(6/12/24), EMA50 and
    SMA50 are computed over all closes, and every row from index 200 on that
    has a null indicator gets all five fields written. */
module IndicatorPatch {
  import opened Util
  import opened Store
  import opened Rsi
  import opened MovingAverages

  /** Pairs with fewer rows are skipped. */
  const MinRows := 250
  /** Rows before this index serve as warm-up context and are never written. */
  const StartIndex := 200

  datatype PatchResult = PatchResult(updated: nat, skipped: nat, error: bool)

  /** A row with at least one null indicator field. */
  predicate NeedsUpdate(ind: Indicators)
  {
    ind.rsi6.None? || ind.rsi12.None? || ind.rsi24.None? || ind.ema50.None? || ind.sma50.None?
  }

  /** JavaScript truthiness on a computed value: `null` and `0` are both
      stored as `null`. */
  function Truthy(v: Option<real>): (r: Option<real>)
    ensures r.None? <==> v.None? || v.value == 0.0
    ensures r.Some? ==> r == v
  {
    if v.Some? && v.value != 0.0 then v else None
  }

  /** The pair's rows that have a null indicator (the `count` query). */
  function NeedingKeys(t: Table, asset: string, interval: string): set<Key>
  {
    set k | k in t && k.asset == asset && k.interval == interval && NeedsUpdate(t[k].indicators)
  }

  /** The closing prices of the given rows, in order. */
  function Closes(t: Table, keys: seq<Key>): (closes: seq<real>)
    requires forall i :: 0 <= i < |keys| ==> keys[i] in t
    ensures |closes| == |keys|
  {
    seq(|keys|, i requires 0 <= i < |keys| => t[keys[i]].prices.close)
  }

  /** The five values the job writes at index `i` of a series of closes. */
  function ComputedIndicators(closes: seq<real>, i: nat): Indicators
    requires i < |closes| && |closes| >= MinRows
  {
    Indicators(
      Truthy(RsiSeries(closes, 6)[i]), Truthy(RsiSeries(closes, 12)[i]), Truthy(RsiSeries(closes, 24)[i]),
      Truthy(EmaSeries(closes, 50)[i]), Truthy(SmaSeries(closes, 50)[i]))
  }

  /** The five values for every row of a series of closes. */
  function ComputedSeries(closes: seq<real>): (values: seq<Indicators>)
    requires |closes| >= MinRows
    ensures |values| == |closes|
  {
    seq(|closes|, i requires 0 <= i < |closes| => ComputedIndicators(closes, i))
  }

  /** The rows visited by the patch loop, their new values, and the
      requirements every call satisfies. */
  predicate PatchInput(t: Table, keys: seq<Key>, values: seq<Indicators>)
  {
    |values| == |keys| && StartIndex <= |keys| && forall i :: 0 <= i < |keys| ==> keys[i] in t
  }

  /** Whether the loop writes row `i`: it had a null indicator when read and
      its update did not fail. */
  predicate Patches(t: Table, keys: seq<Key>, patchOk: Key -> bool, i: nat)
    requires i < |keys| && keys[i] in t
  {
    NeedsUpdate(t[keys[i]].indicators) && patchOk(keys[i])
  }

  /** The table after the patch loop has visited indices `StartIndex .. hi - 1`. */
  function PatchRows(t: Table, keys: seq<Key>, patchOk: Key -> bool, values: seq<Indicators>, hi: nat): Table
    requires PatchInput(t, keys, values) && StartIndex <= hi <= |keys|
    decreases hi
  {
    if hi == StartIndex then t
    else
      var before := PatchRows(t, keys, patchOk, values, hi - 1);
      var k := keys[hi - 1];
      if Patches(t, keys, patchOk, hi - 1) then before[k := Row(t[k].prices, values[hi - 1])]
      else before
  }

  /** How many rows the loop over `StartIndex .. hi - 1` wrote. */
  function UpdatedCount(t: Table, keys: seq<Key>, patchOk: Key -> bool, hi: nat): nat
    requires StartIndex <= hi <= |keys| && forall i :: 0 <= i < |keys| ==> keys[i] in t
    decreases hi
  {
    if hi == StartIndex then 0
    else UpdatedCount(t, keys, patchOk, hi - 1) + (if Patches(t, keys, patchOk, hi - 1) then 1 else 0)
  }

  /** What `calculateIndicatorsForAssetOptimized` does to the table and
      what it returns. `readOk` is false when either read of the pair
      throws; `patchOk` says whether a row's update succeeds. */
  function IndicatorPhase(t: Table, asset: string, interval: string, readOk: bool, patchOk: Key -> bool)
    : (Table, PatchResult)
  {
    var keys := PairKeys(t, asset, interval);
    if !readOk then (t, PatchResult(0, 0, true))
    else if NeedingKeys(t, asset, interval) == {} || |keys| == 0 then (t, PatchResult(0, 0, false))
    else if |keys| < MinRows then (t, PatchResult(0, |keys|, false))
    else
      (PatchRows(t, keys, patchOk, ComputedSeries(Closes(t, keys)), |keys|),
       PatchResult(UpdatedCount(t, keys, patchOk, |keys|), StartIndex, false))
  }

  /** `calculateIndicatorsForAssetOptimized`: count the rows with a null
      indicator, read the pair's rows, compute the five series over all
      closes and patch the rows from index `StartIndex` on. */
  method CalculateIndicators(t: Table, asset: string, interval: string, readOk: bool, patchOk: Key -> bool)
    returns (t': Table, r: PatchResult)
    ensures (t', r) == IndicatorPhase(t, asset, interval, readOk, patchOk)
  {
    if !readOk {
      return t, PatchResult(0, 0, true);
    }
    var recordsWithNullIndicators := |NeedingKeys(t, asset, interval)|;
    var ts := PairTimestamps(t, asset, interval);
    // Both early exits give the same result; the second cannot fire once the
    // count has found a row, as both reads see the same table.
    if recordsWithNullIndicators == 0 || |ts| == 0 {
      return t, PatchResult(0, 0, false);
    }
    if |ts| < MinRows {
      return t, PatchResult(0, |ts|, false);
    }
    var keys := PairKeys(t, asset, interval);
    var closes := Closes(t, keys);
    var rsi6 := CalculateRsi(closes, 6);
    var rsi12 := CalculateRsi(closes, 12);
    var rsi24 := CalculateRsi(closes, 24);
    var ema50 := CalculateEma(closes, 50);
    var sma50 := CalculateSma(closes, 50);
    var updated;
    t', updated := PatchLoop(t, keys, patchOk, closes, rsi6, rsi12, rsi24, ema50, sma50);
    r := PatchResult(updated, StartIndex, false);
  }

  /** The patch loop of `calculateIndicatorsForAssetOptimized`, over the
      pair's rows and the computed series. */
  method PatchLoop(t: Table, keys: seq<Key>, patchOk: Key -> bool, closes: seq<real>,
                   rsi6: seq<Option<real>>, rsi12: seq<Option<real>>, rsi24: seq<Option<real>>,
                   ema50: seq<Option<real>>, sma50: seq<Option<real>>)
    returns (t': Table, updated: nat)
    requires MinRows <= |keys| && forall i :: 0 <= i < |keys| ==> keys[i] in t
    requires closes == Closes(t, keys)
    requires rsi6 == RsiSeries(closes, 6) && rsi12 == RsiSeries(closes, 12) && rsi24 == RsiSeries(closes, 24)
    requires ema50 == EmaSeries(closes, 50) && sma50 == SmaSeries(closes, 50)
    ensures t' == PatchRows(t, keys, patchOk, ComputedSeries(closes), |keys|)
    ensures updated == UpdatedCount(t, keys, patchOk, |keys|)
  {
    ghost var computed := ComputedSeries(closes);
    t' := t;
    updated := 0;
    for i := StartIndex to |keys|
      invariant t' == PatchRows(t, keys, patchOk, computed, i)
      invariant updated == UpdatedCount(t, keys, patchOk, i)
    {
      var key := keys[i];
      var record := t[key];
      var values := Indicators(Truthy(rsi6[i]), Truthy(rsi12[i]), Truthy(rsi24[i]),
                               Truthy(ema50[i]), Truthy(sma50[i]));
      ValuesAt(closes, i, rsi6, rsi12, rsi24, ema50, sma50);
      assert values == computed[i];
      PatchStep(t, keys, patchOk, computed, i);
      if NeedsUpdate(record.indicators) {
        if patchOk(key) {
          t' := t'[key := Row(record.prices, values)];
          updated := updated + 1;
        }
      }
    }
  }

  /** One more visited row: written when it needs an update and the update
      succeeds, counted exactly then. */
  lemma PatchStep(t: Table, keys: seq<Key>, patchOk: Key -> bool, values: seq<Indicators>, i: nat)
    requires PatchInput(t, keys, values) && StartIndex <= i < |keys|
    ensures PatchRows(t, keys, patchOk, values, i + 1) ==
      if Patches(t, keys, patchOk, i)
      then PatchRows(t, keys, patchOk, values, i)[keys[i] := Row(t[keys[i]].prices, values[i])]
      else PatchRows(t, keys, patchOk, values, i)
    ensures UpdatedCount(t, keys, patchOk, i + 1) ==
      UpdatedCount(t, keys, patchOk, i) + if Patches(t, keys, patchOk, i) then 1 else 0
  {
  }

  /** The loop's per-row values are the computed indicators at that row. */
  lemma ValuesAt(closes: seq<real>, i: nat,
                 rsi6: seq<Option<real>>, rsi12: seq<Option<real>>, rsi24: seq<Option<real>>,
                 ema50: seq<Option<real>>, sma50: seq<Option<real>>)
    requires MinRows <= |closes| && i < |closes|
    requires rsi6 == RsiSeries(closes, 6) && rsi12 == RsiSeries(closes, 12) && rsi24 == RsiSeries(closes, 24)
    requires ema50 == EmaSeries(closes, 50) && sma50 == SmaSeries(closes, 50)
    ensures i < |rsi6| && i < |rsi12| && i < |rsi24| && i < |ema50| && i < |sma50|
    ensures Indicators(Truthy(rsi6[i]), Truthy(rsi12[i]), Truthy(rsi24[i]), Truthy(ema50[i]), Truthy(sma50[i]))
      == ComputedSeries(closes)[i]
  {
  }

  /** The patch keeps every key and every price field. */
  lemma {:induction false} PatchKeepsPrices(t: Table, keys: seq<Key>, patchOk: Key -> bool,
                                            values: seq<Indicators>, hi: nat, k: Key)
    requires PatchInput(t, keys, values) && StartIndex <= hi <= |keys|
    ensures k in PatchRows(t, keys, patchOk, values, hi) <==> k in t
    ensures k in t ==> PatchRows(t, keys, patchOk, values, hi)[k].prices == t[k].prices
    decreases hi
  {
    if hi > StartIndex {
      PatchKeepsPrices(t, keys, patchOk, values, hi - 1, k);
    }
  }

  /** On distinct rows, a row at index `j >= StartIndex` that had a null
      indicator and whose update succeeded holds the five new values,
      whatever it held before (non-null fields included); any other visited
      row keeps its indicators. */
  lemma {:induction false} PatchedRow(t: Table, keys: seq<Key>, patchOk: Key -> bool,
                                      values: seq<Indicators>, hi: nat, j: nat)
    requires PatchInput(t, keys, values) && StartIndex <= j < hi <= |keys|
    requires forall a, b :: 0 <= a < b < |keys| ==> keys[a] != keys[b]
    ensures keys[j] in PatchRows(t, keys, patchOk, values, hi)
    ensures PatchRows(t, keys, patchOk, values, hi)[keys[j]].indicators ==
      if NeedsUpdate(t[keys[j]].indicators) && patchOk(keys[j]) then values[j] else t[keys[j]].indicators
    decreases hi
  {
    PatchKeepsPrices(t, keys, patchOk, values, hi - 1, keys[j]);
    if j < hi - 1 {
      PatchedRow(t, keys, patchOk, values, hi - 1, j);
    } else {
      UnvisitedRowUnchanged(t, keys, patchOk, values, hi - 1, keys[j]);
    }
  }

  /** Rows the loop does not visit (other pairs' rows, the first
      `StartIndex` rows of the pair, rows not yet reached) are unchanged. */
  lemma {:induction false} UnvisitedRowUnchanged(t: Table, keys: seq<Key>, patchOk: Key -> bool,
                                                 values: seq<Indicators>, hi: nat, k: Key)
    requires PatchInput(t, keys, values) && StartIndex <= hi <= |keys|
    requires k in t && forall j :: StartIndex <= j < hi ==> keys[j] != k
    ensures k in PatchRows(t, keys, patchOk, values, hi)
    ensures PatchRows(t, keys, patchOk, values, hi)[k] == t[k]
    decreases hi
  {
    if hi > StartIndex {
      UnvisitedRowUnchanged(t, keys, patchOk, values, hi - 1, k);
    }
  }

  /** Rows without a null indicator are never written. */
  lemma {:induction false} CompleteRowUnchanged(t: Table, keys: seq<Key>, patchOk: Key -> bool,
                                                values: seq<Indicators>, hi: nat, k: Key)
    requires PatchInput(t, keys, values) && StartIndex <= hi <= |keys|
    requires k in t && !NeedsUpdate(t[k].indicators)
    ensures k in PatchRows(t, keys, patchOk, values, hi)
    ensures PatchRows(t, keys, patchOk, values, hi)[k] == t[k]
    decreases hi
  {
    if hi > StartIndex {
      CompleteRowUnchanged(t, keys, patchOk, values, hi - 1, k);
    }
  }

  /** The loop's counter counts the rows it wrote: at most one per visited
      row, and zero exactly when it wrote none. */
  lemma {:induction false} UpdatedCountBounds(t: Table, keys: seq<Key>, patchOk: Key -> bool, hi: nat)
    requires StartIndex <= hi <= |keys| && forall i :: 0 <= i < |keys| ==> keys[i] in t
    ensures UpdatedCount(t, keys, patchOk, hi) <= hi - StartIndex
    ensures UpdatedCount(t, keys, patchOk, hi) == 0 <==>
      forall j :: StartIndex <= j < hi ==> !Patches(t, keys, patchOk, j)
    decreases hi
  {
    if hi > StartIndex {
      UpdatedCountBounds(t, keys, patchOk, hi - 1);
    }
  }

  /** Each written value is the computed value, with a zero turned into
      null; the warm-up nulls of each indicator carry over. */
  lemma ComputedValues(closes: seq<real>, i: nat)
    requires MinRows <= |closes| && i < |closes|
    ensures var v := ComputedSeries(closes)[i];
      (v.rsi6.None? <==> i <= 6 || RsiSeries(closes, 6)[i] == Some(0.0)) &&
      (v.rsi12.None? <==> i <= 12 || RsiSeries(closes, 12)[i] == Some(0.0)) &&
      (v.rsi24.None? <==> i <= 24 || RsiSeries(closes, 24)[i] == Some(0.0)) &&
      (v.ema50.None? <==> i < 49 || EmaSeries(closes, 50)[i] == Some(0.0)) &&
      (v.sma50.None? <==> i < 49 || SmaSeries(closes, 50)[i] == Some(0.0)) &&
      (v.rsi6.Some? ==> v.rsi6 == RsiSeries(closes, 6)[i]) &&
      (v.rsi12.Some? ==> v.rsi12 == RsiSeries(closes, 12)[i]) &&
      (v.rsi24.Some? ==> v.rsi24 == RsiSeries(closes, 24)[i]) &&
      (v.ema50.Some? ==> v.ema50 == EmaSeries(closes, 50)[i]) &&
      (v.sma50.Some? ==> v.sma50 == SmaSeries(closes, 50)[i])
  {
    RsiShape(closes, 6);
    RsiShape(closes, 12);
    RsiShape(closes, 24);
    AveragesShape(closes, 50);
  }

  /** What the indicator phase does to one pair with enough rows: other
      pairs' rows and the first `StartIndex` rows are unchanged; a later row
      gets the five computed values exactly when it had a null indicator and
      its update succeeded; prices never change. */
  lemma PairPatchOutcome(t: Table, asset: string, interval: string, patchOk: Key -> bool, k: Key)
    requires |PairKeys(t, asset, interval)| >= MinRows
    requires k in t
    ensures var keys := PairKeys(t, asset, interval);
      var t' := PatchRows(t, keys, patchOk, ComputedSeries(Closes(t, keys)), |keys|);
      k in t' && t'[k].prices == t[k].prices &&
      ((k.asset != asset || k.interval != interval) ==> t'[k] == t[k]) &&
      (forall j :: 0 <= j < StartIndex && keys[j] == k ==> t'[k] == t[k]) &&
      (forall j :: StartIndex <= j < |keys| && keys[j] == k ==>
        t'[k].indicators == if NeedsUpdate(t[k].indicators) && patchOk(k)
                            then ComputedIndicators(Closes(t, keys), j) else t[k].indicators)
  {
    var keys := PairKeys(t, asset, interval);
    var values := ComputedSeries(Closes(t, keys));
    PairKeysDistinct(t, asset, interval);
    PatchOutcome(t, keys, patchOk, values, k);
    if k.asset != asset || k.interval != interval {
      assert forall j :: 0 <= j < |keys| ==> keys[j] != k;
    }
  }

  /** The loop's effect on one key of the table, for distinct keys: its
      prices are kept; a key the loop does not write from `StartIndex` on
      keeps its row; a visited key gets the new values exactly when it had
      a null indicator and its update succeeded. */
  lemma PatchOutcome(t: Table, keys: seq<Key>, patchOk: Key -> bool, values: seq<Indicators>, k: Key)
    requires PatchInput(t, keys, values) && k in t
    requires forall a, b :: 0 <= a < b < |keys| ==> keys[a] != keys[b]
    ensures var t' := PatchRows(t, keys, patchOk, values, |keys|);
      k in t' && t'[k].prices == t[k].prices &&
      ((forall j :: StartIndex <= j < |keys| ==> keys[j] != k) ==> t'[k] == t[k]) &&
      (forall j :: StartIndex <= j < |keys| && keys[j] == k ==>
        t'[k].indicators == if NeedsUpdate(t[k].indicators) && patchOk(k) then values[j] else t[k].indicators)
  {
    PatchKeepsPrices(t, keys, patchOk, values, |keys|, k);
    if forall j :: StartIndex <= j < |keys| ==> keys[j] != k {
      UnvisitedRowUnchanged(t, keys, patchOk, values, |keys|, k);
    }
    forall j | StartIndex <= j < |keys| && keys[j] == k
      ensures PatchRows(t, keys, patchOk, values, |keys|)[k].indicators ==
        if NeedsUpdate(t[k].indicators) && patchOk(k) then values[j] else t[k].indicators
    {
      PatchedRow(t, keys, patchOk, values, |keys|, j);
    }
  }

  /** The keys of a pair are distinct. */
  lemma PairKeysDistinct(t: Table, asset: string, interval: string)
    ensures var keys := PairKeys(t, asset, interval);
      forall a, b :: 0 <= a < b < |keys| ==> keys[a] != keys[b]
  {
    var keys := PairKeys(t, asset, interval);
    forall a, b | 0 <= a < b < |keys| ensures keys[a] != keys[b] {
      assert keys[a].ts < keys[b].ts;
    }
  }

  /** A loop that writes no row leaves the table as it was. */
  lemma {:induction false} NoPatchesUnchanged(t: Table, keys: seq<Key>, patchOk: Key -> bool,
                                              values: seq<Indicators>, hi: nat)
    requires PatchInput(t, keys, values) && StartIndex <= hi <= |keys|
    requires forall j :: StartIndex <= j < hi ==> !Patches(t, keys, patchOk, j)
    ensures PatchRows(t, keys, patchOk, values, hi) == t
    decreases hi
  {
    if hi > StartIndex {
      NoPatchesUnchanged(t, keys, patchOk, values, hi - 1);
    }
  }

  /** The phase reports an error exactly when a read failed; it keeps every
      key of the table; it changes nothing when it reports no update; and it
      never reports more updates than rows after the warm-up. */
  lemma IndicatorPhaseEffect(t: Table, asset: string, interval: string, readOk: bool, patchOk: Key -> bool)
    ensures var (t', r) := IndicatorPhase(t, asset, interval, readOk, patchOk);
      (r.error <==> !readOk) &&
      t'.Keys == t.Keys &&
      (r.updated == 0 ==> t' == t) &&
      r.updated <= |PairKeys(t, asset, interval)| &&
      (r.updated > 0 ==> r.skipped == StartIndex && |PairKeys(t, asset, interval)| >= MinRows)
  {
    var keys := PairKeys(t, asset, interval);
    if readOk && NeedingKeys(t, asset, interval) != {} && |keys| >= MinRows {
      PatchLoopEffect(t, keys, patchOk, ComputedSeries(Closes(t, keys)));
    }
  }

  /** The loop keeps every key of the table, writes at most one row per
      index from `StartIndex` on, and changes nothing when it writes none. */
  lemma PatchLoopEffect(t: Table, keys: seq<Key>, patchOk: Key -> bool, values: seq<Indicators>)
    requires PatchInput(t, keys, values)
    ensures var t' := PatchRows(t, keys, patchOk, values, |keys|);
      t'.Keys == t.Keys &&
      UpdatedCount(t, keys, patchOk, |keys|) <= |keys| - StartIndex &&
      (UpdatedCount(t, keys, patchOk, |keys|) == 0 ==> t' == t)
  {
    var t' := PatchRows(t, keys, patchOk, values, |keys|);
    UpdatedCountBounds(t, keys, patchOk, |keys|);
    if UpdatedCount(t, keys, patchOk, |keys|) == 0 {
      NoPatchesUnchanged(t, keys, patchOk, values, |keys|);
    }
    forall k ensures k in t' <==> k in t {
      PatchKeepsPrices(t, keys, patchOk, values, |keys|, k);
    }
  }
}
