/** Gap analysis of one asset/interval pair (`analyzeDataGaps`): the
    historical gaps between consecutive stored candles and the recent gap
    between the newest stored candle and the last closed boundary.
    Timestamps are epoch milliseconds. */
module Gaps {
  import opened Util
  import opened TimeGrid

  datatype GapKind = Historical | Recent

  /** A run of missing candles from `startTs` to `endTs`, both inclusive. */
  datatype Gap = Gap(startTs: int, endTs: int, missedCandles: int, kind: GapKind)

  /** The outcome of the analysis; `error` marks a failed store read, which
      the job reports as an empty analysis. */
  datatype Analysis = Analysis(gaps: seq<Gap>, totalRecords: nat, error: bool)

  /** The gap between two consecutive stored candles, if the second is later
      than one interval after the first. */
  function GapBetween(previous: int, current: int, d: int): Option<Gap>
    requires d > 0
  {
    if current > previous + d then
      Some(Gap(previous + d, current - d, (current - (previous + d)) / d, Historical))
    else None
  }

  /** The historical gaps of an ascending list of timestamps, in order. */
  function HistoricalGaps(ts: seq<int>, d: int): seq<Gap>
    requires d > 0
    decreases |ts|
  {
    if |ts| < 2 then []
    else
      var earlier := HistoricalGaps(ts[..|ts| - 1], d);
      match GapBetween(ts[|ts| - 2], ts[|ts| - 1], d)
      case Some(g) => earlier + [g]
      case None => earlier
  }

  /** The recent gap: present when the slot after the newest candle is
      already closed; it runs up to the last closed boundary. */
  function RecentGap(latest: int, d: int, now: int): seq<Gap>
    requires d > 0
  {
    var boundary := LastClosedBoundary(now, d);
    if latest + d <= boundary then
      [Gap(latest + d, boundary, (boundary - (latest + d)) / d + 1, Recent)]
    else []
  }

  /** The whole analysis; `None` is a store read that failed. */
  function AnalysisOf(records: Option<seq<int>>, d: int, now: int): Analysis
    requires d > 0
  {
    match records
    case None => Analysis([], 0, true)
    case Some(ts) =>
      if |ts| == 0 then Analysis([], 0, false)
      else Analysis(HistoricalGaps(ts, d) + RecentGap(ts[|ts| - 1], d, now), |ts|, false)
  }

  /** `analyzeDataGaps`, given the pair's stored timestamps in ascending
      order (or `None` when the read failed), the interval's duration and
      the wall-clock time. */
  method AnalyzeDataGaps(records: Option<seq<int>>, d: int, now: int) returns (a: Analysis)
    requires d > 0
    ensures a == AnalysisOf(records, d, now)
  {
    if records.None? {
      return Analysis([], 0, true);
    }
    var ts := records.value;
    if |ts| == 0 {
      return Analysis([], 0, false);
    }
    var gaps := ScanHistorical(ts, d);
    var latest := ts[|ts| - 1];
    var currentBoundary := (now / d) * d;
    var lastClosed := currentBoundary - d;
    if latest + d <= lastClosed {
      gaps := gaps + [Gap(latest + d, lastClosed, (lastClosed - (latest + d)) / d + 1, Recent)];
    }
    a := Analysis(gaps, |ts|, false);
  }

  /** The scan over consecutive timestamps: a historical gap wherever two
      neighbours are more than one interval apart. */
  method ScanHistorical(ts: seq<int>, d: int) returns (gaps: seq<Gap>)
    requires d > 0 && |ts| > 0
    ensures gaps == HistoricalGaps(ts, d)
  {
    gaps := [];
    for i := 1 to |ts|
      invariant gaps == HistoricalGaps(ts[..i], d)
    {
      var previous, current := ts[i - 1], ts[i];
      var expectedNext := previous + d;
      assert ts[..i + 1][..i] == ts[..i];
      if current > expectedNext {
        gaps := gaps + [Gap(expectedNext, current - d, (current - expectedNext) / d, Historical)];
      }
    }
    assert ts[..|ts|] == ts;
  }

  /** Strictly ascending timestamps, as a store ordered by its unique key
      returns them. */
  predicate Ascending(ts: seq<int>)
  {
    forall i, j :: 0 <= i < j < |ts| ==> ts[i] < ts[j]
  }

  /** Every timestamp is a boundary of the interval. */
  predicate AllAligned(ts: seq<int>, d: int)
    requires d > 0
  {
    forall i :: 0 <= i < |ts| ==> Aligned(ts[i], d)
  }

  /** Some gap's range contains `t`. */
  predicate Covers(gaps: seq<Gap>, t: int)
  {
    exists k :: 0 <= k < |gaps| && gaps[k].startTs <= t <= gaps[k].endTs
  }

  /** There are no historical gaps exactly when no candle is more than one
      interval after its predecessor. */
  lemma {:induction false} NoHistoricalGapsIff(ts: seq<int>, d: int)
    requires d > 0
    ensures HistoricalGaps(ts, d) == [] <==> forall i :: 0 < i < |ts| ==> ts[i] <= ts[i - 1] + d
    decreases |ts|
  {
    if |ts| >= 2 {
      var prefix := ts[..|ts| - 1];
      NoHistoricalGapsIff(prefix, d);
      assert forall i :: 0 <= i < |prefix| ==> prefix[i] == ts[i];
    }
  }

  /** Every historical gap starts one interval after some stored candle,
      ends one interval before the next one, is marked historical, and
      lies strictly between the first and the last candle. */
  lemma HistoricalGapsBetween(ts: seq<int>, d: int)
    requires d > 0 && Ascending(ts)
    ensures forall k :: 0 <= k < |HistoricalGaps(ts, d)| ==>
      var g := HistoricalGaps(ts, d)[k];
      g.kind == Historical && ts[0] < g.startTs && g.endTs < ts[|ts| - 1] &&
      exists i :: 0 < i < |ts| && g.startTs == ts[i - 1] + d && g.endTs == ts[i] - d
  {
    var gaps := HistoricalGaps(ts, d);
    forall k | 0 <= k < |gaps|
      ensures gaps[k].kind == Historical && ts[0] < gaps[k].startTs && gaps[k].endTs < ts[|ts| - 1]
      ensures exists i :: 0 < i < |ts| && gaps[k].startTs == ts[i - 1] + d && gaps[k].endTs == ts[i] - d
    {
      HistoricalGapAt(ts, d, k);
      var i :| 0 < i < |ts| && gaps[k].startTs == ts[i - 1] + d && gaps[k].endTs == ts[i] - d;
      assert ts[0] <= ts[i - 1] && ts[i] <= ts[|ts| - 1];
    }
  }

  /** Gap number `k` lies between two consecutive candles. */
  lemma {:induction false} HistoricalGapAt(ts: seq<int>, d: int, k: nat)
    requires d > 0 && k < |HistoricalGaps(ts, d)|
    ensures HistoricalGaps(ts, d)[k].kind == Historical
    ensures exists i :: (0 < i < |ts| && HistoricalGaps(ts, d)[k].startTs == ts[i - 1] + d &&
      HistoricalGaps(ts, d)[k].endTs == ts[i] - d)
    decreases |ts|
  {
    var prefix := ts[..|ts| - 1];
    var gaps := HistoricalGaps(ts, d);
    var earlier := HistoricalGaps(prefix, d);
    var n := |ts| - 1;
    assert gaps[..|earlier|] == earlier;
    if k < |earlier| {
      HistoricalGapAt(prefix, d, k);
      var i :| 0 < i < |prefix| && earlier[k].startTs == prefix[i - 1] + d && earlier[k].endTs == prefix[i] - d;
      assert prefix[i] == ts[i] && prefix[i - 1] == ts[i - 1];
      assert gaps[k] == earlier[k];
    } else {
      assert gaps[k].startTs == ts[n - 1] + d && gaps[k].endTs == ts[n] - d;
    }
  }

  /** Appending a gap adds its range to what the list covers. */
  lemma CoversAppend(gaps: seq<Gap>, g: Gap, t: int)
    ensures Covers(gaps + [g], t) <==> Covers(gaps, t) || g.startTs <= t <= g.endTs
  {
    var all := gaps + [g];
    if Covers(gaps, t) {
      var k :| 0 <= k < |gaps| && gaps[k].startTs <= t <= gaps[k].endTs;
      assert all[k] == gaps[k];
    }
    if g.startTs <= t <= g.endTs {
      assert all[|gaps|] == g;
    }
  }

  /** The last two candles add at most the gap between them. */
  lemma HistoricalGapsStep(ts: seq<int>, d: int, t: int)
    requires d > 0 && |ts| >= 2
    ensures var n := |ts| - 1;
      Covers(HistoricalGaps(ts, d), t) <==>
        Covers(HistoricalGaps(ts[..n], d), t) || ts[n - 1] + d <= t <= ts[n] - d
  {
    var n := |ts| - 1;
    var earlier := HistoricalGaps(ts[..n], d);
    match GapBetween(ts[n - 1], ts[n], d)
    case Some(g) => CoversAppend(earlier, g, t);
    case None =>
  }

  /** On boundary-aligned ascending timestamps, a boundary strictly between
      the first and the last candle is covered by a historical gap exactly
      when no candle is stored at it: the gaps name every missing candle
      and nothing else. */
  lemma {:induction false} GapsCoverMissing(ts: seq<int>, d: int, t: int)
    requires d > 0 && Ascending(ts) && AllAligned(ts, d) && Aligned(t, d)
    requires |ts| >= 2 && ts[0] < t < ts[|ts| - 1]
    ensures t !in ts <==> Covers(HistoricalGaps(ts, d), t)
    decreases |ts|
  {
    var n := |ts| - 1;
    var prefix := ts[..n];
    var previous, current := ts[n - 1], ts[n];
    HistoricalGapsStep(ts, d, t);
    if t < previous {
      GapsCoverMissing(prefix, d, t);
      InAllButLast(ts, t);
    } else if t == previous {
      EarlierGapsEndBefore(prefix, d, t);
      assert ts[n - 1] == t;
    } else {
      EarlierGapsEndBefore(prefix, d, t);
      assert t !in ts by {
        assert forall i :: 0 <= i < n ==> ts[i] <= previous;
      }
      AlignedApart(previous, t, d);
      AlignedApart(t, current, d);
    }
  }

  /** A value other than the last element is in a sequence exactly when it
      is in all but the last element. */
  lemma InAllButLast(s: seq<int>, x: int)
    requires |s| > 0 && x != s[|s| - 1]
    ensures x in s <==> x in s[..|s| - 1]
  {
    if x in s {
      var i :| 0 <= i < |s| && s[i] == x;
      assert s[..|s| - 1][i] == x;
    }
  }

  /** Gaps between earlier candles end before the last of them. */
  lemma EarlierGapsEndBefore(ts: seq<int>, d: int, t: int)
    requires d > 0 && Ascending(ts) && |ts| >= 1 && t >= ts[|ts| - 1]
    ensures !Covers(HistoricalGaps(ts, d), t)
  {
    HistoricalGapsBetween(ts, d);
  }

  /** On aligned timestamps every historical gap counts exactly the
      boundaries from its start to its end. */
  lemma {:induction false} AlignedGapsCount(ts: seq<int>, d: int)
    requires d > 0 && Ascending(ts) && AllAligned(ts, d)
    ensures forall k :: 0 <= k < |HistoricalGaps(ts, d)| ==>
      var g := HistoricalGaps(ts, d)[k];
      g.startTs <= g.endTs && g.missedCandles >= 1 && g.missedCandles == (g.endTs - g.startTs) / d + 1
    decreases |ts|
  {
    if |ts| >= 2 {
      var n := |ts| - 1;
      var prefix := ts[..n];
      AlignedGapsCount(prefix, d);
      var previous, current := ts[n - 1], ts[n];
      if current > previous + d {
        AlignedGapCount(previous, current, d);
      }
    }
  }

  /** The gap between two aligned timestamps more than one interval apart
      counts the boundaries from its start to its end. */
  lemma AlignedGapCount(previous: int, current: int, d: int)
    requires d > 0 && Aligned(previous, d) && Aligned(current, d) && current > previous + d
    ensures var g := GapBetween(previous, current, d).value;
      g.startTs <= g.endTs && g.missedCandles >= 1 && g.missedCandles == (g.endTs - g.startTs) / d + 1
  {
    AlignedShift(previous, d);
    AlignedApart(previous + d, current, d);
    var start, end := previous + d, current - d;
    assert current - start == (end - start) + d;
    DivPlusOne(end - start, d);
  }

  /** Adding one interval adds one to the quotient. */
  lemma DivPlusOne(x: int, d: int)
    requires d > 0
    ensures (x + d) / d == x / d + 1
  {
    var q, r := x / d, x % d;
    var q', r' := (x + d) / d, (x + d) % d;
    var k := q' - q - 1;
    assert d * k == r - r' by {
      assert d * k == d * q' - d * q - d;
    }
    ScaleBounds(d, k);
  }

  /** The analysis of timestamps `0, 1, 3` with a one-millisecond interval:
      the missing candle at 2 is reported as the gap `[2, 2]`. */
  lemma MissingMiddleCandle()
    ensures HistoricalGaps([0, 1, 3], 1) == [Gap(2, 2, 1, Historical)]
  {
    assert [0, 1, 3][..2] == [0, 1];
    assert [0, 1][..1] == [0];
  }

  /** There is at most one recent gap. It is present exactly when the slot
      after the newest candle is closed, starts at that slot, ends at the
      last closed boundary (a boundary whose candle has ended by `now`), and
      counts the boundaries from its start to its end. */
  lemma RecentGapShape(latest: int, d: int, now: int)
    requires d > 0
    ensures |RecentGap(latest, d, now)| <= 1
    ensures |RecentGap(latest, d, now)| == 1 <==> latest + d <= LastClosedBoundary(now, d)
    ensures forall g :: g in RecentGap(latest, d, now) ==>
      g.kind == Recent && g.startTs == latest + d && g.startTs <= g.endTs &&
      g.endTs == LastClosedBoundary(now, d) && Aligned(g.endTs, d) && g.endTs + d <= now &&
      g.missedCandles == (g.endTs - g.startTs) / d + 1 && g.missedCandles >= 1
  {
  }

  /** A failed read and an empty pair give no gaps; otherwise every stored
      candle is counted and the recent gap, if any, comes last. */
  lemma AnalysisCases(records: Option<seq<int>>, d: int, now: int)
    requires d > 0
    ensures records.None? ==> AnalysisOf(records, d, now) == Analysis([], 0, true)
    ensures records == Some([]) ==> AnalysisOf(records, d, now) == Analysis([], 0, false)
    ensures records.Some? && records.value != [] ==>
      var a := AnalysisOf(records, d, now);
      !a.error && a.totalRecords == |records.value| &&
      a.gaps[..|HistoricalGaps(records.value, d)|] == HistoricalGaps(records.value, d) &&
      |a.gaps| - |HistoricalGaps(records.value, d)| <= 1
  {
    if records.Some? && records.value != [] {
      var ts := records.value;
      RecentGapShape(ts[|ts| - 1], d, now);
      var a := AnalysisOf(records, d, now);
      assert a.gaps[..|HistoricalGaps(ts, d)|] == HistoricalGaps(ts, d);
    }
  }
}
