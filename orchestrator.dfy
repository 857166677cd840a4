/** One run of the reconciliation job: for every asset and interval, analyse
    the pair's gaps, fill them, and recompute indicators only when new
    candles were stored; the counters of the run are an object every pair
    updates in place (`processAssetInterval`,
    `comprehensiveDataUpdateParallel`). */
module Orchestrator {
  import opened Util
  import opened TimeGrid
  import opened Gaps
  import opened Store
  import opened GapFill
  import opened IndicatorPatch

  /** What the outside world answers while one pair is processed: whether
      the gap analysis could read the pair, the wall-clock time, what the
      exchange returns for each gap, whether each candle write succeeds,
      whether the indicator phase could read the pair, and whether each
      indicator update succeeds. */
  datatype Env = Env(analysisReadOk: bool, now: int, fetch: Gap -> Fetch, writeOk: Key -> bool,
                     indicatorReadOk: bool, patchOk: Key -> bool)

  /** What one pair adds to the run's counters. */
  datatype Delta = Delta(totalFilled: nat, fillErrors: nat, indicatorsUpdated: nat,
                         indicatorErrors: nat, errors: nat)

  function Plus(a: Delta, b: Delta): Delta
  {
    Delta(a.totalFilled + b.totalFilled, a.fillErrors + b.fillErrors,
          a.indicatorsUpdated + b.indicatorsUpdated, a.indicatorErrors + b.indicatorErrors,
          a.errors + b.errors)
  }

  /** The `stats` object of a run. */
  class Stats {
    var combinations: nat
    var totalFilled: nat
    var fillErrors: nat
    var indicatorsUpdated: nat
    var indicatorErrors: nat
    var errors: nat

    constructor ()
      ensures combinations == 0 && Counters() == Delta(0, 0, 0, 0, 0)
    {
      combinations := 0;
      totalFilled := 0;
      fillErrors := 0;
      indicatorsUpdated := 0;
      indicatorErrors := 0;
      errors := 0;
    }

    /** Every counter but `combinations`. */
    function Counters(): Delta
      reads this
    {
      Delta(totalFilled, fillErrors, indicatorsUpdated, indicatorErrors, errors)
    }
  }

  /** The pair's stored timestamps as the gap analysis reads them, or `None`
      when the read fails. */
  function AnalysisInput(t: Table, asset: string, interval: string, env: Env): Option<seq<int>>
  {
    if env.analysisReadOk then Some(PairTimestamps(t, asset, interval)) else None
  }

  /** The table after one pair has been processed, and what the pair adds to
      the counters. */
  function ProcessOutcome(t: Table, asset: string, interval: string, env: Env): (Table, Delta)
    requires interval in Intervals
  {
    var d := IntervalMs(interval).value;
    var analysis := AnalysisOf(AnalysisInput(t, asset, interval, env), d, env.now);
    if analysis.error then (t, Delta(0, 0, 0, 0, 1))
    else
      var fill := FillStage(t, asset, interval, d, analysis.gaps, env);
      var patch := IndicatorStage(fill.0, asset, interval, fill.1.filled, env);
      (patch.0, Plus(Delta(fill.1.filled, fill.1.errors, 0, 0, 0), patch.1))
  }

  /** The fill phase of one pair: nothing when there are no gaps. */
  function FillStage(t: Table, asset: string, interval: string, d: int, gaps: seq<Gap>, env: Env)
    : (Table, FillResult)
    requires d > 0
  {
    if gaps == [] then (t, FillResult(0, 0))
    else
      var (t1, results) := FillAll(t, asset, interval, d, env.now, gaps, env.fetch, env.writeOk);
      (t1, Reduce(results))
  }

  /** The indicator phase of one pair, run only when the fill stored a
      candle, and what it adds to the indicator counters. */
  function IndicatorStage(t: Table, asset: string, interval: string, filled: nat, env: Env): (Table, Delta)
  {
    if filled > 0 then
      var (t2, patch) := IndicatorPhase(t, asset, interval, env.indicatorReadOk, env.patchOk);
      (t2, Delta(0, 0, patch.updated, if patch.error then 1 else 0, 0))
    else (t, Delta(0, 0, 0, 0, 0))
  }

  /** `processAssetInterval`: a failed analysis counts one general error and
      stops; gaps are filled and their totals added; indicators are
      recomputed only when at least one candle was stored. */
  method ProcessAssetInterval(stats: Stats, t: Table, asset: string, interval: string, env: Env)
    returns (t': Table)
    requires interval in Intervals
    modifies stats
    ensures (t', stats.Counters()) ==
      var (u, delta) := ProcessOutcome(t, asset, interval, env);
      (u, Plus(old(stats.Counters()), delta))
    ensures stats.combinations == old(stats.combinations)
  {
    var d := IntervalMs(interval).value;
    var analysis := AnalyzeDataGaps(AnalysisInput(t, asset, interval, env), d, env.now);
    if analysis.error {
      stats.errors := stats.errors + 1;
      return t;
    }
    ghost var start := stats.Counters();
    ghost var fill := FillStage(t, asset, interval, d, analysis.gaps, env);
    var newCandlesInserted;
    t', newCandlesInserted := FillPhase(stats, t, asset, interval, d, analysis.gaps, env);
    ghost var patch := IndicatorStage(t', asset, interval, newCandlesInserted, env);
    t' := IndicatorPhaseStep(stats, t', asset, interval, newCandlesInserted, env);
    PlusAssociative(start, Delta(fill.1.filled, fill.1.errors, 0, 0, 0), patch.1);
    assert ProcessOutcome(t, asset, interval, env) ==
      (patch.0, Plus(Delta(fill.1.filled, fill.1.errors, 0, 0, 0), patch.1));
  }

  /** The fill half of `processAssetInterval`: fill the gaps, if any, and add
      the totals to the counters. */
  method FillPhase(stats: Stats, t: Table, asset: string, interval: string, d: int, gaps: seq<Gap>, env: Env)
    returns (t': Table, newCandlesInserted: nat)
    requires d > 0
    modifies stats
    ensures (t', newCandlesInserted) == (FillStage(t, asset, interval, d, gaps, env).0,
                                        FillStage(t, asset, interval, d, gaps, env).1.filled)
    ensures var fill := FillStage(t, asset, interval, d, gaps, env).1;
      stats.Counters() == Plus(old(stats.Counters()), Delta(fill.filled, fill.errors, 0, 0, 0))
    ensures stats.combinations == old(stats.combinations)
  {
    newCandlesInserted := 0;
    t' := t;
    if |gaps| > 0 {
      var fill;
      t', fill := FillDataGaps(t, asset, interval, d, env.now, gaps, env.fetch, env.writeOk);
      stats.totalFilled := stats.totalFilled + fill.filled;
      stats.fillErrors := stats.fillErrors + fill.errors;
      newCandlesInserted := fill.filled;
    }
  }

  /** The indicator half of `processAssetInterval`: run only when candles
      were stored; add the updates and a possible error to the counters. */
  method IndicatorPhaseStep(stats: Stats, t: Table, asset: string, interval: string, newCandlesInserted: nat, env: Env)
    returns (t': Table)
    modifies stats
    ensures t' == IndicatorStage(t, asset, interval, newCandlesInserted, env).0
    ensures stats.Counters() == Plus(old(stats.Counters()), IndicatorStage(t, asset, interval, newCandlesInserted, env).1)
    ensures stats.combinations == old(stats.combinations)
  {
    t' := t;
    if newCandlesInserted > 0 {
      var patch;
      t', patch := CalculateIndicators(t, asset, interval, env.indicatorReadOk, env.patchOk);
      stats.indicatorsUpdated := stats.indicatorsUpdated + patch.updated;
      if patch.error {
        stats.indicatorErrors := stats.indicatorErrors + 1;
      }
    }
  }

  /** The gating of one pair: a failed analysis adds exactly one general
      error and changes nothing else; a pair that stored no candle leaves
      the table unchanged and never reaches the indicator phase; an
      indicator error is counted only after a fill stored candles and the
      indicator read failed; every gap counts in the fill totals. */
  lemma ProcessGating(t: Table, asset: string, interval: string, env: Env)
    requires interval in Intervals
    ensures var (t', delta) := ProcessOutcome(t, asset, interval, env);
      (!env.analysisReadOk ==> t' == t && delta == Delta(0, 0, 0, 0, 1)) &&
      (env.analysisReadOk ==> delta.errors == 0) &&
      (delta.totalFilled == 0 ==> t' == t && delta.indicatorsUpdated == 0 && delta.indicatorErrors == 0) &&
      (delta.indicatorErrors > 0 ==> delta.indicatorErrors == 1 && delta.totalFilled > 0 && !env.indicatorReadOk)
    ensures env.analysisReadOk ==>
      var d := IntervalMs(interval).value;
      var gaps := AnalysisOf(AnalysisInput(t, asset, interval, env), d, env.now).gaps;
      ProcessOutcome(t, asset, interval, env).1.totalFilled +
        ProcessOutcome(t, asset, interval, env).1.fillErrors >= |gaps|
  {
    var d := IntervalMs(interval).value;
    var analysis := AnalysisOf(AnalysisInput(t, asset, interval, env), d, env.now);
    if !analysis.error {
      var fill := FillStage(t, asset, interval, d, analysis.gaps, env);
      FillStageEffect(t, asset, interval, d, analysis.gaps, env);
      IndicatorStageEffect(fill.0, asset, interval, fill.1.filled, env);
      var patch := IndicatorStage(fill.0, asset, interval, fill.1.filled, env);
      assert ProcessOutcome(t, asset, interval, env) ==
        (patch.0, Plus(Delta(fill.1.filled, fill.1.errors, 0, 0, 0), patch.1));
    }
  }

  /** The two facts about one pair that add up over a run. */
  lemma OutcomeTotals(t: Table, asset: string, interval: string, env: Env, outcome: (Table, Delta))
    requires interval in Intervals && outcome == ProcessOutcome(t, asset, interval, env)
    ensures outcome.1.errors == if env.analysisReadOk then 0 else 1
    ensures outcome.1.totalFilled == 0 ==>
      outcome.0 == t && outcome.1.indicatorsUpdated == 0 && outcome.1.indicatorErrors == 0
  {
    ProcessGating(t, asset, interval, env);
  }

  /** Every gap counts at least once in the fill totals, and a fill that
      stored nothing left the table unchanged. */
  lemma FillStageEffect(t: Table, asset: string, interval: string, d: int, gaps: seq<Gap>, env: Env)
    requires d > 0
    ensures var fill := FillStage(t, asset, interval, d, gaps, env);
      fill.1.filled + fill.1.errors >= |gaps| && (fill.1.filled == 0 ==> fill.0 == t)
  {
    if gaps != [] {
      FillAllAccounting(t, asset, interval, d, env.now, gaps, env.fetch, env.writeOk);
    }
  }

  /** The indicator stage touches only the indicator counters; it does
      nothing without new candles; it counts at most one error, and only
      when the indicator read failed. */
  lemma IndicatorStageEffect(t: Table, asset: string, interval: string, filled: nat, env: Env)
    ensures var patch := IndicatorStage(t, asset, interval, filled, env);
      (filled == 0 ==> patch == (t, Delta(0, 0, 0, 0, 0))) &&
      patch.1.totalFilled == 0 && patch.1.fillErrors == 0 && patch.1.errors == 0 &&
      (patch.1.indicatorErrors > 0 ==> patch.1.indicatorErrors == 1 && filled > 0 && !env.indicatorReadOk)
  {
    if filled > 0 {
      IndicatorPhaseEffect(t, asset, interval, env.indicatorReadOk, env.patchOk);
    }
  }

  /** Every asset paired with every interval, asset by asset. */
  function Combinations(assets: seq<string>): (pairs: seq<(string, string)>)
    ensures |pairs| == |assets| * |Intervals|
    ensures forall i :: 0 <= i < |pairs| ==> pairs[i].0 in assets && pairs[i].1 in Intervals
    decreases |assets|
  {
    if assets == [] then []
    else
      var last := assets[|assets| - 1];
      var earlier := Combinations(assets[..|assets| - 1]);
      earlier + seq(|Intervals|, j requires 0 <= j < |Intervals| => (last, Intervals[j]))
  }

  /** One pair's processing as a step of the run. Every pair of a run has a
      known interval; the other branch is never taken. */
  function PairStep(env: (string, string) -> Env): (Table, string, string) -> (Table, Delta)
  {
    (t: Table, asset: string, interval: string) =>
      if interval in Intervals then ProcessOutcome(t, asset, interval, env(asset, interval))
      else (t, Delta(0, 0, 0, 0, 0))
  }

  /** The table after taking the steps for the pairs one after the other,
      and the counters they add up to. */
  function RunAll(t: Table, pairs: seq<(string, string)>, step: (Table, string, string) -> (Table, Delta))
    : (Table, Delta)
    decreases |pairs|
  {
    if pairs == [] then (t, Delta(0, 0, 0, 0, 0))
    else
      var before := RunAll(t, pairs[..|pairs| - 1], step);
      var last := step(before.0, pairs[|pairs| - 1].0, pairs[|pairs| - 1].1);
      (last.0, Plus(before.1, last.1))
  }

  /** How many of the pairs had a failed gap analysis. */
  function ReadFailures(pairs: seq<(string, string)>, env: (string, string) -> Env): nat
    decreases |pairs|
  {
    if pairs == [] then 0
    else
      var (asset, interval) := pairs[|pairs| - 1];
      ReadFailures(pairs[..|pairs| - 1], env) + (if env(asset, interval).analysisReadOk then 0 else 1)
  }

  /** `comprehensiveDataUpdateParallel`, with the pairs processed one after
      the other: every combination is counted once, and the other counters
      add up what each pair contributed. */
  method ProcessAll(stats: Stats, t: Table, assets: seq<string>, env: (string, string) -> Env)
    returns (t': Table)
    modifies stats
    ensures stats.combinations == old(stats.combinations) + |assets| * |Intervals|
    ensures t' == RunAll(t, Combinations(assets), PairStep(env)).0
    ensures stats.Counters() == Plus(old(stats.Counters()), RunAll(t, Combinations(assets), PairStep(env)).1)
  {
    var pairs := Combinations(assets);
    t' := ProcessPairs(stats, t, pairs, env);
  }

  /** The loop of `ProcessAll` over a given list of pairs, each with a known
      interval. */
  method ProcessPairs(stats: Stats, t: Table, pairs: seq<(string, string)>, env: (string, string) -> Env)
    returns (t': Table)
    requires forall i :: 0 <= i < |pairs| ==> pairs[i].1 in Intervals
    modifies stats
    ensures stats.combinations == old(stats.combinations) + |pairs|
    ensures t' == RunAll(t, pairs, PairStep(env)).0
    ensures stats.Counters() == Plus(old(stats.Counters()), RunAll(t, pairs, PairStep(env)).1)
  {
    ghost var start := stats.Counters();
    t' := t;
    for i := 0 to |pairs|
      invariant stats.combinations == old(stats.combinations) + i
      invariant t' == RunAll(t, pairs[..i], PairStep(env)).0
      invariant stats.Counters() == Plus(start, RunAll(t, pairs[..i], PairStep(env)).1)
    {
      t' := ProcessPair(stats, t, t', pairs, i, env, start);
    }
    assert pairs[..|pairs|] == pairs;
  }

  /** The loop body of `ProcessAll`: count pair `i` as a combination and
      process it, extending the run's table and counters by that pair. */
  method ProcessPair(stats: Stats, t: Table, current: Table, pairs: seq<(string, string)>, i: nat,
                     env: (string, string) -> Env, ghost start: Delta)
    returns (t': Table)
    requires i < |pairs| && pairs[i].1 in Intervals
    requires current == RunAll(t, pairs[..i], PairStep(env)).0
    requires stats.Counters() == Plus(start, RunAll(t, pairs[..i], PairStep(env)).1)
    modifies stats
    ensures t' == RunAll(t, pairs[..i + 1], PairStep(env)).0
    ensures stats.Counters() == Plus(start, RunAll(t, pairs[..i + 1], PairStep(env)).1)
    ensures stats.combinations == old(stats.combinations) + 1
  {
    stats.combinations := stats.combinations + 1;
    var (asset, interval) := pairs[i];
    ghost var step := PairStep(env);
    ghost var before := RunAll(t, pairs[..i], step);
    ghost var last := step(before.0, asset, interval);
    assert last == ProcessOutcome(before.0, asset, interval, env(asset, interval));
    t' := ProcessAssetInterval(stats, current, asset, interval, env(asset, interval));
    RunAllStep(t, pairs, step, i);
    PlusAssociative(start, before.1, last.1);
  }

  lemma PlusAssociative(a: Delta, b: Delta, c: Delta)
    ensures Plus(Plus(a, b), c) == Plus(a, Plus(b, c))
  {
  }

  /** One more pair extends the run by that pair's step. */
  lemma RunAllStep(t: Table, pairs: seq<(string, string)>, step: (Table, string, string) -> (Table, Delta), i: nat)
    requires i < |pairs|
    ensures var before := RunAll(t, pairs[..i], step);
      var last := step(before.0, pairs[i].0, pairs[i].1);
      RunAll(t, pairs[..i + 1], step) == (last.0, Plus(before.1, last.1))
  {
    assert pairs[..i + 1][..i] == pairs[..i];
  }

  /** What one step must keep for the run totals to add up: one general
      error exactly when the analysis read failed, and no change and no
      indicator work when nothing was stored. */
  predicate StepKeeps(before: Table, outcome: (Table, Delta), readOk: bool)
  {
    outcome.1.errors == (if readOk then 0 else 1) &&
    (outcome.1.totalFilled == 0 ==>
      outcome.0 == before && outcome.1.indicatorsUpdated == 0 && outcome.1.indicatorErrors == 0)
  }

  /** Steps that keep `StepKeeps` add up over a run. */
  lemma {:induction false} RunAllKeeps(t: Table, pairs: seq<(string, string)>,
                                       step: (Table, string, string) -> (Table, Delta), env: (string, string) -> Env)
    requires forall j, t0 :: 0 <= j < |pairs| ==>
      StepKeeps(t0, step(t0, pairs[j].0, pairs[j].1), env(pairs[j].0, pairs[j].1).analysisReadOk)
    ensures RunAll(t, pairs, step).1.errors == ReadFailures(pairs, env)
    ensures RunAll(t, pairs, step).1.totalFilled == 0 ==>
      RunAll(t, pairs, step).0 == t &&
      RunAll(t, pairs, step).1.indicatorsUpdated == 0 && RunAll(t, pairs, step).1.indicatorErrors == 0
    decreases |pairs|
  {
    if pairs != [] {
      var prefix := pairs[..|pairs| - 1];
      assert forall j :: 0 <= j < |prefix| ==> prefix[j] == pairs[j];
      RunAllKeeps(t, prefix, step, env);
      var before := RunAll(t, prefix, step);
      var (asset, interval) := pairs[|pairs| - 1];
      assert StepKeeps(before.0, step(before.0, asset, interval), env(asset, interval).analysisReadOk);
    }
  }

  /** Over a whole run: the general errors are exactly the failed analyses,
      and a run that stored no candle changed nothing and updated no
      indicator. */
  lemma RunTotals(t: Table, assets: seq<string>, env: (string, string) -> Env)
    ensures var (t', total) := RunAll(t, Combinations(assets), PairStep(env));
      total.errors == ReadFailures(Combinations(assets), env) &&
      (total.totalFilled == 0 ==> t' == t && total.indicatorsUpdated == 0 && total.indicatorErrors == 0)
  {
    var pairs := Combinations(assets);
    var step := PairStep(env);
    forall j, t0 | 0 <= j < |pairs|
      ensures StepKeeps(t0, step(t0, pairs[j].0, pairs[j].1), env(pairs[j].0, pairs[j].1).analysisReadOk)
    {
      var (asset, interval) := pairs[j];
      OutcomeTotals(t0, asset, interval, env(asset, interval), ProcessOutcome(t0, asset, interval, env(asset, interval)));
    }
    RunAllKeeps(t, pairs, step, env);
  }
}
