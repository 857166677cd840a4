/** The CoinMarketCap dominance ingester: market-cap series per symbol,
    the dominance percentage of each symbol at every timestamp the series
    share, and the keyed upsert of those points. A Python dictionary that
    keeps insertion order is a sequence of (name, value) pairs with distinct
    names; a timestamp is an integer. */
module CmcDominance {
  import opened Util
  import opened LastWins

  /** A symbol's market caps, `[(ts, market_cap), ...]`, in response order. */
  type Series = seq<(int, real)>

  /** An insertion-ordered dictionary from symbol to series. */
  type Dict = seq<(string, Series)>

  /** Dictionary keys are distinct. */
  predicate DistinctNames<V>(d: seq<(string, V)>)
  {
    forall i, j :: 0 <= i < j < |d| ==> d[i].0 != d[j].0
  }

  datatype Error = ValueError(message: string)

  // ---------------------------------------------------------------------
  // fetch_market_caps

  /** The interval check of `fetch_market_caps`: only `daily` and `hourly`
      are accepted, and are passed on unchanged. */
  function CmcInterval(interval: string): (r: Result<string, Error>)
    ensures r.Success? <==> interval == "daily" || interval == "hourly"
    ensures r.Success? ==> r.value == interval
  {
    if interval == "daily" then Success("daily")
    else if interval == "hourly" then Success("hourly")
    else Failure(ValueError("interval must be 'daily' or 'hourly'"))
  }

  /** `fetch_market_caps`, given the symbol ids and, for each id, the quotes
      the endpoint returns. `requested` lists the ids queried, in order. A
      bad interval raises before any request. */
  method FetchMarketCaps(symbols: seq<(string, int)>, interval: string, quotes: int -> Series)
    returns (r: Result<Dict, Error>, requested: seq<int>)
    requires DistinctNames(symbols)
    ensures r.Failure? <==> CmcInterval(interval).Failure?
    ensures r.Failure? ==> requested == [] && r.error == CmcInterval(interval).error
    ensures r.Success? ==>
      |requested| == |r.value| == |symbols| && DistinctNames(r.value) &&
      forall i :: 0 <= i < |symbols| ==>
        requested[i] == symbols[i].1 && r.value[i] == (symbols[i].0, quotes(symbols[i].1))
  {
    requested := [];
    var checked := CmcInterval(interval);
    if checked.Failure? {
      return Failure(checked.error), requested;
    }
    var out: Dict := [];
    for i := 0 to |symbols|
      invariant |requested| == |out| == i
      invariant forall k :: 0 <= k < i ==> requested[k] == symbols[k].1 && out[k] == (symbols[k].0, quotes(symbols[k].1))
    {
      var (sym, id) := symbols[i];
      requested := requested + [id];
      out := out + [(sym, quotes(id))];
    }
    r := Success(out);
  }

  // ---------------------------------------------------------------------
  // compute_dominance_series

  /** The timestamps of a series. */
  function Times(s: Series): set<int>
    decreases |s|
  {
    if s == [] then {} else {s[0].0} + Times(s[1..])
  }

  /** `next(v for tt, v in s if tt == t)`: the value of the first entry at
      `t`. It is only ever asked for a timestamp the series has; the `0.0`
      for a missing one is never used. */
  function FirstValue(s: Series, t: int): real
    decreases |s|
  {
    if s == [] then 0.0 else if s[0].0 == t then s[0].1 else FirstValue(s[1..], t)
  }

  /** The timestamps present in every series; none when there is no series. */
  function Common(series: Dict): set<int>
    decreases |series|
  {
    if |series| == 0 then {}
    else if |series| == 1 then Times(series[0].1)
    else Common(series[..|series| - 1]) * Times(series[|series| - 1].1)
  }

  /** The sum over the symbols of each one's first value at `t`. */
  function Total(series: Dict, t: int): real
    decreases |series|
  {
    if series == [] then 0.0
    else Total(series[..|series| - 1], t) + FirstValue(series[|series| - 1].1, t)
  }

  /** The timestamps of `ts` whose total is positive, in order. */
  function Positive(series: Dict, ts: seq<int>): (kept: seq<int>)
    ensures forall i :: 0 <= i < |kept| ==> Total(series, kept[i]) > 0.0
    decreases |ts|
  {
    if ts == [] then []
    else
      var t := ts[|ts| - 1];
      Positive(series, ts[..|ts| - 1]) + if Total(series, t) > 0.0 then [t] else []
  }

  /** The timestamps the output carries: the common ones, ascending, whose
      total is positive. */
  function Emitted(series: Dict): seq<int>
  {
    Positive(series, SortedSet(Common(series)))
  }

  /** The dominance points of one symbol over the timestamps `ts`. */
  function SharesOf(series: Dict, s: Series, ts: seq<int>): Series
    requires forall i :: 0 <= i < |ts| ==> Total(series, ts[i]) > 0.0
  {
    seq(|ts|, i requires 0 <= i < |ts| => (ts[i], 100.0 * FirstValue(s, ts[i]) / Total(series, ts[i])))
  }

  /** The output after the timestamps `ts` of the sorted common set have
      been visited. */
  function DominanceOver(series: Dict, ts: seq<int>): Dict
  {
    var kept := Positive(series, ts);
    seq(|series|, j requires 0 <= j < |series| => (series[j].0, SharesOf(series, series[j].1, kept)))
  }

  /** The result of `compute_dominance_series`. */
  function Dominance(series: Dict): Dict
  {
    DominanceOver(series, SortedSet(Common(series)))
  }

  /** A timestamp is common exactly when every series has it (and there is
      at least one series). */
  lemma {:induction false} CommonIn(series: Dict, t: int)
    ensures t in Common(series) <==> |series| > 0 && forall j :: 0 <= j < |series| ==> t in Times(series[j].1)
    decreases |series|
  {
    if |series| > 1 {
      var prefix := series[..|series| - 1];
      CommonIn(prefix, t);
      assert forall j :: 0 <= j < |prefix| ==> prefix[j] == series[j];
    }
  }

  /** The positive timestamps are those of `ts` with a positive total. */
  lemma {:induction false} PositiveWithin(series: Dict, ts: seq<int>)
    ensures forall t :: t in Positive(series, ts) <==> t in ts && Total(series, t) > 0.0
    decreases |ts|
  {
    if ts != [] {
      var prefix := ts[..|ts| - 1];
      PositiveWithin(series, prefix);
      assert forall x :: x in ts <==> x in prefix || x == ts[|ts| - 1];
    }
  }

  /** The positive timestamps keep the order of `ts`: ascending ones stay
      ascending. */
  lemma {:induction false} PositiveAscending(series: Dict, ts: seq<int>)
    requires forall i, j :: 0 <= i < j < |ts| ==> ts[i] < ts[j]
    ensures forall i, j :: 0 <= i < j < |Positive(series, ts)| ==> Positive(series, ts)[i] < Positive(series, ts)[j]
    decreases |ts|
  {
    if ts != [] {
      var prefix := ts[..|ts| - 1];
      var t := ts[|ts| - 1];
      PositiveAscending(series, prefix);
      PositiveWithin(series, prefix);
      var kept := Positive(series, prefix);
      forall i | 0 <= i < |kept| ensures kept[i] < t {
        assert kept[i] in prefix;
      }
    }
  }

  /** `FirstValue` is the value of the first entry at `t`. */
  lemma {:induction false} FirstValueIsFirst(s: Series, t: int)
    requires t in Times(s)
    ensures exists i :: (0 <= i < |s| && s[i] == (t, FirstValue(s, t)) &&
      forall k :: 0 <= k < i ==> s[k].0 != t)
    decreases |s|
  {
    if s[0].0 != t {
      FirstValueIsFirst(s[1..], t);
      var i :| 0 <= i < |s[1..]| && s[1..][i] == (t, FirstValue(s[1..], t)) &&
        forall k :: 0 <= k < i ==> s[1..][k].0 != t;
      assert s[i + 1] == (t, FirstValue(s, t));
    } else {
      assert s[0] == (t, FirstValue(s, t));
    }
  }

  /** A timestamp is emitted exactly when every series has it and the
      total there is positive; the emitted timestamps ascend. */
  lemma EmittedExactly(series: Dict)
    ensures forall t :: t in Emitted(series) <==>
      |series| > 0 && (forall j :: 0 <= j < |series| ==> t in Times(series[j].1)) && Total(series, t) > 0.0
    ensures forall i, k :: 0 <= i < k < |Emitted(series)| ==> Emitted(series)[i] < Emitted(series)[k]
  {
    var sorted := SortedSet(Common(series));
    PositiveWithin(series, sorted);
    PositiveAscending(series, sorted);
    forall t ensures t in Emitted(series) <==>
      |series| > 0 && (forall j :: 0 <= j < |series| ==> t in Times(series[j].1)) && Total(series, t) > 0.0
    {
      CommonIn(series, t);
    }
  }

  /** The output has a list for every symbol, in the input's order, each
      carrying exactly the emitted timestamps, so all lists have the same
      length; each point is `100 * v / total` with `v` the symbol's first
      value at that timestamp. */
  lemma DominanceShape(series: Dict, j: nat, i: nat)
    requires j < |series|
    ensures |Dominance(series)| == |series|
    ensures Dominance(series)[j].0 == series[j].0
    ensures |Dominance(series)[j].1| == |Emitted(series)|
    ensures i < |Emitted(series)| ==>
      var t := Emitted(series)[i];
      Dominance(series)[j].1[i] == (t, 100.0 * FirstValue(series[j].1, t) / Total(series, t))
  {
  }

  /** The sum of the shares of the first `n` symbols at `t`. */
  function ShareSum(series: Dict, t: int, n: nat): real
    requires n <= |series| && Total(series, t) > 0.0
    decreases n
  {
    if n == 0 then 0.0
    else
      ShareSum(series, t, n - 1) + 100.0 * FirstValue(series[n - 1].1, t) / Total(series, t)
  }

  /** The shares of the first `n` symbols add up to their part of the total. */
  lemma {:induction false} ShareSumPartial(series: Dict, t: int, n: nat)
    requires n <= |series| && Total(series, t) > 0.0
    ensures ShareSum(series, t, n) == 100.0 * Total(series[..n], t) / Total(series, t)
    decreases n
  {
    if n > 0 {
      ShareSumPartial(series, t, n - 1);
      assert series[..n][..n - 1] == series[..n - 1];
      var total := Total(series, t);
      var before := Total(series[..n - 1], t);
      var v := FirstValue(series[n - 1].1, t);
      assert Total(series[..n], t) == before + v;
      assert 100.0 * (before + v) == 100.0 * before + 100.0 * v;
      DivideSum(100.0 * before, 100.0 * v, total);
    }
  }

  /** At every emitted timestamp the symbols' dominance values add up to
      100. */
  lemma SharesSumTo100(series: Dict, t: int)
    requires t in Emitted(series)
    ensures Total(series, t) > 0.0 && ShareSum(series, t, |series|) == 100.0
  {
    var i :| 0 <= i < |Emitted(series)| && Emitted(series)[i] == t;
    ShareSumPartial(series, t, |series|);
    assert series[..|series|] == series;
    WholeIsHundred(Total(series, t));
  }

  /** A whole divided by itself is 100 percent. */
  lemma WholeIsHundred(total: real)
    requires total > 0.0
    ensures 100.0 * total / total == 100.0
  {
    var q := 100.0 * total / total;
    assert q * total == 100.0 * total;
    assert (q - 100.0) * total == 0.0;
  }

  /** `compute_dominance_series`: walk the sorted common timestamps, sum the
      first values, skip a non-positive total, and append each symbol's
      share. */
  method ComputeDominanceSeries(series: Dict) returns (out: Dict)
    ensures out == Dominance(series)
  {
    var common := Common(series);
    var ts := SortedSet(common);
    out := seq(|series|, j requires 0 <= j < |series| => (series[j].0, []));
    NothingVisited(series, out);
    assert ts[..0] == [];
    for i := 0 to |ts|
      invariant out == DominanceOver(series, ts[..i])
    {
      var t := ts[i];
      var total := SumAt(series, t);
      assert ts[..i] + [t] == ts[..i + 1];
      if total <= 0.0 {
        SkipNonPositive(series, ts[..i], t);
        continue;
      }
      out := AppendShares(series, ts[..i], t, total, out);
    }
    assert ts[..|ts|] == ts;
  }

  /** Before any timestamp is visited every symbol has an empty list. */
  lemma NothingVisited(series: Dict, out: Dict)
    requires |out| == |series|
    requires forall j :: 0 <= j < |series| ==> out[j] == (series[j].0, [])
    ensures out == DominanceOver(series, [])
  {
    forall j | 0 <= j < |series| ensures out[j] == DominanceOver(series, [])[j] {
      assert SharesOf(series, series[j].1, []) == [];
    }
  }

  /** A timestamp whose total is not positive is skipped. */
  lemma SkipNonPositive(series: Dict, visited: seq<int>, t: int)
    requires Total(series, t) <= 0.0
    ensures DominanceOver(series, visited + [t]) == DominanceOver(series, visited)
  {
    var visited' := visited + [t];
    assert visited'[..|visited'| - 1] == visited;
    assert Positive(series, visited') == Positive(series, visited);
  }

  /** The `sum(...)` of the first values at `t`, symbol by symbol. */
  method SumAt(series: Dict, t: int) returns (total: real)
    ensures total == Total(series, t)
  {
    total := 0.0;
    for j := 0 to |series|
      invariant total == Total(series[..j], t)
    {
      assert series[..j + 1][..j] == series[..j];
      total := total + FirstValue(series[j].1, t);
    }
    assert series[..|series|] == series;
  }

  /** The inner loop: append `(t, 100 * v / total)` to every symbol's list. */
  method AppendShares(series: Dict, visited: seq<int>, t: int, total: real, out: Dict) returns (out': Dict)
    requires total == Total(series, t) && total > 0.0
    requires out == DominanceOver(series, visited)
    ensures out' == DominanceOver(series, visited + [t])
  {
    ghost var target := DominanceOver(series, visited + [t]);
    out' := out;
    for j := 0 to |series|
      invariant |out'| == |series|
      invariant forall k :: 0 <= k < j ==> out'[k] == target[k]
      invariant forall k :: j <= k < |series| ==> out'[k] == out[k]
    {
      var v := FirstValue(series[j].1, t);
      ShareAppended(series, visited, t, j);
      out' := out'[j := (out'[j].0, out'[j].1 + [(t, 100.0 * v / total)])];
      assert out'[j].0 == target[j].0 && out'[j].1 == target[j].1;
    }
  }

  /** One symbol's list after visiting one more positive timestamp. */
  lemma ShareAppended(series: Dict, visited: seq<int>, t: int, j: nat)
    requires j < |series| && Total(series, t) > 0.0
    ensures |DominanceOver(series, visited)| == |series|
    ensures |DominanceOver(series, visited + [t])| == |series|
    ensures DominanceOver(series, visited + [t])[j].0 == DominanceOver(series, visited)[j].0
    ensures DominanceOver(series, visited + [t])[j].1 ==
      DominanceOver(series, visited)[j].1 + [(t, 100.0 * FirstValue(series[j].1, t) / Total(series, t))]
  {
    PositiveSnoc(series, visited, t);
    SharesOfSnoc(series, series[j].1, Positive(series, visited), t);
    DominanceOverAt(series, visited, j);
    DominanceOverAt(series, visited + [t], j);
  }

  /** Entry `j` of the output is symbol `j`'s shares over the kept
      timestamps. */
  lemma DominanceOverAt(series: Dict, visited: seq<int>, j: nat)
    requires j < |series|
    ensures |DominanceOver(series, visited)| == |series|
    ensures DominanceOver(series, visited)[j].0 == series[j].0
    ensures DominanceOver(series, visited)[j].1 == SharesOf(series, series[j].1, Positive(series, visited))
  {
  }

  /** A positive timestamp visited last is kept last. */
  lemma PositiveSnoc(series: Dict, visited: seq<int>, t: int)
    requires Total(series, t) > 0.0
    ensures Positive(series, visited + [t]) == Positive(series, visited) + [t]
  {
    var visited' := visited + [t];
    assert visited'[..|visited'| - 1] == visited;
  }

  /** Visiting one more positive timestamp appends one point. */
  lemma SharesOfSnoc(series: Dict, s: Series, kept: seq<int>, t: int)
    requires forall i :: 0 <= i < |kept| ==> Total(series, kept[i]) > 0.0
    requires Total(series, t) > 0.0
    ensures SharesOf(series, s, kept + [t]) ==
      SharesOf(series, s, kept) + [(t, 100.0 * FirstValue(s, t) / Total(series, t))]
  {
    var a := SharesOf(series, s, kept + [t]);
    var b := SharesOf(series, s, kept) + [(t, 100.0 * FirstValue(s, t) / Total(series, t))];
    assert |a| == |b|;
    forall i | 0 <= i < |a| ensures a[i] == b[i] {
      if i < |kept| {
        assert (kept + [t])[i] == kept[i];
      }
    }
  }

  // ---------------------------------------------------------------------
  // upsert_dominance

  /** The unique key of a dominance point. */
  datatype DomKey = DomKey(asset: string, interval: string, ts: int)

  /** The stored `close` of every dominance point. */
  type DomTable = map<DomKey, real>

  /** The upsert statements of one symbol's points. */
  function SymbolRows(interval: string, sym: string, points: Series): seq<(DomKey, real)>
  {
    seq(|points|, i requires 0 <= i < |points| => (DomKey(sym, interval, points[i].0), points[i].1))
  }

  /** The upsert statements of the whole output, symbol by symbol. */
  function DominanceRows(interval: string, dom: Dict): seq<(DomKey, real)>
    decreases |dom|
  {
    if dom == [] then []
    else DominanceRows(interval, dom[..|dom| - 1]) + SymbolRows(interval, dom[|dom| - 1].0, dom[|dom| - 1].1)
  }

  /** The number of points in the output. */
  function PointCount(dom: Dict): nat
    decreases |dom|
  {
    if dom == [] then 0 else PointCount(dom[..|dom| - 1]) + |dom[|dom| - 1].1|
  }

  /** `upsert_dominance`: every point is inserted, or replaces the `close`
      of the stored point with the same key; the count is of statements,
      not of distinct keys. */
  method UpsertDominance(table: DomTable, interval: string, dom: Dict) returns (table': DomTable, n: nat)
    ensures table' == AssignAll(table, DominanceRows(interval, dom))
    ensures n == PointCount(dom) == |DominanceRows(interval, dom)|
  {
    table' := table;
    n := 0;
    for a := 0 to |dom|
      invariant table' == AssignAll(table, DominanceRows(interval, dom[..a]))
      invariant n == PointCount(dom[..a]) == |DominanceRows(interval, dom[..a])|
    {
      assert dom[..a + 1][..a] == dom[..a];
      var (sym, rows) := dom[a];
      AssignAllConcat(table, DominanceRows(interval, dom[..a]), SymbolRows(interval, sym, rows));
      ghost var before := table';
      for b := 0 to |rows|
        invariant table' == AssignAll(before, SymbolRows(interval, sym, rows)[..b])
        invariant n == PointCount(dom[..a]) + b
      {
        var (t, close) := rows[b];
        var entries := SymbolRows(interval, sym, rows)[..b + 1];
        assert entries[..b] == SymbolRows(interval, sym, rows)[..b];
        table' := table'[DomKey(sym, interval, t) := close];
        n := n + 1;
      }
      assert SymbolRows(interval, sym, rows)[..|rows|] == SymbolRows(interval, sym, rows);
      assert dom[..a + 1][a] == (sym, rows);
      assert DominanceRows(interval, dom[..a + 1]) ==
        DominanceRows(interval, dom[..a]) + SymbolRows(interval, sym, rows);
      assert PointCount(dom[..a + 1]) == PointCount(dom[..a]) + |rows|;
    }
    assert dom[..|dom|] == dom;
  }

  /** Assigning two batches one after the other is assigning their
      concatenation. */
  lemma {:induction false} AssignAllConcat<K, V>(m: map<K, V>, x: seq<(K, V)>, y: seq<(K, V)>)
    ensures AssignAll(AssignAll(m, x), y) == AssignAll(m, x + y)
    decreases |y|
  {
    if y != [] {
      var z := x + y;
      assert z[..|z| - 1] == x + y[..|y| - 1];
      assert z[|z| - 1] == y[|y| - 1];
      AssignAllConcat(m, x, y[..|y| - 1]);
    } else {
      assert x + y == x;
    }
  }

  /** After the upsert a point's key holds the `close` of the last output
      point with that key; keys the output does not name keep their value;
      running the same upsert twice gives the same table. */
  lemma UpsertDominanceEffect(table: DomTable, interval: string, dom: Dict, k: DomKey)
    ensures var rows := DominanceRows(interval, dom);
      (LastValue(rows, k).Some? ==> k in AssignAll(table, rows) && AssignAll(table, rows)[k] == LastValue(rows, k).value) &&
      (LastValue(rows, k).None? ==>
        (k in AssignAll(table, rows) <==> k in table) && (k in table ==> AssignAll(table, rows)[k] == table[k]))
    ensures AssignAll(AssignAll(table, DominanceRows(interval, dom)), DominanceRows(interval, dom)) ==
      AssignAll(table, DominanceRows(interval, dom))
  {
    AssignAllLookup(table, DominanceRows(interval, dom), k);
    AssignAllIdempotent(table, DominanceRows(interval, dom));
  }
}
