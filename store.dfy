/** The candle table shared by the reconciliation job and the CoinGecko
    ingester, keyed by its uniqueness constraint `(asset, interval, ts)`.
    Each row holds the price fields and the five nullable indicator fields. */
module Store {
  import opened Util
  import opened LastWins

  datatype Key = Key(asset: string, interval: string, ts: int)

  /** Open, high, low, close and the nullable volume. */
  datatype Ohlcv = Ohlcv(open: real, high: real, low: real, close: real, volume: Option<real>)

  datatype Indicators = Indicators(
    rsi6: Option<real>, rsi12: Option<real>, rsi24: Option<real>,
    ema50: Option<real>, sma50: Option<real>)

  /** The indicator fields of a freshly inserted row. */
  const NoIndicators := Indicators(None, None, None, None, None)

  datatype Row = Row(prices: Ohlcv, indicators: Indicators)

  type Table = map<Key, Row>

  /** Insert-or-update on the unique key: a new row starts with null
      indicators; an existing row gets the new price fields and keeps its
      indicators. */
  function Upsert(t: Table, k: Key, o: Ohlcv): Table
  {
    t[k := Row(o, if k in t then t[k].indicators else NoIndicators)]
  }

  /** The upserts of `entries`, first to last. */
  function UpsertAll(t: Table, entries: seq<(Key, Ohlcv)>): Table
    decreases |entries|
  {
    if entries == [] then t
    else
      var last := entries[|entries| - 1];
      Upsert(UpsertAll(t, entries[..|entries| - 1]), last.0, last.1)
  }

  /** After a batch of upserts a key is present when it was before or the
      batch names it; its price fields are those of the batch's last entry
      for it, and its indicators are never touched. */
  lemma {:induction false} UpsertAllLookup(t: Table, entries: seq<(Key, Ohlcv)>, k: Key)
    ensures k in UpsertAll(t, entries) <==> k in t || LastValue(entries, k).Some?
    ensures LastValue(entries, k).Some? ==>
      UpsertAll(t, entries)[k].prices == LastValue(entries, k).value
    ensures k in UpsertAll(t, entries) ==>
      UpsertAll(t, entries)[k].indicators == if k in t then t[k].indicators else NoIndicators
    ensures LastValue(entries, k).None? && k in t ==> UpsertAll(t, entries)[k] == t[k]
    decreases |entries|
  {
    if entries != [] {
      UpsertAllLookup(t, entries[..|entries| - 1], k);
    }
  }

  /** Applying the same batch twice gives the same table as applying it once. */
  lemma UpsertAllIdempotent(t: Table, entries: seq<(Key, Ohlcv)>)
    ensures UpsertAll(UpsertAll(t, entries), entries) == UpsertAll(t, entries)
  {
    var once := UpsertAll(t, entries);
    var twice := UpsertAll(once, entries);
    forall k
      ensures k in twice <==> k in once
    {
      UpsertAllLookup(t, entries, k);
      UpsertAllLookup(once, entries, k);
    }
    forall k | k in twice
      ensures k in once && twice[k] == once[k]
    {
      UpsertAllLookup(t, entries, k);
      UpsertAllLookup(once, entries, k);
    }
    SameEntries(twice, once);
  }

  /** The timestamps stored for one asset/interval pair. */
  function PairTimestampSet(t: Table, asset: string, interval: string): set<int>
  {
    set k | k in t && k.asset == asset && k.interval == interval :: k.ts
  }

  /** The pair's timestamps in ascending order, as a read ordered by `ts`
      returns them. */
  function PairTimestamps(t: Table, asset: string, interval: string): (ts: seq<int>)
    ensures forall i, j :: 0 <= i < j < |ts| ==> ts[i] < ts[j]
    ensures forall x :: x in ts <==> Key(asset, interval, x) in t
  {
    var s := PairTimestampSet(t, asset, interval);
    assert forall x :: x in s <==> Key(asset, interval, x) in t by {
      forall x | x in s
        ensures Key(asset, interval, x) in t
      {
        var k :| k in t && k.asset == asset && k.interval == interval && k.ts == x;
        assert k == Key(asset, interval, x);
      }
    }
    SortedSet(s)
  }

  /** The pair's keys in timestamp order: all stored, with strictly
      increasing timestamps. */
  function PairKeys(t: Table, asset: string, interval: string): (keys: seq<Key>)
    ensures |keys| == |PairTimestamps(t, asset, interval)|
    ensures forall i :: 0 <= i < |keys| ==>
      keys[i] in t && keys[i] == Key(asset, interval, PairTimestamps(t, asset, interval)[i])
    ensures forall i, j :: 0 <= i < j < |keys| ==> keys[i].ts < keys[j].ts
  {
    var ts := PairTimestamps(t, asset, interval);
    seq(|ts|, i requires 0 <= i < |ts| => Key(asset, interval, ts[i]))
  }

  /** The pair's keys are exactly the stored keys of that asset and interval. */
  lemma PairKeysExact(t: Table, asset: string, interval: string, k: Key)
    ensures k in PairKeys(t, asset, interval) <==> k in t && k.asset == asset && k.interval == interval
  {
    var ts := PairTimestamps(t, asset, interval);
    var keys := PairKeys(t, asset, interval);
    if k in t && k.asset == asset && k.interval == interval {
      assert k.ts in ts;
      var i :| 0 <= i < |ts| && ts[i] == k.ts;
      assert keys[i] == k;
    }
  }
}
