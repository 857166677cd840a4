/** The CoinGecko daily OHLC ingester: the payload check of the OHLC
    endpoint, the date-to-volume dictionary built from the market chart, and
    the keyed upsert of the candles into the candle table. Timestamps are
    integer milliseconds since the epoch; a UTC calendar date is the number
    of whole days since the epoch. */
module CgOhlc {
  import opened Util
  import opened LastWins
  import opened Store

  datatype Error = RuntimeError(message: string)

  /** `[timestamp(ms), open, high, low, close]`. */
  datatype OhlcRow = OhlcRow(tMs: int, open: real, high: real, low: real, close: real)

  /** The decoded JSON body of the OHLC endpoint: a list of rows, or
      anything else, shown by its `repr`. */
  datatype Payload = ListPayload(rows: seq<OhlcRow>) | OtherPayload(repr: string)

  const MsPerDay := 86_400_000

  // ---------------------------------------------------------------------
  // fetch_ohlc_daily

  /** The payload check of `fetch_ohlc_daily`: a list is returned as it
      is, anything else raises a `RuntimeError` naming the payload. */
  function FetchOhlcDaily(data: Payload): (r: Result<seq<OhlcRow>, Error>)
    ensures r.Success? <==> data.ListPayload?
    ensures r.Success? ==> r.value == data.rows
    ensures r.Failure? ==>
      var prefix := "Unexpected OHLC payload: ";
      |r.error.message| == |prefix| + |data.repr| &&
      r.error.message[..|prefix|] == prefix && r.error.message[|prefix|..] == data.repr
  {
    match data
    case ListPayload(rows) => Success(rows)
    case OtherPayload(repr) => Failure(RuntimeError("Unexpected OHLC payload: " + repr))
  }

  // ---------------------------------------------------------------------
  // fetch_daily_volumes

  /** `utcfromtimestamp(t_ms / 1000).date()`: the UTC date a millisecond
      timestamp falls on, as days since the epoch (rounded down, also before
      the epoch). */
  function DayOf(tMs: int): (d: int)
    ensures d * MsPerDay <= tMs < (d + 1) * MsPerDay
  {
    tMs / MsPerDay
  }

  /** The `(date, volume)` assignments of the `total_volumes` list. */
  function DayEntries(vols: seq<(int, real)>): (entries: seq<(int, real)>)
    ensures |entries| == |vols|
    ensures forall i :: 0 <= i < |vols| ==> entries[i] == (DayOf(vols[i].0), vols[i].1)
  {
    seq(|vols|, i requires 0 <= i < |vols| => (DayOf(vols[i].0), vols[i].1))
  }

  /** `data.get("total_volumes", [])`: a missing list is an empty one. */
  function VolumesOf(totalVolumes: Option<seq<(int, real)>>): seq<(int, real)>
  {
    if totalVolumes.Some? then totalVolumes.value else []
  }

  /** `fetch_daily_volumes`, given the decoded market chart's
      `total_volumes` (or `None` when the key is absent): every point sets
      the volume of its date, so a later point of the same date wins. */
  method FetchDailyVolumes(totalVolumes: Option<seq<(int, real)>>) returns (out: map<int, real>)
    ensures out == AssignAll(map[], DayEntries(VolumesOf(totalVolumes)))
  {
    var vols := VolumesOf(totalVolumes);
    out := map[];
    for i := 0 to |vols|
      invariant out == AssignAll(map[], DayEntries(vols)[..i])
    {
      var (tMs, v) := vols[i];
      assert DayEntries(vols)[..i + 1][..i] == DayEntries(vols)[..i];
      out := out[DayOf(tMs) := v];
    }
    assert DayEntries(vols)[..|vols|] == DayEntries(vols);
  }

  /** A date is in the dictionary exactly when some point falls on it, and
      its volume is that of the last point of that date. */
  lemma DailyVolumesLastWins(vols: seq<(int, real)>, d: int)
    ensures var out := AssignAll(map[], DayEntries(vols));
      (d in out <==> exists i :: 0 <= i < |vols| && DayOf(vols[i].0) == d) &&
      (d in out ==> exists i :: (0 <= i < |vols| && DayOf(vols[i].0) == d && out[d] == vols[i].1 &&
        forall j :: i < j < |vols| ==> DayOf(vols[j].0) != d))
  {
    var entries := DayEntries(vols);
    AssignAllLookup(map[], entries, d);
    LastValueIsLast(entries, d);
    if LastValue(entries, d).Some? {
      var i :| 0 <= i < |entries| && entries[i] == (d, LastValue(entries, d).value) &&
        (forall j :: i < j < |entries| ==> entries[j].0 != d);
      assert DayOf(vols[i].0) == d;
    } else {
      assert forall i :: 0 <= i < |vols| ==> DayOf(vols[i].0) != d by {
        forall i | 0 <= i < |vols| ensures DayOf(vols[i].0) != d {
          assert entries[i].0 != d;
        }
      }
    }
  }

  // ---------------------------------------------------------------------
  // upsert_ohlc

  /** The volume stored with a candle: none without a dictionary, else the
      volume of the candle's date, or none when that date has none. */
  function VolumeFor(volumesByDate: Option<map<int, real>>, tMs: int): (v: Option<real>)
    ensures v.Some? <==> volumesByDate.Some? && DayOf(tMs) in volumesByDate.value
    ensures v.Some? ==> v.value == volumesByDate.value[DayOf(tMs)]
  {
    if volumesByDate.None? then None
    else if DayOf(tMs) in volumesByDate.value then Some(volumesByDate.value[DayOf(tMs)])
    else None
  }

  /** The insert-or-update statement of one candle. */
  function OhlcEntry(asset: string, interval: string, row: OhlcRow, volumesByDate: Option<map<int, real>>): (Key, Ohlcv)
  {
    (Key(asset, interval, row.tMs), Ohlcv(row.open, row.high, row.low, row.close, VolumeFor(volumesByDate, row.tMs)))
  }

  /** The statements of all candles, in order. */
  function OhlcEntries(asset: string, interval: string, rows: seq<OhlcRow>, volumesByDate: Option<map<int, real>>)
    : (entries: seq<(Key, Ohlcv)>)
    ensures |entries| == |rows|
    ensures forall i :: 0 <= i < |rows| ==> entries[i] == OhlcEntry(asset, interval, rows[i], volumesByDate)
  {
    seq(|rows|, i requires 0 <= i < |rows| => OhlcEntry(asset, interval, rows[i], volumesByDate))
  }

  /** `upsert_ohlc`: one statement per row, inserting the candle or
      overwriting the stored one's open, high, low, close and volume;
      returns the number of statements. */
  method UpsertOhlc(table: Table, asset: string, interval: string, rows: seq<OhlcRow>,
                    volumesByDate: Option<map<int, real>>)
    returns (table': Table, total: nat)
    ensures total == |rows|
    ensures table' == UpsertAll(table, OhlcEntries(asset, interval, rows, volumesByDate))
  {
    ghost var entries := OhlcEntries(asset, interval, rows, volumesByDate);
    table' := table;
    total := 0;
    for i := 0 to |rows|
      invariant total == i
      invariant table' == UpsertAll(table, entries[..i])
    {
      var row := rows[i];
      var vol: Option<real> := None;
      if volumesByDate.Some? {
        var d := DayOf(row.tMs);
        if d in volumesByDate.value {
          vol := Some(volumesByDate.value[d]);
        }
      }
      assert entries[..i + 1][..i] == entries[..i];
      assert entries[i] == (Key(asset, interval, row.tMs), Ohlcv(row.open, row.high, row.low, row.close, vol));
      table' := Upsert(table', Key(asset, interval, row.tMs), Ohlcv(row.open, row.high, row.low, row.close, vol));
      total := total + 1;
    }
    assert entries[..|rows|] == entries;
  }

  /** After the upsert every candle's key holds the prices and volume of
      the last row with that timestamp (the volume may be cleared to none);
      other keys are untouched; indicator fields are never changed; running
      the same upsert twice gives the same table. */
  lemma UpsertOhlcEffect(table: Table, asset: string, interval: string, rows: seq<OhlcRow>,
                         volumesByDate: Option<map<int, real>>, i: nat)
    requires i < |rows|
    requires forall j :: i < j < |rows| ==> rows[j].tMs != rows[i].tMs
    ensures var t' := UpsertAll(table, OhlcEntries(asset, interval, rows, volumesByDate));
      var k := Key(asset, interval, rows[i].tMs);
      k in t' &&
      t'[k].prices == Ohlcv(rows[i].open, rows[i].high, rows[i].low, rows[i].close, VolumeFor(volumesByDate, rows[i].tMs)) &&
      t'[k].indicators == (if k in table then table[k].indicators else NoIndicators)
    ensures var entries := OhlcEntries(asset, interval, rows, volumesByDate);
      UpsertAll(UpsertAll(table, entries), entries) == UpsertAll(table, entries)
  {
    var entries := OhlcEntries(asset, interval, rows, volumesByDate);
    var k := Key(asset, interval, rows[i].tMs);
    LastAt(entries, i);
    UpsertAllLookup(table, entries, k);
    UpsertAllIdempotent(table, entries);
  }

  /** The last pair with a key is found by `LastValue`. */
  lemma {:induction false} LastAt<K, V>(entries: seq<(K, V)>, i: nat)
    requires i < |entries|
    requires forall j :: i < j < |entries| ==> entries[j].0 != entries[i].0
    ensures LastValue(entries, entries[i].0) == Some(entries[i].1)
    decreases |entries|
  {
    if i < |entries| - 1 {
      var prefix := entries[..|entries| - 1];
      LastAt(prefix, i);
    }
  }

  /** A key the candles do not name keeps its row. */
  lemma UpsertOhlcElsewhere(table: Table, asset: string, interval: string, rows: seq<OhlcRow>,
                            volumesByDate: Option<map<int, real>>, k: Key)
    requires forall i :: 0 <= i < |rows| ==> k != Key(asset, interval, rows[i].tMs)
    ensures var t' := UpsertAll(table, OhlcEntries(asset, interval, rows, volumesByDate));
      (k in t' <==> k in table) && (k in table ==> t'[k] == table[k])
  {
    var entries := OhlcEntries(asset, interval, rows, volumesByDate);
    LastValueIsLast(entries, k);
    UpsertAllLookup(table, entries, k);
  }

  /** On a conflict the stored volume is overwritten even with none: a
      candle stored with a volume loses it when re-ingested without a
      volume for its date. */
  lemma VolumeCleared(table: Table, asset: string, interval: string, row: OhlcRow)
    requires Key(asset, interval, row.tMs) in table
    ensures var t' := UpsertAll(table, OhlcEntries(asset, interval, [row], Some(map[])));
      t'[Key(asset, interval, row.tMs)].prices.volume == None
  {
    var entries := OhlcEntries(asset, interval, [row], Some(map[]));
    assert entries[..0] == [];
  }
}
