/** Assigning a list of key/value pairs into a dictionary one after the
    other, as `out[d] = v` loops and keyed upserts that replace the stored
    value do: on a repeated key the last pair wins. */
module LastWins {
  import opened Util

  /** `m` after assigning every pair of `entries`, first to last. */
  function AssignAll<K(==), V>(m: map<K, V>, entries: seq<(K, V)>): map<K, V>
    decreases |entries|
  {
    if entries == [] then m
    else
      var last := entries[|entries| - 1];
      AssignAll(m, entries[..|entries| - 1])[last.0 := last.1]
  }

  /** The value of the last pair whose key is `k`, if any. */
  function LastValue<K(==), V>(entries: seq<(K, V)>, k: K): Option<V>
    decreases |entries|
  {
    if entries == [] then None
    else if entries[|entries| - 1].0 == k then Some(entries[|entries| - 1].1)
    else LastValue(entries[..|entries| - 1], k)
  }

  /** `LastValue` finds a pair with key `k` exactly when there is one, and
      no later pair has that key. */
  lemma {:induction false} LastValueIsLast<K, V>(entries: seq<(K, V)>, k: K)
    ensures LastValue(entries, k).None? <==> forall i :: 0 <= i < |entries| ==> entries[i].0 != k
    ensures LastValue(entries, k).Some? ==>
      exists i :: 0 <= i < |entries| && entries[i] == (k, LastValue(entries, k).value) &&
        (forall j :: i < j < |entries| ==> entries[j].0 != k)
    decreases |entries|
  {
    if entries != [] {
      var prefix := entries[..|entries| - 1];
      LastValueIsLast(prefix, k);
      assert forall i :: 0 <= i < |prefix| ==> prefix[i] == entries[i];
    }
  }

  /** After the assignments a key is present when it was before or some pair
      has it; its value is the last such pair's, or the old one. */
  lemma {:induction false} AssignAllLookup<K, V>(m: map<K, V>, entries: seq<(K, V)>, k: K)
    ensures k in AssignAll(m, entries) <==> k in m || LastValue(entries, k).Some?
    ensures LastValue(entries, k).Some? ==> AssignAll(m, entries)[k] == LastValue(entries, k).value
    ensures LastValue(entries, k).None? && k in m ==> AssignAll(m, entries)[k] == m[k]
    decreases |entries|
  {
    if entries != [] {
      AssignAllLookup(m, entries[..|entries| - 1], k);
    }
  }

  /** Running the same assignments twice changes nothing the second time. */
  lemma AssignAllIdempotent<K, V>(m: map<K, V>, entries: seq<(K, V)>)
    ensures AssignAll(AssignAll(m, entries), entries) == AssignAll(m, entries)
  {
    var once := AssignAll(m, entries);
    var twice := AssignAll(once, entries);
    forall k
      ensures k in twice <==> k in once
    {
      AssignAllLookup(m, entries, k);
      AssignAllLookup(once, entries, k);
    }
    forall k | k in twice
      ensures k in once && twice[k] == once[k]
    {
      AssignAllLookup(m, entries, k);
      AssignAllLookup(once, entries, k);
    }
    SameEntries(twice, once);
  }

  /** Maps with the same keys and the same value at every key are equal. */
  lemma SameEntries<K, V>(a: map<K, V>, b: map<K, V>)
    requires forall k :: k in a <==> k in b
    requires forall k :: k in a ==> a[k] == b[k]
    ensures a == b
  {
  }
}
