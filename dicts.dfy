/**
  Insertion-ordered dictionaries, as a Python `dict` and a JavaScript object with
  string keys behave: looking a key up finds its entry, assigning to a key that is
  present replaces the value where the key already stands, and assigning to a new
  key appends an entry at the end.
*/
module Dicts {
  import opened Wrappers
  import opened Dedup

  type Dict<K, V> = seq<(K, V)>

  /** The keys in insertion order. */
  function Keys<K(==), V>(d: Dict<K, V>): (ks: seq<K>)
    ensures |ks| == |d|
    ensures forall i :: 0 <= i < |d| ==> ks[i] == d[i].0
  {
    seq(|d|, i requires 0 <= i < |d| => d[i].0)
  }

  /** No two entries share a key: the representation invariant of a dictionary. */
  predicate DistinctKeys<K(==), V>(d: Dict<K, V>) {
    forall i, j :: 0 <= i < j < |d| ==> d[i].0 != d[j].0
  }

  /** Position of the entry for `k`, or `|d|` when there is none. */
  function IndexOf<K(==), V>(d: Dict<K, V>, k: K): (i: nat)
    ensures i <= |d|
    ensures i < |d| ==> d[i].0 == k
    ensures forall j :: 0 <= j < i ==> d[j].0 != k
  {
    if d == [] then 0
    else if d[0].0 == k then 0
    else 1 + IndexOf(d[1..], k)
  }

  lemma IndexOfPresent<K, V>(d: Dict<K, V>, k: K)
    ensures IndexOf(d, k) < |d| <==> k in Keys(d)
  {
    if k in Keys(d) {
      var j :| 0 <= j < |d| && Keys(d)[j] == k;
      assert d[j].0 == k;
    }
  }

  /** The value stored under `k`, if any. */
  function Get<K(==), V>(d: Dict<K, V>, k: K): Option<V> {
    var i := IndexOf(d, k);
    if i < |d| then Some(d[i].1) else None
  }

  /** A lookup finds a value exactly for the keys the dictionary has. */
  lemma GetFound<K, V>(d: Dict<K, V>, k: K)
    ensures Get(d, k).Some? <==> k in Keys(d)
  {
    IndexOfPresent(d, k);
  }

  /** The value stored under `k`, or `default` when there is none. */
  function GetOr<K(==), V>(d: Dict<K, V>, k: K, default: V): V {
    match Get(d, k)
    case Some(v) => v
    case None => default
  }

  /** In a dictionary, the entry at a position is what a lookup of its key finds. */
  lemma GetAt<K, V>(d: Dict<K, V>, j: nat)
    requires DistinctKeys(d) && j < |d|
    ensures Get(d, d[j].0) == Some(d[j].1)
  {
    IndexOfFirst(d, d[j].0, j);
  }

  /** `d[k] = v`: an existing key keeps its position, a new key goes last. */
  function Put<K(==), V>(d: Dict<K, V>, k: K, v: V): Dict<K, V> {
    var i := IndexOf(d, k);
    if i < |d| then d[i := (k, v)] else d + [(k, v)]
  }

  /** After `d[k] = v` the keys are the old ones with `k` appended if it was new, and none repeats if none did. */
  lemma PutKeys<K, V>(d: Dict<K, V>, k: K, v: V)
    ensures Keys(Put(d, k, v)) == AppendNew(Keys(d), k)
    ensures DistinctKeys(d) ==> DistinctKeys(Put(d, k, v))
  {
    IndexOfPresent(d, k);
  }

  /** After `d[k] = v`, `k` maps to `v` and every other key maps to what it mapped to. */
  lemma PutGet<K(!new), V>(d: Dict<K, V>, k: K, v: V)
    ensures Get(Put(d, k, v), k) == Some(v)
    ensures forall k' :: k' != k ==> Get(Put(d, k, v), k') == Get(d, k')
  {
    var i := IndexOf(d, k);
    var r := Put(d, k, v);
    if i < |d| {
      IndexOfFirst(r, k, i);
    } else {
      IndexOfFirst(r, k, |d|);
    }
    forall k' | k' != k
      ensures Get(r, k') == Get(d, k')
    {
      var j := IndexOf(d, k');
      if j < |d| {
        IndexOfFirst(r, k', j);
      }
    }
  }

  /** A position whose key is `k` and before which `k` does not occur is `IndexOf`. */
  lemma IndexOfFirst<K, V>(d: Dict<K, V>, k: K, i: nat)
    requires i < |d| && d[i].0 == k
    requires forall j :: 0 <= j < i ==> d[j].0 != k
    ensures IndexOf(d, k) == i
  {
  }

  /** Assigning twice to the same key leaves what one assignment of the second value leaves. */
  lemma PutPut<K(!new), V>(d: Dict<K, V>, k: K, v1: V, v2: V)
    ensures Put(Put(d, k, v1), k, v2) == Put(d, k, v2)
  {
    IndexOfPresent(d, k);
    var i := IndexOf(d, k);
    var d1 := Put(d, k, v1);
    IndexOfFirst(d1, k, i);
  }

  /** Every entry's value transformed, each assigned in turn into a new dictionary. */
  function MapValues<K(==), V, W>(d: Dict<K, V>, f: V -> W): Dict<K, W> {
    if d == [] then []
    else
      var n := |d| - 1;
      Put(MapValues(d[..n], f), d[n].0, f(d[n].1))
  }

  /** The new dictionary's keys are the old keys in the order of their first occurrence. */
  lemma {:induction false} MapValuesKeys<K, V, W>(d: Dict<K, V>, f: V -> W)
    ensures Keys(MapValues(d, f)) == FirstOccurrences(Keys(d))
  {
    if d != [] {
      var n := |d| - 1;
      MapValuesKeys(d[..n], f);
      PutKeys(MapValues(d[..n], f), d[n].0, f(d[n].1));
      assert Keys(d) == Keys(d[..n]) + [d[n].0];
      FirstOccurrencesSnoc(Keys(d[..n]), d[n].0);
    }
  }

  /** Over distinct keys, every entry keeps its place and gets its value transformed. */
  lemma {:induction false} MapValuesSpec<K, V, W>(d: Dict<K, V>, f: V -> W)
    requires DistinctKeys(d)
    ensures |MapValues(d, f)| == |d|
    ensures forall i :: 0 <= i < |d| ==> MapValues(d, f)[i] == (d[i].0, f(d[i].1))
  {
    if d != [] {
      var n := |d| - 1;
      var prev := MapValues(d[..n], f);
      MapValuesSpec(d[..n], f);
      assert Keys(prev) == Keys(d[..n]);
      assert forall j :: 0 <= j < n ==> Keys(prev)[j] != d[n].0;
      IndexOfPresent(prev, d[n].0);
    }
  }

  /** Over distinct keys, looking a key up in the new dictionary finds the old value transformed. */
  lemma MapValuesGet<K(!new), V, W>(d: Dict<K, V>, f: V -> W)
    requires DistinctKeys(d)
    ensures Keys(MapValues(d, f)) == Keys(d)
    ensures DistinctKeys(MapValues(d, f))
    ensures forall k :: Get(MapValues(d, f), k) == match Get(d, k) case None => None case Some(v) => Some(f(v))
  {
    MapValuesSpec(d, f);
    var m := MapValues(d, f);
    assert Keys(m) == Keys(d);
    forall k
      ensures Get(m, k) == match Get(d, k) case None => None case Some(v) => Some(f(v))
    {
      var i := IndexOf(d, k);
      if i < |d| {
        IndexOfFirst(m, k, i);
      } else {
        IndexOfPresent(d, k);
        IndexOfPresent(m, k);
      }
    }
  }

  /** Every entry assigned in turn, under its key renamed by `f`, into a new dictionary. */
  function Rekey<K(==), V>(d: Dict<K, V>, f: K -> K): Dict<K, V> {
    if d == [] then []
    else
      var n := |d| - 1;
      Put(Rekey(d[..n], f), f(d[n].0), d[n].1)
  }

  /** The new keys are the renamed keys in the order each first appears. */
  lemma {:induction false} RekeyKeys<K, V>(d: Dict<K, V>, f: K -> K)
    ensures Keys(Rekey(d, f)) == FirstOccurrences(KeysBy(Keys(d), f))
  {
    if d != [] {
      var n := |d| - 1;
      RekeyKeys(d[..n], f);
      PutKeys(Rekey(d[..n], f), f(d[n].0), d[n].1);
      assert KeysBy(Keys(d), f) == KeysBy(Keys(d[..n]), f) + [f(d[n].0)];
      FirstOccurrencesSnoc(KeysBy(Keys(d[..n]), f), f(d[n].0));
    }
  }

  /** The position of the last entry whose key `f` renames to `k`, or -1. */
  function LastRenamed<K(==), V>(d: Dict<K, V>, f: K -> K, k: K): (j: int)
    ensures -1 <= j < |d|
    ensures j >= 0 ==> f(d[j].0) == k
    ensures forall i :: j < i < |d| ==> f(d[i].0) != k
  {
    if d == [] then -1
    else if f(d[|d| - 1].0) == k then |d| - 1
    else LastRenamed(d[..|d| - 1], f, k)
  }

  /** Under a renamed key sits the value of the last entry renamed to it. */
  lemma {:induction false} RekeyGet<K(!new), V>(d: Dict<K, V>, f: K -> K, k: K)
    ensures Get(Rekey(d, f), k) == if LastRenamed(d, f, k) < 0 then None else Some(d[LastRenamed(d, f, k)].1)
  {
    if d != [] {
      var n := |d| - 1;
      RekeyGet(d[..n], f, k);
      PutGet(Rekey(d[..n], f), f(d[n].0), d[n].1);
    }
  }

  /** A dictionary whose keys `f` leaves alone comes through unchanged. */
  lemma {:induction false} RekeyUnchanged<K, V>(d: Dict<K, V>, f: K -> K)
    requires DistinctKeys(d)
    requires forall i :: 0 <= i < |d| ==> f(d[i].0) == d[i].0
    ensures Rekey(d, f) == d
  {
    if d != [] {
      var n := |d| - 1;
      RekeyUnchanged(d[..n], f);
      IndexOfPresent(d[..n], d[n].0);
    }
  }
}
