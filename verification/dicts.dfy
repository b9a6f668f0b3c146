/** Python dicts as association lists: a sequence of key/value pairs with
    distinct keys, kept in insertion order, since iteration order decides
    which room the scheduler tries first. */
module Dicts {
  import opened Wrappers

  predicate UniqueKeys<K(==), V>(d: seq<(K, V)>) {
    forall i, j | 0 <= i < j < |d| :: d[i].0 != d[j].0
  }

  type Dict<K(==), V> = d: seq<(K, V)> | UniqueKeys(d) witness []

  /** The keys in iteration order. */
  function Keys<K, V>(d: seq<(K, V)>): (ks: seq<K>)
    ensures |ks| == |d|
    ensures forall i | 0 <= i < |d| :: ks[i] == d[i].0
  {
    if d == [] then [] else [d[0].0] + Keys(d[1..])
  }

  /** `d.get(k)`. */
  function Get<K(==), V>(d: seq<(K, V)>, k: K): (r: Option<V>)
    ensures r.None? <==> k !in Keys(d)
    ensures r.Some? ==> exists i :: 0 <= i < |d| && d[i] == (k, r.value)
  {
    if d == [] then None
    else if d[0].0 == k then
      assert d[0] == (k, d[0].1);
      Some(d[0].1)
    else
      var r := Get(d[1..], k);
      assert Keys(d) == [d[0].0] + Keys(d[1..]);
      assert r.Some? ==> exists i :: 0 <= i < |d| && d[i] == (k, r.value) by {
        if r.Some? {
          var i :| 0 <= i < |d[1..]| && d[1..][i] == (k, r.value);
          assert d[i + 1] == (k, r.value);
        }
      }
      r
  }

  /** In a dict every stored pair is what `get` returns for its key. */
  lemma {:induction false} GetEntry<K, V>(d: Dict<K, V>, i: int)
    requires 0 <= i < |d|
    ensures Get(d, d[i].0) == Some(d[i].1)
    decreases i
  {
    if i > 0 {
      assert d[0].0 != d[i].0;
      var tail: Dict<K, V> := d[1..];
      GetEntry(tail, i - 1);
    }
  }

  /** Position of a key that is present. */
  function KeyIndex<K(==), V>(d: seq<(K, V)>, k: K): (i: nat)
    requires k in Keys(d)
    ensures i < |d| && d[i].0 == k
  {
    if d[0].0 == k then 0
    else
      assert Keys(d) == [d[0].0] + Keys(d[1..]);
      KeyIndex(d[1..], k) + 1
  }

  lemma {:induction false} GetAppend<K, V>(d: seq<(K, V)>, k: K, v: V, k': K)
    requires k !in Keys(d)
    ensures Get(d + [(k, v)], k') == if k' == k then Some(v) else Get(d, k')
    decreases |d|
  {
    if d != [] {
      assert (d + [(k, v)])[1..] == d[1..] + [(k, v)];
      assert Keys(d) == [d[0].0] + Keys(d[1..]);
      GetAppend(d[1..], k, v, k');
    }
  }

  lemma {:induction false} GetUpdate<K, V>(d: Dict<K, V>, i: int, v: V, k': K)
    requires 0 <= i < |d|
    ensures Get(d[i := (d[i].0, v)], k') == if k' == d[i].0 then Some(v) else Get(d, k')
    decreases i
  {
    var r := d[i := (d[i].0, v)];
    if i > 0 {
      var tail: Dict<K, V> := d[1..];
      assert r[1..] == tail[i - 1 := (tail[i - 1].0, v)];
      assert d[0].0 != d[i].0;
      GetUpdate(tail, i - 1, v, k');
    }
  }

  /** `d[k] = v`: an existing key keeps its position and takes the new value,
      a new key is appended; every other key keeps its value. */
  function Put<K(==,!new), V>(d: Dict<K, V>, k: K, v: V): (r: Dict<K, V>)
    ensures Get(r, k) == Some(v)
    ensures forall k' | k' != k :: Get(r, k') == Get(d, k')
    ensures k in Keys(d) ==> Keys(r) == Keys(d)
    ensures k !in Keys(d) ==> r == d + [(k, v)]
  {
    if k in Keys(d) then
      var i := KeyIndex(d, k);
      var r := d[i := (k, v)];
      assert Keys(r) == Keys(d);
      assert forall k' :: Get(r, k') == if k' == k then Some(v) else Get(d, k') by {
        forall k' ensures Get(r, k') == if k' == k then Some(v) else Get(d, k') {
          GetUpdate(d, i, v, k');
        }
      }
      r
    else
      var r := d + [(k, v)];
      assert Keys(r) == Keys(d) + [k];
      assert forall k' :: Get(r, k') == if k' == k then Some(v) else Get(d, k') by {
        forall k' ensures Get(r, k') == if k' == k then Some(v) else Get(d, k') {
          GetAppend(d, k, v, k');
        }
      }
      r
  }
}
