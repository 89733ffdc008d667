/**
 * A Python `dict` as the list of its items in insertion order: assigning
 * to a key that is already there changes its value in place, a new key is
 * appended. `dict.items()` iterates in this order.
 */
module PyDict {
  import opened Wrappers

  /** No key occurs twice. */
  predicate DistinctKeys<K(==), V>(d: seq<(K, V)>) {
    forall i, j :: 0 <= i < j < |d| ==> d[i].0 != d[j].0
  }

  function Keys<K, V>(d: seq<(K, V)>): set<K> {
    set i | 0 <= i < |d| :: d[i].0
  }

  /** The position of key `k`, or `|d|` when it is absent. */
  function Find<K(==), V>(d: seq<(K, V)>, k: K): (i: nat)
    ensures i <= |d|
    ensures i < |d| ==> d[i].0 == k
    ensures forall j :: 0 <= j < i ==> d[j].0 != k
    decreases |d|
  {
    if d == [] then 0 else if d[0].0 == k then 0 else 1 + Find(d[1..], k)
  }

  /** `d.get(k)`. */
  function Lookup<K(==), V>(d: seq<(K, V)>, k: K): (r: Option<V>)
    ensures r.Some? <==> k in Keys(d)
  {
    var i := Find(d, k);
    if i < |d| then Some(d[i].1) else None
  }

  /** `d.get(k, default)`. */
  function Get<K(==), V>(d: seq<(K, V)>, k: K, default: V): V {
    match Lookup(d, k)
    case Some(v) => v
    case None => default
  }

  /** `d[k] = v`. */
  function Put<K(==), V>(d: seq<(K, V)>, k: K, v: V): seq<(K, V)> {
    var i := Find(d, k);
    if i < |d| then d[i := (k, v)] else d + [(k, v)]
  }

  /**
   * After `d[k] = v`, `k` holds `v` and every other key holds what it held;
   * the keys stay distinct, an existing key keeps its place, and a new key
   * comes last.
   */
  lemma PutSpec<K, V>(d: seq<(K, V)>, k: K, v: V)
    requires DistinctKeys(d)
    ensures DistinctKeys(Put(d, k, v))
    ensures Lookup(Put(d, k, v), k) == Some(v)
    ensures forall k' :: k' != k ==> Lookup(Put(d, k, v), k') == Lookup(d, k')
    ensures Keys(Put(d, k, v)) == Keys(d) + {k}
    ensures k in Keys(d) ==> |Put(d, k, v)| == |d| && forall i :: 0 <= i < |d| ==> Put(d, k, v)[i].0 == d[i].0
    ensures k !in Keys(d) ==> Put(d, k, v) == d + [(k, v)]
  {
    if Find(d, k) < |d| {
      PutExisting(d, k, v);
    } else {
      PutNew(d, k, v);
    }
  }

  lemma PutExisting<K, V>(d: seq<(K, V)>, k: K, v: V)
    requires DistinctKeys(d) && Find(d, k) < |d|
    ensures DistinctKeys(Put(d, k, v))
    ensures Lookup(Put(d, k, v), k) == Some(v)
    ensures forall k' :: k' != k ==> Lookup(Put(d, k, v), k') == Lookup(d, k')
    ensures Keys(Put(d, k, v)) == Keys(d) + {k}
    ensures |Put(d, k, v)| == |d| && forall i :: 0 <= i < |d| ==> Put(d, k, v)[i].0 == d[i].0
  {
    var i := Find(d, k);
    var r := d[i := (k, v)];
    assert forall j :: 0 <= j < |d| ==> r[j].0 == d[j].0;
    forall k'
      ensures Find(r, k') == Find(d, k')
    {
      FindSameKeys(d, r, k');
    }
    assert Keys(r) == Keys(d);
  }

  /** `Find` looks only at the keys. */
  lemma FindSameKeys<K, V>(d: seq<(K, V)>, r: seq<(K, V)>, k: K)
    requires |r| == |d| && forall j :: 0 <= j < |d| ==> r[j].0 == d[j].0
    ensures Find(r, k) == Find(d, k)
  {
    assert forall j :: 0 <= j < |d| ==> (r[j].0 == k <==> d[j].0 == k);
  }

  lemma PutNew<K, V>(d: seq<(K, V)>, k: K, v: V)
    requires DistinctKeys(d) && Find(d, k) == |d|
    ensures DistinctKeys(Put(d, k, v))
    ensures Lookup(Put(d, k, v), k) == Some(v)
    ensures forall k' :: k' != k ==> Lookup(Put(d, k, v), k') == Lookup(d, k')
    ensures Keys(Put(d, k, v)) == Keys(d) + {k}
    ensures k !in Keys(d) && Put(d, k, v) == d + [(k, v)]
  {
    var r := d + [(k, v)];
    forall k'
      ensures Find(r, k') == if Find(d, k') < |d| then Find(d, k') else if k == k' then |d| else |d| + 1
    {
      FindAppend(d, (k, v), k');
    }
    assert Keys(r) == Keys(d) + {k} by {
      forall x | x in Keys(r)
        ensures x in Keys(d) + {k}
      {
        var j :| 0 <= j < |r| && r[j].0 == x;
        if j < |d| {
          assert r[j] == d[j];
        }
      }
      forall x | x in Keys(d)
        ensures x in Keys(r)
      {
        var j :| 0 <= j < |d| && d[j].0 == x;
        assert r[j] == d[j];
      }
    }
  }

  /** Looking a key up after an append. */
  lemma {:induction false} FindAppend<K, V>(d: seq<(K, V)>, x: (K, V), k: K)
    ensures Find(d + [x], k) == if Find(d, k) < |d| then Find(d, k) else if x.0 == k then |d| else |d| + 1
    decreases |d|
  {
    if d != [] {
      FindAppend(d[1..], x, k);
      assert (d + [x])[1..] == d[1..] + [x];
    }
  }
}
