/** Python's `dict`, which remembers insertion order: a sequence of entries.
    Assigning to an existing key keeps the key where it was; assigning to a
    new key appends it; `pop` removes the entry and closes the gap. */
module Dicts {
  import opened Wrappers

  type Dict<K, V> = seq<(K, V)>

  /** No key appears twice, as in every Python dict. */
  predicate DistinctKeys<K(==), V>(d: Dict<K, V>)
  {
    forall i, j :: 0 <= i < j < |d| ==> d[i].0 != d[j].0
  }

  /** `k in d` */
  predicate HasKey<K(==), V>(d: Dict<K, V>, k: K)
  {
    exists i :: 0 <= i < |d| && d[i].0 == k
  }

  /** `d.get(k)` */
  function Get<K(==), V>(d: Dict<K, V>, k: K): (r: Option<V>)
    ensures r.Some? <==> HasKey(d, k)
    ensures DistinctKeys(d) ==> forall i :: 0 <= i < |d| && d[i].0 == k ==> r == Some(d[i].1)
  {
    if d == [] then None
    else if d[0].0 == k then Some(d[0].1)
    else
      var r := Get(d[1..], k);
      assert forall i :: 1 <= i < |d| ==> d[i] == d[1..][i - 1];
      r
  }

  /** `d[k] = v` */
  function Put<K(==), V>(d: Dict<K, V>, k: K, v: V): (r: Dict<K, V>)
    ensures |r| == if HasKey(d, k) then |d| else |d| + 1
    ensures forall i :: 0 <= i < |d| ==> r[i].0 == d[i].0
    ensures !HasKey(d, k) ==> r == d + [(k, v)]
  {
    if d == [] then [(k, v)]
    else if d[0].0 == k then [(k, v)] + d[1..]
    else
      assert HasKey(d, k) <==> HasKey(d[1..], k) by {
        if HasKey(d, k) {
          var i :| 0 <= i < |d| && d[i].0 == k;
          assert d[1..][i - 1].0 == k;
        }
        if HasKey(d[1..], k) {
          var i :| 0 <= i < |d[1..]| && d[1..][i].0 == k;
          assert d[i + 1].0 == k;
        }
      }
      [d[0]] + Put(d[1..], k, v)
  }

  /** After `d[k] = v`, `k` maps to `v` and every other key keeps its value;
      a dict keeps its keys distinct. */
  lemma {:induction false} PutGet<K, V>(d: Dict<K, V>, k: K, v: V, k': K)
    requires DistinctKeys(d)
    ensures DistinctKeys(Put(d, k, v))
    ensures Get(Put(d, k, v), k') == if k' == k then Some(v) else Get(d, k')
  {
    if d != [] && d[0].0 != k {
      PutGet(d[1..], k, v, k');
      var r := Put(d, k, v);
      assert r == [d[0]] + Put(d[1..], k, v);
      forall i, j | 0 <= i < j < |r|
        ensures r[i].0 != r[j].0
      {
        if i == 0 {
          if j - 1 < |d[1..]| {
            assert r[j].0 == d[j].0;
          } else {
            assert r[j].0 == k;
          }
        }
      }
    }
  }

  /** `d.pop(k)` for its effect on `d`: the entry for `k` goes, the others
      keep their order. */
  function Remove<K(==), V>(d: Dict<K, V>, k: K): (r: Dict<K, V>)
    ensures |r| <= |d|
  {
    if d == [] then []
    else if d[0].0 == k then Remove(d[1..], k)
    else [d[0]] + Remove(d[1..], k)
  }

  /** After `d.pop(k)`, `k` is gone, every other key keeps its value, the
      keys stay distinct and the dict is one entry shorter when `k` was in it. */
  lemma {:induction false} RemoveGet<K, V>(d: Dict<K, V>, k: K, k': K)
    requires DistinctKeys(d)
    ensures DistinctKeys(Remove(d, k))
    ensures Get(Remove(d, k), k') == if k' == k then None else Get(d, k')
    ensures |Remove(d, k)| == if HasKey(d, k) then |d| - 1 else |d|
  {
    if d != [] {
      DistinctTail(d);
      RemoveGet(d[1..], k, k');
      RemoveKeepsEntries(d[1..], k);
      HasKeyCons(d, k);
      if d[0].0 != k {
        DistinctPrepend(d[0], Remove(d[1..], k));
      }
    }
  }

  /** A key is in a non-empty dict when it is the first or in the rest. */
  lemma HasKeyCons<K, V>(d: Dict<K, V>, k: K)
    requires d != []
    ensures HasKey(d, k) <==> d[0].0 == k || HasKey(d[1..], k)
  {
    if HasKey(d, k) && d[0].0 != k {
      var i :| 0 <= i < |d| && d[i].0 == k;
      assert d[1..][i - 1].0 == k;
    }
    if HasKey(d[1..], k) {
      var i :| 0 <= i < |d[1..]| && d[1..][i].0 == k;
      assert d[i + 1].0 == k;
    }
  }

  /** The rest of a dict has distinct keys, none of them the first key. */
  lemma DistinctTail<K, V>(d: Dict<K, V>)
    requires DistinctKeys(d) && d != []
    ensures DistinctKeys(d[1..])
    ensures forall e :: e in d[1..] ==> e.0 != d[0].0
    ensures !HasKey(d[1..], d[0].0)
  {
    forall e | e in d[1..]
      ensures e.0 != d[0].0
    {
      var m :| 0 <= m < |d[1..]| && d[1..][m] == e;
      assert d[m + 1] == e;
    }
    assert forall m :: 0 <= m < |d[1..]| ==> d[1..][m] in d[1..];
  }

  /** An entry whose key is new can be put in front. */
  lemma DistinctPrepend<K, V>(x: (K, V), rest: Dict<K, V>)
    requires DistinctKeys(rest) && forall e :: e in rest ==> e.0 != x.0
    ensures DistinctKeys([x] + rest)
  {
    var r := [x] + rest;
    forall i, j | 0 <= i < j < |r|
      ensures r[i].0 != r[j].0
    {
      if i == 0 {
        assert r[j] == rest[j - 1] && rest[j - 1] in rest;
      } else {
        assert r[i] == rest[i - 1] && r[j] == rest[j - 1];
      }
    }
  }

  /** Every entry left by `Remove` is an entry of the original dict. */
  lemma {:induction false} RemoveKeepsEntries<K, V>(d: Dict<K, V>, k: K)
    ensures forall e :: e in Remove(d, k) ==> e in d
  {
    if d != [] {
      RemoveKeepsEntries(d[1..], k);
    }
  }

  /** The same dict with every value wrapped in `Some`. */
  function Present<K, V>(d: Dict<K, V>): (r: Dict<K, Option<V>>)
    ensures |r| == |d|
    ensures forall i :: 0 <= i < |d| ==> r[i] == (d[i].0, Some(d[i].1))
  {
    seq(|d|, i requires 0 <= i < |d| => (d[i].0, Some(d[i].1)))
  }

  /** `dict.get` on the wrapped dict: the wrapped value of a key that is
      present and nothing for one that is not. */
  lemma {:induction false} PresentGet<K, V>(d: Dict<K, V>, k: K)
    ensures Get(Present(d), k) == if HasKey(d, k) then Some(Get(d, k)) else None
  {
    if d != [] {
      assert Present(d)[1..] == Present(d[1..]);
      HasKeyCons(d, k);
      PresentGet(d[1..], k);
    }
  }
}
