/** Insertion-ordered dictionaries, as Python's `dict` behaves: an association
    list whose keys appear at most once, where assigning to an existing key
    keeps that key's position and assigning to a new key appends it. */
module AssocLists {
  import opened Wrappers
  import opened Sequences

  type AList<K, V> = seq<(K, V)>

  predicate HasKey<K(==,!new), V>(m: AList<K, V>, k: K) {
    exists i :: 0 <= i < |m| && m[i].0 == k
  }

  predicate UniqueKeys<K(==,!new), V>(m: AList<K, V>) {
    forall i, j :: 0 <= i < j < |m| ==> m[i].0 != m[j].0
  }

  /** `m[k]` as an option: the value stored under the first occurrence of k. */
  function Get<K(==,!new), V>(m: AList<K, V>, k: K): (r: Option<V>)
    ensures r.None? <==> !HasKey(m, k)
    ensures r.Some? ==> exists i :: 0 <= i < |m| && m[i] == (k, r.value)
  {
    if m == [] then None
    else if m[0].0 == k then Some(m[0].1)
    else
      var r := Get(m[1..], k);
      assert forall i :: 0 <= i < |m| - 1 ==> m[1..][i] == m[i + 1];
      assert m[0].0 != k ==> (HasKey(m, k) <==> HasKey(m[1..], k)) by {
        if HasKey(m, k) && m[0].0 != k {
          var i :| 0 <= i < |m| && m[i].0 == k;
          assert m[1..][i - 1].0 == k;
        }
      }
      r
  }

  /** `m[k] = v`. */
  function Put<K(==,!new), V>(m: AList<K, V>, k: K, v: V): (r: AList<K, V>)
    ensures Get(r, k) == Some(v)
    ensures forall k' :: k' != k ==> Get(r, k') == Get(m, k')
    ensures HasKey(m, k) ==> |r| == |m| && forall i :: 0 <= i < |m| ==> r[i].0 == m[i].0
    ensures !HasKey(m, k) ==> r == m + [(k, v)]
  {
    if m == [] then [(k, v)]
    else if m[0].0 == k then [(k, v)] + m[1..]
    else
      assert HasKey(m, k) ==> HasKey(m[1..], k) by {
        if HasKey(m, k) {
          var i :| 0 <= i < |m| && m[i].0 == k;
          assert m[1..][i - 1].0 == k;
        }
      }
      ConsSnoc(m, (k, v));
      [m[0]] + Put(m[1..], k, v)
  }

  /** Assignment never introduces a duplicate key. */
  lemma PutKeepsKeysUnique<K(!new), V>(m: AList<K, V>, k: K, v: V)
    requires UniqueKeys(m)
    ensures UniqueKeys(Put(m, k, v))
  {
    var r := Put(m, k, v);
    if HasKey(m, k) {
      assert forall i :: 0 <= i < |r| ==> r[i].0 == m[i].0;
    } else {
      forall i, j | 0 <= i < j < |r|
        ensures r[i].0 != r[j].0
      {
        if j == |m| {
          assert r[i].0 == m[i].0;
        }
      }
    }
  }

  /** Every entry after an assignment is the assigned pair or was already
      there. */
  lemma {:induction false} PutEntries<K(!new), V>(m: AList<K, V>, k: K, v: V)
    ensures forall i :: 0 <= i < |Put(m, k, v)| ==> Put(m, k, v)[i] == (k, v) || Put(m, k, v)[i] in m
    decreases |m|
  {
    if m != [] && m[0].0 != k {
      var t := Put(m[1..], k, v);
      var r := Put(m, k, v);
      PutEntries(m[1..], k, v);
      assert r == [m[0]] + t;
      forall i | 0 <= i < |r|
        ensures r[i] == (k, v) || r[i] in m
      {
        if i > 0 {
          assert r[i] == t[i - 1];
        }
      }
    }
  }

  /** A key is present exactly when it is among the keys. */
  lemma HasKeyKeys<K(!new), V>(m: AList<K, V>, k: K)
    ensures HasKey(m, k) <==> k in Keys(m)
  {
    if k in Keys(m) {
      var i :| 0 <= i < |m| && Keys(m)[i] == k;
    }
  }

  /** Assignment keeps the key order and appends a key that is new. */
  lemma PutKeys<K(!new), V>(m: AList<K, V>, k: K, v: V)
    ensures Keys(Put(m, k, v)) == if k in Keys(m) then Keys(m) else Keys(m) + [k]
  {
    HasKeyKeys(m, k);
  }

  function Keys<K(==,!new), V>(m: AList<K, V>): (r: seq<K>)
    ensures |r| == |m| && forall i :: 0 <= i < |m| ==> r[i] == m[i].0
  {
    seq(|m|, i requires 0 <= i < |m| => m[i].0)
  }

  /** `m.values()`, in key order. */
  function Values<K(==,!new), V>(m: AList<K, V>): (r: seq<V>)
    ensures |r| == |m| && forall i :: 0 <= i < |m| ==> r[i] == m[i].1
  {
    seq(|m|, i requires 0 <= i < |m| => m[i].1)
  }

  lemma UniqueKeysTail<K(!new), V>(m: AList<K, V>)
    requires UniqueKeys(m) && |m| > 0
    ensures UniqueKeys(m[1..])
  {
    var tail := m[1..];
    forall i, j | 0 <= i < j < |tail|
      ensures tail[i].0 != tail[j].0
    {
      assert tail[i] == m[i + 1] && tail[j] == m[j + 1];
    }
  }

  /** In a list without duplicates every key looks up its own entry. */
  lemma {:induction false} GetAt<K(!new), V>(m: AList<K, V>, i: nat)
    requires UniqueKeys(m) && i < |m|
    ensures Get(m, m[i].0) == Some(m[i].1)
    decreases i
  {
    if i > 0 {
      assert m[0].0 != m[i].0;
      assert m[1..][i - 1] == m[i];
      UniqueKeysTail(m);
      GetAt(m[1..], i - 1);
    }
  }

  /** The last key of a list without duplicates looks up the last entry. */
  lemma {:induction false} GetLast<K(!new), V>(m: AList<K, V>)
    requires UniqueKeys(m) && |m| > 0
    ensures Get(m, m[|m| - 1].0) == Some(m[|m| - 1].1)
    decreases |m|
  {
    if |m| > 1 {
      var tail := m[1..];
      assert m[0].0 != m[|m| - 1].0;
      assert tail[|tail| - 1] == m[|m| - 1];
      UniqueKeysTail(m);
      GetLast(tail);
    }
  }

  /** Assigning to the last key replaces the last entry in place. */
  lemma {:induction false} PutLast<K(!new), V>(m: AList<K, V>, k: K, v: V)
    requires UniqueKeys(m) && |m| > 0 && m[|m| - 1].0 == k
    ensures Put(m, k, v) == m[..|m| - 1] + [(k, v)]
    decreases |m|
  {
    var n := |m| - 1;
    if n == 0 {
      assert Put(m, k, v) == [(k, v)] + m[1..];
    } else {
      var tail := m[1..];
      assert m[0].0 != m[n].0;
      assert tail[|tail| - 1] == m[n];
      UniqueKeysTail(m);
      PutLast(tail, k, v);
      assert Put(m, k, v) == [m[0]] + Put(tail, k, v);
      AppendAssoc([m[0]], tail[..|tail| - 1], [(k, v)]);
      ConsDropLast(m);
    }
  }
}
