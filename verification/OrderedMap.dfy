/** A map that iterates in insertion order, as the language of the program has.
    Setting a key that is present keeps its place; a new key goes to the end. */
module OrderedMap {
  import opened Wrappers

  type OrderedMap<K, V> = seq<(K, V)>

  /** No key is listed twice. Every map built from [] by Put and Remove has this. */
  ghost predicate Distinct<K, V>(m: OrderedMap<K, V>) {
    forall i, j :: 0 <= i < j < |m| ==> m[i].0 != m[j].0
  }

  function Get<K(==), V>(m: OrderedMap<K, V>, k: K): Option<V> {
    if m == [] then None
    else if m[0].0 == k then Some(m[0].1)
    else Get(m[1..], k)
  }

  function Put<K(==), V>(m: OrderedMap<K, V>, k: K, v: V): OrderedMap<K, V> {
    if m == [] then [(k, v)]
    else if m[0].0 == k then [(k, v)] + m[1..]
    else [m[0]] + Put(m[1..], k, v)
  }

  function Remove<K(==), V>(m: OrderedMap<K, V>, k: K): OrderedMap<K, V> {
    if m == [] then []
    else if m[0].0 == k then m[1..]
    else [m[0]] + Remove(m[1..], k)
  }

  ghost function Keys<K, V>(m: OrderedMap<K, V>): set<K> {
    set i | 0 <= i < |m| :: m[i].0
  }

  function Values<K, V>(m: OrderedMap<K, V>): seq<V> {
    if m == [] then [] else [m[0].1] + Values(m[1..])
  }

  lemma {:induction false} GetFinds<K, V>(m: OrderedMap<K, V>, k: K)
    ensures Get(m, k).Some? <==> k in Keys(m)
    ensures Get(m, k).Some? ==> (k, Get(m, k).value) in m
  {
    if m != [] {
      GetFinds(m[1..], k);
      assert m == [m[0]] + m[1..];
      assert Keys(m) == {m[0].0} + Keys(m[1..]) by { KeysOfCons(m); }
    }
  }

  lemma KeysOfCons<K, V>(m: OrderedMap<K, V>)
    requires m != []
    ensures Keys(m) == {m[0].0} + Keys(m[1..])
  {
    forall k | k in Keys(m) ensures k in {m[0].0} + Keys(m[1..]) {
      var i :| 0 <= i < |m| && m[i].0 == k;
      if i > 0 { assert m[1..][i - 1].0 == k; }
    }
    forall k | k in Keys(m[1..]) ensures k in Keys(m) {
      var i :| 0 <= i < |m[1..]| && m[1..][i].0 == k;
      assert m[i + 1].0 == k;
    }
  }

  /** In a map without repeated keys the entry at an index is the one Get finds. */
  lemma {:induction false} GetAt<K, V>(m: OrderedMap<K, V>, i: nat)
    requires Distinct(m) && i < |m|
    ensures Get(m, m[i].0) == Some(m[i].1)
  {
    if i > 0 {
      assert m[0].0 != m[i].0;
      assert m[1..][i - 1] == m[i];
      GetAt(m[1..], i - 1);
    }
  }

  lemma {:induction false} GetOfPut<K, V>(m: OrderedMap<K, V>, k: K, v: V, q: K)
    ensures Get(Put(m, k, v), q) == if q == k then Some(v) else Get(m, q)
  {
    if m != [] && m[0].0 != k {
      GetOfPut(m[1..], k, v, q);
      assert Put(m, k, v)[1..] == Put(m[1..], k, v);
    } else if m != [] {
      assert Put(m, k, v)[1..] == m[1..];
    }
  }

  lemma {:induction false} PutShape<K, V>(m: OrderedMap<K, V>, k: K, v: V)
    requires Distinct(m)
    ensures Distinct(Put(m, k, v))
    ensures Keys(Put(m, k, v)) == Keys(m) + {k}
    ensures |Put(m, k, v)| == if k in Keys(m) then |m| else |m| + 1
  {
    var p := Put(m, k, v);
    if m == [] {
      assert p[0].0 == k;
    } else if m[0].0 == k {
      KeysOfCons(m);
      KeysOfCons(p);
      assert p[1..] == m[1..];
    } else {
      PutShape(m[1..], k, v);
      KeysOfCons(m);
      KeysOfCons(p);
      assert p[1..] == Put(m[1..], k, v);
      assert m[0].0 !in Keys(m[1..]);
      forall i, j | 0 <= i < j < |p| ensures p[i].0 != p[j].0 {
        if i == 0 {
          assert p[1..][j - 1].0 in Keys(p[1..]);
        } else {
          assert p[i] == p[1..][i - 1] && p[j] == p[1..][j - 1];
        }
      }
    }
  }

  lemma {:induction false} GetOfRemove<K, V>(m: OrderedMap<K, V>, k: K, q: K)
    requires Distinct(m)
    ensures Get(Remove(m, k), q) == if q == k then None else Get(m, q)
    ensures Distinct(Remove(m, k))
    ensures Keys(Remove(m, k)) == Keys(m) - {k}
    ensures |Remove(m, k)| == if k in Keys(m) then |m| - 1 else |m|
  {
    var r := Remove(m, k);
    if m == [] {
    } else if m[0].0 == k {
      KeysOfCons(m);
      assert m[0].0 !in Keys(m[1..]);
      GetFinds(m[1..], k);
    } else {
      GetOfRemove(m[1..], k, q);
      KeysOfCons(m);
      KeysOfCons(r);
      assert r[1..] == Remove(m[1..], k);
      assert m[0].0 !in Keys(m[1..]);
      forall i, j | 0 <= i < j < |r| ensures r[i].0 != r[j].0 {
        if i == 0 {
          assert r[1..][j - 1].0 in Keys(r[1..]);
        } else {
          assert r[i] == r[1..][i - 1] && r[j] == r[1..][j - 1];
        }
      }
    }
  }
}
