/** PHP arrays with string keys, as ordered association lists: the key order
    is the insertion order, and keys are distinct in every array PHP builds. */
module Assoc {
  import opened Framework

  function Keys<K, V>(a: seq<(K, V)>): (ks: seq<K>)
    ensures |ks| == |a|
    ensures forall i :: 0 <= i < |a| ==> ks[i] == a[i].0
  {
    seq(|a|, i requires 0 <= i < |a| => a[i].0)
  }

  ghost predicate DistinctKeys<K, V>(a: seq<(K, V)>)
  {
    forall i, j :: 0 <= i < j < |a| ==> a[i].0 != a[j].0
  }

  /** Position of the first entry with key `k`. */
  function IndexOf<K(==), V>(a: seq<(K, V)>, k: K): (r: Option<nat>)
    ensures r.Some? ==> r.value < |a| && a[r.value].0 == k
    ensures r.Some? ==> forall j :: 0 <= j < r.value ==> a[j].0 != k
    ensures r.None? <==> k !in Keys(a)
  {
    if a == [] then None
    else if a[0].0 == k then Some(0)
    else match IndexOf(a[1..], k)
      case None => None
      case Some(i) => Some(i + 1)
  }

  /** `$a[$k] ?? null`: the value under `k`, if any. */
  function Lookup<K(==), V>(a: seq<(K, V)>, k: K): (r: Option<V>)
    ensures r.None? <==> k !in Keys(a)
    ensures r.Some? ==> exists i :: 0 <= i < |a| && a[i] == (k, r.value)
  {
    match IndexOf(a, k)
    case None => None
    case Some(i) => Some(a[i].1)
  }

  /** PHP `$a += $b`: the entries of `a`, followed by those entries of `b`
      whose key is not yet present; the first entry for a key wins. */
  function Union<K(==), V>(a: seq<(K, V)>, b: seq<(K, V)>): (u: seq<(K, V)>)
    ensures |u| <= |a| + |b|
    ensures forall x :: x in u ==> x in a || x in b
    decreases |b|
  {
    if b == [] then a
    else if b[0].0 in Keys(a) then Union(a, b[1..])
    else Union(a + [b[0]], b[1..])
  }

  /** `array_merge($a, [$k => $v])` for a string key: replaces the value of an
      existing key in place, or appends a new entry. */
  function Put<K(==), V>(a: seq<(K, V)>, k: K, v: V): (r: seq<(K, V)>)
    ensures k !in Keys(a) ==> r == a + [(k, v)]
    ensures k in Keys(a) ==> |r| == |a| && Keys(r) == Keys(a)
  {
    if a == [] then [(k, v)]
    else if a[0].0 == k then [(k, v)] + a[1..]
    else [a[0]] + Put(a[1..], k, v)
  }

  lemma {:induction false} LookupAppend<K, V>(a: seq<(K, V)>, x: (K, V), k: K)
    ensures Lookup(a + [x], k) == if k in Keys(a) then Lookup(a, k) else if x.0 == k then Some(x.1) else None
  {
    if a != [] {
      assert (a + [x])[1..] == a[1..] + [x];
      if a[0].0 != k {
        LookupAppend(a[1..], x, k);
        assert k in Keys(a) <==> k in Keys(a[1..]) by {
          assert forall i :: 0 <= i < |a[1..]| ==> Keys(a[1..])[i] == Keys(a)[i + 1];
          if k in Keys(a) {
            var i :| 0 <= i < |a| && Keys(a)[i] == k;
            assert i > 0 && Keys(a[1..])[i - 1] == k;
          }
        }
      } else {
        assert Keys(a)[0] == k;
      }
    }
  }

  /** The key set of `a += b` is the union of both key sets, and `a` stays a prefix. */
  lemma {:induction false} UnionKeys<K, V>(a: seq<(K, V)>, b: seq<(K, V)>)
    ensures a <= Union(a, b)
    ensures forall k :: k in Keys(Union(a, b)) <==> k in Keys(a) || k in Keys(b)
    decreases |b|
  {
    if b != [] {
      assert forall k :: k in Keys(b) <==> k == b[0].0 || k in Keys(b[1..]) by {
        assert Keys(b) == [b[0].0] + Keys(b[1..]);
      }
      if b[0].0 in Keys(a) {
        UnionKeys(a, b[1..]);
      } else {
        UnionKeys(a + [b[0]], b[1..]);
        assert Keys(a + [b[0]]) == Keys(a) + [b[0].0];
      }
    }
  }

  /** First key wins: under `a += b`, a key of `a` keeps its value from `a`,
      and any other key takes its first value from `b`. */
  lemma {:induction false} UnionLookup<K, V>(a: seq<(K, V)>, b: seq<(K, V)>, k: K)
    ensures Lookup(Union(a, b), k) == if k in Keys(a) then Lookup(a, k) else Lookup(b, k)
    decreases |b|
  {
    if b == [] {
    } else {
      assert Keys(b) == [b[0].0] + Keys(b[1..]);
      assert Lookup(b, k) == if b[0].0 == k then Some(b[0].1) else Lookup(b[1..], k);
      if b[0].0 in Keys(a) {
        UnionLookup(a, b[1..], k);
      } else {
        UnionLookup(a + [b[0]], b[1..], k);
        LookupAppend(a, b[0], k);
        assert Keys(a + [b[0]]) == Keys(a) + [b[0].0];
      }
    }
  }

  /** Adding to an array with distinct keys keeps the keys distinct. */
  lemma {:induction false} UnionDistinct<K, V>(a: seq<(K, V)>, b: seq<(K, V)>)
    requires DistinctKeys(a)
    ensures DistinctKeys(Union(a, b))
    decreases |b|
  {
    if b != [] {
      if b[0].0 in Keys(a) {
        UnionDistinct(a, b[1..]);
      } else {
        var a' := a + [b[0]];
        forall i, j | 0 <= i < j < |a'| ensures a'[i].0 != a'[j].0 {
          if j == |a| { assert Keys(a)[i] == a[i].0; }
        }
        UnionDistinct(a', b[1..]);
      }
    }
  }

  /** With distinct keys, `array_merge` over an existing key replaces exactly
      that entry and leaves every other entry and the key order unchanged. */
  lemma {:induction false} PutAt<K, V>(a: seq<(K, V)>, i: nat, v: V)
    requires DistinctKeys(a) && i < |a|
    ensures Put(a, a[i].0, v) == a[i := (a[i].0, v)]
  {
    if i > 0 {
      assert a[0].0 != a[i].0;
      PutAt(a[1..], i - 1, v);
      assert a[1..][i - 1] == a[i];
      assert a[1..][i - 1 := (a[i].0, v)] == a[i := (a[i].0, v)][1..];
    }
  }

  /** With distinct keys, the lookup of an entry's key finds that entry. */
  lemma LookupDistinct<K, V>(a: seq<(K, V)>, i: nat)
    requires DistinctKeys(a) && i < |a|
    ensures Lookup(a, a[i].0) == Some(a[i].1)
  {
    assert Keys(a)[i] == a[i].0;
  }
}
