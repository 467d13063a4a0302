/** The combinations `genRoute` visits. A parameter map holds concrete values
    and candidate lists; expansion replaces the first list by each of its
    candidates in turn and recurses, depth first. This module defines that
    expansion, an independent Cartesian product in lexicographic order, and
    proves that the two agree: same combinations, same order, same count. */
module Expansion {
  import opened Framework

  /** Number of entries still holding a candidate list. */
  function CandidateCount(p: ParamMap): (n: nat)
    ensures n <= |p|
    ensures n == 0 <==> Complete(p)
  {
    if p == [] then 0 else (if p[0].1.Candidates? then 1 else 0) + CandidateCount(p[1..])
  }

  /** No entry holds a list: the map is one concrete combination. */
  predicate Complete(p: ParamMap)
  {
    forall j :: 0 <= j < |p| ==> p[j].1.Fixed?
  }

  /** Position of the first entry holding a list: where `genRoute`'s foreach stops. */
  function FirstCandidates(p: ParamMap): (r: Option<nat>)
    ensures r.Some? ==> r.value < |p| && p[r.value].1.Candidates?
    ensures r.Some? ==> forall j :: 0 <= j < r.value ==> p[j].1.Fixed?
    ensures r.None? <==> Complete(p)
    ensures r.Some? ==> CandidateCount(p) > 0
  {
    if p == [] then None
    else if p[0].1.Candidates? then Some(0)
    else match FirstCandidates(p[1..])
      case None =>
        assert forall j :: 1 <= j < |p| ==> p[j] == p[1..][j - 1];
        None
      case Some(i) => Some(i + 1)
  }

  /** The first list is at `k` when every earlier entry is concrete. */
  lemma {:induction false} FirstCandidatesAt(p: ParamMap, k: nat)
    requires k < |p| && p[k].1.Candidates?
    requires forall j :: 0 <= j < k ==> p[j].1.Fixed?
    ensures FirstCandidates(p) == Some(k)
  {
    if k > 0 {
      FirstCandidatesAt(p[1..], k - 1);
    }
  }

  /** The map with entry `i` fixed to `v`, key and position unchanged. */
  function Choose(p: ParamMap, i: nat, v: Value): ParamMap
    requires i < |p|
  {
    p[i := (p[i].0, Fixed(v))]
  }

  lemma {:induction false} ChooseCount(p: ParamMap, i: nat, v: Value)
    requires i < |p| && p[i].1.Candidates?
    ensures CandidateCount(Choose(p, i, v)) == CandidateCount(p) - 1
  {
    if i > 0 {
      assert Choose(p, i, v)[1..] == Choose(p[1..], i - 1, v);
      ChooseCount(p[1..], i - 1, v);
    } else {
      assert Choose(p, 0, v)[1..] == p[1..];
    }
  }

  /** The complete maps `genRoute` reaches from `p`, in visiting order. */
  function Expand(p: ParamMap): (r: seq<ParamMap>)
    ensures Complete(p) ==> r == [p]
    decreases CandidateCount(p), 1
  {
    match FirstCandidates(p)
    case None => [p]
    case Some(i) => ExpandEach(p, i, p[i].1.values)
  }

  /** Expansion of entry `i` over the candidates `vs`, in their order. */
  function ExpandEach(p: ParamMap, i: nat, vs: seq<Value>): (r: seq<ParamMap>)
    requires i < |p| && p[i].1.Candidates?
    decreases CandidateCount(p), 0, |vs|
  {
    if vs == [] then []
    else
      var v := vs[|vs| - 1];
      ChooseCount(p, i, v);
      ExpandEach(p, i, vs[..|vs| - 1]) + Expand(Choose(p, i, v))
  }

  /** `c` is a combination of `p`: same keys in the same order, every value
      concrete, concrete entries of `p` carried over, and each list replaced
      by one of its own candidates. */
  ghost predicate IsCombination(p: ParamMap, c: ParamMap)
  {
    |c| == |p| &&
    forall j :: 0 <= j < |p| ==>
      c[j].0 == p[j].0 && c[j].1.Fixed? &&
      (p[j].1.Fixed? ==> c[j] == p[j]) &&
      (p[j].1.Candidates? ==> c[j].1.value in p[j].1.values)
  }

  /** Every map expansion reaches is a complete combination of the input. */
  lemma {:induction false} ExpandShape(p: ParamMap)
    ensures forall c :: c in Expand(p) ==> IsCombination(p, c) && Complete(c)
    decreases CandidateCount(p), 1
  {
    match FirstCandidates(p)
    case None =>
    case Some(i) => ExpandEachShape(p, i, p[i].1.values);
  }

  lemma {:induction false} ExpandEachShape(p: ParamMap, i: nat, vs: seq<Value>)
    requires i < |p| && p[i].1.Candidates?
    requires forall v :: v in vs ==> v in p[i].1.values
    ensures forall c :: c in ExpandEach(p, i, vs) ==> IsCombination(p, c) && Complete(c)
    decreases CandidateCount(p), 0, |vs|
  {
    if vs != [] {
      var v := vs[|vs| - 1];
      ChooseCount(p, i, v);
      ExpandEachShape(p, i, vs[..|vs| - 1]);
      ExpandShape(Choose(p, i, v));
      forall c | c in Expand(Choose(p, i, v)) ensures IsCombination(p, c) {
        assert IsCombination(Choose(p, i, v), c);
      }
    }
  }

  // ---------------------------------------------------------------------
  // Reference definition: the Cartesian product of the candidate lists.

  /** The candidate lists of `p`, in map order. */
  function Lists(p: ParamMap): (ls: seq<seq<Value>>)
    ensures |ls| == CandidateCount(p)
  {
    if p == [] then [] else (if p[0].1.Candidates? then [p[0].1.values] else []) + Lists(p[1..])
  }

  function ConsEach(x: Value, ts: seq<seq<Value>>): (r: seq<seq<Value>>)
    ensures |r| == |ts| && forall k :: 0 <= k < |ts| ==> r[k] == [x] + ts[k]
  {
    seq(|ts|, k requires 0 <= k < |ts| => [x] + ts[k])
  }

  /** Every tuple of `ts` prefixed by each element of `xs`, element by element. */
  function PrependAll(xs: seq<Value>, ts: seq<seq<Value>>): seq<seq<Value>>
  {
    if xs == [] then [] else PrependAll(xs[..|xs| - 1], ts) + ConsEach(xs[|xs| - 1], ts)
  }

  /** The Cartesian product in lexicographic order: the first list varies slowest. */
  function Product(ls: seq<seq<Value>>): seq<seq<Value>>
  {
    if ls == [] then [[]] else PrependAll(ls[0], Product(ls[1..]))
  }

  /** `p` with its lists replaced, in map order, by the values of the tuple `t`. */
  function Fill(p: ParamMap, t: seq<Value>): ParamMap
  {
    if p == [] then []
    else if p[0].1.Candidates? && t != [] then [(p[0].0, Fixed(t[0]))] + Fill(p[1..], t[1..])
    else [p[0]] + Fill(p[1..], t)
  }

  function FillAll(p: ParamMap, ts: seq<seq<Value>>): (r: seq<ParamMap>)
    ensures |r| == |ts| && forall k :: 0 <= k < |ts| ==> r[k] == Fill(p, ts[k])
  {
    seq(|ts|, k requires 0 <= k < |ts| => Fill(p, ts[k]))
  }

  /** Product of the list lengths. */
  function Size(ls: seq<seq<Value>>): nat
  {
    if ls == [] then 1 else |ls[0]| * Size(ls[1..])
  }

  lemma FillAllAppend(p: ParamMap, a: seq<seq<Value>>, b: seq<seq<Value>>)
    ensures FillAll(p, a + b) == FillAll(p, a) + FillAll(p, b)
  {
    assert forall k :: 0 <= k < |a + b| ==> FillAll(p, a + b)[k] == (FillAll(p, a) + FillAll(p, b))[k];
  }

  lemma {:induction false} FillComplete(p: ParamMap)
    requires Complete(p)
    ensures Fill(p, []) == p && Lists(p) == []
  {
    if p != [] {
      FillComplete(p[1..]);
    }
  }

  lemma {:induction false} FillChoose(p: ParamMap, i: nat, v: Value, t: seq<Value>)
    requires FirstCandidates(p) == Some(i)
    ensures Fill(Choose(p, i, v), t) == Fill(p, [v] + t)
  {
    if i == 0 {
      assert Choose(p, 0, v) == [(p[0].0, Fixed(v))] + p[1..];
      assert ([v] + t)[1..] == t;
      assert Choose(p, 0, v)[1..] == p[1..];
    } else {
      assert FirstCandidates(p[1..]) == Some(i - 1);
      assert Choose(p, i, v)[1..] == Choose(p[1..], i - 1, v);
      FillChoose(p[1..], i - 1, v, t);
    }
  }

  lemma {:induction false} ListsChoose(p: ParamMap, i: nat, v: Value)
    requires FirstCandidates(p) == Some(i)
    ensures Lists(p) == [p[i].1.values] + Lists(Choose(p, i, v))
  {
    if i == 0 {
      assert Choose(p, 0, v)[1..] == p[1..];
    } else {
      assert FirstCandidates(p[1..]) == Some(i - 1);
      assert Choose(p, i, v)[1..] == Choose(p[1..], i - 1, v);
      ListsChoose(p[1..], i - 1, v);
    }
  }

  /** `genRoute` visits exactly the Cartesian product of the candidate lists,
      in lexicographic order of map position and candidate position. */
  lemma {:induction false} ExpandIsProduct(p: ParamMap)
    ensures Expand(p) == FillAll(p, Product(Lists(p)))
    decreases CandidateCount(p), 1
  {
    match FirstCandidates(p)
    case None =>
      FillComplete(p);
      assert FillAll(p, [[]]) == [Fill(p, [])];
    case Some(i) =>
      ListsChoose(p, i, Plain(Null));
      ExpandEachIsProduct(p, i, p[i].1.values);
  }

  lemma {:induction false} ExpandEachIsProduct(p: ParamMap, i: nat, vs: seq<Value>)
    requires FirstCandidates(p) == Some(i)
    ensures ExpandEach(p, i, vs) == FillAll(p, PrependAll(vs, Product(Lists(p)[1..])))
    decreases CandidateCount(p), 0, |vs|
  {
    if vs != [] {
      var v := vs[|vs| - 1];
      var init := vs[..|vs| - 1];
      var rest := Product(Lists(p)[1..]);
      ChooseCount(p, i, v);
      ExpandEachIsProduct(p, i, init);
      ExpandIsProduct(Choose(p, i, v));
      ListsChoose(p, i, v);
      forall k | 0 <= k < |rest|
        ensures Fill(Choose(p, i, v), rest[k]) == Fill(p, ConsEach(v, rest)[k])
      {
        FillChoose(p, i, v, rest[k]);
      }
      assert FillAll(Choose(p, i, v), rest) == FillAll(p, ConsEach(v, rest));
      FillAllAppend(p, PrependAll(init, rest), ConsEach(v, rest));
    }
  }

  // ---------------------------------------------------------------------
  // Counting and ordering consequences.

  lemma {:induction false} PrependAllLength(xs: seq<Value>, ts: seq<seq<Value>>)
    ensures |PrependAll(xs, ts)| == |xs| * |ts|
  {
    if xs != [] {
      PrependAllLength(xs[..|xs| - 1], ts);
      assert |xs| * |ts| == (|xs| - 1) * |ts| + |ts|;
    }
  }

  lemma {:induction false} ProductLength(ls: seq<seq<Value>>)
    ensures |Product(ls)| == Size(ls)
  {
    if ls != [] {
      ProductLength(ls[1..]);
      PrependAllLength(ls[0], Product(ls[1..]));
    }
  }

  lemma {:induction false} SizeAppend(a: seq<seq<Value>>, b: seq<seq<Value>>)
    ensures Size(a + b) == Size(a) * Size(b)
  {
    if a == [] {
      assert a + b == b;
    } else {
      assert (a + b)[1..] == a[1..] + b;
      SizeAppend(a[1..], b);
      assert |a[0]| * (Size(a[1..]) * Size(b)) == (|a[0]| * Size(a[1..])) * Size(b);
    }
  }

  lemma {:induction false} ListsAppend(a: ParamMap, b: ParamMap)
    ensures Lists(a + b) == Lists(a) + Lists(b)
  {
    if a == [] {
      assert a + b == b;
    } else {
      assert (a + b)[1..] == a[1..] + b;
      ListsAppend(a[1..], b);
    }
  }

  /** The number of combinations is the product of the candidate-list lengths. */
  lemma ExpandLength(p: ParamMap)
    ensures |Expand(p)| == Size(Lists(p))
  {
    ExpandIsProduct(p);
    ProductLength(Lists(p));
  }

  lemma ListsSingle(k: string, e: Entry)
    ensures Lists([(k, e)]) == if e.Candidates? then [e.values] else []
  {
    assert [(k, e)][1..] == [];
  }

  lemma SizeSplit(la: seq<seq<Value>>, le: seq<seq<Value>>, lb: seq<seq<Value>>)
    ensures Size(la + le + lb) == Size(le) * (Size(la) * Size(lb))
    ensures Size(la + lb) == Size(la) * Size(lb)
  {
    SizeAppend(la + le, lb);
    SizeAppend(la, le);
    SizeAppend(la, lb);
    MulRearrange(Size(la), Size(le), Size(lb));
  }

  lemma MulRearrange(x: nat, y: nat, z: nat)
    ensures (x * y) * z == y * (x * z)
  {
  }

  lemma ListsSplit(a: ParamMap, k: string, e: Entry, b: ParamMap)
    ensures Size(Lists(a + [(k, e)] + b)) == Size(Lists([(k, e)])) * Size(Lists(a + b))
  {
    ListsAppend(a + [(k, e)], b);
    ListsAppend(a, [(k, e)]);
    ListsAppend(a, b);
    SizeSplit(Lists(a), Lists([(k, e)]), Lists(b));
  }

  /** Each entry multiplies the count by its number of candidates; a concrete
      entry (such as the `null` of the nullable pass) by one. */
  lemma EntryFactor(a: ParamMap, k: string, e: Entry, b: ParamMap)
    ensures e.Fixed? ==> |Expand(a + [(k, e)] + b)| == |Expand(a + b)|
    ensures e.Candidates? ==> |Expand(a + [(k, e)] + b)| == |e.values| * |Expand(a + b)|
  {
    ListsSplit(a, k, e, b);
    ExpandLength(a + [(k, e)] + b);
    ExpandLength(a + b);
    ListsSingle(k, e);
    var se := Size(Lists([(k, e)]));
    if e.Candidates? {
      assert [e.values][1..] == [];
      assert se == |e.values|;
    } else {
      assert se == 1;
    }
  }

  /** An empty candidate list anywhere yields no combination at all. */
  lemma EmptyListNoCombination(p: ParamMap, j: nat)
    requires j < |p| && p[j].1 == Candidates([])
    ensures Expand(p) == []
  {
    assert p == p[..j] + [(p[j].0, p[j].1)] + p[j + 1..];
    EntryFactor(p[..j], p[j].0, p[j].1, p[j + 1..]);
  }

  lemma {:induction false} PrependAllAt(xs: seq<Value>, ts: seq<seq<Value>>, a: nat, b: nat)
    requires a < |xs| && b < |ts|
    ensures a * |ts| + b < |PrependAll(xs, ts)|
    ensures PrependAll(xs, ts)[a * |ts| + b] == [xs[a]] + ts[b]
  {
    var init := xs[..|xs| - 1];
    PrependAllLength(init, ts);
    PrependAllLength(xs, ts);
    assert |xs| * |ts| == |init| * |ts| + |ts|;
    if a < |init| {
      PrependAllAt(init, ts, a, b);
    } else {
      assert a * |ts| == |init| * |ts|;
    }
  }

  /** A single list: one combination per candidate, in the list's order. */
  lemma OneListOrder(k: string, xs: seq<Value>, a: nat)
    requires a < |xs|
    ensures |Expand([(k, Candidates(xs))])| == |xs|
    ensures Expand([(k, Candidates(xs))])[a] == [(k, Fixed(xs[a]))]
  {
    var p := [(k, Candidates(xs))];
    ExpandIsProduct(p);
    ListsSingle(k, Candidates(xs));
    assert [xs][1..] == [];
    assert Product([xs][1..]) == [[]];
    PrependAllLength(xs, [[]]);
    PrependAllAt(xs, [[]], a, 0);
    var t := [xs[a]];
    assert Product(Lists(p))[a] == t;
    assert p[1..] == [] && t[1..] == [];
    assert Fill(p, t) == [(k, Fixed(xs[a]))] + Fill(p[1..], t[1..]);
  }

  /** Order for two lists: the combination at position a*|ys|+b takes the
      a-th candidate of the first key and the b-th of the second. */
  lemma TwoListsOrder(k1: string, xs: seq<Value>, k2: string, ys: seq<Value>, a: nat, b: nat)
    requires a < |xs| && b < |ys|
    ensures a * |ys| + b < |Expand([(k1, Candidates(xs)), (k2, Candidates(ys))])|
    ensures Expand([(k1, Candidates(xs)), (k2, Candidates(ys))])[a * |ys| + b]
         == [(k1, Fixed(xs[a])), (k2, Fixed(ys[b]))]
  {
    var p := [(k1, Candidates(xs)), (k2, Candidates(ys))];
    ExpandIsProduct(p);
    assert p[1..][1..] == [];
    assert Lists(p) == [xs, ys];
    assert [xs, ys][1..] == [ys];
    assert [ys][1..] == [];
    var inner := Product([ys]);
    assert Product([ys][1..]) == [[]];
    assert inner == PrependAll(ys, [[]]);
    PrependAllLength(ys, [[]]);
    PrependAllAt(ys, [[]], b, 0);
    assert inner[b] == [ys[b]];
    PrependAllAt(xs, inner, a, b);
    var t := [xs[a], ys[b]];
    assert Product(Lists(p))[a * |ys| + b] == t;
    assert t[1..] == [ys[b]] && t[1..][1..] == [];
    assert Fill(p, t) == [(k1, Fixed(xs[a]))] + Fill(p[1..], t[1..]);
  }
}
