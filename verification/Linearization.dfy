/** Linearizations of (what remains of) a cluster: fee sums, topological order, and when moving
    a set of transactions to the front improves the diagram. */
module Linearizations {
  import opened FeeFracs
  import opened Diagrams
  import opened Sequences
  import opened DepGraphs

  ghost predicate Sized(g: Graph) {
    forall i :: i in g.used ==> Rate(g, i).size > 0
  }

  // ---------------------------------------------------------------------------------------
  // Fees of sets

  function FeeRate(g: Graph, s: set<nat>): FeeFrac {
    FeeBelow(g, s, |g.entries|)
  }

  function FeeBelow(g: Graph, s: set<nat>, n: nat): FeeFrac {
    if n == 0 then EMPTY
    else if n - 1 in s then Plus(FeeBelow(g, s, n - 1), Rate(g, n - 1))
    else FeeBelow(g, s, n - 1)
  }

  lemma FeeBelowStep(g: Graph, s: set<nat>, n: nat)
    ensures FeeBelow(g, s, 0) == EMPTY
    ensures n > 0 ==> FeeBelow(g, s, n) == Plus(FeeBelow(g, s, n - 1), if n - 1 in s then Rate(g, n - 1) else EMPTY)
  {
  }

  lemma PlusLaws(a: FeeFrac, b: FeeFrac, x: FeeFrac)
    ensures Plus(a, EMPTY) == a && Plus(EMPTY, a) == a
    ensures Plus(Plus(a, b), x) == Plus(Plus(a, x), b) == Plus(a, Plus(b, x))
  {
  }

  lemma {:induction false} FeeBelowUnion(g: Graph, a: set<nat>, b: set<nat>, n: nat)
    requires a !! b
    ensures FeeBelow(g, a + b, n) == Plus(FeeBelow(g, a, n), FeeBelow(g, b, n))
  {
    hide Rate, FeeBelow, Plus;
    FeeBelowStep(g, a + b, n);
    FeeBelowStep(g, a, n);
    FeeBelowStep(g, b, n);
    PlusLaws(EMPTY, EMPTY, EMPTY);
    if n > 0 {
      FeeBelowUnion(g, a, b, n - 1);
      PlusLaws(FeeBelow(g, a, n - 1), FeeBelow(g, b, n - 1), Rate(g, n - 1));
      PlusLaws(FeeBelow(g, b, n - 1), EMPTY, EMPTY);
      PlusLaws(FeeBelow(g, a + b, n - 1), EMPTY, EMPTY);
    }
  }

  lemma FeeUnion(g: Graph, a: set<nat>, b: set<nat>)
    requires a !! b
    ensures FeeRate(g, a + b) == Plus(FeeRate(g, a), FeeRate(g, b))
  {
    FeeBelowUnion(g, a, b, |g.entries|);
  }

  lemma {:induction false} FeeBelowOne(g: Graph, i: nat, n: nat)
    ensures FeeBelow(g, {i}, n) == if i < n then Rate(g, i) else EMPTY
  {
    hide Rate, FeeBelow, Plus;
    FeeBelowStep(g, {i}, n);
    if n > 0 {
      FeeBelowOne(g, i, n - 1);
      PlusLaws(FeeBelow(g, {i}, n - 1), EMPTY, EMPTY);
      PlusLaws(Rate(g, n - 1), EMPTY, EMPTY);
    }
  }

  lemma FeeOne(g: Graph, i: nat)
    requires i < |g.entries|
    ensures FeeRate(g, {i}) == Rate(g, i)
  {
    FeeBelowOne(g, i, |g.entries|);
  }

  lemma {:induction false} FeeNone(g: Graph)
    ensures FeeRate(g, {}) == EMPTY
  {
    var none: set<nat> := {};
    FeeUnion(g, none, none);
    assert none + none == none;
  }

  lemma {:induction false} FeePositive(g: Graph, s: set<nat>)
    requires WellFormed(g) && Sized(g) && s <= g.used && s != {}
    ensures FeeRate(g, s).size > 0
  {
    hide FeeRate, WellFormed;
    UsedInRange(g);
    var i :| i in s;
    FeeUnion(g, s - {i}, {i});
    assert s - {i} + {i} == s;
    FeeOne(g, i);
  }

  lemma {:induction false} FeeSubset(g: Graph, a: set<nat>, b: set<nat>)
    requires a <= b
    ensures FeeRate(g, a).size <= FeeRate(g, b).size
    ensures FeeRate(g, b) == Plus(FeeRate(g, a), FeeRate(g, b - a))
  {
    hide FeeRate;
    FeeUnion(g, a, b - a);
    assert a + (b - a) == b;
  }

  /** The excess of a set at a rate. */
  ghost function Gain(g: Graph, s: set<nat>, rate: FeeFrac): int {
    Excess(FeeRate(g, s), rate)
  }

  lemma {:induction false} GainUnion(g: Graph, a: set<nat>, b: set<nat>, rate: FeeFrac)
    requires a !! b
    ensures Gain(g, a + b, rate) == Gain(g, a, rate) + Gain(g, b, rate)
  {
    hide FeeRate, Excess;
    FeeUnion(g, a, b);
    ExcessPlus(FeeRate(g, a), FeeRate(g, b), rate);
  }

  lemma {:induction false} GainNone(g: Graph, rate: FeeFrac)
    ensures Gain(g, {}, rate) == 0
  {
    FeeNone(g);
  }

  // ---------------------------------------------------------------------------------------
  // Orders

  /** No transaction comes before one of its ancestors. */
  ghost predicate Topo(g: Graph, s: seq<nat>) {
    forall i, j :: 0 <= i < j < |s| ==> s[j] !in Anc(g, s[i])
  }

  /** s lists every transaction of todo once, ancestors first. */
  ghost predicate Orders(g: Graph, todo: set<nat>, s: seq<nat>) {
    Distinct(s) && Elems(s) == todo && Topo(g, s)
  }

  /** c contains, of todo, all ancestors of its members. */
  ghost predicate Closed(g: Graph, todo: set<nat>, c: set<nat>) {
    c <= todo && forall x, y :: x in c && y in Anc(g, x) && y in todo ==> y in c
  }

  /** The cumulative fees and sizes along s. */
  ghost function PathOf(g: Graph, s: seq<nat>): (p: seq<FeeFrac>)
    ensures |p| == |s| + 1
  {
    seq(|s| + 1, k requires 0 <= k <= |s| => FeeRate(g, Elems(s[..k])))
  }

  lemma {:induction false} PathAt(g: Graph, s: seq<nat>, k: nat, rate: FeeFrac)
    requires k <= |s|
    ensures |PathOf(g, s)| == |s| + 1
    ensures PathOf(g, s)[k] == FeeRate(g, Elems(s[..k]))
    ensures Excess(PathOf(g, s)[k], rate) == Gain(g, Elems(s[..k]), rate)
  {
  }

  lemma {:induction false} PathOfIsPath(g: Graph, s: seq<nat>)
    requires WellFormed(g) && Sized(g) && Distinct(s) && Elems(s) <= g.used
    ensures IsPath(PathOf(g, s))
  {
    hide FeeRate, WellFormed;
    var p := PathOf(g, s);
    FeeNone(g);
    assert Elems(s[..0]) == {};
    forall i, j | 0 <= i < j < |p|
      ensures p[i].size < p[j].size
    {
      var a, b := s[..i], s[i..j];
      assert s[..j] == a + b && s[i] in b;
      ElemsAppend(a, b);
      assert s == s[..j] + s[j..];
      DistinctAppend(s[..j], s[j..]);
      DistinctAppend(a, b);
      FeeUnion(g, Elems(a), Elems(b));
      assert s[i] in Elems(b);
      FeePositive(g, Elems(b));
    }
  }

  lemma {:induction false} TopoAppend(g: Graph, a: seq<nat>, b: seq<nat>)
    ensures Topo(g, a + b) <==> Topo(g, a) && Topo(g, b) && forall x, y :: x in a && y in b ==> y !in Anc(g, x)
  {
    var s := a + b;
    if Topo(g, s) {
      forall i, j | 0 <= i < j < |a| ensures a[j] !in Anc(g, a[i]) { assert s[i] == a[i] && s[j] == a[j]; }
      forall i, j | 0 <= i < j < |b| ensures b[j] !in Anc(g, b[i]) { assert s[|a| + i] == b[i] && s[|a| + j] == b[j]; }
      forall x, y | x in a && y in b
        ensures y !in Anc(g, x)
      {
        var i :| 0 <= i < |a| && a[i] == x;
        var j :| 0 <= j < |b| && b[j] == y;
        assert s[i] == x && s[|a| + j] == y;
      }
    }
    if Topo(g, a) && Topo(g, b) && forall x, y :: x in a && y in b ==> y !in Anc(g, x) {
      forall i, j | 0 <= i < j < |s|
        ensures s[j] !in Anc(g, s[i])
      {
        if i < |a| <= j {
          assert s[i] in a && s[j] in b;
        }
      }
    }
  }

  lemma {:induction false} TopoWithout(g: Graph, s: seq<nat>, t: set<nat>)
    requires Topo(g, s)
    ensures Topo(g, Without(s, t))
  {
    hide Topo;
    if s == [] {
      assert Without(s, t) == s;
    } else {
      var r, x := s[..|s| - 1], s[|s| - 1];
      assert s == r + [x];
      TopoAppend(g, r, [x]);
      TopoWithout(g, r, t);
      TopoAppend(g, Without(r, t), [x]);
      WithoutElems(r, t);
      assert forall y :: y in Without(r, t) ==> y in Elems(Without(r, t));
    }
  }

  /** Every prefix of an order of todo is closed. */
  lemma {:induction false} PrefixClosed(g: Graph, todo: set<nat>, s: seq<nat>, k: nat)
    requires Orders(g, todo, s) && k <= |s|
    ensures Closed(g, todo, Elems(s[..k]))
  {
    var c := Elems(s[..k]);
    forall x, y | x in c && y in Anc(g, x) && y in todo
      ensures y in c
    {
      var i :| 0 <= i < k && s[i] == x;
      var j :| 0 <= j < |s| && s[j] == y;
      assert !(i < j);
    }
  }

  lemma {:induction false} ByCountTopo(g: Graph, s: seq<nat>)
    requires WellFormed(g) && Acyclic(g) && ByAncestorCount(g, s) && Elems(s) <= g.used
    ensures Topo(g, s)
  {
    hide WellFormed, Acyclic;
    forall i, j | 0 <= i < j < |s|
      ensures s[j] !in Anc(g, s[i])
    {
      assert AncestorCountBefore(g, s[i], s[j]);
      assert s[i] in Elems(s);
      if s[j] in Anc(g, s[i]) {
        FewerAncestors(g, s[i], s[j]);
      }
    }
  }

  // ---------------------------------------------------------------------------------------
  // Moving a set to the front

  /** What makes it safe to put t before p and the rest: the part of t inside p has no higher
      feerate than t, nor has p itself. */
  ghost predicate GoodFor(g: Graph, t: set<nat>, p: set<nat>) {
    && Excess(FeeRate(g, t * p), FeeRate(g, t)) <= 0
    && Excess(FeeRate(g, p), FeeRate(g, t)) <= 0
  }

  lemma {:induction false} GoodGain(g: Graph, t: set<nat>, p: set<nat>, rate: FeeFrac)
    requires WellFormed(g) && Sized(g) && t <= g.used && t != {} && p <= g.used
    requires GoodFor(g, t, p) && Gain(g, p, rate) > 0
    ensures Gain(g, t - p, rate) >= 0
  {
    hide FeeRate, Excess, WellFormed;
    FeePositive(g, t);
    assert t == t * p + (t - p) && t * p !! t - p;
    FeeUnion(g, t * p, t - p);
    var ft := FeeRate(g, t);
    ExcessPlus(FeeRate(g, t * p), FeeRate(g, t - p), ft);
    HigherIsExcess(ft, ft);
    HigherIsExcess(ft, FeeRate(g, p));
    GainNone(g, rate);
    FeePositive(g, p);
    ExcessTransitive(ft, FeeRate(g, p), rate);
    ExcessTransitive(FeeRate(g, t - p), ft, rate);
  }

  /** Every point of the path of s is beaten by one after a prefix that is good for t. */
  ghost predicate CanGather(g: Graph, s: seq<nat>, t: set<nat>) {
    forall rate: FeeFrac, k :: rate.size > 0 && 0 <= k <= |s| ==> BeatenByGood(g, s, t, rate, k)
  }

  ghost predicate BeatenByGood(g: Graph, s: seq<nat>, t: set<nat>, rate: FeeFrac, k: nat)
    requires k <= |s|
  {
    exists b :: 0 <= b <= |s| && GoodFor(g, t, Elems(s[..b]))
        && Gain(g, Elems(s[..b]), rate) >= Gain(g, Elems(s[..k]), rate)
  }

  lemma {:induction false} Gather(g: Graph, s: seq<nat>, t: seq<nat>)
    requires WellFormed(g) && Sized(g) && Distinct(s) && Elems(s) <= g.used && Elems(t) <= Elems(s) && t != []
    requires CanGather(g, s, Elems(t))
    ensures Dominates(PathOf(g, t + Without(s, Elems(t))), PathOf(g, s))
  {
    hide FeeRate, Excess, WellFormed, GoodFor, Gain, PathOf;
    var r := t + Without(s, Elems(t));
    var q, p := PathOf(g, r), PathOf(g, s);
    forall rate: FeeFrac, k | rate.size > 0 && 0 <= k < |p|
      ensures Reaches(q, rate, Excess(p[k], rate))
    {
      PathAt(g, s, 0, rate);
      PathAt(g, s, k, rate);
      assert BeatenByGood(g, s, Elems(t), rate, k);
      var b :| 0 <= b <= |s| && GoodFor(g, Elems(t), Elems(s[..b]))
          && Gain(g, Elems(s[..b]), rate) >= Gain(g, Elems(s[..k]), rate);
      var j := GatherAt(g, s, t, b, rate);
      PathAt(g, r, j, rate);
    }
  }

  lemma {:induction false} GatherAt(g: Graph, s: seq<nat>, t: seq<nat>, b: nat, rate: FeeFrac) returns (j: nat)
    requires WellFormed(g) && Sized(g) && Elems(s) <= g.used && Elems(t) <= Elems(s) && t != []
    requires b <= |s| && GoodFor(g, Elems(t), Elems(s[..b]))
    ensures j <= |t + Without(s, Elems(t))|
    ensures Gain(g, Elems((t + Without(s, Elems(t)))[..j]), rate) >= Gain(g, Elems(s[..b]), rate)
  {
    hide FeeRate, Excess, WellFormed, GoodFor, Gain;
    var e, p := Elems(t), Elems(s[..b]);
    var r := t + Without(s, e);
    if Gain(g, p, rate) <= 0 {
      j := 0;
      assert Elems(r[..0]) == {};
      GainNone(g, rate);
    } else {
      assert t[0] in e;
      GoodGain(g, e, p, rate);
      var w := Without(s[..b], e);
      j := |t| + |w|;
      WithoutAppend(s[..b], s[b..], e);
      assert s[..b] + s[b..] == s;
      assert r[..j] == t + w;
      ElemsAppend(t, w);
      WithoutElems(s[..b], e);
      assert Elems(r[..j]) == p + (e - p);
      GainUnion(g, p, e - p, rate);
    }
  }

  /** Improving the rest of a linearization improves the whole. */
  lemma {:induction false} DominatesAfter(g: Graph, a: seq<nat>, q: seq<nat>, p: seq<nat>)
    requires Distinct(a + q) && Distinct(a + p) && Dominates(PathOf(g, q), PathOf(g, p))
    ensures Dominates(PathOf(g, a + q), PathOf(g, a + p))
  {
    hide FeeRate, Excess, Gain, PathOf;
    forall rate: FeeFrac, k | rate.size > 0 && 0 <= k < |PathOf(g, a + p)|
      ensures Reaches(PathOf(g, a + q), rate, Excess(PathOf(g, a + p)[k], rate))
    {
      PathAt(g, a + p, 0, rate);
      PathAt(g, a + p, k, rate);
      PathAt(g, a + q, 0, rate);
      if k <= |a| {
        assert (a + p)[..k] == a[..k] == (a + q)[..k];
        PathAt(g, a + q, k, rate);
        assert Excess(PathOf(g, a + q)[k], rate) >= Excess(PathOf(g, a + p)[k], rate);
      } else {
        var i := k - |a|;
        GainAfter(g, a, p, i, rate);
        PathAt(g, p, i, rate);
        assert Reaches(PathOf(g, q), rate, Excess(PathOf(g, p)[i], rate));
        var j :| 0 <= j < |PathOf(g, q)| && Excess(PathOf(g, q)[j], rate) >= Excess(PathOf(g, p)[i], rate);
        PathAt(g, q, 0, rate);
        PathAt(g, q, j, rate);
        GainAfter(g, a, q, j, rate);
        PathAt(g, a + q, |a| + j, rate);
        assert Excess(PathOf(g, a + q)[|a| + j], rate) >= Excess(PathOf(g, a + p)[k], rate);
      }
    }
  }

  lemma {:induction false} GainAfter(g: Graph, a: seq<nat>, p: seq<nat>, i: nat, rate: FeeFrac)
    requires Distinct(a + p) && i <= |p|
    ensures Gain(g, Elems((a + p)[..|a| + i]), rate) == Gain(g, Elems(a), rate) + Gain(g, Elems(p[..i]), rate)
  {
    hide Gain;
    assert (a + p)[..|a| + i] == a + p[..i];
    ElemsAppend(a, p[..i]);
    DistinctAppend(a, p);
    GainUnion(g, Elems(a), Elems(p[..i]), rate);
  }

  /** One step of building a better linearization: t moves to the front of what remains. */
  lemma {:induction false} GatherAfter(g: Graph, out: seq<nat>, s: seq<nat>, t: seq<nat>, start: seq<nat>)
    requires WellFormed(g) && Sized(g) && Distinct(out + s) && Elems(s) <= g.used
    requires Distinct(t) && Elems(t) <= Elems(s) && t != []
    requires CanGather(g, s, Elems(t)) && Dominates(PathOf(g, out + s), PathOf(g, start))
    ensures Dominates(PathOf(g, out + t + Without(s, Elems(t))), PathOf(g, start))
    ensures Distinct(out + t + Without(s, Elems(t)))
  {
    hide FeeRate, WellFormed, PathOf, Dominates, CanGather;
    var w := Without(s, Elems(t));
    DistinctAppend(out, s);
    WithoutElems(s, Elems(t));
    DistinctAppend(t, w);
    ElemsAppend(t, w);
    DistinctAppend(out, t + w);
    assert out + t + w == out + (t + w);
    Gather(g, s, t);
    DominatesAfter(g, out, t + w, s);
    DominatesTransitive(PathOf(g, out + (t + w)), PathOf(g, out + s), PathOf(g, start));
  }
}
