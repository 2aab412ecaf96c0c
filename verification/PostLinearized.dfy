/** What PostLinearize makes of a linearization (src/cluster_linearize.h:1120-1142): a pass from
    the back, which is a pass from the front over the cluster turned around, and one from the
    front. */
module PostLinearized {
  import opened FeeFracs
  import opened Diagrams
  import opened Sequences
  import opened DepGraphs
  import opened Linearizations
  import opened Merging
  import opened Linearizing
  import opened Grouping
  import opened Trees

  // ---------------------------------------------------------------------------------------
  // Turning a cluster around

  function Negated(f: FeeFrac): FeeFrac {
    FeeFrac(-f.fee, f.size)
  }

  /** Parents become children, and fees change sign. */
  function Flip(g: Graph): (h: Graph)
    ensures |h.entries| == |g.entries| && h.used == g.used
  {
    Graph(seq(|g.entries|, i requires 0 <= i < |g.entries| =>
            Entry(Negated(g.entries[i].feerate), g.entries[i].descendants, g.entries[i].ancestors)), g.used)
  }

  lemma FlipAt(g: Graph, i: nat)
    ensures Anc(Flip(g), i) == Desc(g, i) && Desc(Flip(g), i) == Anc(g, i)
    ensures Rate(Flip(g), i) == Negated(Rate(g, i))
  {
  }

  lemma {:induction false} FlipWellFormed(g: Graph)
    requires WellFormed(g) && Sized(g)
    ensures WellFormed(Flip(g)) && Sized(Flip(g))
  {
    hide Flip;
    var h := Flip(g);
    forall i: nat
      ensures Anc(h, i) == Desc(g, i) && Desc(h, i) == Anc(g, i) && Rate(h, i) == Negated(Rate(g, i))
    {
      FlipAt(g, i);
    }
    forall i, j, k | i in h.used && j in Anc(h, i) && k in Anc(h, j)
      ensures k in Anc(h, i)
    {
      assert i in Anc(g, j) && j in Anc(g, k);
    }
    MakeWellFormed(h);
  }

  lemma {:induction false} FlipAcyclic(g: Graph)
    requires WellFormed(g) && Acyclic(g)
    ensures Acyclic(Flip(g))
  {
    hide Flip;
    var h := Flip(g);
    forall i, j | i in h.used && j in h.used && j in Anc(h, i) && i in Anc(h, j)
      ensures i == j
    {
      FlipAt(g, i);
      FlipAt(g, j);
    }
  }

  lemma {:induction false} FlipFeeBelow(g: Graph, s: set<nat>, n: nat)
    ensures FeeBelow(Flip(g), s, n) == Negated(FeeBelow(g, s, n))
  {
    hide Flip, Rate;
    if n > 0 {
      FlipFeeBelow(g, s, n - 1);
      FlipAt(g, n - 1);
    }
  }

  lemma FlipFee(g: Graph, s: set<nat>)
    ensures FeeRate(Flip(g), s) == Negated(FeeRate(g, s))
  {
    FlipFeeBelow(g, s, |g.entries|);
  }

  lemma NegatedExcess(a: FeeFrac, rate: FeeFrac)
    ensures Excess(Negated(a), Negated(rate)) == -Excess(a, rate)
  {
  }

  lemma {:induction false} ReverseElems(s: seq<nat>, k: nat)
    requires k <= |s|
    ensures Elems(Reverse(s)[..|s| - k]) == Elems(s[k..])
    ensures Elems(Reverse(s)) == Elems(s) && (Distinct(s) ==> Distinct(Reverse(s)))
    ensures Reverse(Reverse(s)) == s
  {
    var r := Reverse(s);
    forall x
      ensures x in r[..|s| - k] <==> x in s[k..]
    {
      if x in r[..|s| - k] {
        var i :| 0 <= i < |s| - k && r[i] == x;
        assert s[k..][|s| - 1 - i - k] == x;
      }
      if x in s[k..] {
        var i :| 0 <= i < |s| - k && s[k..][i] == x;
        assert r[|s| - 1 - (i + k)] == x;
      }
    }
    forall x
      ensures x in r <==> x in s
    {
      if x in s {
        var i :| 0 <= i < |s| && s[i] == x;
        assert r[|s| - 1 - i] == x;
      }
    }
  }

  lemma {:induction false} FlipOrders(g: Graph, todo: set<nat>, s: seq<nat>)
    requires WellFormed(g) && todo <= g.used && Orders(g, todo, s)
    ensures Orders(Flip(g), todo, Reverse(s))
  {
    hide Flip, WellFormed, Anc, Desc, Reverse;
    ReverseElems(s, 0);
    var h, r := Flip(g), Reverse(s);
    forall i, j | 0 <= i < j < |r|
      ensures r[j] !in Anc(h, r[i])
    {
      FlipOrdersAt(g, todo, s, i, j);
    }
  }

  lemma {:induction false} FlipOrdersAt(g: Graph, todo: set<nat>, s: seq<nat>, i: nat, j: nat)
    requires WellFormed(g) && todo <= g.used && Orders(g, todo, s) && i < j < |s|
    ensures Reverse(s)[j] !in Anc(Flip(g), Reverse(s)[i])
  {
    hide *;
    ReverseAt(s, i);
    ReverseAt(s, j);
    FlippedAncestor(g, todo, s, |s| - 1 - j, |s| - 1 - i);
  }

  lemma {:induction false} FlippedAncestor(g: Graph, todo: set<nat>, s: seq<nat>, a: nat, b: nat)
    requires WellFormed(g) && todo <= g.used && Orders(g, todo, s) && a < b < |s|
    ensures s[a] !in Anc(Flip(g), s[b])
  {
    hide *;
    OrdersAt(g, todo, s, a, b);
    FlipAt(g, s[b]);
    if s[a] in Desc(g, s[b]) {
      DescendantUsed(g, s[a], s[b]);
    }
  }

  lemma ReverseAt(s: seq<nat>, i: nat)
    requires i < |s|
    ensures Reverse(s)[i] == s[|s| - 1 - i]
  {
  }

  lemma OrdersAt(g: Graph, todo: set<nat>, s: seq<nat>, a: nat, b: nat)
    requires Orders(g, todo, s) && todo <= g.used && a < b < |s|
    ensures s[b] !in Anc(g, s[a]) && s[a] in g.used && s[b] in g.used
  {
    assert s[a] in Elems(s) && s[b] in Elems(s);
  }

  lemma FlipTwice(g: Graph)
    ensures Flip(Flip(g)) == g
  {
  }

  lemma {:induction false} FlipBack(g: Graph, todo: set<nat>, s: seq<nat>)
    requires WellFormed(g) && Sized(g) && todo <= g.used && Orders(Flip(g), todo, s)
    ensures Orders(g, todo, Reverse(s))
  {
    hide Flip, WellFormed, Sized, Orders, Reverse;
    FlipWellFormed(g);
    FlipTwice(g);
    FlipOrders(Flip(g), todo, s);
  }

  /** Around the other way, a prefix is worth what it was, less the worth of everything. */
  lemma {:induction false} FlipGain(g: Graph, s: seq<nat>, k: nat, rate: FeeFrac)
    requires Distinct(s) && k <= |s|
    ensures Excess(PathOf(Flip(g), Reverse(s))[|s| - k], Negated(rate)) ==
        Excess(PathOf(g, s)[k], rate) - Gain(g, Elems(s), rate)
  {
    hide Flip, Excess, FeeRate;
    var a, b := s[..k], s[k..];
    assert s == a + b;
    DistinctAppend(a, b);
    ElemsAppend(a, b);
    GainUnion(g, Elems(a), Elems(b), rate);
    ReverseElems(s, k);
    PathAt(Flip(g), Reverse(s), |s| - k, Negated(rate));
    PathAt(g, s, k, rate);
    FlipFee(g, Elems(b));
    NegatedExcess(FeeRate(g, Elems(b)), rate);
  }

  lemma {:induction false} FlipDominates(g: Graph, q: seq<nat>, p: seq<nat>)
    requires Distinct(q) && Distinct(p) && Elems(q) == Elems(p)
    requires Dominates(PathOf(Flip(g), Reverse(q)), PathOf(Flip(g), Reverse(p)))
    ensures Dominates(PathOf(g, q), PathOf(g, p))
  {
    hide Flip, Excess, PathOf, Gain, Reverse;
    var v, w := PathOf(Flip(g), Reverse(q)), PathOf(Flip(g), Reverse(p));
    forall rate: FeeFrac, k | rate.size > 0 && 0 <= k < |PathOf(g, p)|
      ensures Reaches(PathOf(g, q), rate, Excess(PathOf(g, p)[k], rate))
    {
      FlipGain(g, p, k, rate);
      assert Negated(rate).size > 0 && Reaches(v, Negated(rate), Excess(w[|p| - k], Negated(rate)));
      var j :| 0 <= j < |v| && Excess(v[j], Negated(rate)) >= Excess(w[|p| - k], Negated(rate));
      FlipGain(g, q, |q| - j, rate);
      assert Excess(PathOf(g, q)[|q| - j], rate) >= Excess(PathOf(g, p)[k], rate);
    }
  }

  // ---------------------------------------------------------------------------------------
  // The two passes

  /** A pass from the front. */
  ghost function Pass(g: Graph, s: seq<nat>): seq<nat> {
    Flat(Groups(g, s))
  }

  /** A pass from the back. */
  ghost function BackPass(g: Graph, s: seq<nat>): seq<nat> {
    Reverse(Pass(Flip(g), Reverse(s)))
  }

  ghost function PostLinearization(g: Graph, s: seq<nat>): seq<nat> {
    Pass(g, BackPass(g, s))
  }

  lemma {:induction false} BackPassGood(g: Graph, s: seq<nat>)
    requires WellFormed(g) && Sized(g) && Orders(g, g.used, s)
    ensures Orders(g, g.used, BackPass(g, s))
    ensures Dominates(PathOf(g, BackPass(g, s)), PathOf(g, s))
  {
    hide WellFormed, Sized, Topo, Flip, GoodGroups, Falling, PathOf, Dominates, Reverse, Groups;
    var h, r := Flip(g), Reverse(s);
    FlipWellFormed(g);
    FlipOrders(g, g.used, s);
    GroupedAll(h, r, g.used);
    FlipBack(g, g.used, Pass(h, r));
    ReverseElems(Pass(h, r), 0);
    ReverseElems(s, 0);
    FlipDominates(g, BackPass(g, s), s);
  }

  lemma {:induction false} PassGood(g: Graph, s: seq<nat>)
    requires WellFormed(g) && Sized(g) && Orders(g, g.used, s)
    ensures Orders(g, g.used, Pass(g, s))
    ensures Dominates(PathOf(g, Pass(g, s)), PathOf(g, s))
    ensures ChunksConnected(g, Pass(g, s))
  {
    hide WellFormed, Sized, Topo, GoodGroups, Falling, PathOf, Dominates, Groups, ChunksConnected;
    GroupedAll(g, s, g.used);
    GroupedConnected(g, Groups(g, s), g.used);
  }

  /** PostLinearize returns a linearization, never lowers the diagram in either pass, and leaves
      only connected chunks. */
  lemma {:induction false} PostLinearizationGood(g: Graph, s: seq<nat>)
    requires WellFormed(g) && Sized(g) && Orders(g, g.used, s)
    ensures Orders(g, g.used, PostLinearization(g, s))
    ensures NoWorseThanOld(g, BackPass(g, s), s)
    ensures NoWorseThanOld(g, PostLinearization(g, s), BackPass(g, s))
    ensures NoWorseThanOld(g, PostLinearization(g, s), s)
    ensures ChunksConnected(g, PostLinearization(g, s))
  {
    hide WellFormed, Sized, Orders, Pass, BackPass, PathOf, Dominates, ChunksConnected, IsPath, NoWorse;
    BackPassGood(g, s);
    var m := BackPass(g, s);
    PassGood(g, m);
    Complete(g, m, s);
    Complete(g, PostLinearization(g, s), m);
    DominatesTransitive(PathOf(g, PostLinearization(g, s)), PathOf(g, m), PathOf(g, s));
    Complete(g, PostLinearization(g, s), s);
  }

  // ---------------------------------------------------------------------------------------
  // Tree-shaped clusters

  ghost predicate AtMostOneParent(g: Graph) {
    forall p, q, c :: IsChild(g, p, c) && IsChild(g, q, c) ==> p == q
  }

  lemma {:induction false} FlipChild(g: Graph, p: nat, c: nat)
    requires WellFormed(g) && IsChild(Flip(g), p, c)
    ensures IsChild(g, c, p)
  {
    hide Flip, WellFormed;
    FlipAt(g, c);
    DescendantUsed(g, p, c);
    forall m | m in Anc(g, p) && c in Anc(g, m)
      ensures m == p || m == c
    {
      AncestorUsed(g, p, m);
      AncestorUsed(g, m, c);
      FlipAt(g, m);
    }
  }

  lemma {:induction false} FlipOneParent(g: Graph)
    requires WellFormed(g) && AtMostOneParent(g)
    ensures AtMostOneChild(Flip(g))
  {
    hide Flip, WellFormed, IsChild;
    forall p, c, d | IsChild(Flip(g), p, c) && IsChild(Flip(g), p, d)
      ensures c == d
    {
      FlipChild(g, p, c);
      FlipChild(g, p, d);
    }
  }

  /** Every linearization is dominated by out. */
  ghost predicate Tops(g: Graph, out: seq<nat>) {
    forall s :: Orders(g, g.used, s) ==> Dominates(PathOf(g, out), PathOf(g, s))
  }

  lemma {:induction false} PassTops(g: Graph, s: seq<nat>)
    requires WellFormed(g) && Sized(g) && Acyclic(g) && AtMostOneChild(g) && Orders(g, g.used, s)
    ensures Tops(g, Pass(g, s))
  {
    hide WellFormed, Sized, Acyclic, AtMostOneChild, Orders, DescendantsInLine, Dominates, PathOf, Grouped, TreeGroups,
        Groups;
    OneChildInLine(g);
    GroupedAll(g, s, g.used);
    AllTrees(g, s, g.used);
    forall r | Orders(g, g.used, r)
      ensures Dominates(PathOf(g, Pass(g, s)), PathOf(g, r))
    {
      TreeBest(g, Groups(g, s), r);
    }
  }

  lemma {:induction false} BackPassTops(g: Graph, s: seq<nat>)
    requires WellFormed(g) && Sized(g) && Acyclic(g) && AtMostOneParent(g) && Orders(g, g.used, s)
    ensures Tops(g, BackPass(g, s))
  {
    hide WellFormed, Sized, Acyclic, AtMostOneChild, AtMostOneParent, Topo, Dominates, PathOf, Pass, Flip, Reverse;
    var h := Flip(g);
    FlipWellFormed(g);
    FlipAcyclic(g);
    FlipOneParent(g);
    FlipOrders(g, g.used, s);
    PassTops(h, Reverse(s));
    BackPassGood(g, s);
    PassGood(h, Reverse(s));
    forall r | Orders(g, g.used, r)
      ensures Dominates(PathOf(g, BackPass(g, s)), PathOf(g, r))
    {
      FlipOrders(g, g.used, r);
      ReverseElems(Pass(h, Reverse(s)), 0);
      FlipDominates(g, BackPass(g, s), r);
    }
  }

  /** If no transaction has two children, or none has two parents, PostLinearize is optimal. */
  lemma {:induction false} PostLinearizationTree(g: Graph, s: seq<nat>)
    requires WellFormed(g) && Sized(g) && Acyclic(g) && (AtMostOneChild(g) || AtMostOneParent(g))
    requires Orders(g, g.used, s)
    ensures Unbeatable(g, PostLinearization(g, s))
  {
    hide WellFormed, Sized, Acyclic, AtMostOneChild, AtMostOneParent, Orders, Pass, BackPass, PathOf, Dominates, IsPath,
        NoWorse, ChunksConnected;
    BackPassGood(g, s);
    var m, out := BackPass(g, s), PostLinearization(g, s);
    PassGood(g, m);
    if AtMostOneChild(g) {
      PassTops(g, m);
    } else {
      BackPassTops(g, s);
    }
    forall r | Orders(g, g.used, r)
      ensures IsPath(PathOf(g, out)) && IsPath(PathOf(g, r)) && NoWorse(PathOf(g, out), PathOf(g, r))
    {
      if !AtMostOneChild(g) {
        DominatesTransitive(PathOf(g, out), PathOf(g, m), PathOf(g, r));
      }
      Complete(g, out, r);
    }
  }
}
