/** Tree-shaped clusters: one pass of the improver already finds the best linearization
    (src/cluster_linearize.h:1128-1129, 1143-1147). */
module Trees {
  import opened FeeFracs
  import opened Diagrams
  import opened Sequences
  import opened DepGraphs
  import opened Linearizations
  import opened Merging
  import opened Grouping

  // ---------------------------------------------------------------------------------------
  // Shapes

  /** c depends on p with nothing in between. */
  ghost predicate IsChild(g: Graph, p: nat, c: nat) {
    && c in g.used && p in Anc(g, c) && p != c
    && forall m :: m in Anc(g, c) && p in Anc(g, m) ==> m == p || m == c
  }

  ghost predicate AtMostOneChild(g: Graph) {
    forall p, c, d :: IsChild(g, p, c) && IsChild(g, p, d) ==> c == d
  }

  /** Any two descendants of a transaction depend one on the other. */
  ghost predicate DescendantsInLine(g: Graph) {
    forall x, a, b :: a in g.used && b in g.used && x in Anc(g, a) && x in Anc(g, b) ==> Related(g, a, b)
  }

  lemma {:induction false} SomeChild(g: Graph, x: nat, a: nat) returns (c: nat)
    requires WellFormed(g) && Acyclic(g) && a in g.used && x in Anc(g, a) && x != a
    ensures IsChild(g, x, c) && c in Anc(g, a)
    decreases |Anc(g, a)|
  {
    hide WellFormed, Acyclic;
    if IsChild(g, x, a) {
      c := a;
      SelfAncestor(g, a);
    } else {
      var m :| m in Anc(g, a) && x in Anc(g, m) && m != x && m != a;
      AncestorUsed(g, a, m);
      FewerAncestors(g, a, m);
      c := SomeChild(g, x, m);
      AncestorTransitive(g, a, m, c);
    }
  }

  lemma {:induction false} InLineAt(g: Graph, x: nat, a: nat, b: nat)
    requires WellFormed(g) && Acyclic(g) && AtMostOneChild(g)
    requires a in g.used && b in g.used && x in Anc(g, a) && x in Anc(g, b)
    ensures Related(g, a, b)
    decreases |Anc(g, a) - Anc(g, x)|
  {
    hide WellFormed, Acyclic, AtMostOneChild;
    if x != a && x != b {
      var c := SomeChild(g, x, a);
      var d := SomeChild(g, x, b);
      OnlyChild(g, x, c, d);
      AncestorUsed(g, a, x);
      AncestorUsed(g, a, c);
      SelfAncestor(g, c);
      assert forall y :: y in Anc(g, x) ==> y in Anc(g, c) by {
        forall y | y in Anc(g, x) ensures y in Anc(g, c) { AncestorTransitive(g, c, x, y); }
      }
      NotBothWays(g, x, c);
      assert c in Anc(g, a) - Anc(g, x) && c !in Anc(g, a) - Anc(g, c);
      SmallerSet(Anc(g, a) - Anc(g, c), Anc(g, a) - Anc(g, x));
      InLineAt(g, c, a, b);
    }
  }

  lemma OnlyChild(g: Graph, p: nat, c: nat, d: nat)
    requires AtMostOneChild(g) && IsChild(g, p, c) && IsChild(g, p, d)
    ensures c == d
  {
  }

  lemma NotBothWays(g: Graph, x: nat, c: nat)
    requires Acyclic(g) && x in g.used && c in g.used && x in Anc(g, c) && x != c
    ensures c !in Anc(g, x)
  {
  }

  lemma {:induction false} OneChildInLine(g: Graph)
    requires WellFormed(g) && Acyclic(g) && AtMostOneChild(g)
    ensures DescendantsInLine(g)
  {
    hide WellFormed, Acyclic, AtMostOneChild, Related;
    forall x, a, b | a in g.used && b in g.used && x in Anc(g, a) && x in Anc(g, b)
      ensures Related(g, a, b)
    {
      InLineAt(g, x, a, b);
    }
  }

  // ---------------------------------------------------------------------------------------
  // Groups in such clusters

  /** Everything in the group is needed by its last transaction. */
  ghost predicate Rooted(g: Graph, c: seq<nat>) {
    c != [] && forall x :: x in c ==> x in Anc(g, c[|c| - 1])
  }

  /** Whatever could be taken out of the group first has no higher feerate than rate. */
  ghost predicate Inner(g: Graph, c: seq<nat>, rate: FeeFrac) {
    forall s :: Closed(g, Elems(c), s) && s != Elems(c) ==> Excess(FeeRate(g, s), rate) <= 0
  }

  ghost predicate TreeGroup(g: Graph, c: seq<nat>) {
    Rooted(g, c) && Inner(g, c, Total(g, c))
  }

  ghost predicate TreeGroups(g: Graph, gs: seq<seq<nat>>) {
    forall i :: 0 <= i < |gs| ==> TreeGroup(g, gs[i])
  }

  lemma {:induction false} InnerUp(g: Graph, c: seq<nat>, low: FeeFrac, high: FeeFrac)
    requires Inner(g, c, low) && Excess(low, high) <= 0 && low.size > 0
    ensures Inner(g, c, high)
  {
    hide Excess, FeeRate, Closed;
    forall s | Closed(g, Elems(c), s) && s != Elems(c)
      ensures Excess(FeeRate(g, s), high) <= 0
    {
      ExcessTransitive(FeeRate(g, s), low, high);
    }
  }

  lemma {:induction false} MergedRooted(g: Graph, p: seq<nat>, c: seq<nat>)
    requires WellFormed(g) && DescendantsInLine(g) && Elems(p) <= g.used && Elems(c) <= g.used
    requires Rooted(g, p) && Rooted(g, c) && Depends(g, c, p) && Topo(g, p + c)
    ensures Rooted(g, p + c)
  {
    hide WellFormed, Topo, DescendantsInLine;
    var a, b := p[|p| - 1], c[|c| - 1];
    assert a in Elems(p) && b in Elems(c);
    var x, y :| x in c && y in p && y in Anc(g, x);
    AncestorTransitive(g, b, x, y);
    InLine(g, y, a, b);
    TopoAppend(g, p, c);
    assert b !in Anc(g, a);
    forall z | z in p + c
      ensures z in Anc(g, b)
    {
      if z in p {
        AncestorTransitive(g, b, a, z);
      }
    }
    assert (p + c)[|p + c| - 1] == b;
  }

  lemma InLine(g: Graph, x: nat, a: nat, b: nat)
    requires DescendantsInLine(g) && a in g.used && b in g.used && x in Anc(g, a) && x in Anc(g, b)
    ensures b in Anc(g, a) || a in Anc(g, b)
  {
  }

  lemma {:induction false} MergedInner(g: Graph, p: seq<nat>, c: seq<nat>)
    requires Elems(p) !! Elems(c) && Rooted(g, p + c) && c != [] && Inner(g, p, Total(g, p)) && Inner(g, c, Total(g, p))
    ensures Inner(g, p + c, Total(g, p))
  {
    hide Excess, FeeRate, Inner, Rooted;
    ElemsAppend(p, c);
    var rate := Total(g, p);
    forall s | Closed(g, Elems(p + c), s) && s != Elems(p + c)
      ensures Excess(FeeRate(g, s), rate) <= 0
    {
      var sp, sc := s * Elems(p), s * Elems(c);
      assert s == sp + sc && sp !! sc;
      MissesLast(g, p, c, s);
      InnerAt(g, c, rate, sc);
      HigherIsExcess(rate, rate);
      if sp != Elems(p) {
        InnerAt(g, p, rate, sp);
      }
      FeeUnion(g, sp, sc);
      ExcessPlus(FeeRate(g, sp), FeeRate(g, sc), rate);
    }
    assert Inner(g, p + c, rate) by { MakeInner(g, p + c, rate); }
  }

  lemma MakeInner(g: Graph, c: seq<nat>, rate: FeeFrac)
    requires forall s :: Closed(g, Elems(c), s) && s != Elems(c) ==> Excess(FeeRate(g, s), rate) <= 0
    ensures Inner(g, c, rate)
  {
  }

  lemma InnerAt(g: Graph, c: seq<nat>, rate: FeeFrac, s: set<nat>)
    requires Inner(g, c, rate) && Closed(g, Elems(c), s) && s != Elems(c)
    ensures Excess(FeeRate(g, s), rate) <= 0
  {
  }

  lemma {:induction false} MissesLast(g: Graph, p: seq<nat>, c: seq<nat>, s: set<nat>)
    requires Rooted(g, p + c) && c != [] && Closed(g, Elems(p + c), s) && s != Elems(p + c)
    ensures s * Elems(c) != Elems(c)
  {
    var z := c[|c| - 1];
    assert (p + c)[|p + c| - 1] == z && z in Elems(c);
    var y :| y in Elems(p + c) && y !in s;
    assert y in Anc(g, z);
  }

  lemma {:induction false} SettledTree(g: Graph, l: seq<seq<nat>>, c: seq<nat>, r: seq<seq<nat>>, todo: set<nat>)
    requires WellFormed(g) && DescendantsInLine(g) && todo <= g.used && Orders(g, todo, Flat(l) + c + Flat(r))
    requires TreeGroups(g, l) && TreeGroup(g, c) && TreeGroups(g, r)
    requires Positive(g, l) && Falling(g, l) && (l != [] ==> Inner(g, c, Total(g, l[|l| - 1])))
    ensures TreeGroups(g, Settle(g, l, c, r))
    decreases |l|
  {
    hide WellFormed, DescendantsInLine, Orders, TreeGroup, Inner, FeeRate, Total, Higher, Depends, NoHigher, Elems;
    if l != [] && Higher(Total(g, c), Total(g, l[|l| - 1])) {
      var i, p := l[..|l| - 1], l[|l| - 1];
      FlatLast(l);
      if Depends(g, c, p) {
        assert Flat(l) + c + Flat(r) == Flat(i) + (p + c) + Flat(r);
        assert i != [] ==> NoHigher(g, l[|i| - 1 + 1], l[|i| - 1]);
        MergedTree(g, Flat(i), p, c, Flat(r), todo, i);
        SettledTree(g, i, p + c, r, todo);
      } else {
        assert Flat(l) + c + Flat(r) == Flat(i) + p + c + Flat(r);
        assert i != [] ==> NoHigher(g, l[|i| - 1 + 1], l[|i| - 1]);
        SwappedTree(g, Flat(i), p, c, Flat(r), todo, i);
        FlatFirst(p, r);
        assert Flat(i) + c + Flat([p] + r) == Flat(i) + c + p + Flat(r);
        SettledTree(g, i, c, [p] + r, todo);
      }
    }
  }

  lemma {:induction false} MergedTree(g: Graph, a: seq<nat>, p: seq<nat>, c: seq<nat>, b: seq<nat>, todo: set<nat>,
      l: seq<seq<nat>>)
    requires WellFormed(g) && DescendantsInLine(g) && todo <= g.used && Orders(g, todo, a + (p + c) + b)
    requires TreeGroup(g, p) && TreeGroup(g, c) && Inner(g, c, Total(g, p)) && Total(g, p).size > 0
    requires Higher(Total(g, c), Total(g, p)) && Depends(g, c, p) && (l != [] ==> NoHigher(g, p, l[|l| - 1]))
    ensures TreeGroup(g, p + c) && (l != [] ==> Inner(g, p + c, Total(g, l[|l| - 1])))
  {
    hide WellFormed, DescendantsInLine, Topo, Inner, FeeRate, Excess, Higher, Depends, Elems, Distinct, Rooted;
    OrdersMiddle(g, a, p + c, b, todo);
    DistinctAppend(p, c);
    ElemsAppend(p, c);
    MergedRooted(g, p, c);
    RootedSome(g, c);
    MergedInner(g, p, c);
    HigherIsExcess(Total(g, c), Total(g, p));
    HigherIsExcess(Total(g, p), Total(g, p));
    FeeUnion(g, Elems(p), Elems(c));
    HigherIsExcess(Total(g, p), Total(g, p + c));
    ExcessPlus(Total(g, p), Total(g, c), Total(g, p));
    InnerUp(g, p + c, Total(g, p), Total(g, p + c));
    if l != [] {
      InnerUp(g, p + c, Total(g, p), Total(g, l[|l| - 1]));
    }
  }

  lemma RootedSome(g: Graph, c: seq<nat>)
    requires Rooted(g, c)
    ensures c != []
  {
  }

  lemma {:induction false} OrdersMiddle(g: Graph, a: seq<nat>, c: seq<nat>, b: seq<nat>, todo: set<nat>)
    requires Orders(g, todo, a + c + b)
    ensures Distinct(c) && Elems(c) <= todo && Topo(g, c)
  {
    hide Topo;
    DistinctAppend(a + c, b);
    DistinctAppend(a, c);
    ElemsAppend(a + c, b);
    ElemsAppend(a, c);
    TopoAppend(g, a + c, b);
    TopoAppend(g, a, c);
  }

  lemma {:induction false} SwappedTree(g: Graph, a: seq<nat>, p: seq<nat>, c: seq<nat>, b: seq<nat>, todo: set<nat>,
      l: seq<seq<nat>>)
    requires Orders(g, todo, a + p + c + b) && !Depends(g, c, p)
    requires Inner(g, c, Total(g, p)) && Total(g, p).size > 0 && (l != [] ==> NoHigher(g, p, l[|l| - 1]))
    ensures Orders(g, todo, a + c + p + b)
    ensures l != [] ==> Inner(g, c, Total(g, l[|l| - 1]))
  {
    hide Topo, Inner, Total, Excess, Depends, Elems;
    SwapTopo(g, a, p, c, b);
    DistinctPieces(a, p, c, b);
    if l != [] {
      InnerUp(g, c, Total(g, p), Total(g, l[|l| - 1]));
    }
  }

  lemma {:induction false} OneTree(g: Graph, x: nat, rate: FeeFrac)
    requires WellFormed(g) && x in g.used
    ensures Rooted(g, [x]) && Inner(g, [x], rate)
  {
    hide FeeRate, Excess, WellFormed;
    SelfAncestor(g, x);
    forall s | Closed(g, Elems([x]), s) && s != Elems([x])
      ensures Excess(FeeRate(g, s), rate) <= 0
    {
      assert s == {};
      FeeNone(g);
      NoneExcess(rate);
    }
  }

  lemma {:induction false} AllTrees(g: Graph, s: seq<nat>, todo: set<nat>)
    requires WellFormed(g) && Sized(g) && DescendantsInLine(g) && todo <= g.used && Orders(g, todo, s)
    ensures TreeGroups(g, Groups(g, s))
  {
    hide WellFormed, Sized, Topo, DescendantsInLine, GoodGroups, Falling, Settle, Inner, Rooted, PathOf, Dominates;
    if s != [] {
      var r, x := s[..|s| - 1], s[|s| - 1];
      assert s == r + [x];
      AppendedOrders(g, r, x, todo);
      AllTrees(g, r, todo - {x});
      GroupedAll(g, r, todo - {x});
      var gs := Groups(g, r);
      SameThen(g, Flat(gs), r, x, todo);
      assert Flat(gs) + [x] == Flat(gs) + [x] + Flat([]);
      GroupsPositive(g, gs);
      OneTree(g, x, Total(g, [x]));
      if gs != [] {
        OneTree(g, x, Total(g, gs[|gs| - 1]));
      }
      SettledTree(g, gs, [x], [], todo);
    }
  }

  // ---------------------------------------------------------------------------------------
  // Nothing is better

  lemma {:induction false} InsideGroup(g: Graph, c: seq<nat>, s: set<nat>, rate: FeeFrac)
    requires Inner(g, c, Total(g, c)) && Closed(g, Elems(c), s) && Total(g, c).size > 0
    ensures Gain(g, s, rate) <= Max(0, Gain(g, Elems(c), rate))
  {
    hide Excess, FeeRate;
    if s != Elems(c) {
      FeeSubset(g, s, Elems(c));
      PartExcess(FeeRate(g, s), Total(g, c), rate);
    }
  }

  /** Where all groups have a gain, no part of them has more. */
  lemma {:induction false} AllRise(g: Graph, gs: seq<seq<nat>>, s: set<nat>, rate: FeeFrac)
    requires Distinct(Flat(gs)) && Positive(g, gs) && TreeGroups(g, gs)
    requires forall i :: 0 <= i < |gs| ==> Closed(g, Elems(gs[i]), s * Elems(gs[i])) && Gain(g, Elems(gs[i]), rate) >= 0
    ensures Gain(g, s * Elems(Flat(gs)), rate) <= Gain(g, Elems(Flat(gs)), rate)
  {
    hide Gain, Closed, Inner, Rooted, Total;
    if gs == [] {
      assert s * Elems(Flat(gs)) == Elems(Flat(gs));
    } else {
      var hs, c := gs[..|gs| - 1], gs[|gs| - 1];
      LastGroup(g, gs, s, rate);
      AllRise(g, hs, s, rate);
      assert TreeGroup(g, gs[|gs| - 1]);
      InsideGroup(g, c, s * Elems(c), rate);
    }
  }

  lemma {:induction false} LastGroup(g: Graph, gs: seq<seq<nat>>, s: set<nat>, rate: FeeFrac)
    requires gs != [] && Distinct(Flat(gs))
    ensures Distinct(Flat(gs[..|gs| - 1]))
    ensures Gain(g, s * Elems(Flat(gs)), rate) ==
        Gain(g, s * Elems(Flat(gs[..|gs| - 1])), rate) + Gain(g, s * Elems(gs[|gs| - 1]), rate)
    ensures Gain(g, Elems(Flat(gs)), rate) ==
        Gain(g, Elems(Flat(gs[..|gs| - 1])), rate) + Gain(g, Elems(gs[|gs| - 1]), rate)
  {
    hide Gain;
    var hs, c := Flat(gs[..|gs| - 1]), gs[|gs| - 1];
    DistinctAppend(hs, c);
    ElemsAppend(hs, c);
    GainUnion(g, Elems(hs), Elems(c), rate);
    GainUnion(g, s * Elems(hs), s * Elems(c), rate);
    assert s * Elems(Flat(gs)) == s * Elems(hs) + s * Elems(c);
  }

  /** At every rate, some number of leading groups gains at least as much as any closed set. */
  lemma {:induction false} LeadingGroups(g: Graph, gs: seq<seq<nat>>, s: set<nat>, rate: FeeFrac) returns (j: nat)
    requires Distinct(Flat(gs)) && Positive(g, gs) && TreeGroups(g, gs) && Falling(g, gs) && rate.size > 0
    requires forall i :: 0 <= i < |gs| ==> Closed(g, Elems(gs[i]), s * Elems(gs[i]))
    ensures j <= |gs| && Gain(g, s * Elems(Flat(gs)), rate) <= Gain(g, Elems(Flat(gs[..j])), rate)
  {
    hide Gain, Closed, Inner, Rooted, Total, NoHigher;
    if gs == [] {
      j := 0;
      assert s * Elems(Flat(gs)) == {} && gs[..0] == gs && Elems(Flat(gs)) == {};
    } else {
      var hs, c := gs[..|gs| - 1], gs[|gs| - 1];
      LastGroup(g, gs, s, rate);
      if Gain(g, Elems(c), rate) > 0 {
        j := |gs|;
        assert gs[..j] == gs;
        EarlierRise(g, gs, rate, |gs| - 1);
        AllRise(g, gs, s, rate);
      } else {
        j := LeadingGroups(g, hs, s, rate);
        assert hs[..j] == gs[..j];
        assert TreeGroup(g, gs[|gs| - 1]);
        InsideGroup(g, c, s * Elems(c), rate);
      }
    }
  }

  lemma {:induction false} EarlierRise(g: Graph, gs: seq<seq<nat>>, rate: FeeFrac, k: nat)
    requires Positive(g, gs) && Falling(g, gs) && rate.size > 0 && k < |gs| && Gain(g, Elems(gs[k]), rate) >= 0
    ensures forall i :: 0 <= i <= k ==> Gain(g, Elems(gs[i]), rate) >= 0
  {
    hide Excess, FeeRate;
    if k > 0 {
      assert NoHigher(g, gs[k - 1 + 1], gs[k - 1]);
      HigherIsExcess(Total(g, gs[k]), Total(g, gs[k - 1]));
      ExcessTransitive(Total(g, gs[k - 1]), Total(g, gs[k]), rate);
      EarlierRise(g, gs, rate, k - 1);
    }
  }

  /** No linearization has, anywhere, a higher diagram than such groups. */
  lemma {:induction false} TreeBest(g: Graph, gs: seq<seq<nat>>, s: seq<nat>)
    requires WellFormed(g) && Sized(g) && Grouped(g, gs, g.used) && TreeGroups(g, gs) && Orders(g, g.used, s)
    ensures Dominates(PathOf(g, Flat(gs)), PathOf(g, s))
  {
    hide WellFormed, Sized, Topo, GoodGroups, Falling, TreeGroup, PathOf, Excess, Gain, Closed, Total;
    GroupsPositive(g, gs);
    var q, p := PathOf(g, Flat(gs)), PathOf(g, s);
    forall rate: FeeFrac, k | rate.size > 0 && 0 <= k < |p|
      ensures Reaches(q, rate, Excess(p[k], rate))
    {
      PathAt(g, s, k, rate);
      var e := Elems(s[..k]);
      PrefixClosed(g, g.used, s, k);
      forall i | 0 <= i < |gs|
        ensures Closed(g, Elems(gs[i]), e * Elems(gs[i]))
      {
        GroupWithin(gs, i);
        ClosedWithin(g, e, Elems(gs[i]));
      }
      var j := LeadingGroups(g, gs, e, rate);
      InTodo(g, g.used, e);
      assert e * Elems(Flat(gs)) == e;
      LeadingIsPrefix(gs, j);
      PathAt(g, Flat(gs), |Flat(gs[..j])|, rate);
    }
  }

  lemma {:induction false} LeadingIsPrefix(gs: seq<seq<nat>>, j: nat)
    requires j <= |gs|
    ensures |Flat(gs[..j])| <= |Flat(gs)| && Flat(gs)[..|Flat(gs[..j])|] == Flat(gs[..j])
  {
    FlatAppend(gs[..j], gs[j..]);
    assert gs == gs[..j] + gs[j..];
  }

  lemma ClosedWithin(g: Graph, e: set<nat>, c: set<nat>)
    requires Closed(g, g.used, e) && c <= g.used
    ensures Closed(g, c, e * c)
  {
  }
}
