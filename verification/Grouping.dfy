/** What one pass of the linearization improver computes (src/cluster_linearize.h:1144-1164): a
    list of groups, to which transactions are added one by one. A new group moves forward over
    groups of lower feerate, absorbing those it depends on. */
module Grouping {
  import opened FeeFracs
  import opened Diagrams
  import opened Sequences
  import opened DepGraphs
  import opened Linearizations
  import opened Merging

  // ---------------------------------------------------------------------------------------
  // The groups

  ghost function Total(g: Graph, c: seq<nat>): FeeFrac {
    FeeRate(g, Elems(c))
  }

  ghost predicate Depends(g: Graph, c: seq<nat>, p: seq<nat>) {
    exists x, y :: x in c && y in p && y in Anc(g, x)
  }

  function Flat(gs: seq<seq<nat>>): seq<nat> {
    if gs == [] then [] else Flat(gs[..|gs| - 1]) + gs[|gs| - 1]
  }

  /** Moves group c, which stands between the groups l and r, forward to where it belongs. */
  ghost function Settle(g: Graph, l: seq<seq<nat>>, c: seq<nat>, r: seq<seq<nat>>): seq<seq<nat>>
    decreases |l|
  {
    if l == [] || !Higher(Total(g, c), Total(g, l[|l| - 1])) then l + [c] + r
    else if Depends(g, c, l[|l| - 1]) then Settle(g, l[..|l| - 1], l[|l| - 1] + c, r)
    else Settle(g, l[..|l| - 1], c, [l[|l| - 1]] + r)
  }

  /** The groups after adding the transactions of s. */
  ghost function Groups(g: Graph, s: seq<nat>): seq<seq<nat>> {
    if s == [] then [] else Settle(g, Groups(g, s[..|s| - 1]), [s[|s| - 1]], [])
  }

  lemma {:induction false} FlatAppend(a: seq<seq<nat>>, b: seq<seq<nat>>)
    ensures Flat(a + b) == Flat(a) + Flat(b)
  {
    if b == [] {
      assert a + b == a;
    } else {
      FlatAppend(a, b[..|b| - 1]);
      assert (a + b)[..|a + b| - 1] == a + b[..|b| - 1];
    }
  }

  lemma FlatOne(c: seq<nat>)
    ensures Flat([c]) == c
  {
    assert [c][..0] == [];
  }

  lemma {:induction false} FlatLast(l: seq<seq<nat>>)
    requires l != []
    ensures Flat(l) == Flat(l[..|l| - 1]) + l[|l| - 1]
    ensures l == l[..|l| - 1] + [l[|l| - 1]]
  {
  }

  lemma {:induction false} FlatFirst(c: seq<nat>, r: seq<seq<nat>>)
    ensures Flat([c] + r) == c + Flat(r)
  {
    FlatAppend([c], r);
    FlatOne(c);
  }

  lemma {:induction false} FlatAround(l: seq<seq<nat>>, c: seq<nat>, r: seq<seq<nat>>)
    ensures Flat(l + [c] + r) == Flat(l) + c + Flat(r)
  {
    FlatAppend(l + [c], r);
    FlatAppend(l, [c]);
    FlatOne(c);
  }

  // ---------------------------------------------------------------------------------------
  // Swapping two neighbours

  /** No prefix has a higher feerate than the whole. */
  ghost predicate Tight(g: Graph, c: seq<nat>) {
    && c != []
    && forall k :: 0 < k < |c| ==> Excess(FeeRate(g, Elems(c[..k])), Total(g, c)) < 0
  }

  lemma {:induction false} PrefixExcess(g: Graph, c: seq<nat>, k: nat, rate: FeeFrac)
    requires WellFormed(g) && Sized(g) && Elems(c) <= g.used && Tight(g, c) && k <= |c|
    requires Excess(Total(g, c), rate) <= 0
    ensures Excess(FeeRate(g, Elems(c[..k])), rate) <= 0
  {
    hide WellFormed, Sized, FeeRate, Excess;
    if k == 0 {
      assert Elems(c[..0]) == {};
      FeeNone(g);
      assert Excess(EMPTY, rate) <= 0 by { NoneExcess(rate); }
    } else if k == |c| {
      assert c[..k] == c;
    } else {
      assert c[0] in Elems(c);
      FeePositive(g, Elems(c));
      ExcessTransitive(FeeRate(g, Elems(c[..k])), Total(g, c), rate);
    }
  }

  lemma NoneExcess(rate: FeeFrac)
    ensures Excess(EMPTY, rate) == 0
  {
  }

  /** Appending the same transactions to both keeps the better one better. */
  lemma {:induction false} DominatesBefore(g: Graph, q: seq<nat>, p: seq<nat>, b: seq<nat>)
    requires Distinct(q + b) && Distinct(p + b) && Elems(q) == Elems(p) && Dominates(PathOf(g, q), PathOf(g, p))
    ensures Dominates(PathOf(g, q + b), PathOf(g, p + b))
  {
    hide FeeRate, Excess, Gain, PathOf;
    DistinctAppend(q, b);
    DistinctAppend(p, b);
    DistinctSize(p);
    DistinctSize(q);
    var v, w := PathOf(g, q + b), PathOf(g, p + b);
    forall rate: FeeFrac, k | rate.size > 0 && 0 <= k < |w|
      ensures Reaches(v, rate, Excess(w[k], rate))
    {
      PathAt(g, p + b, k, rate);
      if k <= |p| {
        assert (p + b)[..k] == p[..k];
        PathAt(g, p, k, rate);
        assert Reaches(PathOf(g, q), rate, Excess(PathOf(g, p)[k], rate));
        var j :| 0 <= j < |PathOf(g, q)| && Excess(PathOf(g, q)[j], rate) >= Excess(PathOf(g, p)[k], rate);
        PathAt(g, q, j, rate);
        assert (q + b)[..j] == q[..j];
        PathAt(g, q + b, j, rate);
      } else {
        assert (p + b)[..k] == p + b[..k - |p|] && (q + b)[..k] == q + b[..k - |p|];
        ElemsAppend(p, b[..k - |p|]);
        ElemsAppend(q, b[..k - |p|]);
        PathAt(g, q + b, k, rate);
      }
    }
  }

  lemma {:induction false} SelfDominates(g: Graph, s: seq<nat>)
    ensures Dominates(PathOf(g, s), PathOf(g, s))
  {
    hide PathOf, Excess;
    var p := PathOf(g, s);
    forall rate: FeeFrac, k | rate.size > 0 && 0 <= k < |p|
      ensures Reaches(p, rate, Excess(p[k], rate))
    {
      assert Excess(p[k], rate) >= Excess(p[k], rate);
    }
  }

  /** A group of no lower feerate can move forward over another one. */
  lemma {:induction false} SwapTwo(g: Graph, p: seq<nat>, c: seq<nat>)
    requires WellFormed(g) && Sized(g) && Distinct(p + c) && Elems(p + c) <= g.used && Tight(g, p) && Tight(g, c)
    requires Excess(Total(g, p), Total(g, c)) <= 0
    ensures Dominates(PathOf(g, c + p), PathOf(g, p + c))
  {
    hide WellFormed, Sized, FeeRate, Excess, Gain, PathOf, Dominates;
    var s, t := p + c, Elems(c);
    DistinctAppend(p, c);
    ElemsAppend(p, c);
    forall rate: FeeFrac, k | rate.size > 0 && 0 <= k <= |s|
      ensures BeatenByGood(g, s, t, rate, k)
    {
      GoodPrefix(g, p, c, k);
      assert Gain(g, Elems(s[..k]), rate) >= Gain(g, Elems(s[..k]), rate);
    }
    assert CanGather(g, s, t);
    Gather(g, s, c);
    WithoutAppend(p, c, t);
    WithoutNothing(p, t);
    WithoutAll(c, t);
    assert c + Without(s, t) == c + p;
  }

  lemma {:induction false} GoodPrefix(g: Graph, p: seq<nat>, c: seq<nat>, k: nat)
    requires WellFormed(g) && Sized(g) && Distinct(p + c) && Elems(p + c) <= g.used && Tight(g, p) && Tight(g, c)
    requires Excess(Total(g, p), Total(g, c)) <= 0 && k <= |p + c|
    ensures GoodFor(g, Elems(c), Elems((p + c)[..k]))
  {
    hide WellFormed, Sized, FeeRate, Excess, Tight;
    DistinctAppend(p, c);
    ElemsAppend(p, c);
    var e, rate := Elems((p + c)[..k]), Total(g, c);
    HigherIsExcess(rate, rate);
    if k <= |p| {
      assert (p + c)[..k] == p[..k];
      assert Elems(c) * e == {};
      FeeNone(g);
      NoneExcess(rate);
      PrefixExcess(g, p, k, rate);
    } else {
      var d := c[..k - |p|];
      assert (p + c)[..k] == p + d;
      ElemsAppend(p, d);
      assert Elems(c) * e == Elems(d);
      PrefixExcess(g, c, k - |p|, rate);
      FeeUnion(g, Elems(p), Elems(d));
      ExcessPlus(FeeRate(g, Elems(p)), FeeRate(g, Elems(d)), rate);
    }
  }

  /** The same within a linearization. */
  lemma {:induction false} Swap(g: Graph, a: seq<nat>, p: seq<nat>, c: seq<nat>, b: seq<nat>)
    requires WellFormed(g) && Sized(g) && Distinct(a + p + c + b) && Elems(a + p + c + b) <= g.used
    requires Tight(g, p) && Tight(g, c) && Excess(Total(g, p), Total(g, c)) <= 0
    ensures Distinct(a + c + p + b) && Elems(a + c + p + b) == Elems(a + p + c + b)
    ensures Dominates(PathOf(g, a + c + p + b), PathOf(g, a + p + c + b))
  {
    hide WellFormed, Sized, FeeRate, Excess, Tight, PathOf, Dominates;
    assert a + p + c + b == a + (p + c + b) && a + c + p + b == a + (c + p + b);
    DistinctAppend(a, p + c + b);
    DistinctAppend(p + c, b);
    DistinctAppend(p, c);
    ElemsAppend(p, c);
    ElemsAppend(c, p);
    ElemsAppend(p + c, b);
    ElemsAppend(c + p, b);
    ElemsAppend(a, p + c + b);
    ElemsAppend(a, c + p + b);
    DistinctAppend(c, p);
    DistinctAppend(c + p, b);
    DistinctAppend(a, c + p + b);
    SwapTwo(g, p, c);
    DominatesBefore(g, c + p, p + c, b);
    DominatesAfter(g, a, c + p + b, p + c + b);
  }

  lemma {:induction false} SwapTopo(g: Graph, a: seq<nat>, p: seq<nat>, c: seq<nat>, b: seq<nat>)
    requires Topo(g, a + p + c + b) && !Depends(g, c, p)
    ensures Topo(g, a + c + p + b)
  {
    hide Topo;
    assert a + p + c + b == a + (p + c + b) && a + c + p + b == a + (c + p + b);
    TopoAppend(g, a, p + c + b);
    TopoAppend(g, p + c, b);
    TopoAppend(g, p, c);
    TopoAppend(g, c, p);
    TopoAppend(g, c + p, b);
    TopoAppend(g, a, c + p + b);
    assert forall x, y :: x in c && y in p ==> y !in Anc(g, x);
    assert forall y :: y in c + p ==> y in p + c;
    assert forall y :: y in c + p + b ==> y in p + c + b;
  }

  // ---------------------------------------------------------------------------------------
  // Adding a transaction

  ghost predicate GoodGroup(g: Graph, c: seq<nat>) {
    Tight(g, c) && Connected(g, Elems(c))
  }

  ghost predicate GoodGroups(g: Graph, gs: seq<seq<nat>>) {
    forall i :: 0 <= i < |gs| ==> GoodGroup(g, gs[i])
  }

  lemma {:induction false} MergedTight(g: Graph, p: seq<nat>, c: seq<nat>)
    requires WellFormed(g) && Sized(g) && Distinct(p + c) && Elems(p + c) <= g.used && Tight(g, p) && Tight(g, c)
    requires Higher(Total(g, c), Total(g, p))
    ensures Tight(g, p + c)
  {
    hide WellFormed, Sized, FeeRate, Excess, Higher;
    DistinctAppend(p, c);
    ElemsAppend(p, c);
    var fp, fc, w := Total(g, p), Total(g, c), Total(g, p + c);
    FeeUnion(g, Elems(p), Elems(c));
    HigherIsExcess(fc, fp);
    HigherIsExcess(fp, fp);
    HigherIsExcess(fc, fc);
    HigherIsExcess(fp, w);
    ExcessPlus(fp, fc, fp);
    HigherIsExcess(fc, w);
    ExcessPlus(fp, fc, fc);
    assert p[0] in Elems(p) && c[0] in Elems(c);
    FeePositive(g, Elems(p));
    FeePositive(g, Elems(c));
    HigherIsExcess(w, w);
    ExcessPlus(fp, fc, w);
    forall k | 0 < k < |p + c|
      ensures Excess(FeeRate(g, Elems((p + c)[..k])), w) < 0
    {
      if k <= |p| {
        assert (p + c)[..k] == p[..k];
        assert p[..|p|] == p;
        if k < |p| {
          ExcessTransitive(FeeRate(g, Elems(p[..k])), fp, w);
        }
      } else {
        var d := c[..k - |p|];
        assert (p + c)[..k] == p + d;
        ElemsAppend(p, d);
        FeeUnion(g, Elems(p), Elems(d));
        ExcessPlus(fp, FeeRate(g, Elems(d)), w);
        FeeSubset(g, Elems(d), Elems(c));
        PartExcess(FeeRate(g, Elems(d)), fc, w);
      }
    }
  }

  lemma {:induction false} MergedConnected(g: Graph, p: seq<nat>, c: seq<nat>)
    requires Connected(g, Elems(p)) && Connected(g, Elems(c)) && Depends(g, c, p)
    ensures Connected(g, Elems(p + c))
  {
    hide Connected, Related;
    ElemsAppend(p, c);
    var x, y :| x in c && y in p && y in Anc(g, x);
    assert Related(g, x, y) && Related(g, y, x) by { RelatedIs(g, x, y); }
    assert x in Elems(c) && y in Elems(p);
    Joined(g, Elems(p), Elems(c), y, x);
  }

  lemma RelatedIs(g: Graph, x: nat, y: nat)
    requires y in Anc(g, x)
    ensures Related(g, x, y) && Related(g, y, x)
  {
  }

  /** Two connected sets with a dependency between them form a connected set. */
  lemma {:induction false} Joined(g: Graph, s: set<nat>, t: set<nat>, x: nat, y: nat)
    requires Connected(g, s) && Connected(g, t) && x in s && y in t && Related(g, x, y) && Related(g, y, x)
    ensures Connected(g, s + t)
  {
    hide Related;
    forall a | a < s + t && a != {}
      ensures Touch(g, a, s + t - a)
    {
      if a * s != {} && !(s <= a) {
        assert Touch(g, a * s, s - a * s);
        var u, v :| u in a * s && v in s - a * s && Related(g, u, v);
        assert u in a && v in s + t - a;
      } else if a * t != {} && !(t <= a) {
        assert Touch(g, a * t, t - a * t);
        var u, v :| u in a * t && v in t - a * t && Related(g, u, v);
        assert u in a && v in s + t - a;
      } else {
        assert forall z :: z in a && z in s ==> z in a * s;
        assert forall z :: z in a && z in t ==> z in a * t;
        if s <= a {
          assert y in s + t - a;
        } else {
          assert y in a && x in s + t - a;
        }
      }
    }
  }

  /** Moving a group forward keeps the order topological, every group a connected chunk, and
      never lowers the diagram. */
  lemma {:induction false} Settled(g: Graph, l: seq<seq<nat>>, c: seq<nat>, r: seq<seq<nat>>, todo: set<nat>)
    requires WellFormed(g) && Sized(g) && todo <= g.used && Orders(g, todo, Flat(l) + c + Flat(r))
    requires GoodGroups(g, l) && GoodGroup(g, c) && GoodGroups(g, r)
    ensures GoodGroups(g, Settle(g, l, c, r)) && Orders(g, todo, Flat(Settle(g, l, c, r)))
    ensures Dominates(PathOf(g, Flat(Settle(g, l, c, r))), PathOf(g, Flat(l) + c + Flat(r)))
    decreases |l|
  {
    hide WellFormed, Sized, Topo, GoodGroup, PathOf, Dominates, FeeRate, Total, Higher, Depends, Connected;
    if l == [] || !Higher(Total(g, c), Total(g, l[|l| - 1])) {
      FlatAround(l, c, r);
      SelfDominates(g, Flat(l) + c + Flat(r));
    } else {
      var i, p := l[..|l| - 1], l[|l| - 1];
      FlatLast(l);
      if Depends(g, c, p) {
        assert Flat(l) + c + Flat(r) == Flat(i) + (p + c) + Flat(r);
        MergedGood(g, Flat(i), p, c, Flat(r));
        Settled(g, i, p + c, r, todo);
      } else {
        assert Flat(l) + c + Flat(r) == Flat(i) + p + c + Flat(r);
        SwappedGood(g, Flat(i), p, c, Flat(r), todo);
        FlatFirst(p, r);
        assert Flat(i) + c + Flat([p] + r) == Flat(i) + c + p + Flat(r);
        Settled(g, i, c, [p] + r, todo);
        DominatesTransitive(PathOf(g, Flat(Settle(g, l, c, r))), PathOf(g, Flat(i) + c + p + Flat(r)),
            PathOf(g, Flat(l) + c + Flat(r)));
      }
    }
  }

  lemma {:induction false} MergedGood(g: Graph, a: seq<nat>, p: seq<nat>, c: seq<nat>, b: seq<nat>)
    requires WellFormed(g) && Sized(g) && Distinct(a + (p + c) + b) && Elems(a + (p + c) + b) <= g.used
    requires GoodGroup(g, p) && GoodGroup(g, c) && Higher(Total(g, c), Total(g, p)) && Depends(g, c, p)
    ensures GoodGroup(g, p + c)
  {
    hide WellFormed, Sized, Total, Higher, Depends, Connected, Tight;
    DistinctAppend(a + (p + c), b);
    DistinctAppend(a, p + c);
    ElemsAppend(a + (p + c), b);
    ElemsAppend(a, p + c);
    MergedTight(g, p, c);
    MergedConnected(g, p, c);
  }

  lemma {:induction false} SwappedGood(g: Graph, a: seq<nat>, p: seq<nat>, c: seq<nat>, b: seq<nat>, todo: set<nat>)
    requires WellFormed(g) && Sized(g) && todo <= g.used && Orders(g, todo, a + p + c + b)
    requires GoodGroup(g, p) && GoodGroup(g, c) && Higher(Total(g, c), Total(g, p)) && !Depends(g, c, p)
    ensures Orders(g, todo, a + c + p + b)
    ensures Dominates(PathOf(g, a + c + p + b), PathOf(g, a + p + c + b))
  {
    hide WellFormed, Sized, Total, Higher, Depends, Connected, Tight, Topo, Excess, PathOf, Dominates;
    HigherIsExcess(Total(g, c), Total(g, p));
    Swap(g, a, p, c, b);
    SwapTopo(g, a, p, c, b);
  }

  // ---------------------------------------------------------------------------------------
  // The groups are the chunks

  ghost predicate NoHigher(g: Graph, c: seq<nat>, p: seq<nat>) {
    Excess(Total(g, c), Total(g, p)) <= 0
  }

  /** Feerates never rise from one group to the next. */
  ghost predicate Falling(g: Graph, gs: seq<seq<nat>>) {
    forall i :: 0 <= i < |gs| - 1 ==> NoHigher(g, gs[i + 1], gs[i])
  }

  ghost predicate Positive(g: Graph, gs: seq<seq<nat>>) {
    forall i :: 0 <= i < |gs| ==> Total(g, gs[i]).size > 0
  }

  lemma {:induction false} NoHigherTransitive(g: Graph, a: seq<nat>, b: seq<nat>, c: seq<nat>)
    requires NoHigher(g, a, b) && NoHigher(g, b, c) && Total(g, b).size > 0
    ensures NoHigher(g, a, c)
  {
    hide Excess, Total;
    ExcessTransitive(Total(g, a), Total(g, b), Total(g, c));
  }

  lemma HigherIsNot(g: Graph, c: seq<nat>, p: seq<nat>)
    ensures Higher(Total(g, c), Total(g, p)) <==> !NoHigher(g, c, p)
    ensures Higher(Total(g, c), Total(g, p)) ==> NoHigher(g, p, c)
  {
    hide Total;
  }

  lemma {:induction false} BothNoHigher(g: Graph, x: seq<nat>, p: seq<nat>, c: seq<nat>)
    requires Elems(p) !! Elems(c) && NoHigher(g, x, p) && NoHigher(g, x, c)
    ensures NoHigher(g, x, p + c)
  {
    hide Excess, FeeRate;
    ElemsAppend(p, c);
    FeeUnion(g, Elems(p), Elems(c));
    var fx, fp, fc := Total(g, x), Total(g, p), Total(g, c);
    HigherIsExcess(fx, fp);
    HigherIsExcess(fx, fc);
    HigherIsExcess(fx, Total(g, p + c));
    ExcessPlus(fp, fc, fx);
  }

  lemma {:induction false} MergedPositive(g: Graph, p: seq<nat>, c: seq<nat>)
    requires Elems(p) !! Elems(c) && Total(g, p).size > 0
    ensures Total(g, p + c).size > 0
  {
    ElemsAppend(p, c);
    FeeUnion(g, Elems(p), Elems(c));
  }

  lemma {:induction false} SettledFalling(g: Graph, l: seq<seq<nat>>, c: seq<nat>, r: seq<seq<nat>>)
    requires Positive(g, l) && Positive(g, r) && Total(g, c).size > 0 && Distinct(Flat(l) + c + Flat(r))
    requires Falling(g, l + r) && (r != [] ==> NoHigher(g, r[0], c))
    ensures Falling(g, Settle(g, l, c, r))
    decreases |l|
  {
    hide Total, Higher, Depends, NoHigher;
    if l == [] {
      assert l + [c] + r == [c] + r && l + r == r;
      FallingAround(g, l, c, r);
    } else {
      var i, p := l[..|l| - 1], l[|l| - 1];
      HigherIsNot(g, c, p);
      FlatLast(l);
      DistinctPieces(Flat(i), p, c, Flat(r));
      if !Higher(Total(g, c), Total(g, p)) {
        FallingAround(g, l, c, r);
      } else if Depends(g, c, p) {
        FallingSkip(g, i, p, r);
        MergedPositive(g, p, c);
        if r != [] {
          assert (l + r)[|l| - 1] == p && (l + r)[|l|] == r[0];
          BothNoHigher(g, r[0], p, c);
        }
        SettledFalling(g, i, p + c, r);
      } else {
        FlatFirst(p, r);
        assert Flat(i) + c + Flat([p] + r) == Flat(i) + c + p + Flat(r);
        assert i + ([p] + r) == l + r;
        SettledFalling(g, i, c, [p] + r);
      }
    }
  }

  lemma {:induction false} FallingAround(g: Graph, l: seq<seq<nat>>, c: seq<nat>, r: seq<seq<nat>>)
    requires Falling(g, l + r) && (l != [] ==> NoHigher(g, c, l[|l| - 1])) && (r != [] ==> NoHigher(g, r[0], c))
    ensures Falling(g, l + [c] + r)
  {
    hide NoHigher;
    var gs, hs := l + [c] + r, l + r;
    forall i | 0 <= i < |gs| - 1
      ensures NoHigher(g, gs[i + 1], gs[i])
    {
      if i < |l| - 1 {
        assert NoHigher(g, hs[i + 1], hs[i]);
      } else if i > |l| {
        assert NoHigher(g, hs[i - 1 + 1], hs[i - 1]);
      }
    }
  }

  lemma {:induction false} FallingSkip(g: Graph, l: seq<seq<nat>>, p: seq<nat>, r: seq<seq<nat>>)
    requires Falling(g, l + [p] + r) && Total(g, p).size > 0
    ensures Falling(g, l + r)
  {
    hide NoHigher, Total;
    var gs, hs := l + [p] + r, l + r;
    forall i | 0 <= i < |hs| - 1
      ensures NoHigher(g, hs[i + 1], hs[i])
    {
      assert i <= |l| - 1 ==> NoHigher(g, gs[i + 1], gs[i]);
      assert i >= |l| - 1 ==> NoHigher(g, gs[i + 1 + 1], gs[i + 1]);
      if i == |l| - 1 {
        NoHigherTransitive(g, r[0], p, l[i]);
      }
    }
  }

  lemma {:induction false} DistinctPieces(a: seq<nat>, p: seq<nat>, c: seq<nat>, b: seq<nat>)
    requires Distinct(a + p + c + b)
    ensures Elems(p) !! Elems(c) && Distinct(a + (p + c) + b) && Distinct(a + c + p + b)
    ensures Elems(a + c + p + b) == Elems(a + p + c + b)
  {
    hide Distinct;
    assert a + p + c + b == a + (p + c) + b;
    DistinctAppend(a + (p + c), b);
    DistinctAppend(a, p + c);
    DistinctAppend(p, c);
    DistinctAppend(c, p);
    DistinctAppend(a, c + p);
    ElemsAppend(p, c);
    ElemsAppend(c, p);
    ElemsAppend(a, p + c);
    ElemsAppend(a, c + p);
    assert a + c + p == a + (c + p);
    DistinctAppend(a + c + p, b);
  }

  lemma {:induction false} GroupsPositive(g: Graph, gs: seq<seq<nat>>)
    requires WellFormed(g) && Sized(g) && Elems(Flat(gs)) <= g.used && GoodGroups(g, gs)
    ensures Positive(g, gs)
  {
    hide WellFormed, Sized, FeeRate, Connected;
    forall i | 0 <= i < |gs|
      ensures Total(g, gs[i]).size > 0
    {
      GroupWithin(gs, i);
      assert GoodGroup(g, gs[i]);
      assert gs[i][0] in Elems(gs[i]);
      FeePositive(g, Elems(gs[i]));
    }
  }

  lemma {:induction false} GroupWithin(gs: seq<seq<nat>>, i: nat)
    requires i < |gs|
    ensures Elems(gs[i]) <= Elems(Flat(gs))
  {
    ElemsAppend(Flat(gs[..|gs| - 1]), gs[|gs| - 1]);
    if i < |gs| - 1 {
      GroupWithin(gs[..|gs| - 1], i);
    }
  }

  ghost predicate Grouped(g: Graph, gs: seq<seq<nat>>, todo: set<nat>) {
    GoodGroups(g, gs) && Falling(g, gs) && Orders(g, todo, Flat(gs))
  }

  /** Adding one transaction. */
  lemma {:induction false} AddedOne(g: Graph, gs: seq<seq<nat>>, x: nat, todo: set<nat>)
    requires WellFormed(g) && Sized(g) && Grouped(g, gs, todo) && todo + {x} <= g.used
    requires Orders(g, todo + {x}, Flat(gs) + [x])
    ensures Grouped(g, Settle(g, gs, [x], []), todo + {x})
    ensures Dominates(PathOf(g, Flat(Settle(g, gs, [x], []))), PathOf(g, Flat(gs) + [x]))
  {
    hide WellFormed, Sized, Topo, PathOf, Dominates, FeeRate, Connected;
    assert Flat(gs) + [x] == Flat(gs) + [x] + Flat([]);
    assert Elems([x]) == {x};
    OneConnected(g, x);
    Settled(g, gs, [x], [], todo + {x});
    GroupsPositive(g, gs);
    FeePositive(g, {x});
    assert gs + [] == gs;
    SettledFalling(g, gs, [x], []);
  }

  /** What a pass makes of a linearization: connected chunks in falling order, with a diagram that
      is nowhere lower. */
  lemma {:induction false} GroupedAll(g: Graph, s: seq<nat>, todo: set<nat>)
    requires WellFormed(g) && Sized(g) && todo <= g.used && Orders(g, todo, s)
    ensures Grouped(g, Groups(g, s), todo)
    ensures Dominates(PathOf(g, Flat(Groups(g, s))), PathOf(g, s))
  {
    hide WellFormed, Sized, Topo, PathOf, Dominates, GoodGroups, Falling, Settle;
    if s == [] {
      SelfDominates(g, s);
      NoGroups(g);
    } else {
      var r, x := s[..|s| - 1], s[|s| - 1];
      assert s == r + [x];
      AppendedOrders(g, r, x, todo);
      GroupedAll(g, r, todo - {x});
      var q := Flat(Groups(g, r));
      SameThen(g, q, r, x, todo);
      assert todo - {x} + {x} == todo;
      AddedOne(g, Groups(g, r), x, todo - {x});
      DominatesBefore(g, q, r, [x]);
      DominatesTransitive(PathOf(g, Flat(Groups(g, s))), PathOf(g, q + [x]), PathOf(g, s));
    }
  }

  lemma NoGroups(g: Graph)
    ensures Falling(g, []) && GoodGroups(g, [])
  {
  }

  lemma {:induction false} AppendedOrders(g: Graph, r: seq<nat>, x: nat, todo: set<nat>)
    requires Orders(g, todo, r + [x])
    ensures x in todo && Orders(g, todo - {x}, r)
  {
    hide Topo;
    DistinctAppend(r, [x]);
    ElemsAppend(r, [x]);
    assert Elems([x]) == {x};
    TopoAppend(g, r, [x]);
  }

  lemma {:induction false} SameThen(g: Graph, q: seq<nat>, r: seq<nat>, x: nat, todo: set<nat>)
    requires Orders(g, todo, r + [x]) && Orders(g, todo - {x}, r) && Orders(g, todo - {x}, q)
    ensures Orders(g, todo, q + [x])
  {
    hide Topo;
    DistinctAppend(r, [x]);
    DistinctAppend(q, [x]);
    ElemsAppend(r, [x]);
    ElemsAppend(q, [x]);
    TopoAppend(g, r, [x]);
    TopoAppend(g, q, [x]);
    assert forall y :: y in q <==> y in Elems(q);
    assert forall y :: y in r <==> y in Elems(r);
  }

  ghost function CutsOf(gs: seq<seq<nat>>): seq<nat> {
    seq(|gs| + 1, i requires 0 <= i <= |gs| => |Flat(gs[..i])|)
  }

  lemma {:induction false} CutSlice(gs: seq<seq<nat>>, i: nat)
    requires i < |gs|
    ensures |Flat(gs[..i + 1])| == |Flat(gs[..i])| + |gs[i]| <= |Flat(gs)|
    ensures Flat(gs)[..|Flat(gs[..i])|] == Flat(gs[..i])
    ensures Flat(gs)[|Flat(gs[..i])|..|Flat(gs[..i + 1])|] == gs[i]
  {
    assert gs == gs[..i] + [gs[i]] + gs[i + 1..];
    FlatAround(gs[..i], gs[i], gs[i + 1..]);
    FlatAround(gs[..i], gs[i], []);
    assert gs[..i + 1] == gs[..i] + [gs[i]] + [];
  }

  lemma {:induction false} GroupStep(g: Graph, gs: seq<seq<nat>>, i: nat, k: nat)
    requires WellFormed(g) && Sized(g) && Distinct(Flat(gs)) && Elems(Flat(gs)) <= g.used && i < |gs| && k <= |gs[i]|
    ensures IsPath(PathOf(g, Flat(gs))) && |Flat(gs[..i])| + |gs[i]| <= |Flat(gs)|
    ensures Step(PathOf(g, Flat(gs)), |Flat(gs[..i])|, |Flat(gs[..i])| + k) == FeeRate(g, Elems(gs[i][..k]))
  {
    hide WellFormed, Sized, FeeRate, PathOf, IsPath;
    PathOfIsPath(g, Flat(gs));
    CutSlice(gs, i);
    var s, m := Flat(gs), |Flat(gs[..i])|;
    var a, b := s[..m], gs[i][..k];
    assert s[..m + k] == a + b && s == a + b + s[m + k..];
    DistinctAppend(a + b, s[m + k..]);
    DistinctAppend(a, b);
    ElemsAppend(a, b);
    FeeUnion(g, Elems(a), Elems(b));
    PathAt(g, s, m, EMPTY);
    PathAt(g, s, m + k, EMPTY);
    assert Step(PathOf(g, s), m, m + k) == Minus(PathOf(g, s)[m + k], PathOf(g, s)[m]);
  }

  lemma {:induction false} GroupIsChunk(g: Graph, gs: seq<seq<nat>>, i: nat)
    requires WellFormed(g) && Sized(g) && Distinct(Flat(gs)) && Elems(Flat(gs)) <= g.used && i < |gs| && Tight(g, gs[i])
    ensures IsPath(PathOf(g, Flat(gs))) && IsChunk(PathOf(g, Flat(gs)), |Flat(gs[..i])|, |Flat(gs[..i + 1])|)
    ensures Step(PathOf(g, Flat(gs)), |Flat(gs[..i])|, |Flat(gs[..i + 1])|) == Total(g, gs[i])
  {
    hide WellFormed, Sized, FeeRate, PathOf, IsPath, Excess, Step;
    CutSlice(gs, i);
    var p, m, n := PathOf(g, Flat(gs)), |Flat(gs[..i])|, |Flat(gs[..i + 1])|;
    GroupStep(g, gs, i, |gs[i]|);
    assert gs[i][..|gs[i]|] == gs[i];
    forall k | m < k < n
      ensures Excess(Step(p, m, k), Step(p, m, n)) < 0
    {
      GroupStep(g, gs, i, k - m);
    }
  }

  ghost predicate ChunkAt(g: Graph, p: seq<FeeFrac>, b: seq<nat>, gs: seq<seq<nat>>, i: nat) {
    && i < |gs| && i + 1 < |b| && b[i] < b[i + 1] < |p| && IsPath(p)
    && IsChunk(p, b[i], b[i + 1]) && Step(p, b[i], b[i + 1]) == Total(g, gs[i])
  }

  lemma {:induction false} GroupChunkAt(g: Graph, gs: seq<seq<nat>>, todo: set<nat>, i: nat)
    requires WellFormed(g) && Sized(g) && todo <= g.used && Grouped(g, gs, todo) && i < |gs|
    ensures ChunkAt(g, PathOf(g, Flat(gs)), CutsOf(gs), gs, i)
  {
    hide WellFormed, Sized, FeeRate, PathOf, IsPath, Excess, Step, Topo, Connected, IsChunk, Falling, Total;
    assert GoodGroup(g, gs[i]);
    CutSlice(gs, i);
    TightSome(g, gs[i]);
    GroupIsChunk(g, gs, i);
  }

  /** Groups of a finished pass are exactly the chunks of its result. */
  lemma {:induction false} GroupsAreChunks(g: Graph, gs: seq<seq<nat>>, todo: set<nat>)
    requires WellFormed(g) && Sized(g) && todo <= g.used && Grouped(g, gs, todo)
    ensures IsPath(PathOf(g, Flat(gs))) && ChunkCuts(PathOf(g, Flat(gs)), |Flat(gs)|) == CutsOf(gs)
  {
    hide WellFormed, Sized, FeeRate, PathOf, IsPath, GoodGroups, Step, Topo, IsChunk, NoHigher, IsChunking, ChunkCuts,
        Total;
    var p, b, n := PathOf(g, Flat(gs)), CutsOf(gs), |Flat(gs)|;
    PathOfIsPath(g, Flat(gs));
    assert gs[..0] == [] && gs[..|gs|] == gs;
    forall i: nat | i < |gs|
      ensures ChunkAt(g, p, b, gs, i)
    {
      GroupChunkAt(g, gs, todo, i);
    }
    CutsRise(g, p, b, gs, |gs|);
    forall i | 0 <= i < |b| - 2
      ensures NotRising(p, b, i)
    {
      assert ChunkAt(g, p, b, gs, i) && ChunkAt(g, p, b, gs, i + 1) && NoHigher(g, gs[i + 1], gs[i]);
      NotRisingIs(g, gs[i + 1], gs[i], p, b, i);
    }
    MakeChunking(g, p, b, gs, n);
    ChunkingUnique(p, ChunkCuts(p, n), b, n);
  }

  lemma NotRisingIs(g: Graph, c: seq<nat>, a: seq<nat>, p: seq<FeeFrac>, b: seq<nat>, i: nat)
    requires IsPath(p) && i + 2 < |b| && b[i] <= b[i + 1] <= b[i + 2] < |p| && NoHigher(g, c, a)
    requires Step(p, b[i], b[i + 1]) == Total(g, a) && Step(p, b[i + 1], b[i + 2]) == Total(g, c)
    ensures NotRising(p, b, i)
  {
  }

  lemma {:induction false} MakeChunking(g: Graph, p: seq<FeeFrac>, b: seq<nat>, gs: seq<seq<nat>>, n: nat)
    requires IsPath(p) && n < |p| && Cuts(b, n) && |b| == |gs| + 1
    requires forall i: nat :: i < |gs| ==> ChunkAt(g, p, b, gs, i)
    requires forall i :: 0 <= i < |b| - 2 ==> NotRising(p, b, i)
    ensures IsChunking(p, b, n)
  {
    hide IsChunk, NotRising, IsPath;
    forall i | 0 <= i < |b| - 1
      ensures IsChunk(p, b[i], b[i + 1])
    {
      assert ChunkAt(g, p, b, gs, i);
    }
  }

  lemma {:induction false} CutsRise(g: Graph, p: seq<FeeFrac>, b: seq<nat>, gs: seq<seq<nat>>, n: nat)
    requires n < |b| && n <= |gs| && forall i: nat :: i < |gs| ==> ChunkAt(g, p, b, gs, i)
    ensures forall i, j :: 0 <= i < j <= n ==> b[i] < b[j]
  {
    hide IsChunk, IsPath;
    if n > 0 {
      CutsRise(g, p, b, gs, n - 1);
      assert ChunkAt(g, p, b, gs, n - 1);
    }
  }

  /** Every chunk of the linearization hangs together by dependencies. */
  ghost predicate ChunksConnected(g: Graph, s: seq<nat>) {
    && IsPath(PathOf(g, s))
    && forall b :: b == ChunkCuts(PathOf(g, s), |s|) ==>
         forall i :: 0 <= i < |b| - 1 ==> SliceConnected(g, s, b[i], b[i + 1])
  }

  ghost predicate SliceConnected(g: Graph, s: seq<nat>, i: nat, j: nat) {
    i < j <= |s| && Connected(g, Elems(s[i..j]))
  }

  lemma {:induction false} GroupedConnected(g: Graph, gs: seq<seq<nat>>, todo: set<nat>)
    requires WellFormed(g) && Sized(g) && todo <= g.used && Grouped(g, gs, todo)
    ensures ChunksConnected(g, Flat(gs))
  {
    hide WellFormed, Sized, FeeRate, PathOf, IsPath, Topo, Connected, Falling, Tight, ChunkCuts;
    GroupsAreChunks(g, gs, todo);
    var b := CutsOf(gs);
    forall i | 0 <= i < |b| - 1
      ensures SliceConnected(g, Flat(gs), b[i], b[i + 1])
    {
      CutSlice(gs, i);
      assert GoodGroup(g, gs[i]);
      TightSome(g, gs[i]);
    }
  }

  lemma TightSome(g: Graph, c: seq<nat>)
    requires Tight(g, c)
    ensures c != []
  {
  }
}
