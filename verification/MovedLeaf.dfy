/** A leaf moved to the end of a linearization, as when its replacement is appended, does no harm
    once the result is post-linearized (src/cluster_linearize.h:1130-1134). */
module MovedLeaf {
  import opened FeeFracs
  import opened Diagrams
  import opened Sequences
  import opened DepGraphs
  import opened Linearizations
  import opened Merging
  import opened Linearizing
  import opened Grouping
  import opened PostLinearized

  // ---------------------------------------------------------------------------------------
  // A pass that starts with a transaction that the next ones do not need

  /** t forms a group by itself. */
  ghost predicate Alone(gs: seq<seq<nat>>, t: nat) {
    forall i :: 0 <= i < |gs| && t in gs[i] ==> gs[i] == [t]
  }

  ghost predicate NotNeeded(g: Graph, t: nat, todo: set<nat>) {
    forall x :: x in todo && x != t ==> t !in Anc(g, x)
  }

  lemma {:induction false} WithoutAround(a: seq<nat>, p: seq<nat>, c: seq<nat>, b: seq<nat>, t: nat)
    requires t !in c
    ensures Without(a + p + c + b, {t}) == Without(a, {t}) + Without(p, {t}) + c + Without(b, {t})
    ensures Without(a + c + p + b, {t}) == Without(a, {t}) + c + Without(p, {t}) + Without(b, {t})
    ensures t !in p ==> Without(p, {t}) == p
    ensures p == [t] ==> Without(p, {t}) == []
  {
    WithoutAppend(a + p + c, b, {t});
    WithoutAppend(a + p, c, {t});
    WithoutAppend(a, p, {t});
    WithoutAppend(a + c + p, b, {t});
    WithoutAppend(a + c, p, {t});
    WithoutAppend(a, c, {t});
    WithoutNothing(c, {t});
    if t !in p {
      WithoutNothing(p, {t});
    }
    if p == [t] {
      WithoutAll(p, {t});
    }
  }

  /** Such a group never merges, and what is around it improves as if it were not there. */
  lemma {:induction false} SettledAlone(g: Graph, l: seq<seq<nat>>, c: seq<nat>, r: seq<seq<nat>>, t: nat,
      todo: set<nat>)
    requires WellFormed(g) && Sized(g) && todo <= g.used && Orders(g, todo, Flat(l) + c + Flat(r))
    requires GoodGroups(g, l) && GoodGroup(g, c) && GoodGroups(g, r)
    requires Alone(l, t) && Alone(r, t) && t !in c && NotNeeded(g, t, todo)
    ensures Alone(Settle(g, l, c, r), t)
    ensures Dominates(PathOf(g, Without(Flat(Settle(g, l, c, r)), {t})), PathOf(g, Without(Flat(l) + c + Flat(r), {t})))
    decreases |l|
  {
    hide WellFormed, Sized, Orders, GoodGroup, PathOf, Dominates, FeeRate, Total, Higher, Depends, Without, NotNeeded;
    if l == [] || !Higher(Total(g, c), Total(g, l[|l| - 1])) {
      FlatAround(l, c, r);
      SelfDominates(g, Without(Flat(l) + c + Flat(r), {t}));
    } else {
      var i, p := l[..|l| - 1], l[|l| - 1];
      FlatLast(l);
      assert Flat(l) + c + Flat(r) == Flat(i) + (p + c) + Flat(r) == Flat(i) + p + c + Flat(r);
      NotDependent(g, Flat(i), p, c, Flat(r), t, todo);
      if Depends(g, c, p) {
        MergedAlone(g, Flat(i), p, c, Flat(r), todo);
        SettledAlone(g, i, p + c, r, t, todo);
      } else {
        SwappedGood(g, Flat(i), p, c, Flat(r), todo);
        FlatFirst(p, r);
        assert Flat(i) + c + Flat([p] + r) == Flat(i) + c + p + Flat(r);
        SettledAlone(g, i, c, [p] + r, t, todo);
        SwappedAlone(g, Flat(i), p, c, Flat(r), t, todo);
        DominatesTransitive(PathOf(g, Without(Flat(Settle(g, l, c, r)), {t})),
            PathOf(g, Without(Flat(i) + c + p + Flat(r), {t})),
                            PathOf(g, Without(Flat(l) + c + Flat(r), {t})));
      }
    }
  }

  lemma {:induction false} NotDependent(g: Graph, a: seq<nat>, p: seq<nat>, c: seq<nat>, b: seq<nat>, t: nat,
      todo: set<nat>)
    requires Orders(g, todo, a + p + c + b) && NotNeeded(g, t, todo) && t !in c
    ensures p == [t] ==> !Depends(g, c, p)
  {
    hide Topo;
    forall x | x in c
      ensures t !in Anc(g, x)
    {
      assert x in a + p + c + b;
      assert x in Elems(a + p + c + b);
    }
  }

  lemma {:induction false} MergedAlone(g: Graph, a: seq<nat>, p: seq<nat>, c: seq<nat>, b: seq<nat>, todo: set<nat>)
    requires WellFormed(g) && Sized(g) && todo <= g.used && Orders(g, todo, a + (p + c) + b)
    requires GoodGroup(g, p) && GoodGroup(g, c) && Higher(Total(g, c), Total(g, p)) && Depends(g, c, p)
    ensures GoodGroup(g, p + c)
  {
    hide WellFormed, Sized, Topo, GoodGroup, Total, Higher, Depends;
    MergedGood(g, a, p, c, b);
  }

  lemma {:induction false} SwappedAlone(g: Graph, a: seq<nat>, p: seq<nat>, c: seq<nat>, b: seq<nat>, t: nat,
      todo: set<nat>)
    requires WellFormed(g) && Sized(g) && todo <= g.used && Orders(g, todo, a + p + c + b)
    requires GoodGroup(g, p) && GoodGroup(g, c) && Higher(Total(g, c), Total(g, p)) && !Depends(g, c, p)
    requires t !in c && (t in p ==> p == [t])
    ensures Dominates(PathOf(g, Without(a + c + p + b, {t})), PathOf(g, Without(a + p + c + b, {t})))
  {
    hide WellFormed, Sized, Orders, GoodGroup, PathOf, Dominates, Total, Higher, Depends, Without;
    WithoutAround(a, p, c, b, t);
    var v, w := Without(a, {t}), Without(b, {t});
    if t in p {
      assert v + c + [] + w == v + [] + c + w;
      SelfDominates(g, Without(a + p + c + b, {t}));
    } else {
      OrdersRest(g, todo, a + p + c + b, {t});
      SwappedGood(g, v, p, c, w, todo - {t});
    }
  }

  lemma {:induction false} PassAlone(g: Graph, t: nat, x: seq<nat>, todo: set<nat>)
    requires WellFormed(g) && Sized(g) && todo <= g.used && Orders(g, todo, [t] + x) && NotNeeded(g, t, todo)
    ensures Alone(Groups(g, [t] + x), t)
    ensures Dominates(PathOf(g, Without(Flat(Groups(g, [t] + x)), {t})), PathOf(g, x))
  {
    hide *;
    if x == [] {
      assert [t] + x == [t];
      OneGroup(g, t);
      SelfDominates(g, x);
    } else {
      var y, z := x[..|x| - 1], x[|x| - 1];
      assert [t] + x == [t] + y + [z] && x == y + [z];
      AppendedOrders(g, [t] + y, z, todo);
      NotNeededLess(g, t, todo, {z});
      PassAlone(g, t, y, todo - {z});
      OneMoreAlone(g, t, y, z, todo);
    }
  }

  lemma {:induction false} NotNeededLess(g: Graph, t: nat, todo: set<nat>, s: set<nat>)
    requires NotNeeded(g, t, todo)
    ensures NotNeeded(g, t, todo - s) && todo - s <= todo
  {
  }

  lemma {:induction false} OneMoreAlone(g: Graph, t: nat, y: seq<nat>, z: nat, todo: set<nat>)
    requires WellFormed(g) && Sized(g) && todo <= g.used && NotNeeded(g, t, todo)
    requires Orders(g, todo, [t] + y + [z]) && Orders(g, todo - {z}, [t] + y) && Alone(Groups(g, [t] + y), t)
    requires Dominates(PathOf(g, Without(Flat(Groups(g, [t] + y)), {t})), PathOf(g, y))
    ensures Alone(Groups(g, [t] + y + [z]), t)
    ensures Dominates(PathOf(g, Without(Flat(Groups(g, [t] + y + [z])), {t})), PathOf(g, y + [z]))
  {
    hide WellFormed, Sized, Topo, Orders, GoodGroup, Falling, PathOf, Dominates, Settle, Without, Groups, Flat,
        NotNeeded;
    var gs, q := Groups(g, [t] + y), Flat(Groups(g, [t] + y));
    GroupedAll(g, [t] + y, todo - {z});
    SameThen(g, q, [t] + y, z, todo);
    OneGood(g, z);
    GroupsAppended(g, [t] + y, z);
    assert z != t by {
      EndsApart(g, [t] + y + [z], todo);
    }
    assert q + [z] == q + [z] + Flat([]);
    SettledAlone(g, gs, [z], [], t, todo);
    AppendAlone(g, q, t, y, z, todo);
    DominatesBefore(g, Without(q, {t}), y, [z]);
    DominatesTransitive(PathOf(g, Without(Flat(Groups(g, [t] + y + [z])), {t})), PathOf(g, Without(q + [z], {t})),
        PathOf(g, y + [z]));
  }

  lemma {:induction false} GroupsAppended(g: Graph, s: seq<nat>, z: nat)
    ensures Groups(g, s + [z]) == Settle(g, Groups(g, s), [z], []) && Flat([]) == []
  {
    hide Settle;
    assert (s + [z])[..|s|] == s;
  }

  lemma {:induction false} EndsApart(g: Graph, s: seq<nat>, todo: set<nat>)
    requires Orders(g, todo, s) && |s| > 1
    ensures s[0] != s[|s| - 1]
  {
    hide Topo, Elems;
  }

  lemma {:induction false} OneGroup(g: Graph, t: nat)
    ensures Groups(g, [t]) == [[t]] && Flat([[t]]) == [t] && Without([t], {t}) == [] && Alone([[t]], t)
  {
    assert [t][..0] == [];
    FlatOne([t]);
    WithoutAll([t], {t});
  }

  lemma {:induction false} OneGood(g: Graph, z: nat)
    ensures GoodGroup(g, [z])
  {
    assert Elems([z]) == {z};
    OneConnected(g, z);
  }

  lemma {:induction false} AppendAlone(g: Graph, q: seq<nat>, t: nat, y: seq<nat>, z: nat, todo: set<nat>)
    requires Orders(g, todo, q + [z]) && Orders(g, todo, [t] + y + [z]) && Orders(g, todo - {z}, q) && z != t
    ensures Without(q + [z], {t}) == Without(q, {t}) + [z]
    ensures Elems(Without(q, {t})) == Elems(y) && Distinct(Without(q, {t}) + [z]) && Distinct(y + [z])
  {
    hide Topo, Without, Distinct;
    WithoutAppend(q, [z], {t});
    WithoutNothing([z], {t});
    WithoutElems(q, {t});
    WithoutElems(q + [z], {t});
    assert [t] + y + [z] == [t] + (y + [z]);
    DistinctAppend([t], y + [z]);
    DistinctAppend(y, [z]);
    ElemsAppend([t], y + [z]);
    ElemsAppend(y, [z]);
    assert Elems([t]) == {t} && Elems([z]) == {z};
  }

  // ---------------------------------------------------------------------------------------
  // Where that transaction ends up

  lemma {:induction false} PrefixLow(g: Graph, gs: seq<seq<nat>>, k: nat, rate: FeeFrac)
    requires WellFormed(g) && Sized(g) && Distinct(Flat(gs)) && Elems(Flat(gs)) <= g.used && GoodGroups(g, gs)
    requires k <= |Flat(gs)| && forall i :: 0 <= i < |gs| ==> Excess(Total(g, gs[i]), rate) <= 0
    ensures Excess(FeeRate(g, Elems(Flat(gs)[..k])), rate) <= 0
  {
    hide WellFormed, Sized, FeeRate, Excess, Total, Connected, Tight;
    if gs == [] {
      assert Elems(Flat(gs)[..k]) == {};
      FeeNone(g);
      NoneExcess(rate);
    } else {
      var hs, c := gs[..|gs| - 1], gs[|gs| - 1];
      var a := Flat(hs);
      DistinctAppend(a, c);
      ElemsAppend(a, c);
      if k <= |a| {
        assert Flat(gs)[..k] == a[..k];
        PrefixLow(g, hs, k, rate);
      } else {
        var d := c[..k - |a|];
        assert Flat(gs)[..k] == a + d && a[..|a|] == a;
        PrefixLow(g, hs, |a|, rate);
        assert GoodGroup(g, gs[|gs| - 1]);
        PrefixExcess(g, c, k - |a|, rate);
        ElemsAppend(a, d);
        FeeUnion(g, Elems(a), Elems(d));
        ExcessPlus(FeeRate(g, Elems(a)), FeeRate(g, Elems(d)), rate);
      }
    }
  }

  /** A transaction can move forward over groups of no higher feerate. */
  lemma {:induction false} MoveUp(g: Graph, t: nat, b: seq<seq<nat>>)
    requires WellFormed(g) && Sized(g) && Distinct(Flat(b) + [t]) && Elems(Flat(b) + [t]) <= g.used && GoodGroups(g, b)
    requires forall i :: 0 <= i < |b| ==> NoHigher(g, b[i], [t])
    ensures Dominates(PathOf(g, [t] + Flat(b)), PathOf(g, Flat(b) + [t]))
  {
    hide WellFormed, Sized, FeeRate, Excess, Gain, PathOf, Dominates, Total, GoodGroup;
    var q, e := Flat(b), Elems([t]);
    var s := q + [t];
    DistinctAppend(q, [t]);
    ElemsAppend(q, [t]);
    assert e == {t};
    forall rate: FeeFrac, k | rate.size > 0 && 0 <= k <= |s|
      ensures BeatenByGood(g, s, e, rate, k)
    {
      MoveUpGood(g, t, b, k);
      assert Gain(g, Elems(s[..k]), rate) >= Gain(g, Elems(s[..k]), rate);
    }
    assert CanGather(g, s, e);
    Gather(g, s, [t]);
    WithoutAppend(q, [t], e);
    WithoutNothing(q, e);
    WithoutAll([t], e);
    assert [t] + Without(s, e) == [t] + q;
  }

  lemma {:induction false} MoveUpGood(g: Graph, t: nat, b: seq<seq<nat>>, k: nat)
    requires WellFormed(g) && Sized(g) && Distinct(Flat(b) + [t]) && Elems(Flat(b) + [t]) <= g.used && GoodGroups(g, b)
    requires k <= |Flat(b) + [t]| && forall i :: 0 <= i < |b| ==> NoHigher(g, b[i], [t])
    ensures GoodFor(g, Elems([t]), Elems((Flat(b) + [t])[..k]))
  {
    hide WellFormed, Sized, FeeRate, Excess, GoodGroup;
    var q, rate := Flat(b), Total(g, [t]);
    var e := Elems((q + [t])[..k]);
    DistinctAppend(q, [t]);
    ElemsAppend(q, [t]);
    HigherIsExcess(rate, rate);
    assert forall i :: 0 <= i < |b| ==> NoHigher(g, b[i], [t]);
    if k <= |q| {
      assert (q + [t])[..k] == q[..k];
      assert Elems([t]) * e == {};
      FeeNone(g);
      NoneExcess(rate);
      PrefixLow(g, b, k, rate);
    } else {
      assert (q + [t])[..k] == q + [t] && q[..|q|] == q;
      assert Elems([t]) * e == Elems([t]);
      PrefixLow(g, b, |q|, rate);
      FeeUnion(g, Elems(q), Elems([t]));
      ExcessPlus(FeeRate(g, Elems(q)), FeeRate(g, Elems([t])), rate);
    }
  }

  lemma {:induction false} FallingFrom(g: Graph, gs: seq<seq<nat>>, i: nat, j: nat)
    requires Falling(g, gs) && Positive(g, gs) && i < j < |gs|
    ensures NoHigher(g, gs[j], gs[i])
  {
    hide NoHigher, Total;
    assert NoHigher(g, gs[j - 1 + 1], gs[j - 1]);
    if i < j - 1 {
      FallingFrom(g, gs, i, j - 1);
      NoHigherTransitive(g, gs[j], gs[j - 1], gs[i]);
    }
  }

  lemma {:induction false} FindGroup(gs: seq<seq<nat>>, t: nat) returns (i: nat)
    requires t in Flat(gs)
    ensures i < |gs| && t in gs[i]
  {
    if t in gs[|gs| - 1] {
      i := |gs| - 1;
    } else {
      i := FindGroup(gs[..|gs| - 1], t);
    }
  }

  lemma {:induction false} FindAlone(gs: seq<seq<nat>>, t: nat) returns (i: nat)
    requires t in Elems(Flat(gs)) && Alone(gs, t)
    ensures i < |gs| && gs[i] == [t] && Flat(gs) == Flat(gs[..i]) + ([t] + Flat(gs[i + 1..]))
  {
    i := FindGroup(gs, t);
    assert gs == gs[..i] + [[t]] + gs[i + 1..];
    FlatAround(gs[..i], [t], gs[i + 1..]);
  }

  /** In finished groups, a transaction by itself stands at least as well as at the end. */
  lemma {:induction false} AloneInPlace(g: Graph, gs: seq<seq<nat>>, t: nat, todo: set<nat>)
    requires WellFormed(g) && Sized(g) && todo <= g.used && Grouped(g, gs, todo) && Alone(gs, t) && t in todo
    ensures Dominates(PathOf(g, Flat(gs)), PathOf(g, Without(Flat(gs), {t}) + [t]))
  {
    hide WellFormed, Sized, Topo, GoodGroup, PathOf, Dominates, NoHigher, Without, Total, Distinct;
    var i := FindAlone(gs, t);
    var b := gs[i + 1..];
    var v, w := Flat(gs[..i]), Flat(b);
    SplitAlone(v, t, w);
    GroupsPositive(g, gs);
    forall j | 0 <= j < |b|
      ensures NoHigher(g, b[j], [t])
    {
      FallingFrom(g, gs, i, i + 1 + j);
    }
    assert GoodGroups(g, b);
    MoveUp(g, t, b);
    DominatesAfter(g, v, [t] + w, w + [t]);
    assert Without(Flat(gs), {t}) + [t] == v + (w + [t]);
  }

  lemma {:induction false} SplitAlone(v: seq<nat>, t: nat, w: seq<nat>)
    requires Distinct(v + ([t] + w))
    ensures Without(v + ([t] + w), {t}) == v + w
    ensures Distinct(w + [t]) && Distinct(v + (w + [t])) && Elems(w + [t]) <= Elems(v + ([t] + w))
  {
    assert Elems([t]) == {t};
    hide *;
    SplitApart(v, [t], w);
    SplitWithout(v, [t], w);
  }

  lemma {:induction false} SplitApart(v: seq<nat>, u: seq<nat>, w: seq<nat>)
    requires Distinct(v + (u + w))
    ensures Elems(v) !! Elems(u) !! Elems(w)
    ensures Distinct(w + u) && Distinct(v + (w + u)) && Elems(w + u) <= Elems(v + (u + w))
  {
    hide *;
    DistinctAppend(v, u + w);
    DistinctAppend(u, w);
    DistinctAppend(w, u);
    ElemsAppend(u, w);
    ElemsAppend(w, u);
    ElemsAppend(v, u + w);
    DistinctAppend(v, w + u);
  }

  lemma {:induction false} SplitWithout(v: seq<nat>, u: seq<nat>, w: seq<nat>)
    requires Elems(v) !! Elems(u) !! Elems(w)
    ensures Without(v + (u + w), Elems(u)) == v + w
  {
    hide *;
    WithoutAppend(v, u + w, Elems(u));
    WithoutAppend(u, w, Elems(u));
    WithoutNothing(v, Elems(u));
    WithoutNothing(w, Elems(u));
    WithoutAll(u, Elems(u));
    assert [] + w == w;
  }

  // ---------------------------------------------------------------------------------------
  // The whole pass

  lemma {:induction false} PassMoved(g: Graph, t: nat, x: seq<nat>, todo: set<nat>)
    requires WellFormed(g) && Sized(g) && todo <= g.used && Orders(g, todo, [t] + x) && NotNeeded(g, t, todo)
    ensures Dominates(PathOf(g, Pass(g, [t] + x)), PathOf(g, x + [t]))
  {
    hide WellFormed, Sized, Topo, GoodGroups, Falling, PathOf, Dominates, Groups, Without, NotNeeded, Alone;
    PassAlone(g, t, x, todo);
    GroupedAll(g, [t] + x, todo);
    var gs := Groups(g, [t] + x);
    assert ([t] + x)[0] == t;
    AloneInPlace(g, gs, t, todo);
    var w := Without(Flat(gs), {t});
    WithoutElems(Flat(gs), {t});
    DistinctAppend([t], x);
    ElemsAppend([t], x);
    assert Elems([t]) == {t};
    DistinctAppend(x, [t]);
    DistinctAppend(w, [t]);
    DominatesBefore(g, w, x, [t]);
    DominatesTransitive(PathOf(g, Flat(gs)), PathOf(g, w + [t]), PathOf(g, x + [t]));
  }

  /** Going on from groups is as good as putting the rest after them. */
  lemma {:induction false} PassOn(g: Graph, s: seq<nat>, r: seq<nat>, todo: set<nat>)
    requires WellFormed(g) && Sized(g) && todo <= g.used && Orders(g, todo, s + r)
    ensures Dominates(PathOf(g, Pass(g, s + r)), PathOf(g, Pass(g, s) + r))
  {
    hide WellFormed, Sized, Topo, GoodGroups, Falling, PathOf, Dominates, Settle;
    if r == [] {
      assert s + r == s && Pass(g, s) + r == Pass(g, s);
      SelfDominates(g, Pass(g, s));
    } else {
      var q, x := r[..|r| - 1], r[|r| - 1];
      assert s + r == (s + q) + [x] && (s + r)[..|s + r| - 1] == s + q;
      AppendedOrders(g, s + q, x, todo);
      PassOn(g, s, q, todo - {x});
      GroupedAll(g, s + q, todo - {x});
      SameThen(g, Pass(g, s + q), s + q, x, todo);
      assert todo - {x} + {x} == todo;
      AddedOne(g, Groups(g, s + q), x, todo - {x});
      PassKeeps(g, s, q, x, todo);
      DominatesBefore(g, Pass(g, s + q), Pass(g, s) + q, [x]);
      assert Pass(g, s) + q + [x] == Pass(g, s) + r;
      DominatesTransitive(PathOf(g, Pass(g, s + r)), PathOf(g, Pass(g, s + q) + [x]), PathOf(g, Pass(g, s) + r));
    }
  }

  lemma {:induction false} PassKeeps(g: Graph, s: seq<nat>, q: seq<nat>, x: nat, todo: set<nat>)
    requires WellFormed(g) && Sized(g) && todo <= g.used && Orders(g, todo, s + q + [x])
    ensures Distinct(Pass(g, s) + q + [x]) && Elems(Pass(g, s) + q) == Elems(s + q) == todo - {x}
  {
    hide WellFormed, Sized, Topo, GoodGroups, Falling, PathOf, Dominates, Groups;
    AppendedOrders(g, s + q, x, todo);
    DistinctAppend(s, q);
    ElemsAppend(s, q);
    TopoAppend(g, s, q);
    GroupedAll(g, s, Elems(s));
    DistinctAppend(Pass(g, s), q);
    ElemsAppend(Pass(g, s), q);
    DistinctAppend(s + q, [x]);
    DistinctAppend(Pass(g, s) + q, [x]);
  }

  // ---------------------------------------------------------------------------------------
  // Moving a leaf to the end

  lemma {:induction false} ReverseAppend(a: seq<nat>, b: seq<nat>)
    ensures Reverse(a + b) == Reverse(b) + Reverse(a)
  {
  }

  lemma {:induction false} MovedOrders(g: Graph, a: seq<nat>, t: nat, b: seq<nat>)
    requires WellFormed(g) && Orders(g, g.used, a + [t] + b) && Desc(g, t) == {t}
    ensures Orders(g, g.used, a + b + [t])
  {
    hide WellFormed, Topo;
    DistinctPieces(a, [t], b, []);
    assert a + [t] + b + [] == a + [t] + b && a + b + [t] + [] == a + b + [t];
    forall x, y | x in b && y in [t]
      ensures y !in Anc(g, x)
    {
      assert x in a + [t] + b;
      assert x in Elems(a + [t] + b) && x in Elems(b) && t in Elems([t]);
      if t in Anc(g, x) {
        AncestorUsed(g, x, t);
      }
    }
    SwapTopo(g, a, [t], b, []);
  }

  lemma {:induction false} BackPassMoved(g: Graph, a: seq<nat>, t: nat, b: seq<nat>)
    requires WellFormed(g) && Sized(g) && Orders(g, g.used, a + [t] + b) && Desc(g, t) == {t}
    ensures Dominates(PathOf(g, BackPass(g, a + b + [t])), PathOf(g, a + [t] + b))
  {
    hide WellFormed, Sized, Orders, PathOf, Dominates, Pass, Flip, Reverse;
    var h, x, y := Flip(g), Reverse(b), Reverse(a);
    var before, moved := a + [t] + b, a + b + [t];
    FlipWellFormed(g);
    MovedOrders(g, a, t, b);
    ReverseMoved(a, t, b);
    FlipOrders(g, g.used, before);
    FlipOrders(g, g.used, moved);
    FrontMoved(h, t, x, y, g.used);
    BackPassGood(g, moved);
    PassGood(h, Reverse(moved));
    BackAgain(g, Pass(h, Reverse(moved)), before);
  }

  lemma {:induction false} BackAgain(g: Graph, q: seq<nat>, before: seq<nat>)
    requires Orders(Flip(g), g.used, q) && Orders(g, g.used, before)
    requires Dominates(PathOf(Flip(g), q), PathOf(Flip(g), Reverse(before)))
    ensures Dominates(PathOf(g, Reverse(q)), PathOf(g, before))
  {
    hide Topo, PathOf, Dominates, Flip, Reverse;
    ReverseElems(q, 0);
    FlipDominates(g, Reverse(q), before);
  }

  lemma {:induction false} ReverseMoved(a: seq<nat>, t: nat, b: seq<nat>)
    ensures Reverse(a + [t] + b) == Reverse(b) + [t] + Reverse(a)
    ensures Reverse(a + b + [t]) == [t] + Reverse(b) + Reverse(a)
  {
    assert Reverse([t]) == [t];
    hide Reverse;
    ReverseAppend(a + [t], b);
    ReverseAppend(a, [t]);
    ReverseAppend(a + b, [t]);
    ReverseAppend(a, b);
  }

  lemma {:induction false} FrontMoved(h: Graph, t: nat, x: seq<nat>, y: seq<nat>, todo: set<nat>)
    requires WellFormed(h) && Sized(h) && todo <= h.used && Orders(h, todo, x + [t] + y) && Orders(h, todo, [t] + x + y)
    ensures Dominates(PathOf(h, Pass(h, [t] + x + y)), PathOf(h, x + [t] + y))
  {
    hide WellFormed, Sized, Topo, PathOf, Dominates, Pass;
    var s := [t] + x;
    DistinctAppend(s, y);
    ElemsAppend(s, y);
    TopoAppend(h, s, y);
    TopoAppend(h, x + [t], y);
    TopoAppend(h, x, [t]);
    ElemsAppend(x, [t]);
    ElemsAppend([t], x);
    forall z | z in Elems(s) && z != t
      ensures t !in Anc(h, z)
    {
      assert z in x && t in [t];
    }
    PassMoved(h, t, x, Elems(s));
    PassOn(h, s, y, todo);
    PassSame(h, s, Elems(s));
    DistinctAppend(x + [t], y);
    DistinctAppend(Pass(h, s), y);
    DominatesBefore(h, Pass(h, s), x + [t], y);
    DominatesTransitive(PathOf(h, Pass(h, s + y)), PathOf(h, Pass(h, s) + y), PathOf(h, x + [t] + y));
  }

  lemma {:induction false} PassSame(g: Graph, s: seq<nat>, todo: set<nat>)
    requires WellFormed(g) && Sized(g) && todo <= g.used && Orders(g, todo, s)
    ensures Orders(g, todo, Pass(g, s))
  {
    hide WellFormed, Sized, Topo, PathOf, Dominates, Groups, GoodGroups, Falling;
    GroupedAll(g, s, todo);
  }

  // ---------------------------------------------------------------------------------------
  // With a higher fee

  /** h is g with a fee for t that is no lower. */
  ghost predicate Raised(g: Graph, h: Graph, t: nat) {
    && h.used == g.used && |h.entries| == |g.entries|
    && forall i :: 0 <= i < |g.entries| ==>
         && h.entries[i].ancestors == g.entries[i].ancestors && h.entries[i].descendants == g.entries[i].descendants
         && h.entries[i].feerate.size == g.entries[i].feerate.size
         && (i != t ==> h.entries[i].feerate.fee == g.entries[i].feerate.fee)
         && h.entries[i].feerate.fee >= g.entries[i].feerate.fee
  }

  lemma {:induction false} RaisedBelow(g: Graph, h: Graph, t: nat, s: set<nat>, n: nat)
    requires Raised(g, h, t)
    ensures FeeBelow(h, s, n).size == FeeBelow(g, s, n).size && FeeBelow(h, s, n).fee >= FeeBelow(g, s, n).fee
  {
    if n > 0 {
      RaisedBelow(g, h, t, s, n - 1);
    }
  }

  lemma HigherFee(a: FeeFrac, b: FeeFrac, rate: FeeFrac)
    requires a.size == b.size && a.fee >= b.fee
    ensures Excess(a, rate) >= Excess(b, rate)
  {
    assert (a.fee - b.fee) * rate.size >= 0;
    assert (a.fee - b.fee) * rate.size == a.fee * rate.size - b.fee * rate.size;
  }

  lemma {:induction false} RaisedDominates(g: Graph, h: Graph, t: nat, s: seq<nat>)
    requires Raised(g, h, t)
    ensures Dominates(PathOf(h, s), PathOf(g, s))
    ensures PathOf(h, s)[|s|].size == PathOf(g, s)[|s|].size && PathOf(h, s)[|s|].fee >= PathOf(g, s)[|s|].fee
  {
    hide Excess, FeeBelow, Raised, PathOf;
    var q, p := PathOf(h, s), PathOf(g, s);
    forall k | 0 <= k <= |s|
      ensures q[k].size == p[k].size && q[k].fee >= p[k].fee
    {
      PathAt(h, s, k, EMPTY);
      PathAt(g, s, k, EMPTY);
      RaisedBelow(g, h, t, Elems(s[..k]), |g.entries|);
      assert |h.entries| == |g.entries| by { SameLength(g, h, t); }
    }
    forall rate: FeeFrac, k | rate.size > 0 && 0 <= k < |p|
      ensures Reaches(q, rate, Excess(p[k], rate))
    {
      HigherFee(q[k], p[k], rate);
    }
  }

  lemma SameLength(g: Graph, h: Graph, t: nat)
    requires Raised(g, h, t)
    ensures |h.entries| == |g.entries| && h.used == g.used
  {
  }

  lemma {:induction false} RaisedKeeps(g: Graph, h: Graph, t: nat, s: seq<nat>)
    requires WellFormed(g) && Sized(g) && Raised(g, h, t) && Orders(g, g.used, s) && Desc(g, t) == {t}
    ensures WellFormed(h) && Sized(h) && Orders(h, h.used, s) && Desc(h, t) == {t}
  {
    forall i: nat
      ensures Anc(h, i) == Anc(g, i) && Desc(h, i) == Desc(g, i) && Rate(h, i).size == Rate(g, i).size
    {
    }
  }

  /** A leaf t of a linearization is moved to the end, and its fee possibly raised. Once
      post-linearized, the result is nowhere below the linearization at the start. */
  lemma {:induction false} MovedLeafNoWorse(g: Graph, h: Graph, a: seq<nat>, t: nat, b: seq<nat>)
    requires WellFormed(g) && Sized(g) && Orders(g, g.used, a + [t] + b) && Desc(g, t) == {t} && Raised(g, h, t)
    ensures IsPath(PathOf(h, PostLinearization(h, a + b + [t]))) && IsPath(PathOf(g, a + [t] + b))
    ensures NoWorse(PathOf(h, PostLinearization(h, a + b + [t])), PathOf(g, a + [t] + b))
  {
    hide WellFormed, Sized, Orders, PathOf, Dominates, Pass, BackPass, IsPath, NoWorse, Raised, ChunksConnected, Desc;
    var before, moved := a + [t] + b, a + b + [t];
    RaisedKeeps(g, h, t, before);
    MovedOrders(h, a, t, b);
    BackPassMoved(h, a, t, b);
    BackPassGood(h, moved);
    var m, out := BackPass(h, moved), PostLinearization(h, moved);
    PassGood(h, m);
    DominatesTransitive(PathOf(h, out), PathOf(h, m), PathOf(h, before));
    RaisedDominates(g, h, t, before);
    DominatesTransitive(PathOf(h, out), PathOf(h, before), PathOf(g, before));
    Ends(h, out, before);
    IsLinearization(g, before);
    IsLinearization(h, out);
    DominatesNoWorse(PathOf(h, out), PathOf(g, before));
  }

  lemma {:induction false} IsLinearization(g: Graph, s: seq<nat>)
    requires WellFormed(g) && Sized(g) && Orders(g, g.used, s)
    ensures IsPath(PathOf(g, s))
  {
    hide WellFormed, Sized, Topo, IsPath, PathOf;
    PathOfIsPath(g, s);
  }

  lemma {:induction false} Ends(h: Graph, out: seq<nat>, s: seq<nat>)
    requires Orders(h, h.used, out) && Orders(h, h.used, s)
    ensures PathOf(h, out)[|out|] == PathOf(h, s)[|s|]
  {
    hide Topo, FeeRate;
    PathAt(h, out, |out|, EMPTY);
    PathAt(h, s, |s|, EMPTY);
    assert out[..|out|] == out && s[..|s|] == s;
  }
}
