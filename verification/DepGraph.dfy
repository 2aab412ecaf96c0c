/** Dependency graphs of clusters (src/cluster_linearize.h:25-335): every transaction keeps all
    its ancestors and all its descendants, itself included. */
module DepGraphs {
  import opened FeeFracs
  import opened Sequences

  datatype Entry = Entry(feerate: FeeFrac, ancestors: set<nat>, descendants: set<nat>)

  /** The value of a DepGraph: per position data, and which positions are in use. */
  datatype Graph = Graph(entries: seq<Entry>, used: set<nat>)

  function Anc(g: Graph, i: nat): set<nat> {
    if i < |g.entries| then g.entries[i].ancestors else {}
  }

  function Desc(g: Graph, i: nat): set<nat> {
    if i < |g.entries| then g.entries[i].descendants else {}
  }

  function Rate(g: Graph, i: nat): FeeFrac {
    if i < |g.entries| then g.entries[i].feerate else EMPTY
  }

  /** On used positions: ancestor sets are reflexive and transitively closed, and descendant
      sets are their transposes. */
  ghost predicate WellFormed(g: Graph) {
    && (forall i :: i in g.used ==> i < |g.entries| && i in Anc(g, i))
    && (forall i, j :: i in g.used && j in Anc(g, i) ==> j in g.used && i in Desc(g, j))
    && (forall i, j :: j in g.used && i in Desc(g, j) ==> i in g.used && j in Anc(g, i))
    && (forall i, j, k :: i in g.used && j in Anc(g, i) && k in Anc(g, j) ==> k in Anc(g, i))
  }

  lemma SelfAncestor(g: Graph, i: nat)
    requires WellFormed(g) && i in g.used
    ensures i < |g.entries| && i in Anc(g, i) && i in Desc(g, i)
  {
  }

  lemma AncestorUsed(g: Graph, i: nat, j: nat)
    requires WellFormed(g) && i in g.used && j in Anc(g, i)
    ensures j in g.used && i in Desc(g, j)
  {
  }

  lemma DescendantUsed(g: Graph, i: nat, j: nat)
    requires WellFormed(g) && j in g.used && i in Desc(g, j)
    ensures i in g.used && j in Anc(g, i)
  {
  }

  lemma AncestorTransitive(g: Graph, i: nat, j: nat, k: nat)
    requires WellFormed(g) && i in g.used && j in Anc(g, i) && k in Anc(g, j)
    ensures k in Anc(g, i)
  {
  }

  lemma MakeWellFormed(g: Graph)
    requires forall i :: i in g.used ==> i < |g.entries| && i in Anc(g, i)
    requires forall i, j :: i in g.used && j in Anc(g, i) ==> j in g.used && i in Desc(g, j)
    requires forall i, j :: j in g.used && i in Desc(g, j) ==> i in g.used && j in Anc(g, i)
    requires forall i, j, k :: i in g.used && j in Anc(g, i) && k in Anc(g, j) ==> k in Anc(g, i)
    ensures WellFormed(g)
  {
  }

  ghost predicate Acyclic(g: Graph) {
    forall i, j :: i in g.used && j in g.used && j in Anc(g, i) && i in Anc(g, j) ==> i == j
  }

  class DepGraph {
    var entries: seq<Entry>
    var used: set<nat>
    /** The number of positions that the set type can hold. */
    const setSize: nat

    function View(): Graph
      reads this
    {
      Graph(entries, used)
    }

    ghost predicate Valid()
      reads this
    {
      && WellFormed(View())
      && |entries| <= setSize
    }

    constructor (setSize: nat)
      ensures Valid() && View() == Graph([], {}) && this.setSize == setSize
    {
      entries, used, this.setSize := [], {}, setSize;
    }

    /** The same cluster with its transactions moved to the positions that mapping gives. */
    constructor Remap(from: DepGraph, mapping: seq<nat>, posRange: nat)
      requires from.Valid() && |mapping| == |from.entries|
      requires Injective(from.View(), mapping, posRange) && posRange <= from.setSize
      ensures Valid() && setSize == from.setSize && |entries| == posRange
      ensures used == Image(from.View(), mapping)
      ensures Acyclic(from.View()) ==> Isomorphic(from.View(), View(), mapping)
    {
      hide WellFormed, Injective, Acyclic, Image;
      setSize := from.setSize;
      entries := seq(posRange, i => Entry(EMPTY, {}, {}));
      used := {};
      new;
      ghost var g := from.View();
      for i := 0 to |from.entries|
        invariant from.View() == g && |mapping| == |g.entries| && |entries| == posRange
        invariant Placed(g, View(), mapping, i)
      {
        if i in from.used {
          InjectiveAt(g, mapping, posRange, i);
          ghost var before := View();
          entries := entries[mapping[i] := Entry(from.entries[i].feerate, {mapping[i]}, {mapping[i]})];
          used := used + {mapping[i]};
          PlacedOne(g, before, View(), mapping, posRange, i);
        }
      }
      AllPlaced(g, View(), mapping, posRange);
      for i := 0 to |from.entries|
        invariant from.View() == g && |mapping| == |g.entries| && |entries| == posRange
        invariant Valid() && used == Image(g, mapping)
        invariant Embeds(g, View(), mapping) && CoveredBelow(g, View(), mapping, i)
      {
        if i in from.used {
          ghost var h := View();
          var reduced := from.GetReducedParents(i);
          var parents: set<nat> := {};
          for j := 0 to |from.entries|
            invariant from.View() == g && View() == h
            invariant parents == set k | k in reduced && k < j && k < |mapping| :: mapping[k]
          {
            if j in reduced {
              parents := parents + {mapping[j]};
            }
          }
          ParentsMapped(g, h, mapping, i, reduced, parents);
          AddDependencies(parents, mapping[i]);
          EmbedsOne(g, h, View(), mapping, posRange, i, reduced, parents);
        }
      }
      if Acyclic(g) {
        CoveredIsomorphic(g, View(), mapping, posRange);
      }
    }

    /** Puts a new unconnected transaction in the first free position. */
    method AddTransaction(feerate: FeeFrac) returns (pos: nat)
      requires Valid() && exists i: nat :: i < setSize && i !in used
      modifies this
      ensures Valid()
      ensures pos < setSize && pos !in old(used) && forall i: nat :: i < pos ==> i in old(used)
      ensures used == old(used) + {pos}
      ensures Anc(View(), pos) == {pos} && Desc(View(), pos) == {pos} && Rate(View(), pos) == feerate
      ensures forall i :: i in old(used) ==> View().entries[i] == old(View()).entries[i]
    {
      pos := 0;
      while pos in used
        invariant pos <= |entries| && forall i: nat :: i < pos ==> i in used
        decreases setSize - pos
      {
        pos := pos + 1;
      }
      var e := Entry(feerate, {pos}, {pos});
      if pos == |entries| {
        entries := entries + [e];
      } else {
        entries := entries[pos := e];
      }
      used := used + {pos};
      Isolated(old(View()), View(), pos);
    }

    /** Drops positions, and with them all dependencies on them; what is reachable through a
        dropped transaction stays reachable. */
    method RemoveTransactions(del: set<nat>)
      requires Valid()
      modifies this
      ensures Valid()
      ensures used == old(used) - del
      ensures entries == [] || |entries| - 1 in used
      ensures forall i :: i in used ==>
                && Rate(View(), i) == Rate(old(View()), i)
                && Anc(View(), i) == Anc(old(View()), i) - del
                && Desc(View(), i) == Desc(old(View()), i) - del
    {
      used := used - del;
      while |entries| > 0 && |entries| - 1 !in used
        invariant |entries| <= |old(entries)| && entries == old(entries)[..|entries|]
        invariant forall i :: i in used ==> i < |entries|
        invariant used == old(used) - del
      {
        entries := entries[..|entries| - 1];
      }
      var n := |entries|;
      for k := 0 to n
        invariant |entries| == n <= |old(entries)|
        invariant used == old(used) - del
        invariant forall i :: 0 <= i < k ==>
                    entries[i] ==
                        Entry(old(entries)[i].feerate, old(entries)[i].ancestors * used,
                        old(entries)[i].descendants * used)
        invariant forall i :: k <= i < n ==> entries[i] == old(entries)[i]
      {
        entries := entries[k := entries[k].(ancestors := entries[k].ancestors * used,
                                            descendants := entries[k].descendants * used)];
      }
    }

    /** Makes every transaction in parents a parent of child: exactly child and its descendants
        gain exactly the parents and their ancestors. */
    method AddDependencies(parents: set<nat>, child: nat)
      requires Valid() && child in used && parents <= used
      modifies this
      ensures Valid() && used == old(used) && |entries| == |old(entries)|
      ensures forall i :: i in used ==> Rate(View(), i) == Rate(old(View()), i)
      ensures forall i, a :: i in used ==>
                (a in Anc(View(), i) <==> GainsAncestor(old(View()), parents, child, i, a))
    {
      hide WellFormed, GainsAncestor;
      ghost var g := View();
      SelfAncestor(g, child);
      var parAnc: set<nat> := {};
      for p := 0 to |entries|
        invariant parAnc == AncestorsOfBelow(g, parents - Anc(g, child), p)
      {
        if p in parents - entries[child].ancestors {
          parAnc := parAnc + entries[p].ancestors;
        }
      }
      parAnc := parAnc - entries[child].ancestors;
      NewAncestors(g, parents, child, parAnc);
      if parAnc == {} {
        NothingGained(g, parents, child);
        return;
      }
      var childDesc := entries[child].descendants;
      for i := 0 to |entries|
        invariant used == g.used && |entries| == |g.entries|
        invariant forall j :: 0 <= j < |entries| ==>
            entries[j] == WithDescendants(g.entries[j], j < i && j in parAnc, childDesc)
      {
        if i in parAnc {
          entries := entries[i := entries[i].(descendants := entries[i].descendants + childDesc)];
        }
      }
      ghost var mid := entries;
      for i := 0 to |entries|
        invariant used == g.used && |entries| == |g.entries|
        invariant forall j :: 0 <= j < |entries| ==>
            entries[j] == WithAncestors(mid[j], j < i && j in childDesc, parAnc)
      {
        if i in childDesc {
          entries := entries[i := entries[i].(ancestors := entries[i].ancestors + parAnc)];
        }
      }
      UsedInRange(g);
      assert forall j :: 0 <= j < |entries| ==>
        entries[j] == WithAncestors(WithDescendants(g.entries[j], j in parAnc, childDesc), j in childDesc, parAnc);
      Linked(g, View(), parents, child, parAnc);
    }

    /** The direct parents of i, as far as ancestor sets tell: no one of them is an ancestor of
        another, and their ancestors are all the strict ancestors of i. */
    method GetReducedParents(i: nat) returns (parents: set<nat>)
      requires Valid() && i in used
      ensures IsReduced(View(), i, parents)
    {
      hide WellFormed, Covers;
      ghost var g := View();
      SelfAncestor(g, i);
      parents := entries[i].ancestors - {i};
      AllAncestorsCover(g, i);
      for p := 0 to |entries|
        invariant parents <= Anc(g, i) - {i} && Covers(g, i, parents)
        invariant forall q, r :: q in parents && q < p && r in parents && r in Anc(g, q) ==> r == q
      {
        if p in parents {
          ghost var before := parents;
          parents := parents - entries[p].ancestors + {p};
          StillCovers(g, i, before, parents, p);
        }
      }
      UsedInRange(g);
      forall q | q in parents
        ensures q < |entries|
      {
        AncestorUsed(g, i, q);
      }
    }

    /** All of todo that hangs together with tx, by dependencies within todo. */
    method GetConnectedComponent(todo: set<nat>, tx: nat) returns (ret: set<nat>)
      requires Valid() && tx in todo && todo <= used
      ensures tx in ret && ret <= todo && Connected(View(), ret)
      ensures Separate(View(), ret, todo)
    {
      hide WellFormed, Connected;
      ghost var g := View();
      var toAdd := {tx};
      ret := {};
      var more := true;
      while more
        invariant toAdd <= todo && ret <= todo
        invariant ret == {} ==> more && toAdd == {tx}
        invariant ret != {} ==> tx in ret && toAdd <= ret && Connected(g, ret)
        invariant more <==> toAdd != {}
        invariant forall x, y :: x in ret - toAdd && y in todo && Related(g, x, y) ==> y in ret
        decreases todo - ret, more
      {
        var previous := ret;
        for add := 0 to |entries|
          invariant ret == (previous + NeighboursBelow(g, toAdd, add))
        {
          if add in toAdd {
            ret := ret + entries[add].descendants + entries[add].ancestors;
          }
        }
        ret := ret * todo;
        OneRound(g, todo, tx, previous, toAdd, ret);
        toAdd := ret - previous;
        more := toAdd != {};
      }
    }

    method FindConnectedComponent(todo: set<nat>) returns (ret: set<nat>)
      requires Valid() && todo <= used
      ensures ret <= todo && Separate(View(), ret, todo)
      ensures todo == {} ==> ret == {}
      ensures todo != {} ==> ret != {} && Connected(View(), ret)
    {
      if todo == {} {
        return todo;
      }
      var tx := First(todo);
      ret := GetConnectedComponent(todo, tx);
    }

    method IsConnected(subset: set<nat>) returns (b: bool)
      requires Valid() && subset <= used
      ensures b <==> Connected(View(), subset)
    {
      var c := FindConnectedComponent(subset);
      b := c == subset;
      if !b {
        assert forall x, y :: x in c && y in subset - c ==> !Related(View(), x, y);
      }
    }

    /** Appends select to list, by increasing number of ancestors, then by position. */
    method AppendTopo(list: seq<nat>, select: set<nat>) returns (out: seq<nat>)
      requires Valid() && select <= used
      ensures |list| <= |out| && out[..|list|] == list
      ensures ByAncestorCount(View(), out[|list|..]) && Elems(out[|list|..]) == select
    {
      var order: seq<nat> := [];
      for i := 0 to |entries|
        invariant ByAncestorCount(View(), order)
        invariant forall x :: x in order <==> x in select && x < i
      {
        if i in select {
          var k := |order|;
          while k > 0 && AncestorCountBefore(View(), i, order[k - 1])
            invariant 0 <= k <= |order|
            invariant forall j :: k <= j < |order| ==> AncestorCountBefore(View(), i, order[j])
          {
            k := k - 1;
          }
          InsertedInOrder(View(), order, k, i);
          order := order[..k] + [i] + order[k..];
        }
      }
      UsedInRange(View());
      out := list + order;
      assert out[|list|..] == order;
    }

    method IsAcyclic() returns (b: bool)
      requires Valid()
      ensures b <==> Acyclic(View())
    {
      for i := 0 to |entries|
        invariant forall j, k :: j in used && j < i && k in used && k in Anc(View(), j) && j in Anc(View(), k) ==>
            k == j
      {
        if i in used && entries[i].ancestors * entries[i].descendants != {i} {
          assert i in entries[i].ancestors * entries[i].descendants;
          ghost var k :| k in entries[i].ancestors * entries[i].descendants && k != i;
          assert k in Anc(View(), i) && i in Anc(View(), k);
          return false;
        }
        forall k | i in used && k in used && k in Anc(View(), i) && i in Anc(View(), k)
          ensures k == i
        {
          AncestorUsed(View(), k, i);
          assert k in entries[i].ancestors * entries[i].descendants;
        }
      }
      b := true;
    }
  }

  lemma UsedInRange(g: Graph)
    requires WellFormed(g)
    ensures forall i :: i in g.used ==> i < |g.entries|
  {
  }

  lemma {:induction false} Isolated(g: Graph, h: Graph, pos: nat)
    requires WellFormed(g) && pos !in g.used && h.used == g.used + {pos} && pos < |h.entries|
    requires Anc(h, pos) == {pos} && Desc(h, pos) == {pos}
    requires |h.entries| >= |g.entries| && forall i :: i in g.used && i < |g.entries| ==> h.entries[i] == g.entries[i]
    ensures WellFormed(h)
  {
    hide WellFormed;
    forall i | i in h.used
      ensures i < |h.entries| && i in Anc(h, i)
      ensures i != pos ==> Anc(h, i) == Anc(g, i) && Desc(h, i) == Desc(g, i)
    {
      if i != pos {
        SelfAncestor(g, i);
      }
    }
    forall i, j | i in h.used && j in Anc(h, i)
      ensures j in h.used && i in Desc(h, j)
    {
      if i != pos {
        AncestorUsed(g, i, j);
      }
    }
    forall i, j | j in h.used && i in Desc(h, j)
      ensures i in h.used && j in Anc(h, i)
    {
      if j != pos {
        DescendantUsed(g, i, j);
      }
    }
    forall i, j, k | i in h.used && j in Anc(h, i) && k in Anc(h, j)
      ensures k in Anc(h, i)
    {
      if i != pos {
        AncestorUsed(g, i, j);
        AncestorTransitive(g, i, j, k);
      }
    }
    MakeWellFormed(h);
  }

  ghost function WithDescendants(e: Entry, here: bool, more: set<nat>): Entry {
    if here then e.(descendants := e.descendants + more) else e
  }

  ghost function WithAncestors(e: Entry, here: bool, more: set<nat>): Entry {
    if here then e.(ancestors := e.ancestors + more) else e
  }

  ghost predicate GainsAncestor(g: Graph, parents: set<nat>, child: nat, i: nat, a: nat) {
    || a in Anc(g, i)
    || (child in Anc(g, i) && exists p :: p in parents && a in Anc(g, p))
  }

  ghost function AncestorsOfBelow(g: Graph, s: set<nat>, n: nat): set<nat> {
    if n == 0 then {} else AncestorsOfBelow(g, s, n - 1) + (if n - 1 in s then Anc(g, n - 1) else {})
  }

  lemma {:induction false} AncestorsOfBelowAt(g: Graph, s: set<nat>, n: nat)
    ensures forall a :: a in AncestorsOfBelow(g, s, n) <==> exists p :: p in s && p < n && a in Anc(g, p)
  {
    if n > 0 {
      AncestorsOfBelowAt(g, s, n - 1);
    }
  }

  /** The ancestors that child gains, other than those it has. */
  ghost predicate IsGain(g: Graph, parents: set<nat>, child: nat, parAnc: set<nat>) {
    forall a :: a in parAnc <==> a !in Anc(g, child) && exists p :: p in parents && a in Anc(g, p)
  }

  /** What AddDependencies computes before it changes anything. */
  lemma {:induction false} NewAncestors(g: Graph, parents: set<nat>, child: nat, parAnc: set<nat>)
    requires WellFormed(g) && child in g.used && parents <= g.used
    requires parAnc == AncestorsOfBelow(g, parents - Anc(g, child), |g.entries|) - Anc(g, child)
    ensures IsGain(g, parents, child, parAnc)
  {
    hide WellFormed;
    AncestorsOfBelowAt(g, parents - Anc(g, child), |g.entries|);
    forall a, p | p in parents && a in Anc(g, p) && a !in Anc(g, child)
      ensures a in parAnc
    {
      SelfAncestor(g, p);
      if p in Anc(g, child) {
        AncestorTransitive(g, child, p, a);
      }
    }
  }

  lemma {:induction false} NothingGained(g: Graph, parents: set<nat>, child: nat)
    requires WellFormed(g) && child in g.used && parents <= g.used && IsGain(g, parents, child, {})
    ensures forall i, a :: i in g.used ==> (a in Anc(g, i) <==> GainsAncestor(g, parents, child, i, a))
  {
    hide WellFormed;
    forall i, a | i in g.used && GainsAncestor(g, parents, child, i, a)
      ensures a in Anc(g, i)
    {
      if a !in Anc(g, i) {
        assert a !in {};
        AncestorTransitive(g, i, child, a);
      }
    }
  }

  ghost predicate IsLinked(g: Graph, h: Graph, child: nat, parAnc: set<nat>) {
    && h.used == g.used && |h.entries| == |g.entries|
    && (forall i :: i in g.used ==> Anc(h, i) == Anc(g, i) + (if i in Desc(g, child) then parAnc else {}))
    && (forall i :: i in g.used ==> Desc(h, i) == Desc(g, i) + (if i in parAnc then Desc(g, child) else {}))
  }

  lemma {:induction false} Linked(g: Graph, h: Graph, parents: set<nat>, child: nat, parAnc: set<nat>)
    requires WellFormed(g) && child in g.used && parents <= g.used && IsGain(g, parents, child, parAnc)
    requires IsLinked(g, h, child, parAnc)
    ensures WellFormed(h)
    ensures forall i, a :: i in g.used ==> (a in Anc(h, i) <==> GainsAncestor(g, parents, child, i, a))
  {
    hide WellFormed, IsGain, GainsAncestor;
    forall i, a | i in g.used
      ensures a in Anc(h, i) <==> GainsAncestor(g, parents, child, i, a)
    {
      LinkedAncestor(g, h, parents, child, parAnc, i, a);
    }
    forall i | i in h.used
      ensures i < |h.entries| && i in Anc(h, i)
    {
      SelfAncestor(g, i);
    }
    forall i, j | i in h.used && j in Anc(h, i)
      ensures j in h.used && i in Desc(h, j)
    {
      LinkedForth(g, h, parents, child, parAnc, i, j);
    }
    forall i, j | j in h.used && i in Desc(h, j)
      ensures i in h.used && j in Anc(h, i)
    {
      LinkedBack(g, h, parents, child, parAnc, i, j);
    }
    forall i, j, k | i in h.used && j in Anc(h, i) && k in Anc(h, j)
      ensures k in Anc(h, i)
    {
      LinkedTransitive(g, h, parents, child, parAnc, i, j, k);
    }
    MakeWellFormed(h);
  }

  lemma {:induction false} GainUsed(g: Graph, parents: set<nat>, child: nat, parAnc: set<nat>, a: nat)
    requires WellFormed(g) && child in g.used && parents <= g.used && IsGain(g, parents, child, parAnc) && a in parAnc
    ensures a in g.used && a !in Anc(g, child)
  {
    hide WellFormed;
    var p :| p in parents && a in Anc(g, p);
    AncestorUsed(g, p, a);
  }

  lemma {:induction false} LinkedAncestor(g: Graph, h: Graph, parents: set<nat>, child: nat, parAnc: set<nat>, i: nat,
      a: nat)
    requires WellFormed(g) && child in g.used && parents <= g.used && IsGain(g, parents, child, parAnc)
    requires IsLinked(g, h, child, parAnc) && i in g.used
    ensures a in Anc(h, i) <==> GainsAncestor(g, parents, child, i, a)
  {
    hide WellFormed;
    if i in Desc(g, child) {
      DescendantUsed(g, i, child);
      if a in Anc(g, child) {
        AncestorTransitive(g, i, child, a);
      }
    } else if child in Anc(g, i) {
      AncestorUsed(g, i, child);
    }
  }

  lemma {:induction false} LinkedForth(g: Graph, h: Graph, parents: set<nat>, child: nat, parAnc: set<nat>, i: nat,
      j: nat)
    requires WellFormed(g) && child in g.used && parents <= g.used && IsGain(g, parents, child, parAnc)
    requires IsLinked(g, h, child, parAnc) && i in g.used && j in Anc(h, i)
    ensures j in g.used && i in Desc(h, j)
  {
    hide WellFormed, IsGain;
    if j in Anc(g, i) {
      AncestorUsed(g, i, j);
    } else {
      GainUsed(g, parents, child, parAnc, j);
    }
  }

  lemma {:induction false} LinkedBack(g: Graph, h: Graph, parents: set<nat>, child: nat, parAnc: set<nat>, i: nat,
      j: nat)
    requires WellFormed(g) && child in g.used && parents <= g.used && IsGain(g, parents, child, parAnc)
    requires IsLinked(g, h, child, parAnc) && j in g.used && i in Desc(h, j)
    ensures i in g.used && j in Anc(h, i)
  {
    hide WellFormed, IsGain;
    if i in Desc(g, j) {
      DescendantUsed(g, i, j);
    } else {
      DescendantUsed(g, i, child);
    }
  }

  lemma {:induction false} LinkedTransitive(g: Graph, h: Graph, parents: set<nat>, child: nat, parAnc: set<nat>, i: nat,
      j: nat, k: nat)
    requires WellFormed(g) && child in g.used && parents <= g.used && IsGain(g, parents, child, parAnc)
    requires IsLinked(g, h, child, parAnc) && i in g.used && j in Anc(h, i) && k in Anc(h, j)
    ensures k in Anc(h, i)
  {
    hide WellFormed;
    if j in Anc(g, i) {
      AncestorUsed(g, i, j);
      if k in Anc(g, j) {
        AncestorTransitive(g, i, j, k);
      } else {
        DescendantUsed(g, j, child);
        AncestorTransitive(g, i, j, child);
        AncestorUsed(g, i, child);
      }
    } else {
      // i descends from child and j is one of the gained ancestors.
      DescendantUsed(g, i, child);
      GainUsed(g, parents, child, parAnc, j);
      if k !in parAnc {
        var p :| p in parents && j in Anc(g, p);
        AncestorTransitive(g, p, j, k);
        AncestorTransitive(g, i, child, k);
      }
    }
  }

  /** The order of the sort in AppendTopo. */
  predicate AncestorCountBefore(g: Graph, a: nat, b: nat) {
    |Anc(g, a)| < |Anc(g, b)| || (|Anc(g, a)| == |Anc(g, b)| && a < b)
  }

  predicate ByAncestorCount(g: Graph, s: seq<nat>) {
    forall i, j :: 0 <= i < j < |s| ==> AncestorCountBefore(g, s[i], s[j])
  }

  lemma {:induction false} InsertedInOrder(g: Graph, s: seq<nat>, k: nat, x: nat)
    requires ByAncestorCount(g, s) && k <= |s| && x !in s
    requires k > 0 ==> !AncestorCountBefore(g, x, s[k - 1])
    requires forall j :: k <= j < |s| ==> AncestorCountBefore(g, x, s[j])
    ensures ByAncestorCount(g, s[..k] + [x] + s[k..])
    ensures forall y :: y in s[..k] + [x] + s[k..] <==> y == x || y in s
  {
    var r := s[..k] + [x] + s[k..];
    forall i, j | 0 <= i < j < |r|
      ensures AncestorCountBefore(g, r[i], r[j])
    {
      if j == k {
        assert AncestorCountBefore(g, s[i], s[k - 1]) || i == k - 1;
        assert s[k - 1] != x;
      } else if i == k {
        assert r[j] == s[j - 1];
      } else {
        var i', j' := if i < k then i else i - 1, if j < k then j else j - 1;
        assert r[i] == s[i'] && r[j] == s[j'];
      }
    }
    assert s == s[..k] + s[k..];
  }

  // ---------------------------------------------------------------------------------------
  // Reduced parents

  ghost predicate Covers(g: Graph, i: nat, ps: set<nat>) {
    forall a :: a in Anc(g, i) && a != i ==> exists p :: p in ps && a in Anc(g, p)
  }

  ghost predicate IsReduced(g: Graph, i: nat, ps: set<nat>) {
    && ps <= Anc(g, i) - {i}
    && Covers(g, i, ps)
    && (forall p, q :: p in ps && q in ps && q in Anc(g, p) ==> q == p)
  }

  lemma {:induction false} AllAncestorsCover(g: Graph, i: nat)
    requires WellFormed(g) && i in g.used
    ensures Covers(g, i, Anc(g, i) - {i})
  {
    hide WellFormed;
    forall a | a in Anc(g, i) && a != i
      ensures exists p :: p in Anc(g, i) - {i} && a in Anc(g, p)
    {
      AncestorUsed(g, i, a);
      SelfAncestor(g, a);
      assert a in Anc(g, i) - {i} && a in Anc(g, a);
    }
  }

  lemma {:induction false} StillCovers(g: Graph, i: nat, before: set<nat>, after: set<nat>, p: nat)
    requires WellFormed(g) && i in g.used && before <= Anc(g, i) - {i} && Covers(g, i, before)
    requires p in before && after == before - Anc(g, p) + {p}
    ensures Covers(g, i, after)
  {
    hide WellFormed;
    forall a | a in Anc(g, i) && a != i
      ensures exists q :: q in after && a in Anc(g, q)
    {
      var q :| q in before && a in Anc(g, q);
      if q !in after {
        AncestorUsed(g, i, p);
        AncestorTransitive(g, p, q, a);
        assert p in after;
      }
    }
  }

  // ---------------------------------------------------------------------------------------
  // Connectivity

  ghost predicate Related(g: Graph, x: nat, y: nat) {
    y in Anc(g, x) || x in Anc(g, y)
  }

  ghost predicate Touch(g: Graph, a: set<nat>, b: set<nat>) {
    exists x, y :: x in a && y in b && Related(g, x, y)
  }

  /** No way to split s in two parts without a dependency between them. */
  ghost predicate Connected(g: Graph, s: set<nat>) {
    forall a :: a < s && a != {} ==> Touch(g, a, s - a)
  }

  /** Nothing in part depends on, or is depended on by, the rest of whole. */
  ghost predicate Separate(g: Graph, part: set<nat>, whole: set<nat>) {
    forall x, y :: x in part && y in whole && Related(g, x, y) ==> y in part
  }

  /** A way through s from transaction to related transaction. */
  ghost predicate Path(g: Graph, s: set<nat>, p: seq<nat>) {
    && p != [] && (forall i :: 0 <= i < |p| ==> p[i] in s)
    && (forall i :: 0 <= i < |p| - 1 ==> Related(g, p[i], p[i + 1]))
  }

  ghost predicate WalksTo(g: Graph, s: set<nat>, x: nat, y: nat) {
    exists p :: Path(g, s, p) && p[0] == x && p[|p| - 1] == y
  }

  /** No cut without a dependency is the same as a path from everywhere to everywhere. */
  lemma {:induction false} ConnectedByPaths(g: Graph, s: set<nat>)
    ensures Connected(g, s) <==> forall x, y :: x in s && y in s ==> WalksTo(g, s, x, y)
  {
    hide Related, WalksTo;
    if Connected(g, s) {
      forall x, y | x in s && y in s
        ensures WalksTo(g, s, x, y)
      {
        PathTo(g, s, x, y);
      }
    }
    if forall x, y :: x in s && y in s ==> WalksTo(g, s, x, y) {
      forall a | a < s && a != {}
        ensures Touch(g, a, s - a)
      {
        var x :| x in a;
        assert !(s <= a);
        var y :| y in s && y !in a;
        Crosses(g, s, a, x, y);
      }
    }
  }

  lemma {:induction false} PathTo(g: Graph, s: set<nat>, x: nat, y: nat)
    requires Connected(g, s) && x in s && y in s
    ensures WalksTo(g, s, x, y)
  {
    hide Related;
    var a := set z | z in s && WalksTo(g, s, x, z);
    assert Path(g, s, [x]) && [x][0] == x;
    assert x in a;
    if y !in a {
      assert Touch(g, a, s - a);
      var u, v :| u in a && v in s - a && Related(g, u, v);
      OneFurther(g, s, x, u, v);
    }
  }

  lemma {:induction false} OneFurther(g: Graph, s: set<nat>, x: nat, u: nat, v: nat)
    requires WalksTo(g, s, x, u) && v in s && Related(g, u, v)
    ensures WalksTo(g, s, x, v)
  {
    hide Related;
    var p :| Path(g, s, p) && p[0] == x && p[|p| - 1] == u;
    var q := p + [v];
    assert Path(g, s, q) && q[0] == x && q[|q| - 1] == v;
  }

  /** A path that leaves a set crosses its border. */
  lemma {:induction false} Crosses(g: Graph, s: set<nat>, a: set<nat>, x: nat, y: nat)
    requires WalksTo(g, s, x, y) && x in a && y in s - a
    ensures Touch(g, a, s - a)
  {
    hide Related;
    var p :| Path(g, s, p) && p[0] == x && p[|p| - 1] == y;
    var i := 0;
    while p[i + 1] in a
      invariant 0 <= i < |p| - 1 && p[i] in a
      decreases |p| - i
    {
      i := i + 1;
    }
    assert Related(g, p[i], p[i + 1]);
  }

  ghost function NeighboursBelow(g: Graph, s: set<nat>, n: nat): set<nat> {
    if n == 0 then {} else NeighboursBelow(g, s, n - 1) + (if n - 1 in s then Desc(g, n - 1) + Anc(g, n - 1) else {})
  }

  lemma {:induction false} NeighboursBelowAt(g: Graph, s: set<nat>, n: nat)
    ensures forall a :: a in NeighboursBelow(g, s, n) <==>
        exists x :: x in s && x < n && (a in Desc(g, x) || a in Anc(g, x))
  {
    if n > 0 {
      NeighboursBelowAt(g, s, n - 1);
    }
  }

  lemma {:induction false} OneRound(g: Graph, todo: set<nat>, tx: nat, previous: set<nat>, toAdd: set<nat>,
      ret: set<nat>)
    requires WellFormed(g) && tx in todo && todo <= g.used && toAdd <= todo && previous <= todo
    requires previous == {} ==> toAdd == {tx}
    requires previous != {} ==> tx in previous && toAdd <= previous && Connected(g, previous)
    requires forall x, y :: x in previous - toAdd && y in todo && Related(g, x, y) ==> y in previous
    requires ret == (previous + NeighboursBelow(g, toAdd, |g.entries|)) * todo
    ensures previous <= ret <= todo && tx in ret && Connected(g, ret)
    ensures forall x, y :: x in previous && y in todo && Related(g, x, y) ==> y in ret
  {
    hide WellFormed, Connected;
    NeighboursBelowAt(g, toAdd, |g.entries|);
    forall x, y | x in toAdd && y in todo
      ensures Related(g, x, y) <==> y in Desc(g, x) || y in Anc(g, x)
      ensures x < |g.entries|
    {
      SelfAncestor(g, x);
      if x in Anc(g, y) { AncestorUsed(g, y, x); }
      if y in Desc(g, x) { DescendantUsed(g, y, x); }
    }
    SelfAncestor(g, tx);
    if previous == {} {
      OneConnected(g, tx);
      Grown(g, {tx}, ret);
    } else {
      Grown(g, previous, ret);
    }
  }

  lemma OneConnected(g: Graph, x: nat)
    ensures Connected(g, {x})
  {
  }

  /** A connected set stays connected when everything added is related to it. */
  lemma {:induction false} Grown(g: Graph, s: set<nat>, t: set<nat>)
    requires Connected(g, s) && s <= t && s != {}
    requires forall y :: y in t && y !in s ==> exists x :: x in s && Related(g, x, y)
    ensures Connected(g, t)
  {
    hide Related;
    forall a | a < t && a != {}
      ensures Touch(g, a, t - a)
    {
      var rest := t - a;
      assert forall z :: z in a && z in s ==> z in a * s;
      if a * s == {} {
        var y :| y in a;
        assert y in t && y !in s;
        var x :| x in s && Related(g, x, y);
        RelatedSymmetric(g, x, y);
        assert x in rest;
      } else if s <= a {
        var y :| y in t && y !in a;
        var x :| x in s && Related(g, x, y);
        assert y in rest;
      } else {
        var b := a * s;
        assert b < s;
        assert Touch(g, b, s - b);
        var x, y :| x in b && y in s - b && Related(g, x, y);
        assert x in a && y in rest;
      }
    }
  }

  lemma RelatedSymmetric(g: Graph, x: nat, y: nat)
    ensures Related(g, x, y) <==> Related(g, y, x)
  {
  }

  // ---------------------------------------------------------------------------------------
  // Remapping

  function At(m: seq<nat>, i: nat): nat {
    if i < |m| then m[i] else 0
  }

  ghost predicate Injective(g: Graph, m: seq<nat>, posRange: nat) {
    && (forall i :: i in g.used ==> i < |m| && At(m, i) < posRange)
    && (forall i, j :: i in g.used && j in g.used && At(m, i) == At(m, j) ==> i == j)
  }

  ghost function Image(g: Graph, m: seq<nat>): set<nat> {
    set i | i in g.used :: At(m, i)
  }

  /** h is g with position i moved to m[i]. */
  ghost predicate Isomorphic(g: Graph, h: Graph, m: seq<nat>) {
    && h.used == Image(g, m)
    && (forall i :: i in g.used ==> Rate(h, At(m, i)) == Rate(g, i))
    && (forall i, a :: i in g.used && a in g.used ==> (At(m, a) in Anc(h, At(m, i)) <==> a in Anc(g, i)))
  }

  lemma InjectiveAt(g: Graph, m: seq<nat>, posRange: nat, i: nat)
    requires Injective(g, m, posRange) && i in g.used
    ensures i < |m| && At(m, i) == m[i] < posRange
  {
  }

  lemma InjectiveTwo(g: Graph, m: seq<nat>, posRange: nat, i: nat, j: nat)
    requires Injective(g, m, posRange) && i in g.used && j in g.used && At(m, i) == At(m, j)
    ensures i == j
  {
  }

  /** Positions below k are in place, unconnected. */
  ghost predicate Placed(g: Graph, h: Graph, m: seq<nat>, k: nat) {
    && h.used == (set i | i in g.used && i < k :: At(m, i))
    && (forall i :: i in g.used && i < k ==> At(m, i) < |h.entries| && h.entries[At(m, i)] == Lone(g, m, i))
  }

  ghost function Lone(g: Graph, m: seq<nat>, i: nat): Entry {
    Entry(Rate(g, i), {At(m, i)}, {At(m, i)})
  }

  lemma {:induction false} PlacedOne(g: Graph, h: Graph, h2: Graph, m: seq<nat>, posRange: nat, i: nat)
    requires Injective(g, m, posRange) && i in g.used && Placed(g, h, m, i) && At(m, i) < |h.entries|
    requires h2 == Graph(h.entries[At(m, i) := Lone(g, m, i)], h.used + {At(m, i)})
    ensures Placed(g, h2, m, i + 1)
  {
    hide Injective, Lone;
    forall j | j in g.used && j < i + 1
      ensures At(m, j) < |h2.entries| && h2.entries[At(m, j)] == Lone(g, m, j)
    {
      if At(m, j) == At(m, i) {
        InjectiveTwo(g, m, posRange, j, i);
      }
    }
  }

  /** Every dependency of h is one of g. */
  ghost predicate Embeds(g: Graph, h: Graph, m: seq<nat>) {
    && (forall i :: i in g.used ==> Rate(h, At(m, i)) == Rate(g, i))
    && (forall i, a :: i in g.used && a in g.used && At(m, a) in Anc(h, At(m, i)) ==> a in Anc(g, i))
  }

  /** The strict ancestors of i all come through some that h already knows. */
  ghost predicate CoveredAt(g: Graph, h: Graph, m: seq<nat>, i: nat) {
    forall a :: a in Anc(g, i) && a != i ==> ComesThrough(g, h, m, i, a)
  }

  ghost predicate ComesThrough(g: Graph, h: Graph, m: seq<nat>, i: nat, a: nat) {
    exists p :: p in Anc(g, i) && p != i && a in Anc(g, p) && At(m, p) in Anc(h, At(m, i))
  }

  ghost predicate CoveredBelow(g: Graph, h: Graph, m: seq<nat>, k: nat) {
    forall i :: i in g.used && i < k ==> CoveredAt(g, h, m, i)
  }

  lemma {:induction false} AllPlaced(g: Graph, h: Graph, m: seq<nat>, posRange: nat)
    requires WellFormed(g) && Injective(g, m, posRange) && Placed(g, h, m, |g.entries|)
    ensures WellFormed(h) && h.used == Image(g, m) && Embeds(g, h, m) && CoveredBelow(g, h, m, 0)
  {
    hide WellFormed, Injective;
    UsedInRange(g);
    assert h.used == Image(g, m);
    forall b | b in h.used
      ensures b < |h.entries| && Anc(h, b) == {b} && Desc(h, b) == {b}
    {
    }
    MakeWellFormed(h);
    forall i, a | i in g.used && a in g.used && At(m, a) in Anc(h, At(m, i))
      ensures a in Anc(g, i)
    {
      InjectiveTwo(g, m, posRange, i, a);
      SelfAncestor(g, i);
    }
  }

  lemma {:induction false} ParentsMapped(g: Graph, h: Graph, m: seq<nat>, i: nat, reduced: set<nat>, parents: set<nat>)
    requires WellFormed(g) && i in g.used && |m| == |g.entries| && IsReduced(g, i, reduced) && h.used == Image(g, m)
    requires parents == set k | k in reduced && k < |g.entries| && k < |m| :: m[k]
    ensures parents <= h.used && At(m, i) in h.used && i < |m|
    ensures parents == set k | k in reduced :: At(m, k)
  {
    hide WellFormed;
    SelfAncestor(g, i);
    forall k | k in reduced
      ensures k in g.used && k < |g.entries|
    {
      AncestorUsed(g, i, k);
      SelfAncestor(g, k);
    }
    assert forall k :: k in reduced ==> At(m, k) == m[k];
  }

  lemma {:induction false} EmbedsOne(g: Graph, h: Graph, h2: Graph, m: seq<nat>, posRange: nat, i: nat,
      reduced: set<nat>, parents: set<nat>)
    requires WellFormed(g) && WellFormed(h) && Injective(g, m, posRange) && i in g.used
    requires h.used == Image(g, m) && IsReduced(g, i, reduced) && parents == set k | k in reduced :: At(m, k)
    requires Embeds(g, h, m) && CoveredBelow(g, h, m, i)
    requires forall x :: x in h.used ==> Rate(h2, x) == Rate(h, x)
    requires forall x, b :: x in h.used ==> (b in Anc(h2, x) <==> GainsAncestor(h, parents, At(m, i), x, b))
    ensures Embeds(g, h2, m) && CoveredBelow(g, h2, m, i + 1)
  {
    hide WellFormed, Injective, GainsAncestor, CoveredAt, IsReduced;
    forall j, a | j in g.used && a in g.used && At(m, a) in Anc(h2, At(m, j))
      ensures a in Anc(g, j)
    {
      assert At(m, j) in h.used;
      StillEmbeds(g, h, m, i, reduced, parents, j, a);
    }
    forall j | j in g.used && j < i + 1
      ensures CoveredAt(g, h2, m, j)
    {
      assert At(m, j) in h.used;
      if j == i {
        NowCovered(g, h, h2, m, i, reduced, parents);
      } else {
        assert forall b :: b in Anc(h, At(m, j)) ==> GainsAncestor(h, parents, At(m, i), At(m, j), b) by {
          GainsOld(h, parents, At(m, i), At(m, j));
        }
        StillCovered(g, h, h2, m, j);
      }
    }
  }

  lemma GainsOld(h: Graph, parents: set<nat>, child: nat, x: nat)
    ensures forall b :: b in Anc(h, x) ==> GainsAncestor(h, parents, child, x, b)
  {
  }

  lemma {:induction false} NowCovered(g: Graph, h: Graph, h2: Graph, m: seq<nat>, i: nat, reduced: set<nat>,
      parents: set<nat>)
    requires WellFormed(g) && WellFormed(h) && i in g.used && h.used == Image(g, m)
    requires IsReduced(g, i, reduced) && parents == set k | k in reduced :: At(m, k)
    requires forall b :: b in Anc(h2, At(m, i)) <==> GainsAncestor(h, parents, At(m, i), At(m, i), b)
    ensures CoveredAt(g, h2, m, i)
  {
    hide WellFormed, GainsAncestor;
    forall a | a in Anc(g, i) && a != i
      ensures ComesThrough(g, h2, m, i, a)
    {
      var p :| p in reduced && a in Anc(g, p);
      ParentGained(g, h, m, i, reduced, parents, p);
    }
  }

  lemma {:induction false} StillCovered(g: Graph, h: Graph, h2: Graph, m: seq<nat>, j: nat)
    requires CoveredAt(g, h, m, j)
    requires forall b :: b in Anc(h, At(m, j)) ==> b in Anc(h2, At(m, j))
    ensures CoveredAt(g, h2, m, j)
  {
    forall a | a in Anc(g, j) && a != j
      ensures ComesThrough(g, h2, m, j, a)
    {
      assert ComesThrough(g, h, m, j, a);
    }
  }

  lemma {:induction false} ParentGained(g: Graph, h: Graph, m: seq<nat>, i: nat, reduced: set<nat>, parents: set<nat>,
      p: nat)
    requires WellFormed(g) && WellFormed(h) && i in g.used && h.used == Image(g, m)
    requires IsReduced(g, i, reduced) && parents == (set k | k in reduced :: At(m, k)) && p in reduced
    ensures GainsAncestor(h, parents, At(m, i), At(m, i), At(m, p))
  {
    hide WellFormed;
    AncestorUsed(g, i, p);
    SelfAncestor(h, At(m, i));
    SelfAncestor(h, At(m, p));
    assert At(m, p) in parents;
  }

  lemma {:induction false} StillEmbeds(g: Graph, h: Graph, m: seq<nat>, i: nat, reduced: set<nat>, parents: set<nat>,
      j: nat, a: nat)
    requires WellFormed(g) && i in g.used && j in g.used && a in g.used
    requires IsReduced(g, i, reduced) && parents == (set k | k in reduced :: At(m, k)) && Embeds(g, h, m)
    requires GainsAncestor(h, parents, At(m, i), At(m, j), At(m, a))
    ensures a in Anc(g, j)
  {
    hide WellFormed;
    if At(m, a) !in Anc(h, At(m, j)) {
      var q :| q in parents && At(m, a) in Anc(h, q);
      var p :| p in reduced && q == At(m, p);
      AncestorUsed(g, i, p);
      AncestorTransitive(g, i, p, a);
      AncestorTransitive(g, j, i, a);
    }
  }

  lemma {:induction false} CoveredIsomorphic(g: Graph, h: Graph, m: seq<nat>, posRange: nat)
    requires WellFormed(g) && WellFormed(h) && Acyclic(g) && Injective(g, m, posRange) && h.used == Image(g, m)
    requires Embeds(g, h, m) && CoveredBelow(g, h, m, |g.entries|)
    ensures Isomorphic(g, h, m)
  {
    hide WellFormed, Injective, Acyclic, CoveredBelow;
    forall i, a | i in g.used && a in g.used && a in Anc(g, i)
      ensures At(m, a) in Anc(h, At(m, i))
    {
      Reached(g, h, m, i, a);
    }
  }

  lemma {:induction false} Reached(g: Graph, h: Graph, m: seq<nat>, i: nat, a: nat)
    requires WellFormed(g) && WellFormed(h) && Acyclic(g) && h.used == Image(g, m)
    requires CoveredBelow(g, h, m, |g.entries|) && i in g.used && a in Anc(g, i)
    ensures At(m, a) in Anc(h, At(m, i))
    decreases |Anc(g, i)|
  {
    hide WellFormed, Acyclic;
    SelfAncestor(g, i);
    if a == i {
      SelfAncestor(h, At(m, i));
    } else {
      assert CoveredAt(g, h, m, i);
      assert ComesThrough(g, h, m, i, a);
      var p :| p in Anc(g, i) && p != i && a in Anc(g, p) && At(m, p) in Anc(h, At(m, i));
      AncestorUsed(g, i, p);
      FewerAncestors(g, i, p);
      Reached(g, h, m, p, a);
      AncestorTransitive(h, At(m, i), At(m, p), At(m, a));
    }
  }

  /** A strict ancestor has fewer ancestors. */
  lemma {:induction false} FewerAncestors(g: Graph, i: nat, p: nat)
    requires WellFormed(g) && Acyclic(g) && i in g.used && p in Anc(g, i) && p != i
    ensures |Anc(g, p)| < |Anc(g, i)| && i !in Anc(g, p)
  {
    hide WellFormed;
    SelfAncestor(g, i);
    AncestorUsed(g, i, p);
    forall a | a in Anc(g, p)
      ensures a in Anc(g, i)
    {
      AncestorTransitive(g, i, p, a);
    }
    assert Anc(g, p) < Anc(g, i);
    SmallerSet(Anc(g, p), Anc(g, i));
  }

  lemma {:induction false} SmallerSet(a: set<nat>, b: set<nat>)
    requires a < b
    ensures |a| < |b|
  {
    var rest := b - a;
    assert b == a + rest && a !! rest;
    assert |b| == |a| + |rest|;
  }
}
