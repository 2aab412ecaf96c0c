/** Merging two linearizations into one as good as both, and repairing one that is out of order
    (src/cluster_linearize.h:1321-1393). */
module Merging {
  import opened FeeFracs
  import opened Diagrams
  import opened Sequences
  import opened DepGraphs
  import opened Linearizations
  import opened Chunkings

  /** out is a linearization, so far, of everything but todo. */
  ghost predicate Built(g: Graph, out: seq<nat>, todo: set<nat>) {
    todo <= g.used && Orders(g, g.used - todo, out) && Closed(g, g.used, g.used - todo)
  }

  lemma {:induction false} BuiltMore(g: Graph, out: seq<nat>, todo: set<nat>, t: seq<nat>)
    requires WellFormed(g) && Acyclic(g) && Built(g, out, todo)
    requires ByAncestorCount(g, t) && Closed(g, todo, Elems(t))
    ensures Built(g, out + t, todo - Elems(t)) && Distinct(t)
  {
    hide WellFormed, Acyclic, Topo;
    ByCountDistinct(g, t);
    ByCountTopo(g, t);
    DistinctAppend(out, t);
    ElemsAppend(out, t);
    TopoAppend(g, out, t);
    forall x, y | x in out && y in t
      ensures y !in Anc(g, x)
    {
      assert x in Elems(out) && y in Elems(t);
    }
    assert g.used - (todo - Elems(t)) == (g.used - todo) + Elems(t);
  }

  lemma ByCountDistinct(g: Graph, t: seq<nat>)
    requires ByAncestorCount(g, t)
    ensures Distinct(t)
  {
  }

  /** What remains of an ordering after taking out a set. */
  lemma {:induction false} OrdersRest(g: Graph, todo: set<nat>, s: seq<nat>, t: set<nat>)
    requires Orders(g, todo, s)
    ensures Orders(g, todo - t, Without(s, t))
  {
    hide Topo;
    WithoutElems(s, t);
    TopoWithout(g, s, t);
  }

  lemma {:induction false} ClosedTogether(g: Graph, todo: set<nat>, a: set<nat>, b: set<nat>)
    requires Closed(g, todo, a) && Closed(g, todo, b)
    ensures Closed(g, todo, a * b)
  {
  }

  lemma {:induction false} FirstChunkClosed(g: Graph, todo: set<nat>, cs: seq<SetInfo>, s: seq<nat>)
    requires Orders(g, todo, s) && ChunkSets(g, cs, s) && cs != []
    ensures Closed(g, todo, cs[0].transactions) && cs[0].transactions != {} && Summed(g, cs[0])
  {
    hide Topo, IsPath, IsChunking, FeeRate, Closed, PathOf;
    FirstChunkIs(g, cs, s);
    var b := ChunkCuts(PathOf(g, s), |s|);
    assert SliceAt(g, cs[0], s, b, |s|, 0);
    PrefixClosed(g, todo, s, b[1]);
    assert s[0] in s[..b[1]];
  }

  lemma {:induction false} PrefixPartClosed(g: Graph, todo: set<nat>, r: set<nat>, subset: set<nat>, s: seq<nat>)
    requires Orders(g, todo, s) && Closed(g, todo, subset) && PrefixPart(r, subset, s)
    ensures Closed(g, todo, r)
  {
    hide Orders, Closed;
    var k :| 0 <= k <= |s| && r == subset * Elems(s[..k]);
    PrefixClosed(g, todo, s, k);
    ClosedTogether(g, todo, subset, Elems(s[..k]));
  }

  /** A part of the first chunk, of no lower feerate, never has a better start. */
  lemma {:induction false} FirstChunkPart(g: Graph, r: set<nat>, cs: seq<SetInfo>, s: seq<nat>)
    requires Distinct(s) && ChunkSets(g, cs, s) && cs != [] && r <= cs[0].transactions
    ensures NoBetterStart(g, r, s)
  {
    hide ChunkSets, FeeRate, Excess, NoBetterStart, Upto;
    forall j | 0 <= j <= |cs|
      ensures Excess(FeeRate(g, r * Upto(cs, j)), FeeRate(g, r)) <= 0
    {
      HigherIsExcess(FeeRate(g, r), FeeRate(g, r));
      if j == 0 {
        UptoStart(g, cs, cs[0]);
        assert r * Upto(cs, 0) == {};
        NoExcess(g, FeeRate(g, r));
      } else {
        UptoGrows(cs, 1, j);
        UptoOne(cs);
        assert r * Upto(cs, j) == r;
      }
    }
    MakeNoBetterStart(g, r, cs, s);
  }

  lemma UptoOne(cs: seq<SetInfo>)
    requires cs != []
    ensures Upto(cs, 1) == cs[0].transactions
  {
    assert Upto(cs, 0) == {};
  }

  /** The intersection of the better first chunk with the chunks of the other linearization can
      move to the front of both. */
  lemma {:induction false} MergeStep(g: Graph, todo: set<nat>, csA: seq<SetInfo>, a: seq<nat>, csB: seq<SetInfo>,
      b: seq<nat>, r: SetInfo)
    requires WellFormed(g) && Sized(g) && todo <= g.used && Orders(g, todo, a) && Orders(g, todo, b)
    requires ChunkSets(g, csA, a) && csA != [] && ChunkSets(g, csB, b) && csB != []
    requires !Higher(csB[0].feerate, csA[0].feerate)
    requires Summed(g, r) && r.transactions <= csA[0].transactions && r.transactions != {}
    requires PrefixPart(r.transactions, csA[0].transactions, b) && NoBetterStart(g, r.transactions, b)
    requires Excess(csA[0].feerate, r.feerate) <= 0
    ensures Closed(g, todo, r.transactions)
    ensures CanGather(g, a, r.transactions) && CanGather(g, b, r.transactions)
  {
    hide WellFormed, Sized, Topo, ChunkSets, Excess, Higher, FeeRate, PrefixPart, NoBetterStart, CanGather, Closed;
    FirstChunkClosed(g, todo, csA, a);
    PrefixPartClosed(g, todo, r.transactions, csA[0].transactions, b);
    InTodo(g, todo, csA[0].transactions);
    FirstChunkPart(g, r.transactions, csA, a);
    IntersectionGathers(g, r.transactions, csA, a);
    HigherIsExcess(csB[0].feerate, csA[0].feerate);
    FeePositive(g, csA[0].transactions);
    ExcessTransitive(csB[0].feerate, csA[0].feerate, r.feerate);
    IntersectionGathers(g, r.transactions, csB, b);
  }

  lemma InTodo(g: Graph, todo: set<nat>, c: set<nat>)
    requires Closed(g, todo, c)
    ensures c <= todo
  {
  }

  lemma {:induction false} Complete(g: Graph, out: seq<nat>, start: seq<nat>)
    requires WellFormed(g) && Sized(g) && Orders(g, g.used, out) && Orders(g, g.used, start)
    requires Dominates(PathOf(g, out), PathOf(g, start))
    ensures IsPath(PathOf(g, out)) && IsPath(PathOf(g, start)) && NoWorse(PathOf(g, out), PathOf(g, start))
  {
    hide WellFormed, Sized, Dominates, NoWorse, FeeRate, Topo, IsPath;
    PathOfIsPath(g, out);
    PathOfIsPath(g, start);
    PathAt(g, out, |out|, EMPTY);
    PathAt(g, start, |start|, EMPTY);
    assert out[..|out|] == out && start[..|start|] == start;
    DominatesNoWorse(PathOf(g, out), PathOf(g, start));
  }

  /** The state between two steps: what is out, what remains of one input, and that together
      they are no worse than that input was. */
  ghost predicate Improving(g: Graph, out: seq<nat>, rest: seq<nat>, todo: set<nat>, start: seq<nat>) {
    Orders(g, todo, rest) && Distinct(out + rest) && Dominates(PathOf(g, out + rest), PathOf(g, start))
  }

  lemma {:induction false} ImprovingMore(g: Graph, out: seq<nat>, rest: seq<nat>, todo: set<nat>, start: seq<nat>,
      t: seq<nat>)
    requires WellFormed(g) && Sized(g) && todo <= g.used && Improving(g, out, rest, todo, start)
    requires t != [] && Distinct(t) && Elems(t) <= todo && CanGather(g, rest, Elems(t))
    ensures Improving(g, out + t, Without(rest, Elems(t)), todo - Elems(t), start)
  {
    hide WellFormed, Sized, Dominates, FeeRate, Topo, CanGather, PathOf;
    GatherAfter(g, out, rest, t, start);
    OrdersRest(g, todo, rest, Elems(t));
  }

  lemma {:induction false} ImprovingStart(g: Graph, s: seq<nat>, todo: set<nat>)
    requires Orders(g, todo, s)
    ensures Improving(g, [], s, todo, s)
  {
    hide FeeRate, Excess, Topo;
    assert [] + s == s;
    var p := PathOf(g, s);
    forall rate: FeeFrac, k | rate.size > 0 && 0 <= k < |p|
      ensures Reaches(p, rate, Excess(p[k], rate))
    {
      assert Excess(p[k], rate) >= Excess(p[k], rate);
    }
  }

  lemma {:induction false} ImprovedAll(g: Graph, out: seq<nat>, rest: seq<nat>, start: seq<nat>)
    requires WellFormed(g) && Sized(g) && Built(g, out, {}) && Orders(g, g.used, start)
    requires Improving(g, out, rest, {}, start)
    ensures Orders(g, g.used, out)
    ensures IsPath(PathOf(g, out)) && IsPath(PathOf(g, start)) && NoWorse(PathOf(g, out), PathOf(g, start))
  {
    hide WellFormed, Sized, Dominates, NoWorse, FeeRate, Topo, IsPath, PathOf;
    DistinctSize(rest);
    assert out + rest == out;
    assert g.used - {} == g.used;
    Complete(g, out, start);
  }

  lemma {:induction false} NoneLeft(g: Graph, cs: seq<SetInfo>, s: seq<nat>)
    requires ChunkSets(g, cs, s)
    ensures cs == [] <==> Elems(s) == {}
  {
    if cs == [] {
      UptoAll(g, cs, s);
    } else {
      hide ChunkSets;
      UptoAll(g, cs, s);
      FirstNonEmpty(g, cs, s);
      UptoGrows(cs, 1, |cs|);
      UptoOne(cs);
    }
  }

  lemma {:induction false} FirstNonEmpty(g: Graph, cs: seq<SetInfo>, s: seq<nat>)
    requires ChunkSets(g, cs, s) && cs != []
    ensures cs[0].transactions != {}
  {
    hide IsPath, IsChunking, FeeRate, PathOf;
    var b := ChunkCuts(PathOf(g, s), |s|);
    assert SliceAt(g, cs[0], s, b, |s|, 0);
    CutAt(b, |s|, 0);
    assert s[..b[0]] == [] && s[0] in s[..b[1]];
    assert s[0] in cs[0].transactions;
  }

  lemma OrdersAre(g: Graph, todo: set<nat>, s: seq<nat>)
    requires Orders(g, todo, s)
    ensures Distinct(s) && Elems(s) == todo
  {
  }

  /** The part of the better first chunk that can go first in both linearizations. */
  method ChooseMerge(g: Graph, chunking1: LinearizationChunking, chunking2: LinearizationChunking, ghost out: seq<nat>,
      ghost todo: set<nat>, ghost lin1: seq<nat>, ghost lin2: seq<nat>)
      returns (best: SetInfo)
    requires WellFormed(g) && Sized(g) && todo != {} && todo <= g.used
    requires chunking1.Valid() && chunking1.g == g && chunking1.todo == todo
    requires Improving(g, out, chunking1.Rest(), todo, lin1)
    requires chunking2.Valid() && chunking2.g == g && chunking2.todo == todo
    requires Improving(g, out, chunking2.Rest(), todo, lin2)
    ensures Summed(g, best) && best.transactions != {} && Closed(g, todo, best.transactions)
    ensures CanGather(g, chunking1.Rest(), best.transactions) && CanGather(g, chunking2.Rest(), best.transactions)
  {
    hide WellFormed, Sized, Topo, ChunkSets, Excess, Higher, FeeRate, PrefixPart, NoBetterStart, CanGather, PathOf,
        Improving, Orders, Closed;
    ghost var rest1, rest2 := chunking1.Rest(), chunking2.Rest();
    ghost var cs1, cs2 := chunking1.chunks[chunking1.skip..], chunking2.chunks[chunking2.skip..];
    BothLeft(g, out, todo, cs1, rest1, lin1);
    BothLeft(g, out, todo, cs2, rest2, lin2);
    var first1, first2 := chunking1.GetChunk(0), chunking2.GetChunk(0);
    assert first1 == cs1[0] && first2 == cs2[0];
    if Higher(first2.feerate, first1.feerate) {
      best := chunking1.IntersectPrefixes(first2);
      HigherNotBoth(first1.feerate, first2.feerate);
      MergeStep(g, todo, cs2, rest2, cs1, rest1, best);
    } else {
      best := chunking2.IntersectPrefixes(first1);
      MergeStep(g, todo, cs1, rest1, cs2, rest2, best);
    }
  }

  method MergeLinearizations(depgraph: DepGraph, lin1: seq<nat>, lin2: seq<nat>) returns (ret: seq<nat>)
    requires depgraph.Valid() && Acyclic(depgraph.View()) && Sized(depgraph.View())
    requires Orders(depgraph.View(), depgraph.used, lin1) && Orders(depgraph.View(), depgraph.used, lin2)
    ensures Orders(depgraph.View(), depgraph.used, ret)
    ensures IsPath(PathOf(depgraph.View(), ret)) && IsPath(PathOf(depgraph.View(), lin1))
    ensures IsPath(PathOf(depgraph.View(), lin2))
    ensures NoWorse(PathOf(depgraph.View(), ret), PathOf(depgraph.View(), lin1))
    ensures NoWorse(PathOf(depgraph.View(), ret), PathOf(depgraph.View(), lin2))
  {
    hide WellFormed, Sized, Acyclic, Topo, ChunkSets, Excess, Higher, FeeRate, PrefixPart, NoBetterStart, CanGather,
        NoWorse, IsPath, PathOf, Improving, Built, Orders;
    var g := depgraph.View();
    OrdersAre(g, g.used, lin1);
    OrdersAre(g, g.used, lin2);
    var chunking1 := new LinearizationChunking(g, lin1);
    var chunking2 := new LinearizationChunking(g, lin2);
    ret := [];
    ghost var todo, rest1, rest2 := g.used, lin1, lin2;
    MergeStart(g, lin1, lin2);
    if g.used == {} {
      ImprovedAll(g, ret, rest1, lin1);
      ImprovedAll(g, ret, rest2, lin2);
      return;
    }
    while true
      invariant depgraph.View() == g && Built(g, ret, todo) && todo != {} && todo <= g.used
      invariant chunking1.Valid() && chunking1.g == g && chunking1.todo == todo && chunking1.Rest() == rest1
      invariant chunking2.Valid() && chunking2.g == g && chunking2.todo == todo && chunking2.Rest() == rest2
      invariant Improving(g, ret, rest1, todo, lin1) && Improving(g, ret, rest2, todo, lin2)
      decreases todo
    {
      var best := ChooseMerge(g, chunking1, chunking2, ret, todo, lin1, lin2);
      InTodo(g, todo, best.transactions);
      ghost var before := ret;
      ret := depgraph.AppendTopo(ret, best.transactions);
      ghost var t := ret[|before|..];
      assert ret == before + t;
      SomeElement(t);
      BuiltMore(g, before, todo, t);
      ImprovingMore(g, before, rest1, todo, lin1, t);
      ImprovingMore(g, before, rest2, todo, lin2, t);
      chunking1.MarkDone(best.transactions);
      rest1, rest2 := Without(rest1, best.transactions), Without(rest2, best.transactions);
      todo := todo - best.transactions;
      RestIs(g, before + t, rest1, todo, lin1);
      NoneLeft(g, chunking1.chunks[chunking1.skip..], rest1);
      if chunking1.NumChunksLeft() == 0 {
        break;
      }
      chunking2.MarkDone(best.transactions);
    }
    ImprovedAll(g, ret, rest1, lin1);
    ImprovedAll(g, ret, rest2, lin2);
  }

  lemma {:induction false} MergeStart(g: Graph, lin1: seq<nat>, lin2: seq<nat>)
    requires Orders(g, g.used, lin1) && Orders(g, g.used, lin2)
    ensures Built(g, [], g.used) && Improving(g, [], lin1, g.used, lin1) && Improving(g, [], lin2, g.used, lin2)
  {
    ImprovingStart(g, lin1, g.used);
    ImprovingStart(g, lin2, g.used);
  }

  lemma {:induction false} BothLeft(g: Graph, out: seq<nat>, todo: set<nat>, cs: seq<SetInfo>, rest: seq<nat>,
      start: seq<nat>)
    requires Improving(g, out, rest, todo, start) && ChunkSets(g, cs, rest) && todo != {}
    ensures cs != [] && Orders(g, todo, rest) && cs[0].transactions <= todo && cs[0].transactions != {}
    ensures Summed(g, cs[0])
  {
    hide ChunkSets, Topo;
    NoneLeft(g, cs, rest);
    FirstChunkClosed(g, todo, cs, rest);
  }

  lemma RestIs(g: Graph, out: seq<nat>, rest: seq<nat>, todo: set<nat>, start: seq<nat>)
    requires Improving(g, out, rest, todo, start)
    ensures Elems(rest) == todo
  {
  }

  lemma HigherNotBoth(a: FeeFrac, b: FeeFrac)
    ensures !(Higher(a, b) && Higher(b, a))
  {
  }

  lemma SomeElement(t: seq<nat>)
    ensures Elems(t) != {} ==> t != []
  {
  }

  // ---------------------------------------------------------------------------------------
  // Repairing a linearization

  /** Moves transactions back, past the ancestors that follow them. A linearization that is in
      order already stays as it is. */
  method FixLinearization(g: Graph, linearization: array<nat>)
    requires WellFormed(g) && Acyclic(g) && Distinct(linearization[..]) && Elems(linearization[..]) <= g.used
    modifies linearization
    ensures Orders(g, Elems(old(linearization[..])), linearization[..])
    ensures Topo(g, old(linearization[..])) ==> linearization[..] == old(linearization[..])
  {
    hide WellFormed, Acyclic, Topo, Elems, Distinct;
    var done: set<nat> := {};
    var len := linearization.Length;
    ghost var start := linearization[..];
    FixStart(g, start);
    for i := 0 to len
      invariant linearization[..len - i] == start[..len - i]
      invariant Fixed(g, start, linearization[len - i..], len - i) && done == Elems(start[len - i..])
    {
      var elem := linearization[len - 1 - i];
      ghost var tail := linearization[len - i..];
      FixBegin(g, start, tail, len - i, elem);
      ghost var pre := linearization[..len - 1 - i];
      assert linearization[..] == pre + [elem] + tail;
      ghost var m := MoveBack(g, linearization, i, done, start, pre, elem, tail);
      assert linearization[..len - 1 - i] == linearization[..][..len - 1 - i] == pre;
      assert linearization[len - 1 - i..] == linearization[..][len - 1 - i..] == tail[..m] + [elem] + tail[m..];
      FixEnd(g, start, tail, len - i, m, elem);
      done := done + {elem};
    }
    assert start[0..] == start && linearization[0..] == linearization[..];
  }

  /** Moves one transaction back, right behind the last of its ancestors among the i that follow it. */
  method MoveBack(g: Graph, linearization: array<nat>, i: nat, done: set<nat>, ghost start: seq<nat>,
      ghost pre: seq<nat>, elem: nat, ghost tail: seq<nat>)
      returns (ghost m: nat)
    requires linearization[..] == pre + [elem] + tail && |tail| == i && i < linearization.Length == |start|
    requires Fixed(g, start, tail, |start| - i) && done == Elems(start[|start| - i..])
    modifies linearization
    ensures m <= i && linearization[..] == pre + (tail[..m] + [elem] + tail[m..])
    ensures done * Anc(g, elem) - Elems(tail[..m]) == {} && (m > 0 ==> tail[m - 1] in Anc(g, elem))
  {
    hide Fixed, Elems;
    var len := linearization.Length;
    var j := i;
    var placeBefore := done * Anc(g, elem);
    NoElems(tail);
    ghost var x := elem;
    assert linearization[..] == pre + tail[..0] + [x] + tail[0..];
    while placeBefore != {}
      invariant 0 <= j <= i && placeBefore == done * Anc(g, elem) - Elems(tail[..i - j])
      invariant placeBefore == {} && j < i ==> tail[i - j - 1] in Anc(g, elem)
      invariant linearization[..] == pre + tail[..i - j] + [x] + tail[i - j..]
      decreases j
    {
      FixMore(g, start, tail, len - i, elem, i - j);
      var toSwap := linearization[len - 1 - (j - 1)];
      Slide(pre, tail, i - j, x);
      assert toSwap == linearization[..][len - j];
      placeBefore := placeBefore - {toSwap};
      Put(linearization, len - 1 - j, toSwap);
      x := toSwap;
      j := j - 1;
    }
    SetAt(pre, tail, i - j, x, elem);
    Put(linearization, len - 1 - j, elem);
    m := i - j;
  }

  method Put(a: array<nat>, i: nat, x: nat)
    requires i < a.Length
    modifies a
    ensures a[..] == old(a[..])[i := x]
  {
    a[i] := x;
  }

  /** The next element is copied into the place before it. */
  lemma Slide(pre: seq<nat>, tail: seq<nat>, k: nat, x: nat)
    requires k < |tail|
    ensures (pre + tail[..k] + [x] + tail[k..])[|pre| + k + 1] == tail[k]
    ensures (pre + tail[..k] + [x] + tail[k..])[|pre| + k := tail[k]] == pre + tail[..k + 1] + [tail[k]] + tail[k + 1..]
  {
  }

  lemma SetAt(pre: seq<nat>, tail: seq<nat>, k: nat, x: nat, y: nat)
    requires k <= |tail|
    ensures (pre + tail[..k] + [x] + tail[k..])[|pre| + k := y] == pre + (tail[..k] + [y] + tail[k..])
  {
  }

  lemma NoElems(tail: seq<nat>)
    ensures Elems(tail[..0]) == {}
  {
  }

  /** tail is a topological rearrangement of start from position k on. */
  ghost predicate Fixed(g: Graph, start: seq<nat>, tail: seq<nat>, k: nat)
    requires k <= |start|
  {
    && |tail| == |start| - k && Orders(g, Elems(start[k..]), tail)
    && (Topo(g, start[k..]) ==> tail == start[k..])
  }

  lemma FixStart(g: Graph, start: seq<nat>)
    ensures Fixed(g, start, start[|start|..], |start|) && Elems(start[|start|..]) == {}
  {
  }

  lemma {:induction false} FixBegin(g: Graph, start: seq<nat>, tail: seq<nat>, k: nat, elem: nat)
    requires 0 < k <= |start| && Fixed(g, start, tail, k) && start[k - 1] == elem && Distinct(start)
    ensures Elems(start[k..]) == Elems(tail) && Elems(tail[..0]) == {}
    ensures Elems(start[k - 1..]) == Elems(start[k..]) + {elem} && elem !in tail
    ensures Topo(g, start[k - 1..]) ==> Elems(start[k..]) * Anc(g, elem) == {}
  {
    hide Topo;
    assert start[k - 1..] == [elem] + start[k..];
    ElemsAppend([elem], start[k..]);
    assert start == start[..k - 1] + start[k - 1..];
    DistinctAppend(start[..k - 1], start[k - 1..]);
    DistinctAppend([elem], start[k..]);
    TopoAppend(g, [elem], start[k..]);
    assert elem !in Elems(tail);
  }

  lemma {:induction false} FixMore(g: Graph, start: seq<nat>, tail: seq<nat>, k: nat, elem: nat, m: nat)
    requires 0 < k <= |start| && Fixed(g, start, tail, k) && m <= |tail|
    requires Elems(start[k..]) * Anc(g, elem) - Elems(tail[..m]) != {}
    ensures m < |tail| && Elems(tail[..m + 1]) == Elems(tail[..m]) + {tail[m]}
    ensures Elems(start[k..]) * Anc(g, elem) - Elems(tail[..m]) - {tail[m]} == {} ==> tail[m] in Anc(g, elem)
  {
    hide Topo;
    assert tail[..|tail|] == tail;
    ElemsTake(tail, m);
  }

  lemma {:induction false} FixEnd(g: Graph, start: seq<nat>, tail: seq<nat>, k: nat, m: nat, elem: nat)
    requires WellFormed(g) && Acyclic(g) && Distinct(start) && Elems(start) <= g.used
    requires 0 < k <= |start| && Fixed(g, start, tail, k) && start[k - 1] == elem && m <= |tail|
    requires Elems(start[k..]) * Anc(g, elem) - Elems(tail[..m]) == {}
    requires m > 0 ==> tail[m - 1] in Anc(g, elem)
    ensures Fixed(g, start, tail[..m] + [elem] + tail[m..], k - 1)
  {
    hide WellFormed, Acyclic, Topo;
    FixBegin(g, start, tail, k, elem);
    var a, b := tail[..m], tail[m..];
    assert tail == a + b;
    assert elem in Elems(start);
    assert Elems(tail) <= g.used by {
      assert forall x :: x in start[k..] ==> x in start;
    }
    ElemsAppend(a, b);
    DistinctAppend(a, b);
    forall y | y in b
      ensures y !in Anc(g, elem)
    {
      assert y in Elems(b);
    }
    InsertedTopo(g, a, b, elem);
    ElemsAppend(a + [elem], b);
    ElemsAppend(a, [elem]);
    DistinctAppend(a, [elem]);
    DistinctAppend(a + [elem], b);
    assert m > 0 ==> tail[m - 1] in Elems(tail);
    if Topo(g, start[k - 1..]) {
      assert start[k - 1..] == [elem] + start[k..];
      TopoAppend(g, [elem], start[k..]);
    }
  }

  /** Placing x right after the last of its ancestors keeps the order topological. */
  lemma {:induction false} InsertedTopo(g: Graph, a: seq<nat>, b: seq<nat>, x: nat)
    requires WellFormed(g) && Acyclic(g) && Topo(g, a + b) && x in g.used && Elems(a + b) <= g.used && x !in a + b
    requires forall y :: y in b ==> y !in Anc(g, x)
    requires a != [] ==> a[|a| - 1] in Anc(g, x)
    ensures Topo(g, a + [x] + b)
  {
    hide WellFormed, Acyclic, Topo;
    TopoAppend(g, a, b);
    TopoAppend(g, a + [x], b);
    TopoAppend(g, a, [x]);
    TopoSingle(g, x);
    forall y | y in a
      ensures x !in Anc(g, y)
    {
      assert y in Elems(a + b);
      if x in Anc(g, y) {
        LastAncestor(g, a, x, y);
      }
    }
  }

  lemma TopoSingle(g: Graph, x: nat)
    ensures Topo(g, [x])
  {
  }

  lemma {:induction false} LastAncestor(g: Graph, a: seq<nat>, x: nat, y: nat)
    requires WellFormed(g) && Acyclic(g) && Topo(g, a) && a != [] && x in g.used && y in g.used && y in a && x !in a
    requires a[|a| - 1] in Anc(g, x)
    ensures x !in Anc(g, y)
  {
    hide WellFormed;
    var i :| 0 <= i < |a| && a[i] == y;
    if x in Anc(g, y) {
      AncestorTransitive(g, y, x, a[|a| - 1]);
    }
  }
}
