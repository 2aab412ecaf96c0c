/** Finding or improving a linearization (src/cluster_linearize.h:1024-1118). */
module Linearizing {
  import opened FeeFracs
  import opened Diagrams
  import opened Sequences
  import opened DepGraphs
  import opened Linearizations
  import opened Chunkings
  import opened AncestorFinding
  import opened SearchTheory
  import opened Searching
  import opened CandidateFinding
  import opened Merging

  /** No linearization of what remains can be better than one that starts with t. */
  lemma {:induction false} BestGathers(g: Graph, todo: set<nat>, t: set<nat>, s: seq<nat>)
    requires WellFormed(g) && Sized(g) && todo <= g.used && Candidate(g, todo, t) && Orders(g, todo, s)
    requires !Beatable(g, todo, FeeRate(g, t))
    ensures CanGather(g, s, t)
  {
    hide WellFormed, Sized, FeeRate, Excess, Gain, Orders;
    forall rate: FeeFrac, k | rate.size > 0 && 0 <= k <= |s|
      ensures BeatenByGood(g, s, t, rate, k)
    {
      var p := Elems(s[..k]);
      PrefixClosed(g, todo, s, k);
      ClosedTogether(g, todo, t, p);
      NoneBeats(g, todo, FeeRate(g, t), p);
      NoneBeats(g, todo, FeeRate(g, t), t * p);
      assert GoodFor(g, t, p);
    }
  }

  lemma {:induction false} NoneBeats(g: Graph, todo: set<nat>, best: FeeFrac, c: set<nat>)
    requires Closed(g, todo, c) && !Beatable(g, todo, best)
    ensures Excess(FeeRate(g, c), best) <= 0
  {
    hide FeeRate, Excess;
    if c == {} {
      NoExcess(g, best);
    } else {
      assert Candidate(g, todo, c);
    }
  }

  /** What is out so far is, for every linearization, no worse than its own start. */
  ghost predicate BestSoFar(g: Graph, out: seq<nat>, todo: set<nat>) {
    forall s :: Orders(g, g.used, s) ==> Improving(g, out, Without(s, g.used - todo), todo, s)
  }

  lemma {:induction false} BestStart(g: Graph)
    ensures BestSoFar(g, [], g.used)
  {
    hide Orders, Improving;
    forall s | Orders(g, g.used, s)
      ensures Improving(g, [], Without(s, g.used - g.used), g.used, s)
    {
      WithoutNothing(s, g.used - g.used);
      ImprovingStart(g, s, g.used);
    }
  }

  lemma {:induction false} BestMore(g: Graph, out: seq<nat>, todo: set<nat>, t: seq<nat>)
    requires WellFormed(g) && Sized(g) && todo <= g.used && BestSoFar(g, out, todo)
    requires t != [] && Distinct(t) && Candidate(g, todo, Elems(t)) && !Beatable(g, todo, FeeRate(g, Elems(t)))
    ensures BestSoFar(g, out + t, todo - Elems(t))
  {
    hide WellFormed, Sized, FeeRate, Improving, Beatable, Without, CanGather, Orders;
    forall s | Orders(g, g.used, s)
      ensures Improving(g, out + t, Without(s, g.used - (todo - Elems(t))), todo - Elems(t), s)
    {
      var rest := Without(s, g.used - todo);
      ImprovingOrders(g, out, rest, todo, s);
      BestGathers(g, todo, Elems(t), rest);
      ImprovingMore(g, out, rest, todo, s, t);
      OrdersAre(g, g.used, s);
      assert g.used - (todo - Elems(t)) == (g.used - todo) + Elems(t);
      WithoutTwice(s, g.used - todo, Elems(t));
    }
  }

  lemma ImprovingOrders(g: Graph, out: seq<nat>, rest: seq<nat>, todo: set<nat>, start: seq<nat>)
    requires Improving(g, out, rest, todo, start)
    ensures Orders(g, todo, rest)
  {
  }

  lemma {:induction false} BestAll(g: Graph, out: seq<nat>)
    requires WellFormed(g) && Sized(g) && Built(g, out, {}) && BestSoFar(g, out, {})
    ensures Unbeatable(g, out)
  {
    hide WellFormed, Sized, Improving, Orders, Without, NoWorse, IsPath, PathOf, Built;
    forall s | Orders(g, g.used, s)
      ensures IsPath(PathOf(g, out)) && IsPath(PathOf(g, s)) && NoWorse(PathOf(g, out), PathOf(g, s))
    {
      ImprovedAll(g, out, Without(s, g.used - {}), s);
    }
  }

  /** Its diagram is nowhere below that of any linearization. */
  ghost predicate Unbeatable(g: Graph, out: seq<nat>) {
    forall s :: Orders(g, g.used, s) ==>
      IsPath(PathOf(g, out)) && IsPath(PathOf(g, s)) && NoWorse(PathOf(g, out), PathOf(g, s))
  }

  /** What remains of the old linearization, if there is one. */
  ghost predicate OldState(g: Graph, out: seq<nat>, todo: set<nat>, start: seq<nat>, rest: seq<nat>) {
    if start == [] then rest == [] else Improving(g, out, rest, todo, start)
  }

  lemma {:induction false} OldMore(g: Graph, out: seq<nat>, todo: set<nat>, start: seq<nat>, rest: seq<nat>,
      t: seq<nat>)
    requires WellFormed(g) && Sized(g) && todo <= g.used && OldState(g, out, todo, start, rest)
    requires t != [] && Distinct(t) && Elems(t) <= todo && (start != [] ==> CanGather(g, rest, Elems(t)))
    ensures OldState(g, out + t, todo - Elems(t), start, Without(rest, Elems(t)))
  {
    hide WellFormed, Sized, Improving, CanGather;
    if start != [] {
      ImprovingMore(g, out, rest, todo, start, t);
    }
  }

  /** The intersection step keeps the set closed and makes it safe to output. */
  lemma {:induction false} Intersected(g: Graph, todo: set<nat>, cs: seq<SetInfo>, rest: seq<nat>, best: SetInfo,
      r: SetInfo)
    requires WellFormed(g) && Sized(g) && todo <= g.used && Orders(g, todo, rest) && ChunkSets(g, cs, rest) && cs != []
    requires Candidate(g, todo, best.transactions) && Summed(g, best) && !Better(cs[0].feerate, best.feerate)
    requires Summed(g, r) && r.transactions <= best.transactions && r.transactions != {}
    requires PrefixPart(r.transactions, best.transactions, rest) && NoBetterStart(g, r.transactions, rest)
    requires Excess(best.feerate, r.feerate) <= 0
    ensures Candidate(g, todo, r.transactions) && CanGather(g, rest, r.transactions)
  {
    hide WellFormed, Sized, Excess, Better, FeeRate, ChunkSets, NoBetterStart, PrefixPart, CanGather, Closed, Topo;
    PrefixPartClosed(g, todo, r.transactions, best.transactions, rest);
    InTodo(g, todo, best.transactions);
    BetterIs(cs[0].feerate, best.feerate);
    FeePositive(g, best.transactions);
    ExcessTransitive(cs[0].feerate, best.feerate, r.feerate);
    IntersectionGathers(g, r.transactions, cs, rest);
  }

  /** best is a candidate, and no worse than the first of the chunks, if there are any. */
  ghost predicate GoodStart(g: Graph, todo: set<nat>, cs: seq<SetInfo>, best: SetInfo) {
    && Candidate(g, todo, best.transactions) && Summed(g, best)
    && (cs != [] ==> !Better(cs[0].feerate, best.feerate))
  }

  lemma {:induction false} NotWorseThan(g: Graph, todo: set<nat>, cs: seq<SetInfo>, best: SetInfo, r: SetInfo,
      rest: seq<nat>)
    requires WellFormed(g) && Sized(g) && todo <= g.used && GoodStart(g, todo, cs, best)
    requires cs != [] ==> Orders(g, todo, rest) && ChunkSets(g, cs, rest)
    requires Candidate(g, todo, r.transactions) && Summed(g, r) && !Better(best.feerate, r.feerate)
    ensures GoodStart(g, todo, cs, r)
  {
    hide WellFormed, Sized, Better, FeeRate, ChunkSets, Closed, Orders;
    if cs != [] {
      FirstChunkClosed(g, todo, cs, rest);
      InTodo(g, todo, cs[0].transactions);
      InTodo(g, todo, best.transactions);
      InTodo(g, todo, r.transactions);
      FeePositive(g, cs[0].transactions);
      FeePositive(g, best.transactions);
      FeePositive(g, r.transactions);
      NotBetterTransitive(cs[0].feerate, best.feerate, r.feerate);
    }
  }

  lemma {:induction false} PrefixIsGood(g: Graph, todo: set<nat>, cs: seq<SetInfo>, rest: seq<nat>, best: SetInfo)
    requires WellFormed(g) && Sized(g) && todo <= g.used && Orders(g, todo, rest) && ChunkSets(g, cs, rest) && cs != []
    requires Candidate(g, todo, best.transactions) && Summed(g, best)
    ensures !cs[0].feerate.IsEmpty()
    ensures if !Better(best.feerate, cs[0].feerate) then GoodStart(g, todo, cs, cs[0]) else GoodStart(g, todo, cs, best)
  {
    hide WellFormed, Sized, Better, FeeRate, ChunkSets, Closed, Orders;
    FirstChunkClosed(g, todo, cs, rest);
    InTodo(g, todo, cs[0].transactions);
    FeePositive(g, cs[0].transactions);
    NotBoth(cs[0].feerate, best.feerate);
    NotBetterThanSelf(cs[0].feerate);
  }

  /** Chooses the next set to output, spending some of the iterations that are left. The choice
      is always safe for what remains of the old linearization; exact says that no candidate has
      a higher feerate. */
  method ChooseSet(ancFinder: AncestorCandidateFinder, srcFinder: SearchCandidateFinder?,
      oldChunking: LinearizationChunking, iterations: nat)
      returns (best: SetInfo, left: nat, exact: bool)
    requires ancFinder.Valid() && ancFinder.todo != {}
    requires srcFinder != null ==>
        srcFinder.Valid() && srcFinder.g == ancFinder.g && srcFinder.originalTodo == ancFinder.todo
    requires oldChunking.Valid() && oldChunking.g == ancFinder.g
    requires oldChunking.NumChunksLeft() > 0 ==> Orders(ancFinder.g, ancFinder.todo, oldChunking.Rest())
    ensures Candidate(ancFinder.g, ancFinder.todo, best.transactions) && Summed(ancFinder.g, best)
    ensures oldChunking.NumChunksLeft() > 0 ==> CanGather(ancFinder.g, oldChunking.Rest(), best.transactions)
    ensures exact ==> !Beatable(ancFinder.g, ancFinder.todo, best.feerate)
    ensures left <= iterations
  {
    hide WellFormed, Acyclic, Sized, Orders, ChunkSets, Summed, Excess, Better, FeeRate, Beatable, CanGather,
         GoodStart, Without, Closed, Renumbered, Setting, Mapped, PrefixPart, NoBetterStart, Topo, Distinct, Elems;
    ghost var g, todo, rest, cs := ancFinder.g, ancFinder.todo, oldChunking.Rest(),
        oldChunking.chunks[oldChunking.skip..];
    left := iterations;
    best := ancFinder.FindCandidateSet();
    if oldChunking.NumChunksLeft() > 0 {
      var bestPrefix := oldChunking.GetChunk(0);
      assert bestPrefix == cs[0];
      OrdersSubset(g, todo, rest, best.transactions);
      PrefixIsGood(g, todo, cs, rest, best);
      if !bestPrefix.feerate.IsEmpty() && !Better(best.feerate, bestPrefix.feerate) {
        best := bestPrefix;
      }
    } else {
      AnyIsGood(g, todo, cs, best);
    }
    GoodIs(g, todo, cs, best);
    var doneNow, maxNow := 0, 0;
    if srcFinder != null {
      var baseIterations := (|ancFinder.todo| + 3) / 4;
      if left > baseIterations {
        left := left - baseIterations;
        maxNow := (left + 1) / 2;
        ghost var before := best;
        best, doneNow := srcFinder.FindCandidateSet(maxNow, best);
        NotWorseThan(g, todo, cs, before, best, rest);
        GoodIs(g, todo, cs, best);
        left := left - doneNow;
      }
    }
    exact := doneNow != maxNow;
    if exact {
      if cs != [] {
        SumIs(g, best);
        BestGathers(g, todo, best.transactions, rest);
      }
    } else if oldChunking.NumChunksLeft() > 0 {
      ghost var before := best;
      InTodo(g, todo, best.transactions);
      OrdersAre(g, todo, rest);
      RestElems(oldChunking.lin, g.used, oldChunking.todo);
      best := oldChunking.IntersectPrefixes(best);
      Intersected(g, todo, cs, rest, before, best);
    }
  }

  lemma OrdersSubset(g: Graph, todo: set<nat>, rest: seq<nat>, c: set<nat>)
    requires Orders(g, todo, rest) && Closed(g, todo, c)
    ensures c <= todo
  {
  }

  lemma AnyIsGood(g: Graph, todo: set<nat>, cs: seq<SetInfo>, best: SetInfo)
    requires cs == [] && Candidate(g, todo, best.transactions) && Summed(g, best)
    ensures GoodStart(g, todo, cs, best)
  {
  }

  lemma GoodIs(g: Graph, todo: set<nat>, cs: seq<SetInfo>, best: SetInfo)
    requires GoodStart(g, todo, cs, best)
    ensures Candidate(g, todo, best.transactions) && Summed(g, best)
    ensures (cs != [] ==> !Better(cs[0].feerate, best.feerate))
  {
  }

  lemma SumIs(g: Graph, info: SetInfo)
    requires Summed(g, info)
    ensures info.feerate == FeeRate(g, info.transactions)
  {
  }

  method Linearize(depgraph: DepGraph, maxIterations: nat, oldLinearization: seq<nat>)
      returns (linearization: seq<nat>, optimal: bool, iterations: nat)
    requires depgraph.Valid() && Acyclic(depgraph.View()) && Sized(depgraph.View())
    requires oldLinearization == [] || Orders(depgraph.View(), depgraph.used, oldLinearization)
    ensures Orders(depgraph.View(), depgraph.used, linearization)
    ensures oldLinearization != [] ==> NoWorseThanOld(depgraph.View(), linearization, oldLinearization)
    ensures optimal ==> Unbeatable(depgraph.View(), linearization)
    ensures iterations <= maxIterations
  {
    hide WellFormed, Acyclic, Sized, Orders, Built, BestSoFar, OldState, Unbeatable, NoWorseThanOld,
         ChunkSets, Candidate, Summed, Excess, FeeRate, Beatable, CanGather, Without, Renumbered, Setting, Mapped,
             Elems, Distinct,
         AncestorCandidateFinder.Valid, SearchCandidateFinder.Valid;
    var g := depgraph.View();
    linearization, optimal := [], true;
    LinearizeStart(g, oldLinearization);
    if g.used == {} {
      Finished(g, linearization, oldLinearization, oldLinearization);
      BestAll(g, linearization);
      return linearization, true, 0;
    }
    var left: nat := maxIterations;
    var ancFinder := new AncestorCandidateFinder(g);
    var srcFinder: SearchCandidateFinder? := null;
    var startIterations := (|g.used| * |g.used| + 63) / 64;
    if left > startIterations {
      left := left - startIterations;
      srcFinder := new SearchCandidateFinder(depgraph);
    }
    var oldChunking := new LinearizationChunking(g, oldLinearization);
    ghost var todo, rest := g.used, oldLinearization;
    while true
      invariant depgraph.Valid() && depgraph.View() == g && todo != {} && todo <= g.used
      invariant Built(g, linearization, todo)
      invariant ancFinder.Valid() && ancFinder.g == g && ancFinder.todo == todo
      invariant srcFinder != null ==>
          srcFinder.Valid() && srcFinder.g == g && srcFinder.originalTodo == todo && fresh(srcFinder.sorted)
      invariant oldChunking.Valid() && oldChunking.g == g && oldChunking.Rest() == rest
      invariant OldState(g, linearization, todo, oldLinearization, rest)
      invariant oldChunking.todo == if oldLinearization == [] then {} else todo
      invariant optimal ==> BestSoFar(g, linearization, todo)
      invariant left <= maxIterations
      decreases todo
    {
      OldIs(g, linearization, todo, oldLinearization, rest, oldChunking.chunks[oldChunking.skip..]);
      var best, exact;
      best, left, exact := ChooseSet(ancFinder, srcFinder, oldChunking, left);
      if !exact {
        optimal := false;
      }
      CandidateIs(g, todo, best);
      ghost var before := linearization;
      linearization := depgraph.AppendTopo(linearization, best.transactions);
      ghost var t := linearization[|before|..];
      assert linearization == before + t;
      OneStep(g, before, todo, oldLinearization, rest, best, t, optimal);
      ancFinder.MarkDone(best.transactions);
      todo, rest := todo - best.transactions, Without(rest, best.transactions);
      if ancFinder.todo == {} {
        break;
      }
      if srcFinder != null {
        srcFinder.MarkDone(best.transactions);
      }
      if oldChunking.NumChunksLeft() > 0 {
        oldChunking.MarkDone(best.transactions);
      } else {
        WithoutNothing(oldLinearization, best.transactions);
      }
    }
    Finished(g, linearization, oldLinearization, rest);
    if optimal {
      BestAll(g, linearization);
    }
    iterations := maxIterations - left;
  }

  ghost predicate NoWorseThanOld(g: Graph, out: seq<nat>, start: seq<nat>) {
    IsPath(PathOf(g, out)) && IsPath(PathOf(g, start)) && NoWorse(PathOf(g, out), PathOf(g, start))
  }

  lemma {:induction false} LinearizeStart(g: Graph, start: seq<nat>)
    requires start == [] || Orders(g, g.used, start)
    ensures Built(g, [], g.used) && BestSoFar(g, [], g.used) && OldState(g, [], g.used, start, start)
    ensures Distinct(start) && Elems(start) == (if start == [] then {} else g.used)
  {
    hide Improving;
    BestStart(g);
    if start != [] {
      ImprovingStart(g, start, g.used);
    }
  }

  lemma {:induction false} Finished(g: Graph, out: seq<nat>, start: seq<nat>, rest: seq<nat>)
    requires WellFormed(g) && Sized(g) && Built(g, out, {}) && OldState(g, out, {}, start, rest)
    requires start == [] || Orders(g, g.used, start)
    ensures Orders(g, g.used, out)
    ensures start != [] ==> NoWorseThanOld(g, out, start)
  {
    hide WellFormed, Sized, Improving, Topo, PathOf, IsPath, NoWorse;
    assert g.used - {} == g.used;
    if start != [] {
      ImprovedAll(g, out, rest, start);
    }
  }

  lemma {:induction false} OldIs(g: Graph, out: seq<nat>, todo: set<nat>, start: seq<nat>, rest: seq<nat>,
      cs: seq<SetInfo>)
    requires OldState(g, out, todo, start, rest) && ChunkSets(g, cs, rest) && todo != {}
    ensures cs == [] <==> start == []
    ensures start == [] ==> rest == []
    ensures cs != [] ==> Orders(g, todo, rest)
  {
    hide Topo, ChunkSets;
    NoneLeft(g, cs, rest);
  }

  lemma CandidateIs(g: Graph, todo: set<nat>, best: SetInfo)
    requires Candidate(g, todo, best.transactions)
    ensures best.transactions <= todo && best.transactions != {}
  {
  }

  lemma {:induction false} OneStep(g: Graph, out: seq<nat>, todo: set<nat>, start: seq<nat>, rest: seq<nat>,
      best: SetInfo, t: seq<nat>, optimal: bool)
    requires WellFormed(g) && Acyclic(g) && Sized(g) && todo <= g.used && Built(g, out, todo)
    requires OldState(g, out, todo, start, rest) && (optimal ==> BestSoFar(g, out, todo))
    requires ByAncestorCount(g, t) && Elems(t) == best.transactions && Candidate(g, todo, best.transactions)
    requires Summed(g, best)
    requires start != [] ==> CanGather(g, rest, best.transactions)
    requires optimal ==> !Beatable(g, todo, best.feerate)
    ensures Built(g, out + t, todo - best.transactions)
    ensures OldState(g, out + t, todo - best.transactions, start, Without(rest, best.transactions))
    ensures optimal ==> BestSoFar(g, out + t, todo - best.transactions)
  {
    hide WellFormed, Acyclic, Sized, Built, OldState, BestSoFar, FeeRate, CanGather, Beatable, Without, ByAncestorCount;
    SomeElement(t);
    BuiltMore(g, out, todo, t);
    OldMore(g, out, todo, start, rest, t);
    if optimal {
      BestMore(g, out, todo, t);
    }
  }
}
