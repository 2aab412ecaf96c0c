/** The search for the best closed set: work items, their expansion, and the queue discipline
    (src/cluster_linearize.h:740-1009). One object holds what the source's lambdas share. */
module Searching {
  import opened FeeFracs
  import opened Sequences
  import opened DepGraphs
  import opened Linearizations
  import opened Chunkings
  import opened SearchTheory

  // ---------------------------------------------------------------------------------------
  // Work items

  /** inc is decided, und is open, and both together are closed. */
  ghost predicate Partial(g: Graph, todo: set<nat>, inc: SetInfo, und: set<nat>) {
    && inc.transactions + und <= todo && inc.transactions !! und
    && Closed(g, todo, inc.transactions) && Closed(g, todo, inc.transactions + und)
    && Summed(g, inc)
  }

  ghost predicate ItemFits(item: WorkItem, c: set<nat>) {
    Fits(item.inc.transactions, item.und, c)
  }

  /** No set that fits beats both the potential of the item and best. */
  ghost predicate Bounded(g: Graph, item: WorkItem, best: FeeFrac) {
    forall c :: ItemFits(item, c) ==> Excess(FeeRate(g, c), item.potFeerate) <= 0 || Excess(FeeRate(g, c), best) <= 0
  }

  ghost predicate ItemOk(g: Graph, todo: set<nat>, best: FeeFrac, item: WorkItem) {
    && Partial(g, todo, item.inc, item.und) && item.und != {}
    && (item.potFeerate.IsEmpty() <==> item.inc.transactions == {})
    && (item.inc.transactions != {} ==> Excess(item.inc.feerate, best) <= 0 && Bounded(g, item, best))
  }

  ghost predicate AllOk(g: Graph, todo: set<nat>, best: FeeFrac, queue: seq<WorkItem>) {
    forall q :: q in queue ==> ItemOk(g, todo, best, q)
  }

  /** Position and number of undecided transactions together stay within the capacity. */
  ghost predicate Roomy(queue: seq<WorkItem>, capacity: nat) {
    forall i :: 0 <= i < |queue| ==> i + |queue[i].und| <= capacity
  }

  /** As long as anything beats best, the queue leads to an optimum. */
  ghost predicate Covered(g: Graph, todo: set<nat>, best: FeeFrac, queue: seq<WorkItem>) {
    Beatable(g, todo, best) ==> exists q, c :: q in queue && Optimum(g, todo, c) && ItemFits(q, c)
  }

  ghost predicate Beatable(g: Graph, todo: set<nat>, best: FeeFrac) {
    exists c :: Candidate(g, todo, c) && Excess(FeeRate(g, c), best) > 0
  }

  /** An optimum that fits the given parts, and is still to be found. */
  ghost predicate Sought(g: Graph, todo: set<nat>, best: FeeFrac, inc: set<nat>, und: set<nat>, c: set<nat>) {
    Optimum(g, todo, c) && Fits(inc, und, c) && Excess(FeeRate(g, c), best) > 0
  }

  lemma {:induction false} EmptyIsEmpty(g: Graph, todo: set<nat>, info: SetInfo)
    requires Setting(g, todo) && info.transactions <= todo && Summed(g, info)
    ensures info.feerate.IsEmpty() <==> info.transactions == {}
  {
    hide Setting, FeeRate;
    SettingIs(g, todo);
    if info.transactions == {} {
      FeeNone(g);
    } else {
      FeePositive(g, info.transactions);
    }
  }

  lemma {:induction false} AllOkLater(g: Graph, todo: set<nat>, best: FeeFrac, best': FeeFrac, queue: seq<WorkItem>)
    requires AllOk(g, todo, best, queue) && best.size > 0 && Excess(best, best') <= 0
    ensures AllOk(g, todo, best', queue)
  {
    hide Excess, FeeRate, Partial;
    forall q | q in queue
      ensures ItemOk(g, todo, best', q)
    {
      if q.inc.transactions != {} {
        ExcessTransitive(q.inc.feerate, best, best');
        forall c | ItemFits(q, c)
          ensures Excess(FeeRate(g, c), q.potFeerate) <= 0 || Excess(FeeRate(g, c), best') <= 0
        {
          ExcessTransitive(FeeRate(g, c), best, best');
        }
      }
    }
  }

  /** 3 to the number of undecided transactions, summed over the queue. */
  ghost function Measure(queue: seq<WorkItem>): nat {
    if queue == [] then 0 else Measure(queue[..|queue| - 1]) + Power3(|queue[|queue| - 1].und|)
  }

  ghost function Power3(n: nat): nat
  {
    if n == 0 then 1 else 3 * Power3(n - 1)
  }

  lemma {:induction false} Power3Grows(m: nat, n: nat)
    requires m <= n
    ensures 1 <= Power3(m) <= Power3(n)
  {
    if m < n {
      Power3Grows(m, n - 1);
    } else if m > 0 {
      Power3Grows(m - 1, m - 1);
    }
  }

  lemma {:induction false} MeasureConcat(a: seq<WorkItem>, b: seq<WorkItem>)
    ensures Measure(a + b) == Measure(a) + Measure(b)
  {
    if b == [] {
      assert a + b == a;
    } else {
      MeasureConcat(a, b[..|b| - 1]);
      assert (a + b)[..|a + b| - 1] == a + b[..|b| - 1];
    }
  }

  lemma MeasureOne(q: WorkItem)
    ensures Measure([q]) == Power3(|q.und|)
  {
    assert [q][..0] == [];
  }

  function Last(s: set<nat>): (x: nat)
    requires s != {}
    ensures x in s && forall y :: y in s ==> y <= x
  {
    GreatestExists(s);
    var x :| x in s && forall y :: y in s ==> y <= x;
    x
  }

  lemma {:induction false} GreatestExists(s: set<nat>)
    requires s != {}
    ensures exists x :: x in s && forall y :: y in s ==> y <= x
    decreases s
  {
    var z :| z in s;
    if s != {z} {
      GreatestExists(s - {z});
      var x :| x in s - {z} && forall y :: y in s - {z} ==> y <= x;
      var greatest := if z > x then z else x;
      assert forall y :: y in s ==> y == z || y in s - {z};
      assert greatest in s && forall y :: y in s ==> y <= greatest;
    }
  }

  /** imp contains all improvers, and whatever ranks before one of its members. */
  ghost predicate ImproversOrMore(g: Graph, todo: set<nat>, imp: set<nat>, best: FeeFrac) {
    && imp <= todo
    && (forall t :: t in todo && Excess(Rate(g, t), best) > 0 ==> t in imp)
    && (forall s, t :: t in imp && s in todo && s < t ==> s in imp)
  }

  lemma {:induction false} TrimOne(g: Graph, todo: set<nat>, imp: set<nat>, best: FeeFrac)
    requires Setting(g, todo) && ImproversOrMore(g, todo, imp, best) && imp != {}
    ensures Higher(Rate(g, Last(imp)), best) ==> Improvers(g, todo, imp, best)
    ensures !Higher(Rate(g, Last(imp)), best) ==> ImproversOrMore(g, todo, imp - {Last(imp)}, best)
  {
    hide Setting, Excess, Rate, Higher;
    var last := Last(imp);
    HigherIsExcess(Rate(g, last), best);
    if Higher(Rate(g, last), best) {
      forall t | t in imp
        ensures Excess(Rate(g, t), best) > 0
      {
        Sorted(g, todo, t, last);
        HigherIsExcess(Rate(g, last), Rate(g, t));
        ExcessTransitive(Rate(g, t), Rate(g, last), best);
      }
    }
  }

  lemma {:induction false} ImproversShrink(g: Graph, todo: set<nat>, imp: set<nat>, best: FeeFrac, best': FeeFrac)
    requires Setting(g, todo) && Improvers(g, todo, imp, best) && best.size > 0 && best'.size > 0
    requires Excess(best, best') <= 0
    ensures ImproversOrMore(g, todo, imp, best')
  {
    hide Setting, Excess, Rate;
    HigherIsExcess(best, best');
    forall t | t in todo && Excess(Rate(g, t), best') > 0
      ensures t in imp
    {
      ExcessTransitive(Rate(g, t), best', best);
    }
    forall s, t | t in imp && s in todo && s < t
      ensures s in imp
    {
      Sorted(g, todo, s, t);
      HigherIsExcess(Rate(g, t), Rate(g, s));
      ExcessTransitive(Rate(g, s), Rate(g, t), best);
    }
  }

  // ---------------------------------------------------------------------------------------
  // The search

  class Search {
    const g: Graph
    const todo: set<nat>
    const capacity: nat
    var queue: seq<WorkItem>
    var best: SetInfo
    var imp: set<nat>
    var left: nat

    ghost predicate Valid()
      reads this
    {
      && Setting(g, todo) && |todo| < capacity
      && Candidate(g, todo, best.transactions) && Summed(g, best) && best.feerate.size > 0
      && Improvers(g, todo, imp, best.feerate)
      && AllOk(g, todo, best.feerate, queue) && Roomy(queue, capacity)
    }

    /** Sets up the search: one item per connected component of todo. Without a set to start
        from, best is the first component. */
    constructor (depgraph: DepGraph, todo: set<nat>, start: SetInfo, maxIterations: nat)
      requires depgraph.Valid() && Setting(depgraph.View(), todo) && todo != {}
      requires start == SetInfo({}, EMPTY)
          || (Candidate(depgraph.View(), todo, start.transactions) && Summed(depgraph.View(), start))
      ensures Valid() && Covered(g, todo, best.feerate, queue)
      ensures g == depgraph.View() && this.todo == todo && left == maxIterations
      ensures start.transactions != {} ==> best == start
    {
      hide Setting, Excess, Rate, FeeRate, AllOk, ItemOk, Improvers, Covered, Seeding, Candidate, WellFormed, Summed,
          Closed;
      var view := depgraph.View();
      var q: seq<WorkItem> := [];
      var b := start;
      var toCover := todo;
      SeedStart(view, todo);
      StartIs(view, todo, start);
      SettingIs(view, todo);
      while toCover != {}
        invariant depgraph.Valid() && depgraph.View() == view && toCover <= todo && Seeding(view, todo, q, toCover)
        invariant b.feerate.IsEmpty() ==> toCover == todo && b == start && b.transactions == {}
        invariant !b.feerate.IsEmpty() ==> Candidate(view, todo, b.transactions) && Summed(view, b)
        invariant start.transactions != {} ==> b == start
        decreases toCover
      {
        var component := depgraph.FindConnectedComponent(toCover);
        SeedMore(view, todo, q, toCover, component);
        toCover := toCover - component;
        if b.feerate.IsEmpty() {
          b := SetInfo(component, FeeRate(view, component));
          FeeOfSome(view, todo, component);
        }
        q := q + [WorkItem(SetInfo({}, EMPTY), component, EMPTY)];
      }
      g, this.todo, capacity := view, todo, if 2 * |todo| > 256 then 2 * |todo| else 256;
      queue, best, imp, left := q, b, todo, maxIterations;
      new;
      Seeded(view, todo, b.feerate, q);
      AllImprove(view, todo, b.feerate);
      TrimImp();
    }

    /** Drops from imp, last first, what does not improve on best. */
    method TrimImp()
      requires Setting(g, todo) && ImproversOrMore(g, todo, imp, best.feerate)
      modifies this`imp
      ensures Improvers(g, todo, imp, best.feerate)
    {
      hide Setting, Higher, Excess, Rate;
      while imp != {}
        invariant ImproversOrMore(g, todo, imp, best.feerate)
        decreases imp
      {
        var check := Last(imp);
        TrimOne(g, todo, imp, best.feerate);
        if Higher(Rate(g, check), best.feerate) {
          return;
        }
        imp := imp - {check};
      }
    }

    /** Adds to inc the undecided improvers that raise its feerate, ignoring dependencies. */
    method FindPotential(inc: SetInfo, und: set<nat>) returns (pot: SetInfo)
      requires Valid() && Partial(g, todo, inc, und) && inc.transactions != {}
      ensures IsPotential(g, inc.transactions, und, imp, pot)
    {
      hide Setting, Higher, Excess, Rate, FeeRate, PotentialTo, IsPotential, AllOk, Roomy, Candidate;
      pot := inc;
      StartPotential(g, inc, und, imp);
      for pos := 0 to |g.entries|
        invariant PotentialTo(g, inc.transactions, und, imp, pot, pos)
      {
        if pos in imp && pos in und {
          if !Higher(Rate(g, pos), pot.feerate) {
            PotentialStop(g, todo, inc.transactions, und, imp, pot, pos);
            return;
          }
          PotentialMore(g, todo, inc.transactions, und, imp, pot, pos);
          pot := SetInfo(pot.transactions + {pos}, Plus(pot.feerate, Rate(g, pos)));
        } else {
          PotentialSkip(g, inc.transactions, und, imp, pot, pos);
        }
      }
      PotentialStop(g, todo, inc.transactions, und, imp, pot, |g.entries|);
    }

    /** Adds to inc every transaction of pot whose remaining ancestors all lie in pot. */
    method JumpInto(inc: SetInfo, und: set<nat>, pot: SetInfo) returns (txs: set<nat>)
      requires Valid() && Partial(g, todo, inc, und) && inc.transactions != {}
      requires IsPotential(g, inc.transactions, und, imp, pot)
      ensures inc.transactions <= txs <= pot.transactions && Closed(g, todo, txs)
      ensures forall p :: p in pot.transactions && Anc(g, p) * todo <= pot.transactions ==> p in txs
      ensures forall c :: Sought(g, todo, best.feerate, inc.transactions, und, c) ==> txs <= c
    {
      hide Setting, Higher, Excess, Rate, FeeRate, AllOk, Roomy, IsPotential, Sought;
      PotentialIs(g, todo, inc, und, imp, pot);
      SoughtFits(g, todo, best.feerate, inc.transactions, und);
      SettingIs(g, todo);
      txs := inc.transactions;
      for pos := 0 to |g.entries|
        invariant inc.transactions <= txs <= pot.transactions && Closed(g, todo, txs)
        invariant forall p :: p in pot.transactions && Anc(g, p) * todo <= pot.transactions && p < pos ==> p in txs
        invariant forall c :: Sought(g, todo, best.feerate, inc.transactions, und, c) ==> txs <= c
      {
        if pos in pot.transactions - inc.transactions {
          var ancTodo := Anc(g, pos) * todo;
          if ancTodo <= pot.transactions {
            AncestorsClosed(g, todo, pos);
            ClosedUnion(g, todo, txs, ancTodo);
            forall c | Sought(g, todo, best.feerate, inc.transactions, und, c)
              ensures ancTodo <= c
            {
              SoughtIs(g, todo, best.feerate, inc.transactions, und, c);
              JumpAhead(g, todo, inc.transactions, und, imp, pot, best.feerate, c, ancTodo);
            }
            txs := txs + ancTodo;
          }
        }
      }
    }

    /** Queues the item for inc and und, after including what every optimum that fits includes,
        unless nothing that fits can beat best. */
    method AddItem(inc: SetInfo, und: set<nat>)
      requires Valid() && Partial(g, todo, inc, und) && |queue| + |und| <= capacity
      modifies this`queue, this`best, this`imp
      ensures Valid() && !Better(old(best.feerate), best.feerate) && Excess(old(best.feerate), best.feerate) <= 0
      ensures Appended(old(queue), queue, und)
      ensures Leads(g, todo, best.feerate, inc.transactions, und, queue)
    {
      hide Setting, Higher, Excess, Rate, FeeRate, AllOk, Roomy, IsPotential, Sought, Better, ItemOk, Partial,
          Improvers, Candidate, BoundedBy, Fits;
      ghost var was := best.feerate;
      NotWorseSelf(was);
      PartialIs(g, todo, inc, und);
      var item := WorkItem(inc, und, EMPTY);
      if !inc.feerate.IsEmpty() {
        var pot := FindPotential(inc, und);
        var txs := JumpInto(inc, und, pot);
        var inc' := SetInfo(txs, Plus(inc.feerate, FeeRate(g, txs - inc.transactions)));
        Jumped(g, todo, inc, und, imp, pot, inc', was);
        item := WorkItem(inc', und - txs, pot.feerate);
        if Better(inc'.feerate, best.feerate) {
          best := inc';
          BetterBest(g, todo, imp, was, inc', queue);
          TrimImp();
        } else {
          BetterIs(inc'.feerate, best.feerate);
        }
        Settled(g, todo, inc, und, pot, item, was, best.feerate);
        if pot.feerate.size == inc'.feerate.size {
          return;
        }
      } else {
        NothingDecided(g, todo, best.feerate, item);
        if und == {} {
          return;
        }
      }
      RoomForOne(g, todo, best.feerate, queue, capacity, und, item);
      assert |queue| < capacity;
      queue := queue + [item];
    }

    /** The first transaction of select that leaves least to decide: counts after including and after
        excluding it, the larger one first. */
    method ChooseSplit(und: set<nat>, select: set<nat>) returns (split: nat)
      requires select != {} && forall t :: t in select ==> t < |g.entries|
      ensures split in select
      ensures forall t :: t in select ==> !FewerLeft(g, und, t, split)
      ensures forall t :: t in select && t < split ==> FewerLeft(g, und, split, t)
    {
      hide FewerLeft;
      var found := false;
      split := 0;
      for t := 0 to |g.entries|
        invariant found ==> split in select && split < t
        invariant !found ==> forall u :: u in select ==> u >= t
        invariant found ==> forall u :: u in select && u < t ==> !FewerLeft(g, und, u, split)
        invariant found ==> forall u :: u in select && u < split ==> FewerLeft(g, und, split, u)
      {
        if t in select {
          FewerIsOrder(g, und, select, t, split);
          if !found || FewerLeft(g, und, t, split) {
            split, found := t, true;
          }
        }
      }
    }

    /** Replaces a work item by the two in which one of its undecided transactions is excluded
        with its descendants, or included with its ancestors, unless it cannot beat best. */
    method Split(elem: WorkItem)
      requires Valid() && ItemOk(g, todo, best.feerate, elem) && |queue| + |elem.und| <= capacity && left > 0
      requires Covered(g, todo, best.feerate, queue + [elem])
      modifies this
      ensures Valid() && Covered(g, todo, best.feerate, queue)
      ensures !Better(old(best.feerate), best.feerate) && old(left) - 1 <= left <= old(left)
      ensures |queue| >= |old(queue)| && Measure(queue) < Measure(old(queue)) + Power3(|elem.und|)
    {
      hide Setting, Higher, Excess, Rate, FeeRate, AllOk, Roomy, Sought, Better, ItemOk, Partial, Improvers, Candidate,
          Covered, Fits, Bounded, Appended, NoneSought, Summed, Power3, Measure, Leads;
      ghost var was, q0 := best.feerate, queue;
      NotWorseSelf(was);
      Power3Grows(0, |elem.und|);
      OkIs(g, todo, was, elem);
      var first := First(elem.und);
      var prune := CannotBeat(elem, first);
      if prune {
        Dropped(g, todo, was, q0, elem);
        return;
      }
      FirstSelected(g, todo, was, elem, first);
      var split := ChooseSplit(elem.und, elem.und * Anc(g, first));
      Branch(elem, split);
      left := left - 1;
    }

    /** The two halves of a split. */
    method Branch(elem: WorkItem, split: nat)
      requires Valid() && ItemOk(g, todo, best.feerate, elem) && |queue| + |elem.und| <= capacity && split in elem.und
      requires Covered(g, todo, best.feerate, queue + [elem])
      modifies this`queue, this`best, this`imp
      ensures Valid() && Covered(g, todo, best.feerate, queue) && !Better(old(best.feerate), best.feerate)
      ensures |queue| >= |old(queue)| && Measure(queue) < Measure(old(queue)) + Power3(|elem.und|)
    {
      hide Setting, Excess, Rate, FeeRate, AllOk, Roomy, Sought, Better, ItemOk, Partial, Improvers, Candidate, Covered,
          Fits, Bounded, Appended, Summed, Power3, Measure, Leads, Anc, Desc, Add;
      ghost var was, q0 := best.feerate, queue;
      ExcludePart(g, todo, was, elem, split);
      AddItem(elem.inc, elem.und - Desc(g, split));
      ghost var q1, b1 := queue, best.feerate;
      AppendedMeasure(q0, q1, elem.und - Desc(g, split), |elem.und| - 1);
      IncludePart(g, todo, was, elem, split);
      var anc := Anc(g, split) * todo;
      AddItem(Add(g, elem.inc, anc), elem.und - anc);
      AppendedMeasure(q1, queue, elem.und - anc, |elem.und| - 1);
      TwoThirds(|elem.und|);
      SplitCovered(g, todo, q0, q1, queue, was, b1, best.feerate, elem, split);
      BestOnlyImproves(g, todo, was, b1, best.feerate);
    }

    /** The tests that show an item cannot lead to anything better than best. */
    method CannotBeat(elem: WorkItem, first: nat) returns (b: bool)
      requires Valid() && ItemOk(g, todo, best.feerate, elem)
      requires first in elem.und && forall t :: t in elem.und ==> first <= t
      ensures b ==> NoneSought(g, todo, best.feerate, elem)
      ensures b <==> if elem.inc.transactions != {} then elem.und * imp == {} || !Better(elem.potFeerate, best.feerate)
                     else !Better(Rate(g, first), best.feerate)
    {
      hide Setting, Excess, Rate, FeeRate, AllOk, Roomy, Better, ItemOk, Improvers, Candidate, NoneSought, Summed,
          Bounded;
      OkIs(g, todo, best.feerate, elem);
      if !elem.inc.feerate.IsEmpty() {
        if elem.und * imp == {} {
          NoImprovers(g, todo, best.feerate, imp, elem);
          return true;
        }
        if !Better(elem.potFeerate, best.feerate) {
          LowPotential(g, todo, best.feerate, elem);
          return true;
        }
      } else {
        if !Better(Rate(g, first), best.feerate) {
          LowFirst(g, todo, best.feerate, elem, first);
          return true;
        }
      }
      b := false;
    }

    /** Works through the queue, front first, but back first while the items from the front could
        outgrow the capacity. */
    method Run()
      requires Valid() && Covered(g, todo, best.feerate, queue)
      modifies this
      ensures Valid() && !Better(old(best.feerate), best.feerate) && left <= old(left)
      ensures left > 0 ==> !Beatable(g, todo, best.feerate)
    {
      hide Setting, Excess, FeeRate, AllOk, Better, ItemOk, Improvers, Candidate, Covered;
      ghost var start := best.feerate;
      NotWorseSelf(start);
      while queue != []
        invariant Valid() && Covered(g, todo, best.feerate, queue)
        invariant !Better(start, best.feerate) && start.size > 0 && left <= old(left)
        decreases Measure(queue)
      {
        ghost var q0 := queue;
        var coin: bool := *;
        if |queue| > 1 && coin {
          Swapped(g, todo, best.feerate, queue, capacity);
          queue := queue[0 := queue[1]][1 := queue[0]];
        }
        while |queue| - 1 + |queue[0].und| > capacity
          invariant Valid() && Covered(g, todo, best.feerate, queue) && queue != []
          invariant !Better(start, best.feerate) && left <= old(left)
          invariant Measure(queue) <= Measure(q0)
          decreases Measure(queue)
        {
          if left == 0 {
            break;
          }
          ItemSmall(g, todo, best.feerate, queue, 0, capacity);
          var elem := queue[|queue| - 1];
          PopBack(g, todo, best.feerate, queue, capacity);
          ghost var b := best.feerate;
          queue := queue[..|queue| - 1];
          Split(elem);
          BestOnlyImproves(g, todo, start, b, best.feerate);
        }
        if left == 0 {
          break;
        }
        var elem := queue[0];
        PopFront(g, todo, best.feerate, queue, capacity);
        ghost var b := best.feerate;
        queue := queue[1..];
        Split(elem);
        BestOnlyImproves(g, todo, start, b, best.feerate);
      }
      if queue == [] {
        NothingLeft(g, todo, best.feerate);
      }
    }
  }

  /** Whether splitting on t leaves less to decide than splitting on u. */
  predicate FewerLeft(g: Graph, und: set<nat>, t: nat, u: nat) {
    var (a, b) := Counts(g, und, t);
    var (c, d) := Counts(g, und, u);
    a < c || (a == c && b < d)
  }

  lemma FewerIsOrder(g: Graph, und: set<nat>, select: set<nat>, t: nat, split: nat)
    ensures !FewerLeft(g, und, t, t)
    ensures FewerLeft(g, und, t, split) ==>
              forall u :: u in select && !FewerLeft(g, und, u, split) ==>
                  FewerLeft(g, und, t, u) && !FewerLeft(g, und, u, t)
  {
    hide Counts;
  }

  /** How many stay undecided when t is included, and when it is excluded, larger count first. */
  function Counts(g: Graph, und: set<nat>, t: nat): (nat, nat) {
    var i, e := |und - Anc(g, t)|, |und - Desc(g, t)|;
    if i < e then (e, i) else (i, e)
  }

  /** The last item of the queue leads to every optimum still sought within inc and und. */
  ghost predicate Leads(g: Graph, todo: set<nat>, best: FeeFrac, inc: set<nat>, und: set<nat>, queue: seq<WorkItem>) {
    forall c :: Sought(g, todo, best, inc, und, c) ==> queue != [] && ItemFits(queue[|queue| - 1], c)
  }

  /** At most one item was added, with no more to decide than und. */
  ghost predicate Appended(before: seq<WorkItem>, after: seq<WorkItem>, und: set<nat>) {
    || after == before
    || (|after| == |before| + 1 && after[..|before|] == before && after[|before|].und <= und)
  }

  lemma {:induction false} StartPotential(g: Graph, inc: SetInfo, und: set<nat>, imp: set<nat>)
    requires Summed(g, inc)
    ensures PotentialTo(g, inc.transactions, und, imp, inc, 0)
  {
    assert (set t | t in und * imp && t < 0) == {};
  }

  lemma PotentialIs(g: Graph, todo: set<nat>, inc: SetInfo, und: set<nat>, imp: set<nat>, pot: SetInfo)
    requires IsPotential(g, inc.transactions, und, imp, pot) && Partial(g, todo, inc, und)
    ensures inc.transactions <= pot.transactions <= inc.transactions + und && Summed(g, pot) && pot.transactions <= todo
  {
  }

  lemma SoughtFits(g: Graph, todo: set<nat>, best: FeeFrac, inc: set<nat>, und: set<nat>)
    ensures forall c :: Sought(g, todo, best, inc, und, c) ==> inc <= c
  {
  }

  lemma SoughtIs(g: Graph, todo: set<nat>, best: FeeFrac, inc: set<nat>, und: set<nat>, c: set<nat>)
    requires Sought(g, todo, best, inc, und, c)
    ensures Optimum(g, todo, c) && Fits(inc, und, c) && Excess(FeeRate(g, c), best) > 0
  {
  }

  lemma NotWorseSelf(a: FeeFrac)
    ensures !Better(a, a) && Excess(a, a) <= 0
  {
  }

  lemma {:induction false} PartialIs(g: Graph, todo: set<nat>, inc: SetInfo, und: set<nat>)
    requires Setting(g, todo) && Partial(g, todo, inc, und)
    ensures inc.feerate.IsEmpty() <==> inc.transactions == {}
  {
    EmptyIsEmpty(g, todo, inc);
  }

  /** Nothing that fits beats both rates. */
  ghost predicate BoundedBy(g: Graph, inc: set<nat>, und: set<nat>, pot: FeeFrac, best: FeeFrac) {
    forall c :: Fits(inc, und, c) ==> Excess(FeeRate(g, c), pot) <= 0 || Excess(FeeRate(g, c), best) <= 0
  }

  lemma {:induction false} Jumped(g: Graph, todo: set<nat>, inc: SetInfo, und: set<nat>, imp: set<nat>, pot: SetInfo,
      inc': SetInfo, best: FeeFrac)
    requires Setting(g, todo) && Partial(g, todo, inc, und) && inc.transactions != {} && best.size > 0
    requires Improvers(g, todo, imp, best) && IsPotential(g, inc.transactions, und, imp, pot)
    requires inc.transactions <= inc'.transactions <= pot.transactions && Closed(g, todo, inc'.transactions)
    requires inc'.feerate == Plus(inc.feerate, FeeRate(g, inc'.transactions - inc.transactions))
    ensures BoundedBy(g, inc.transactions, und, pot.feerate, best)
    ensures Partial(g, todo, inc', und - inc'.transactions) && Candidate(g, todo, inc'.transactions)
    ensures inc'.transactions + (und - inc'.transactions) == inc.transactions + und
    ensures Summed(g, pot) && inc'.feerate.size > 0 && pot.feerate.size > 0
    ensures pot.transactions <= inc.transactions + und
    ensures Summed(g, inc') && pot.transactions <= todo
  {
    hide Setting, Excess, Rate, FeeRate, IsPotential, Improvers;
    SettingIs(g, todo);
    PotentialIs(g, todo, inc, und, imp, pot);
    FeeSubset(g, inc.transactions, inc'.transactions);
    FeePositive(g, inc'.transactions);
    FeePositive(g, pot.transactions);
    assert inc'.transactions + (und - inc'.transactions) == inc.transactions + und;
    forall c | Fits(inc.transactions, und, c)
      ensures Excess(FeeRate(g, c), pot.feerate) <= 0 || Excess(FeeRate(g, c), best) <= 0
    {
      PotentialBound(g, todo, inc.transactions, und, imp, pot, best, c);
    }
  }

  lemma {:induction false} BetterBest(g: Graph, todo: set<nat>, imp: set<nat>, best: FeeFrac, inc: SetInfo,
      queue: seq<WorkItem>)
    requires Setting(g, todo) && Improvers(g, todo, imp, best) && best.size > 0 && inc.feerate.size > 0
    requires Better(inc.feerate, best) && AllOk(g, todo, best, queue)
    ensures ImproversOrMore(g, todo, imp, inc.feerate) && AllOk(g, todo, inc.feerate, queue)
    ensures !Better(best, inc.feerate) && Excess(best, inc.feerate) <= 0 && Excess(inc.feerate, inc.feerate) <= 0
  {
    hide Setting, Excess, Rate, Better, Improvers, AllOk, ImproversOrMore;
    BetterIs(inc.feerate, best);
    BetterIs(best, inc.feerate);
    HigherIsExcess(inc.feerate, inc.feerate);
    ImproversShrink(g, todo, imp, best, inc.feerate);
    AllOkLater(g, todo, best, inc.feerate, queue);
  }

  /** What the new item is worth, once best is settled. */
  lemma {:induction false} Settled(g: Graph, todo: set<nat>, inc: SetInfo, und: set<nat>, pot: SetInfo, item: WorkItem,
      was: FeeFrac, best: FeeFrac)
    requires Setting(g, todo) && Partial(g, todo, item.inc, item.und) && Candidate(g, todo, item.inc.transactions)
    requires item.potFeerate == pot.feerate && item.und == und - item.inc.transactions
    requires item.inc.transactions <= pot.transactions <= inc.transactions + und
    requires inc.transactions <= item.inc.transactions && item.inc.transactions + item.und == inc.transactions + und
    requires Summed(g, pot) && pot.feerate.size > 0 && was.size > 0 && best.size > 0 && pot.transactions <= todo
    requires BoundedBy(g, inc.transactions, und, pot.feerate, was)
    requires Excess(was, best) <= 0 && Excess(item.inc.feerate, best) <= 0
    requires forall c :: Sought(g, todo, was, inc.transactions, und, c) ==> item.inc.transactions <= c
    ensures pot.feerate.size == item.inc.feerate.size ==> forall c :: !Sought(g, todo, best, inc.transactions, und, c)
    ensures pot.feerate.size != item.inc.feerate.size ==> ItemOk(g, todo, best, item)
    ensures forall c :: Sought(g, todo, best, inc.transactions, und, c) ==> ItemFits(item, c)
  {
    hide Setting, Excess, Rate, FeeRate, Partial;
    SettingIs(g, todo);
    var a := item.inc.transactions;
    PartialSummed(g, todo, item.inc, item.und);
    FeeSubset(g, a, pot.transactions);
    if pot.feerate.size == item.inc.feerate.size {
      SameSize(g, todo, a, pot.transactions);
    }
    forall c | Sought(g, todo, best, inc.transactions, und, c)
      ensures pot.feerate.size != item.inc.feerate.size && ItemFits(item, c)
    {
      HigherIsExcess(was, best);
      ExcessTransitive(FeeRate(g, c), best, was);
      assert Sought(g, todo, was, inc.transactions, und, c);
      ExcessTransitive(FeeRate(g, c), pot.feerate, best);
    }
    if pot.feerate.size != item.inc.feerate.size {
      assert pot.transactions != a;
      var x :| x in pot.transactions && x !in a;
      assert x in a + item.und;
      forall c | ItemFits(item, c)
        ensures Excess(FeeRate(g, c), pot.feerate) <= 0 || Excess(FeeRate(g, c), best) <= 0
      {
        assert Fits(inc.transactions, und, c);
        ExcessTransitive(FeeRate(g, c), was, best);
      }
    }
  }

  lemma PartialSummed(g: Graph, todo: set<nat>, inc: SetInfo, und: set<nat>)
    requires Partial(g, todo, inc, und)
    ensures Summed(g, inc)
  {
  }

  lemma {:induction false} SameSize(g: Graph, todo: set<nat>, a: set<nat>, b: set<nat>)
    requires Setting(g, todo) && a <= b <= todo && FeeRate(g, a).size == FeeRate(g, b).size
    ensures a == b
  {
    hide Setting, FeeRate;
    SettingIs(g, todo);
    FeeSubset(g, a, b);
    if b - a != {} {
      FeePositive(g, b - a);
    }
    assert forall x :: x in b ==> x in a || x in b - a;
  }

  lemma {:induction false} NothingDecided(g: Graph, todo: set<nat>, best: FeeFrac, item: WorkItem)
    requires Partial(g, todo, item.inc, item.und) && item.inc.transactions == {} && item.potFeerate == EMPTY
    ensures item.und != {} ==> ItemOk(g, todo, best, item)
    ensures item.und == {} ==> forall c :: !Sought(g, todo, best, {}, {}, c)
    ensures forall c :: Sought(g, todo, best, {}, item.und, c) ==> ItemFits(item, c)
  {
  }

  lemma {:induction false} RoomForOne(g: Graph, todo: set<nat>, best: FeeFrac, queue: seq<WorkItem>, capacity: nat,
      und: set<nat>, item: WorkItem)
    requires AllOk(g, todo, best, queue) && Roomy(queue, capacity) && ItemOk(g, todo, best, item)
    requires item.und <= und && |queue| + |und| <= capacity
    ensures |queue| < capacity
    ensures AllOk(g, todo, best, queue + [item]) && Roomy(queue + [item], capacity)
  {
    hide ItemOk;
    NonEmptyUnd(g, todo, best, item);
    SubsetSize(item.und, und);
    var t :| t in item.und;
    SubsetSize({t}, item.und);
  }

  lemma NonEmptyUnd(g: Graph, todo: set<nat>, best: FeeFrac, item: WorkItem)
    requires ItemOk(g, todo, best, item)
    ensures item.und != {}
  {
  }

  lemma {:induction false} SubsetSize(a: set<nat>, b: set<nat>)
    requires a <= b
    ensures |a| <= |b|
  {
    if a != b {
      SmallerSet(a, b);
    }
  }

  // ---------------------------------------------------------------------------------------
  // Splitting

  lemma {:induction false} OkIs(g: Graph, todo: set<nat>, best: FeeFrac, item: WorkItem)
    requires Setting(g, todo) && ItemOk(g, todo, best, item)
    ensures Partial(g, todo, item.inc, item.und) && item.und != {} && item.inc.transactions + item.und <= todo
    ensures item.inc.feerate.IsEmpty() <==> item.inc.transactions == {}
    ensures item.inc.transactions != {} ==>
        item.potFeerate.size > 0 && Excess(item.inc.feerate, best) <= 0 && Bounded(g, item, best)
    ensures Summed(g, item.inc) && item.inc.transactions !! item.und
  {
    hide Setting, Excess, Bounded;
    EmptyIsEmpty(g, todo, item.inc);
  }

  ghost predicate NoneSought(g: Graph, todo: set<nat>, best: FeeFrac, item: WorkItem) {
    forall c :: !Sought(g, todo, best, item.inc.transactions, item.und, c)
  }

  lemma {:induction false} Dropped(g: Graph, todo: set<nat>, best: FeeFrac, queue: seq<WorkItem>, elem: WorkItem)
    requires Setting(g, todo) && best.size > 0 && Covered(g, todo, best, queue + [elem])
    requires NoneSought(g, todo, best, elem)
    ensures Covered(g, todo, best, queue)
  {
    hide Setting, Excess, FeeRate, Fits;
    if Beatable(g, todo, best) {
      var q, c :| q in queue + [elem] && Optimum(g, todo, c) && ItemFits(q, c);
      assert !Sought(g, todo, best, elem.inc.transactions, elem.und, c);
      OptimumBeats(g, todo, best, c);
    }
  }

  lemma {:induction false} OptimumBeats(g: Graph, todo: set<nat>, best: FeeFrac, c: set<nat>)
    requires Setting(g, todo) && best.size > 0 && Optimum(g, todo, c) && Beatable(g, todo, best)
    ensures Excess(FeeRate(g, c), best) > 0
  {
    hide Setting, Excess, FeeRate;
    SettingIs(g, todo);
    var d :| Candidate(g, todo, d) && Excess(FeeRate(g, d), best) > 0;
    var fc, fd := FeeRate(g, c), FeeRate(g, d);
    assert Excess(fd, fc) <= 0;
    FeePositive(g, c);
    FeePositive(g, d);
    HigherIsExcess(fd, fc);
    ExcessTransitive(fc, fd, best);
  }

  lemma {:induction false} NoImprovers(g: Graph, todo: set<nat>, best: FeeFrac, imp: set<nat>, item: WorkItem)
    requires Setting(g, todo) && best.size > 0 && Improvers(g, todo, imp, best) && ItemOk(g, todo, best, item)
    requires item.inc.transactions != {} && item.und * imp == {}
    ensures NoneSought(g, todo, best, item)
  {
    hide Setting, Excess, FeeRate, Rate, ItemOk;
    SettingIs(g, todo);
    OkIs(g, todo, best, item);
    var a := item.inc.transactions;
    forall c | Fits(a, item.und, c)
      ensures Excess(FeeRate(g, c), best) <= 0
    {
      var x := c - a;
      assert c == a + x;
      forall t | t in x
        ensures Excess(Rate(g, t), best) <= 0
      {
        assert t in item.und && t !in item.und * imp;
      }
      GainUnion(g, a, x, best);
      NoGain(g, x, best);
    }
  }

  lemma {:induction false} LowPotential(g: Graph, todo: set<nat>, best: FeeFrac, item: WorkItem)
    requires Setting(g, todo) && best.size > 0 && ItemOk(g, todo, best, item)
    requires item.inc.transactions != {} && !Better(item.potFeerate, best)
    ensures NoneSought(g, todo, best, item)
  {
    hide Setting, Excess, FeeRate, ItemOk, Better;
    OkIs(g, todo, best, item);
    BetterIs(item.potFeerate, best);
    forall c | Fits(item.inc.transactions, item.und, c)
      ensures Excess(FeeRate(g, c), best) <= 0
    {
      assert ItemFits(item, c);
      ExcessTransitive(FeeRate(g, c), item.potFeerate, best);
    }
  }

  lemma {:induction false} LowFirst(g: Graph, todo: set<nat>, best: FeeFrac, item: WorkItem, first: nat)
    requires Setting(g, todo) && best.size > 0 && ItemOk(g, todo, best, item) && item.inc.transactions == {}
    requires first in item.und && (forall t :: t in item.und ==> first <= t) && !Better(Rate(g, first), best)
    ensures NoneSought(g, todo, best, item)
  {
    hide Setting, Excess, FeeRate, Rate, ItemOk, Better;
    SettingIs(g, todo);
    OkIs(g, todo, best, item);
    BetterIs(Rate(g, first), best);
    forall c | Fits(item.inc.transactions, item.und, c)
      ensures Excess(FeeRate(g, c), best) <= 0
    {
      forall t | t in c
        ensures Excess(Rate(g, t), best) <= 0
      {
        Sorted(g, todo, first, t);
        ExcessTransitive(Rate(g, t), Rate(g, first), best);
      }
      NoGain(g, c, best);
    }
  }

  lemma {:induction false} FirstSelected(g: Graph, todo: set<nat>, best: FeeFrac, item: WorkItem, first: nat)
    requires Setting(g, todo) && ItemOk(g, todo, best, item) && first in item.und
    ensures first in item.und * Anc(g, first)
    ensures forall t :: t in item.und * Anc(g, first) ==> t < |g.entries|
  {
    hide Setting, ItemOk, WellFormed;
    SettingIs(g, todo);
    OkIs(g, todo, best, item);
    SelfAncestor(g, first);
  }

  /** Both halves of a split are well-formed, and smaller. */
  lemma {:induction false} ExcludePart(g: Graph, todo: set<nat>, best: FeeFrac, item: WorkItem, split: nat)
    requires Setting(g, todo) && ItemOk(g, todo, best, item) && split in item.und
    ensures Partial(g, todo, item.inc, item.und - Desc(g, split)) && |item.und - Desc(g, split)| < |item.und|
  {
    hide Setting, ItemOk, FeeRate, WellFormed, Summed, Bounded, Excess;
    SettingIs(g, todo);
    OkIs(g, todo, best, item);
    SelfAncestor(g, split);
    SmallerWithout(item.und, Desc(g, split), split);
    ExcludedClosed(g, todo, item, split);
  }

  lemma {:induction false} IncludePart(g: Graph, todo: set<nat>, best: FeeFrac, item: WorkItem, split: nat)
    requires Setting(g, todo) && ItemOk(g, todo, best, item) && split in item.und
    ensures var a, anc := item.inc.transactions, Anc(g, split) * todo;
            && Add(g, item.inc, anc).transactions == a + anc
            && Partial(g, todo, Add(g, item.inc, anc), item.und - anc)
            && |item.und - anc| < |item.und|
  {
    hide Setting, ItemOk, FeeRate, WellFormed, Summed, Bounded, Excess, Closed, Anc, Partial;
    SettingIs(g, todo);
    OkIs(g, todo, best, item);
    PartialClosed(g, todo, item.inc, item.und);
    AncestorsClosed(g, todo, split);
    var a, und, anc := item.inc.transactions, item.und, Anc(g, split) * todo;
    AncestorsWithin(g, todo, a + und, split);
    SmallerWithout(und, anc, split);
    ClosedUnion(g, todo, a, anc);
    Regrouped(a, und, anc);
    AddedSum(g, item.inc, anc);
    MakePartial(g, todo, Add(g, item.inc, anc), und - anc);
  }

  lemma PartialClosed(g: Graph, todo: set<nat>, inc: SetInfo, und: set<nat>)
    requires Partial(g, todo, inc, und)
    ensures Closed(g, todo, inc.transactions) && Closed(g, todo, inc.transactions + und)
  {
  }

  lemma MakePartial(g: Graph, todo: set<nat>, inc: SetInfo, und: set<nat>)
    requires inc.transactions + und <= todo && inc.transactions !! und
    requires Closed(g, todo, inc.transactions) && Closed(g, todo, inc.transactions + und) && Summed(g, inc)
    ensures Partial(g, todo, inc, und)
  {
  }

  lemma SmallerWithout(und: set<nat>, del: set<nat>, x: nat)
    requires x in und && x in del
    ensures |und - del| < |und|
  {
    assert x !in und - del;
    SmallerSet(und - del, und);
  }

  lemma Regrouped(a: set<nat>, und: set<nat>, anc: set<nat>)
    requires a !! und && anc <= a + und
    ensures (a + anc) + (und - anc) == a + und && (a + anc) !! (und - anc)
  {
  }

  lemma AncestorsWithin(g: Graph, todo: set<nat>, c: set<nat>, x: nat)
    requires Closed(g, todo, c) && x in c
    ensures Anc(g, x) * todo <= c
  {
  }

  lemma TwoThirds(n: nat)
    requires n > 0
    ensures 2 * Power3(n - 1) < Power3(n)
  {
    Power3Grows(0, n - 1);
  }

  lemma AddedSum(g: Graph, inc: SetInfo, more: set<nat>)
    requires Summed(g, inc)
    ensures Summed(g, Add(g, inc, more))
  {
    hide FeeRate;
    assert inc.transactions + more == inc.transactions + (more - inc.transactions);
    FeeUnion(g, inc.transactions, more - inc.transactions);
  }

  lemma {:induction false} ExcludedClosed(g: Graph, todo: set<nat>, item: WorkItem, split: nat)
    requires WellFormed(g) && todo <= g.used && Partial(g, todo, item.inc, item.und) && split in item.und
    ensures Closed(g, todo, item.inc.transactions + (item.und - Desc(g, split)))
  {
    hide WellFormed, Summed;
    var a := item.inc.transactions;
    var c := a + (item.und - Desc(g, split));
    forall x, y | x in c && y in Anc(g, x) && y in todo
      ensures y in c
    {
      assert y in a + item.und;
      if y in Desc(g, split) {
        DescendantUsed(g, y, split);
        AncestorTransitive(g, x, y, split);
        AncestorUsed(g, x, split);
      }
    }
  }

  lemma {:induction false} AppendedMeasure(before: seq<WorkItem>, after: seq<WorkItem>, und: set<nat>, n: nat)
    requires Appended(before, after, und) && |und| <= n
    ensures |before| <= |after| <= |before| + 1 && Measure(after) <= Measure(before) + Power3(n)
    ensures forall q :: q in before ==> q in after
  {
    if after != before {
      var q := after[|before|];
      SubsetSize(q.und, und);
      Power3Grows(|q.und|, n);
      assert after == before + [q];
      MeasureConcat(before, [q]);
      MeasureOne(q);
    }
  }

  lemma {:induction false} BestOnlyImproves(g: Graph, todo: set<nat>, a: FeeFrac, b: FeeFrac, c: FeeFrac)
    requires a.size > 0 && b.size > 0 && c.size > 0 && !Better(a, b) && !Better(b, c)
    ensures !Better(a, c)
  {
    NotBetterTransitive(a, b, c);
  }

  lemma {:induction false} SplitCovered(g: Graph, todo: set<nat>, q0: seq<WorkItem>, q1: seq<WorkItem>,
      q2: seq<WorkItem>,
                                        b0: FeeFrac, b1: FeeFrac, b2: FeeFrac, elem: WorkItem, split: nat)
    requires Setting(g, todo) && b0.size > 0 && b1.size > 0 && b2.size > 0 && ItemOk(g, todo, b0, elem)
    requires split in elem.und
    requires Excess(b0, b1) <= 0 && Excess(b1, b2) <= 0
    requires Covered(g, todo, b0, q0 + [elem])
    requires (forall q :: q in q0 ==> q in q1) && (forall q :: q in q1 ==> q in q2)
    requires Leads(g, todo, b1, elem.inc.transactions, elem.und - Desc(g, split), q1)
    requires Leads(g, todo, b2, elem.inc.transactions + Anc(g, split) * todo, elem.und - Anc(g, split) * todo, q2)
    ensures Covered(g, todo, b2, q2)
  {
    hide Setting, Excess, FeeRate, ItemOk, ItemFits;
    if Beatable(g, todo, b2) {
      BeatableBefore(g, todo, b1, b2);
      BeatableBefore(g, todo, b0, b1);
      var q, c :| q in q0 + [elem] && Optimum(g, todo, c) && ItemFits(q, c);
      if q !in q0 {
        assert q == elem;
        OptimumBeats(g, todo, b1, c);
        OptimumBeats(g, todo, b2, c);
        EitherHalf(g, todo, b0, elem, split, c);
        if split in c {
          assert Sought(g, todo, b2, elem.inc.transactions + Anc(g, split) * todo, elem.und - Anc(g, split) * todo, c);
          assert q2[|q2| - 1] in q2;
        } else {
          assert Sought(g, todo, b1, elem.inc.transactions, elem.und - Desc(g, split), c);
          assert q1[|q1| - 1] in q1;
        }
      }
    }
  }

  lemma {:induction false} BeatableBefore(g: Graph, todo: set<nat>, b0: FeeFrac, b1: FeeFrac)
    requires b0.size > 0 && b1.size > 0 && Excess(b0, b1) <= 0 && Beatable(g, todo, b1)
    ensures Beatable(g, todo, b0)
  {
    hide Excess, FeeRate, Candidate;
    var d :| Candidate(g, todo, d) && Excess(FeeRate(g, d), b1) > 0;
    HigherIsExcess(b0, b1);
    ExcessTransitive(FeeRate(g, d), b1, b0);
  }

  lemma {:induction false} EitherHalf(g: Graph, todo: set<nat>, best: FeeFrac, elem: WorkItem, split: nat, c: set<nat>)
    requires Setting(g, todo) && ItemOk(g, todo, best, elem) && split in elem.und && Closed(g, todo, c)
    requires ItemFits(elem, c)
    ensures split in c ==> Fits(elem.inc.transactions + Anc(g, split) * todo, elem.und - Anc(g, split) * todo, c)
    ensures split !in c ==> Fits(elem.inc.transactions, elem.und - Desc(g, split), c)
  {
    hide Setting, ItemOk, WellFormed;
    SettingIs(g, todo);
    OkIs(g, todo, best, elem);
    forall x | x in c && x in Desc(g, split)
      ensures split in c
    {
      DescendantUsed(g, x, split);
    }
  }

  // ---------------------------------------------------------------------------------------
  // The queue

  lemma {:induction false} ItemSmall(g: Graph, todo: set<nat>, best: FeeFrac, queue: seq<WorkItem>, i: nat,
      capacity: nat)
    requires Setting(g, todo) && AllOk(g, todo, best, queue) && i < |queue| && |todo| < capacity
    ensures |queue[i].und| < capacity
  {
    hide Setting, ItemOk;
    assert queue[i] in queue;
    OkIs(g, todo, best, queue[i]);
    SubsetSize(queue[i].und, todo);
  }

  lemma {:induction false} Swapped(g: Graph, todo: set<nat>, best: FeeFrac, queue: seq<WorkItem>, capacity: nat)
    requires Setting(g, todo) && AllOk(g, todo, best, queue) && |todo| < capacity && |queue| > 1
    requires Roomy(queue, capacity) && Covered(g, todo, best, queue)
    ensures var r := queue[0 := queue[1]][1 := queue[0]];
            && AllOk(g, todo, best, r) && Roomy(r, capacity) && Covered(g, todo, best, r)
                && Measure(r) == Measure(queue)
  {
    hide Setting, ItemOk, Beatable, Optimum, ItemFits;
    var r := queue[0 := queue[1]][1 := queue[0]];
    ItemSmall(g, todo, best, queue, 0, capacity);
    forall q
      ensures q in r <==> q in queue
    {
      assert r[0] == queue[1] && r[1] == queue[0];
      assert queue[0] in queue && queue[1] in queue && r[0] in r && r[1] in r;
      if q in queue {
        var i :| 0 <= i < |queue| && queue[i] == q;
        assert i < 2 || r[i] == q;
      }
    }
    var a, b, c := queue[0], queue[1], queue[2..];
    assert queue == [a] + [b] + c && r == [b] + [a] + c;
    MeasureConcat([a] + [b], c);
    MeasureConcat([b] + [a], c);
    MeasureConcat([a], [b]);
    MeasureConcat([b], [a]);
  }

  lemma {:induction false} PopBack(g: Graph, todo: set<nat>, best: FeeFrac, queue: seq<WorkItem>, capacity: nat)
    requires AllOk(g, todo, best, queue) && Roomy(queue, capacity) && queue != []
    ensures var q, r := queue[|queue| - 1], queue[..|queue| - 1];
            && AllOk(g, todo, best, r) && Roomy(r, capacity) && ItemOk(g, todo, best, q)
            && |r| + |q.und| <= capacity && r + [q] == queue && Measure(queue) == Measure(r) + Power3(|q.und|)
  {
    hide ItemOk;
    assert queue[|queue| - 1] in queue;
  }

  lemma {:induction false} PopFront(g: Graph, todo: set<nat>, best: FeeFrac, queue: seq<WorkItem>, capacity: nat)
    requires AllOk(g, todo, best, queue) && Roomy(queue, capacity) && Covered(g, todo, best, queue) && queue != []
    ensures var q, r := queue[0], queue[1..];
            && AllOk(g, todo, best, r) && Roomy(r, capacity) && ItemOk(g, todo, best, q)
            && Covered(g, todo, best, r + [q]) && Measure(queue) == Measure(r) + Power3(|q.und|)
  {
    hide ItemOk, Beatable, Optimum, ItemFits;
    var q, r := queue[0], queue[1..];
    assert queue == [q] + r && q in queue;
    assert forall i :: 0 <= i < |r| ==> r[i] == queue[i + 1];
    assert forall x :: x in queue ==> x in r + [q];
    MeasureConcat([q], r);
    MeasureOne(q);
  }

  lemma NothingLeft(g: Graph, todo: set<nat>, best: FeeFrac)
    requires Covered(g, todo, best, [])
    ensures !Beatable(g, todo, best)
  {
  }

  // ---------------------------------------------------------------------------------------
  // The initial queue: one item per connected component

  ghost predicate IsComponentItem(g: Graph, todo: set<nat>, q: WorkItem) {
    q.inc == SetInfo({}, EMPTY) && q.potFeerate == EMPTY && q.und != {} && q.und <= todo && Separate(g, q.und, todo)
  }

  /** c has, within what is not yet covered, a part of no lower feerate. */
  ghost predicate Pending(g: Graph, c: set<nat>, toCover: set<nat>) {
    c * toCover != {} && Gain(g, c * toCover, FeeRate(g, c)) >= 0
  }

  ghost predicate HasItem(g: Graph, todo: set<nat>, queue: seq<WorkItem>, c: set<nat>) {
    exists q :: q in queue && Optimum(g, todo, c * q.und)
  }

  ghost predicate Seeding(g: Graph, todo: set<nat>, queue: seq<WorkItem>, toCover: set<nat>) {
    && toCover <= todo && Separate(g, toCover, todo) && |queue| + |toCover| <= |todo|
    && (forall q :: q in queue ==> IsComponentItem(g, todo, q)) && Roomy(queue, |todo|)
    && (forall c :: Optimum(g, todo, c) ==> HasItem(g, todo, queue, c) || Pending(g, c, toCover))
  }

  lemma {:induction false} SeedStart(g: Graph, todo: set<nat>)
    requires Setting(g, todo)
    ensures Seeding(g, todo, [], todo)
  {
    hide Setting, FeeRate, Excess;
    forall c | Optimum(g, todo, c)
      ensures Pending(g, c, todo)
    {
      assert c * todo == c;
      HigherIsExcess(FeeRate(g, c), FeeRate(g, c));
    }
  }

  lemma {:induction false} SeedMore(g: Graph, todo: set<nat>, queue: seq<WorkItem>, toCover: set<nat>, k: set<nat>)
    requires Setting(g, todo) && Seeding(g, todo, queue, toCover)
    requires k != {} && k <= toCover && Separate(g, k, toCover)
    ensures Seeding(g, todo, queue + [WorkItem(SetInfo({}, EMPTY), k, EMPTY)], toCover - k)
    ensures Candidate(g, todo, k)
  {
    hide Setting, FeeRate, Optimum, Pending, Related;
    var item := WorkItem(SetInfo({}, EMPTY), k, EMPTY);
    var queue' := queue + [item];
    SeparateBoth(g, todo, toCover, k);
    SeparateClosed(g, todo, k);
    SubsetSize(k, toCover);
    assert toCover == (toCover - k) + k;
    SmallerSet(toCover - k, toCover);
    assert IsComponentItem(g, todo, item);
    forall c | Optimum(g, todo, c)
      ensures HasItem(g, todo, queue', c) || Pending(g, c, toCover - k)
    {
      if HasItem(g, todo, queue, c) {
        var q :| q in queue && Optimum(g, todo, c * q.und);
        assert q in queue';
      } else {
        SeedOne(g, todo, toCover, k, c);
        assert item in queue';
      }
    }
  }

  lemma {:induction false} SeparateBoth(g: Graph, todo: set<nat>, toCover: set<nat>, k: set<nat>)
    requires toCover <= todo && Separate(g, toCover, todo) && k <= toCover && Separate(g, k, toCover)
    ensures Separate(g, k, todo) && Separate(g, toCover - k, todo)
  {
    hide Related;
    forall x, y | x in toCover - k && y in todo && Related(g, x, y)
      ensures y in toCover - k
    {
      RelatedSymmetric(g, x, y);
    }
  }

  lemma SeparateClosed(g: Graph, todo: set<nat>, k: set<nat>)
    requires Separate(g, k, todo) && k <= todo
    ensures Closed(g, todo, k)
  {
    forall x, y | x in k && y in Anc(g, x) && y in todo
      ensures y in k
    {
      assert Related(g, x, y);
    }
  }

  /** Of an optimum, either its part inside k is an optimum, or the rest still counts. */
  lemma {:induction false} SeedOne(g: Graph, todo: set<nat>, toCover: set<nat>, k: set<nat>, c: set<nat>)
    requires Setting(g, todo) && Optimum(g, todo, c) && Pending(g, c, toCover) && k <= toCover <= todo
    requires Closed(g, todo, k)
    ensures Optimum(g, todo, c * k) || Pending(g, c, toCover - k)
  {
    hide Setting, FeeRate, Excess;
    SettingIs(g, todo);
    var rate := FeeRate(g, c);
    var x, y := c * k, c * (toCover - k);
    assert c * toCover == x + y;
    GainUnion(g, x, y, rate);
    GainNone(g, rate);
    if x != {} && Gain(g, x, rate) >= 0 {
      assert Candidate(g, todo, x);
      FeePositive(g, c);
      FeePositive(g, x);
      forall d | Candidate(g, todo, d)
        ensures Excess(FeeRate(g, d), FeeRate(g, x)) <= 0
      {
        assert Excess(FeeRate(g, d), rate) <= 0;
        HigherIsExcess(FeeRate(g, x), rate);
        ExcessTransitive(FeeRate(g, d), rate, FeeRate(g, x));
      }
    } else {
      assert y != {};
    }
  }

  lemma {:induction false} Seeded(g: Graph, todo: set<nat>, best: FeeFrac, queue: seq<WorkItem>)
    requires Setting(g, todo) && todo != {} && Seeding(g, todo, queue, {})
    ensures AllOk(g, todo, best, queue) && Covered(g, todo, best, queue) && Roomy(queue, |todo|)
  {
    hide Setting, FeeRate, Excess, Optimum, IsComponentItem, ItemOk;
    forall q | q in queue
      ensures ItemOk(g, todo, best, q)
    {
      ComponentOk(g, todo, best, q);
    }
    OptimumExists(g, todo);
    var c :| Optimum(g, todo, c);
    assert c * {} == {};
    assert HasItem(g, todo, queue, c);
    var q :| q in queue && Optimum(g, todo, c * q.und);
    ComponentFits(g, todo, q, c);
  }

  lemma {:induction false} ComponentOk(g: Graph, todo: set<nat>, best: FeeFrac, q: WorkItem)
    requires IsComponentItem(g, todo, q)
    ensures ItemOk(g, todo, best, q)
  {
    hide FeeRate, Excess, Separate;
    FeeNone(g);
    SeparateClosed(g, todo, q.und);
    assert {} + q.und == q.und;
  }

  lemma ComponentFits(g: Graph, todo: set<nat>, q: WorkItem, c: set<nat>)
    requires IsComponentItem(g, todo, q)
    ensures ItemFits(q, c * q.und)
  {
  }

  lemma {:induction false} StartIs(g: Graph, todo: set<nat>, start: SetInfo)
    requires Setting(g, todo)
    requires start == SetInfo({}, EMPTY) || (Candidate(g, todo, start.transactions) && Summed(g, start))
    ensures start.feerate.IsEmpty() <==> start.transactions == {}
  {
    hide Setting, FeeRate;
    if start.transactions != {} {
      EmptyIsEmpty(g, todo, start);
    }
  }

  lemma {:induction false} FeeOfSome(g: Graph, todo: set<nat>, c: set<nat>)
    requires Setting(g, todo) && c <= todo && c != {}
    ensures !FeeRate(g, c).IsEmpty() && Summed(g, SetInfo(c, FeeRate(g, c)))
  {
    hide Setting, FeeRate;
    SettingIs(g, todo);
    FeePositive(g, c);
  }

  lemma AllImprove(g: Graph, todo: set<nat>, best: FeeFrac)
    ensures ImproversOrMore(g, todo, todo, best)
  {
  }
}
