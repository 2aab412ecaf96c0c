/** Searching in the cluster renumbered by decreasing feerate, and translating back
    (src/cluster_linearize.h:644-745, 1005-1022). */
module CandidateFinding {
  import opened FeeFracs
  import opened Sequences
  import opened DepGraphs
  import opened Linearizations
  import opened Chunkings
  import opened SearchTheory
  import opened Searching

  // ---------------------------------------------------------------------------------------
  // Renumbering sets

  function Mapped(m: seq<nat>, s: set<nat>): set<nat> {
    set i | i in s :: At(m, i)
  }

  /** h is g renumbered by m, one to one. */
  ghost predicate Renumbered(g: Graph, h: Graph, m: seq<nat>) {
    && WellFormed(g) && WellFormed(h) && Isomorphic(g, h, m)
    && (forall i, j :: i in g.used && j in g.used && At(m, i) == At(m, j) ==> i == j)
  }

  lemma {:induction false} MappedMinus(g: Graph, h: Graph, m: seq<nat>, a: set<nat>, b: set<nat>)
    requires Renumbered(g, h, m) && a <= g.used && b <= g.used
    ensures Mapped(m, a - b) == Mapped(m, a) - Mapped(m, b)
    ensures Mapped(m, a) <= h.used
  {
    hide WellFormed;
  }

  lemma {:induction false} MappedInjective(g: Graph, h: Graph, m: seq<nat>, a: set<nat>, b: set<nat>)
    requires Renumbered(g, h, m) && a <= g.used && b <= g.used
    ensures Mapped(m, a) <= Mapped(m, b) <==> a <= b
    ensures Mapped(m, a) == {} <==> a == {}
  {
    hide WellFormed;
    if Mapped(m, a) <= Mapped(m, b) {
      forall i | i in a
        ensures i in b
      {
        assert At(m, i) in Mapped(m, b);
      }
    }
    if a != {} {
      var i :| i in a;
      assert At(m, i) in Mapped(m, a);
    }
  }

  lemma {:induction false} FeeMapped(g: Graph, h: Graph, m: seq<nat>, s: set<nat>)
    requires Renumbered(g, h, m) && s <= g.used
    ensures FeeRate(h, Mapped(m, s)) == FeeRate(g, s)
    decreases s
  {
    hide Renumbered, FeeRate, Rate;
    if s == {} {
      assert Mapped(m, s) == {};
      FeeNone(g);
      FeeNone(h);
    } else {
      var i :| i in s;
      FeeMapped(g, h, m, s - {i});
      MappedMinus(g, h, m, s, {i});
      RenumberedAt(g, h, m, i);
      assert Mapped(m, {i}) == {At(m, i)};
      assert s == (s - {i}) + {i};
      assert Mapped(m, s) == Mapped(m, s - {i}) + {At(m, i)};
      FeeUnion(g, s - {i}, {i});
      FeeUnion(h, Mapped(m, s - {i}), {At(m, i)});
      FeeOne(g, i);
      FeeOne(h, At(m, i));
    }
  }

  lemma RenumberedAt(g: Graph, h: Graph, m: seq<nat>, i: nat)
    requires Renumbered(g, h, m) && i in g.used
    ensures i < |g.entries| && At(m, i) < |h.entries| && At(m, i) in h.used && Rate(h, At(m, i)) == Rate(g, i)
  {
  }

  lemma {:induction false} ClosedMapped(g: Graph, h: Graph, m: seq<nat>, todo: set<nat>, c: set<nat>)
    requires Renumbered(g, h, m) && todo <= g.used && c <= g.used
    ensures Closed(g, todo, c) <==> Closed(h, Mapped(m, todo), Mapped(m, c))
  {
    hide WellFormed;
    MappedInjective(g, h, m, c, todo);
    if Closed(g, todo, c) {
      forall x, y | x in Mapped(m, c) && y in Anc(h, x) && y in Mapped(m, todo)
        ensures y in Mapped(m, c)
      {
        var i :| i in c && x == At(m, i);
        var j :| j in todo && y == At(m, j);
        assert j in Anc(g, i);
      }
    }
    if Closed(h, Mapped(m, todo), Mapped(m, c)) {
      forall i, j | i in c && j in Anc(g, i) && j in todo
        ensures j in c
      {
        assert At(m, j) in Anc(h, At(m, i));
        assert At(m, i) in Mapped(m, c) && At(m, j) in Mapped(m, todo);
        assert At(m, j) in Mapped(m, c);
      }
    }
  }

  /** Candidates correspond, with the same feerates. */
  lemma {:induction false} CandidateMapped(g: Graph, h: Graph, m: seq<nat>, todo: set<nat>, c: set<nat>)
    requires Renumbered(g, h, m) && todo <= g.used && c <= g.used
    ensures Candidate(g, todo, c) <==> Candidate(h, Mapped(m, todo), Mapped(m, c))
    ensures FeeRate(h, Mapped(m, c)) == FeeRate(g, c)
  {
    hide Renumbered, FeeRate, Closed;
    ClosedMapped(g, h, m, todo, c);
    MappedInjective(g, h, m, c, c);
    FeeMapped(g, h, m, c);
  }

  lemma {:induction false} UnbeatableMapped(g: Graph, h: Graph, m: seq<nat>, todo: set<nat>, best: FeeFrac)
    requires Renumbered(g, h, m) && todo <= g.used && !Beatable(h, Mapped(m, todo), best)
    ensures !Beatable(g, todo, best)
  {
    hide Renumbered, FeeRate, Excess;
    forall c | Candidate(g, todo, c)
      ensures Excess(FeeRate(g, c), best) <= 0
    {
      CandidateMapped(g, h, m, todo, c);
    }
  }

  // ---------------------------------------------------------------------------------------
  // Sorting by feerate

  /** The higher feerate first, the smaller size among equals, then the position. */
  ghost predicate InOrder(g: Graph, x: nat, y: nat) {
    !Better(Rate(g, y), Rate(g, x)) && (Better(Rate(g, x), Rate(g, y)) || x < y)
  }

  ghost predicate ByFeerate(g: Graph, s: seq<nat>) {
    forall i, j :: 0 <= i < j < |s| ==> InOrder(g, s[i], s[j])
  }

  /** All transactions by decreasing feerate, smaller ones first among equals, then by position. */
  method SortByFeerate(g: Graph) returns (order: seq<nat>)
    requires WellFormed(g) && Sized(g)
    ensures Distinct(order) && Elems(order) == g.used && ByFeerate(g, order)
  {
    hide WellFormed, Better, Rate;
    UsedInRange(g);
    order := [];
    for i := 0 to |g.entries|
      invariant Distinct(order) && ByFeerate(g, order)
      invariant forall x :: x in order <==> x in g.used && x < i
    {
      if i in g.used {
        var k := |order|;
        while k > 0 && Better(Rate(g, i), Rate(g, order[k - 1]))
          invariant 0 <= k <= |order|
          invariant forall j :: k <= j < |order| ==> Better(Rate(g, i), Rate(g, order[j]))
        {
          k := k - 1;
        }
        InsertedByFeerate(g, order, k, i);
        order := order[..k] + [i] + order[k..];
      }
    }
    assert Elems(order) == g.used;
  }

  lemma {:induction false} InsertedByFeerate(g: Graph, s: seq<nat>, k: nat, x: nat)
    requires Sized(g) && (forall y :: y in s ==> y in g.used) && x in g.used
    requires Distinct(s) && ByFeerate(g, s) && k <= |s| && (forall y :: y in s ==> y < x)
    requires k > 0 ==> !Better(Rate(g, x), Rate(g, s[k - 1]))
    requires forall j :: k <= j < |s| ==> Better(Rate(g, x), Rate(g, s[j]))
    ensures Distinct(s[..k] + [x] + s[k..]) && ByFeerate(g, s[..k] + [x] + s[k..])
    ensures forall y :: y in s[..k] + [x] + s[k..] <==> y == x || y in s
  {
    hide Better, Rate, InOrder, Sized;
    var r := s[..k] + [x] + s[k..];
    forall i, j | 0 <= i < j < |r|
      ensures InOrder(g, r[i], r[j]) && r[i] != r[j]
    {
      InsertedAt(g, s, k, x, i, j);
    }
    InsertedElems(s, k, x);
  }

  lemma {:induction false} InsertedElems(s: seq<nat>, k: nat, x: nat)
    requires k <= |s|
    ensures forall y :: y in s[..k] + [x] + s[k..] <==> y == x || y in s
  {
    assert s == s[..k] + s[k..];
  }

  lemma {:induction false} InsertedAt(g: Graph, s: seq<nat>, k: nat, x: nat, i: nat, j: nat)
    requires Sized(g) && (forall y :: y in s ==> y in g.used) && x in g.used && i < j <= |s|
    requires Distinct(s) && ByFeerate(g, s) && k <= |s| && (forall y :: y in s ==> y < x)
    requires k > 0 ==> !Better(Rate(g, x), Rate(g, s[k - 1]))
    requires forall j :: k <= j < |s| ==> Better(Rate(g, x), Rate(g, s[j]))
    ensures var r := s[..k] + [x] + s[k..]; InOrder(g, r[i], r[j]) && r[i] != r[j]
  {
    hide Better, Rate;
    var r := s[..k] + [x] + s[k..];
    if j == k {
      assert r[i] == s[i] && s[i] in s && s[k - 1] in s;
      if i < k - 1 {
        assert InOrder(g, s[i], s[k - 1]);
        NotBetterTransitive(Rate(g, x), Rate(g, s[k - 1]), Rate(g, s[i]));
      }
    } else if i == k {
      assert r[j] == s[j - 1] && s[j - 1] in s;
      NotBoth(Rate(g, x), Rate(g, s[j - 1]));
    } else {
      var i', j' := if i < k then i else i - 1, if j < k then j else j - 1;
      assert r[i] == s[i'] && r[j] == s[j'];
      assert InOrder(g, s[i'], s[j']);
    }
  }

  lemma NotBoth(a: FeeFrac, b: FeeFrac)
    ensures !(Better(a, b) && Better(b, a))
  {
  }

  /** inverse[order[i]] == i for every transaction. */
  ghost predicate Inverse(g: Graph, order: seq<nat>, inverse: seq<nat>) {
    && |inverse| == |g.entries| && Distinct(order) && Elems(order) == g.used
    && (forall i :: 0 <= i < |order| ==> At(inverse, order[i]) == i)
  }

  lemma {:induction false} InverseInjective(g: Graph, order: seq<nat>, inverse: seq<nat>)
    requires WellFormed(g) && Inverse(g, order, inverse)
    ensures Injective(g, inverse, |order|) && |order| <= |g.entries| == |inverse|
    ensures forall x :: x in g.used ==> At(inverse, x) < |order| && order[At(inverse, x)] == x
  {
    hide WellFormed;
    UsedInRange(g);
    forall x | x in g.used
      ensures At(inverse, x) < |order| && order[At(inverse, x)] == x
    {
      assert x in Elems(order);
      var i :| 0 <= i < |order| && order[i] == x;
    }
    assert forall x :: x in order ==> x in Elems(order);
    DistinctBelow(order, |g.entries|);
  }

  lemma {:induction false} DistinctBelow(s: seq<nat>, n: nat)
    requires Distinct(s) && forall x :: x in s ==> x < n
    ensures |s| <= n
  {
    DistinctSize(s);
    RangeIs(n);
    SubsetSize(Elems(s), Range(n));
  }

  ghost function Range(n: nat): set<nat> {
    if n == 0 then {} else Range(n - 1) + {n - 1}
  }

  lemma {:induction false} RangeIs(n: nat)
    ensures |Range(n)| == n && forall x: nat :: x in Range(n) <==> x < n
  {
    if n > 0 {
      RangeIs(n - 1);
    }
  }

  lemma {:induction false} SortedSetting(g: Graph, h: Graph, order: seq<nat>, inverse: seq<nat>)
    requires WellFormed(g) && WellFormed(h) && Sized(g) && Inverse(g, order, inverse) && ByFeerate(g, order)
    requires Isomorphic(g, h, inverse)
    ensures Renumbered(g, h, inverse) && Setting(h, h.used) && h.used == Mapped(inverse, g.used)
  {
    hide WellFormed, Excess, Rate, Better;
    InverseInjective(g, order, inverse);
    forall i | i in h.used
      ensures i < |order| && order[i] in g.used && Rate(h, i) == Rate(g, order[i])
    {
      var x :| x in g.used && At(inverse, x) == i;
    }
    forall i, j | i in h.used && j in h.used && i < j
      ensures Excess(Rate(h, j), Rate(h, i)) <= 0
    {
      BetterIs(Rate(g, order[j]), Rate(g, order[i]));
    }
  }

  lemma SettingPart(g: Graph, todo: set<nat>, part: set<nat>)
    requires Setting(g, todo) && part <= todo
    ensures Setting(g, part)
  {
  }

  // ---------------------------------------------------------------------------------------

  class SearchCandidateFinder {
    /** The cluster, and what remains of it. */
    ghost const g: Graph
    ghost var originalTodo: set<nat>
    const sortedToOriginal: seq<nat>
    const originalToSorted: seq<nat>
    const sorted: DepGraph
    var todo: set<nat>

    ghost predicate Valid()
      reads this, sorted
    {
      && sorted.Valid() && Renumbered(g, sorted.View(), originalToSorted) && Setting(sorted.View(), sorted.used)
      && originalTodo <= g.used && todo == Mapped(originalToSorted, originalTodo) && todo <= sorted.used
      && (forall x :: x in g.used ==> At(sortedToOriginal, At(originalToSorted, x)) == x)
    }

    constructor (depgraph: DepGraph)
      requires depgraph.Valid() && Acyclic(depgraph.View()) && Sized(depgraph.View())
      ensures Valid() && g == depgraph.View() && originalTodo == g.used && fresh(sorted)
    {
      hide WellFormed, Acyclic, Sized, Isomorphic, Setting, Inverse, ByFeerate, Injective, Renumbered;
      var view := depgraph.View();
      var order := SortByFeerate(view);
      var inverse := Invert(view, order);
      InverseInjective(view, order, inverse);
      var dg := new DepGraph.Remap(depgraph, inverse, |order|);
      SortedSetting(view, dg.View(), order, inverse);
      g, originalTodo := view, view.used;
      sortedToOriginal, originalToSorted, sorted, todo := order, inverse, dg, dg.used;
    }

    /** Finds a good closed set among what remains, trying at most maxIterations splits: no worse
        than best, and of the highest feerate there is when fewer splits were needed. */
    method FindCandidateSet(maxIterations: nat, best: SetInfo) returns (r: SetInfo, steps: nat)
      requires Valid() && originalTodo != {}
      requires best == SetInfo({}, EMPTY) || (Candidate(g, originalTodo, best.transactions) && Summed(g, best))
      ensures Candidate(g, originalTodo, r.transactions) && Summed(g, r)
      ensures best.transactions != {} ==> !Better(best.feerate, r.feerate)
      ensures steps <= maxIterations
      ensures steps < maxIterations ==> !Beatable(g, originalTodo, r.feerate)
    {
      hide WellFormed, Isomorphic, Setting, Excess, Better, FeeRate, Candidate, Renumbered, Beatable, Covered,
          Improvers, AllOk, Roomy, Mapped, Summed;
      ghost var h := sorted.View();
      SettingPart(h, sorted.used, todo);
      StartMapped(g, h, originalToSorted, originalTodo, best);
      var start := SetInfo(Mapped(originalToSorted, best.transactions), best.feerate);
      var search := new Search(sorted, todo, start, maxIterations);
      NotBetterThanSelf(search.best.feerate);
      search.Run();
      if search.left > 0 {
        UnbeatableMapped(g, h, originalToSorted, originalTodo, search.best.feerate);
      }
      r := SetInfo(Mapped(sortedToOriginal, search.best.transactions), search.best.feerate);
      ResultMapped(g, h, originalToSorted, sortedToOriginal, originalTodo, search.best);
      steps := maxIterations - search.left;
    }

    method MarkDone(done: set<nat>)
      requires Valid() && done != {} && done <= originalTodo
      modifies this
      ensures Valid() && originalTodo == old(originalTodo) - done
    {
      hide WellFormed, Isomorphic, Setting, Renumbered;
      MappedMinus(g, sorted.View(), originalToSorted, originalTodo, done);
      var doneSorted := Mapped(originalToSorted, done);
      todo := todo - doneSorted;
      originalTodo := originalTodo - done;
    }
  }

  method Invert(g: Graph, order: seq<nat>) returns (inverse: seq<nat>)
    requires WellFormed(g) && Distinct(order) && Elems(order) == g.used
    ensures Inverse(g, order, inverse)
  {
    hide WellFormed;
    UsedInRange(g);
    inverse := seq(|g.entries|, i => 0);
    for i := 0 to |order|
      invariant |inverse| == |g.entries|
      invariant forall j :: 0 <= j < i ==> At(inverse, order[j]) == j
    {
      assert order[i] in Elems(order);
      ghost var before := inverse;
      inverse := inverse[order[i] := i];
      forall j | 0 <= j < i
        ensures At(inverse, order[j]) == j
      {
        assert order[j] != order[i];
        assert At(before, order[j]) == j;
      }
    }
  }

  lemma NotBetterThanSelf(a: FeeFrac)
    ensures !Better(a, a)
  {
  }

  lemma {:induction false} StartMapped(g: Graph, h: Graph, m: seq<nat>, todo: set<nat>, best: SetInfo)
    requires Renumbered(g, h, m) && todo <= g.used && todo != {}
    requires best == SetInfo({}, EMPTY) || (Candidate(g, todo, best.transactions) && Summed(g, best))
    ensures var start := SetInfo(Mapped(m, best.transactions), best.feerate);
            && Mapped(m, todo) != {}
            && (start.transactions != {} <==> best.transactions != {})
            && (start == SetInfo({}, EMPTY) || (Candidate(h, Mapped(m, todo), start.transactions) && Summed(h, start)))
  {
    hide Renumbered, FeeRate;
    MappedInjective(g, h, m, todo, todo);
    if best.transactions == {} {
      assert Mapped(m, {}) == {};
    } else {
      CandidateMapped(g, h, m, todo, best.transactions);
      MappedInjective(g, h, m, best.transactions, best.transactions);
    }
  }

  lemma {:induction false} ResultMapped(g: Graph, h: Graph, m: seq<nat>, back: seq<nat>, todo: set<nat>, best: SetInfo)
    requires Renumbered(g, h, m) && todo <= g.used && (forall x :: x in g.used ==> At(back, At(m, x)) == x)
    requires Candidate(h, Mapped(m, todo), best.transactions) && Summed(h, best)
    ensures var c := Mapped(back, best.transactions);
            Candidate(g, todo, c) && Summed(g, SetInfo(c, best.feerate))
  {
    hide Renumbered, FeeRate;
    var c := Mapped(back, best.transactions);
    MappedBack(m, back, todo, best.transactions, g.used);
    CandidateMapped(g, h, m, todo, c);
  }

  lemma {:induction false} MappedBack(m: seq<nat>, back: seq<nat>, todo: set<nat>, s: set<nat>, used: set<nat>)
    requires todo <= used && (forall x :: x in used ==> At(back, At(m, x)) == x) && s <= Mapped(m, todo)
    ensures Mapped(back, s) <= todo && Mapped(m, Mapped(back, s)) == s
  {
    hide At;
    forall y | y in s
      ensures At(back, y) in todo && At(m, At(back, y)) == y
    {
      var x :| x in todo && y == At(m, x);
    }
    assert forall y :: y in s ==> At(back, y) in Mapped(back, s);
  }
}
