/** Finding the best ancestor set among the remaining transactions
    (src/cluster_linearize.h:542-642). */
module AncestorFinding {
  import opened FeeFracs
  import opened Sequences
  import opened DepGraphs
  import opened Linearizations
  import opened Chunkings

  class AncestorCandidateFinder {
    const g: Graph
    var todo: set<nat>
    /** The fee and size of the remaining ancestors of every remaining transaction. */
    var rates: seq<FeeFrac>

    ghost predicate Valid()
      reads this
    {
      && WellFormed(g) && Acyclic(g) && Sized(g)
      && todo <= g.used && |rates| == |g.entries|
      && forall j :: j in todo && j < |rates| ==> rates[j] == FeeRate(g, Anc(g, j) * todo)
    }

    constructor (g: Graph)
      requires WellFormed(g) && Acyclic(g) && Sized(g)
      ensures Valid() && this.g == g && todo == g.used
    {
      hide WellFormed, Acyclic, FeeRate;
      this.g := g;
      todo := g.used;
      var r := seq(|g.entries|, i => EMPTY);
      for i := 0 to |g.entries|
        invariant |r| == |g.entries|
        invariant forall j :: j in g.used && j < i ==> r[j] == FeeRate(g, Anc(g, j))
      {
        if i in g.used {
          var toAdd := Anc(g, i);
          var feerate := EMPTY;
          SelfAncestor(g, i);
          var first := First(toAdd);
          FirstAncestor(g, i, first);
          if first < i {
            feerate := r[first];
            toAdd := toAdd - Anc(g, first);
          } else {
            FeeNone(g);
          }
          assert i in toAdd;
          r := r[i := Plus(feerate, FeeRate(g, toAdd))];
        }
      }
      rates := r;
      new;
      AllAncestors(g);
    }

    /** Takes a set of transactions out of what remains. */
    method MarkDone(select: set<nat>)
      requires Valid() && select != {} && select <= todo
      modifies this
      ensures Valid() && todo == old(todo) - select
    {
      hide WellFormed, Acyclic, FeeRate, Sized;
      UsedInRange(g);
      ghost var before := todo;
      todo := todo - select;
      StartTaking(g, before, todo, select);
      for i := 0 to |g.entries|
        invariant todo == before - select && |rates| == |g.entries|
        invariant forall j :: j in todo && j < |rates| ==> rates[j] == FeeRate(g, LeftOf(g, todo, select, i, j))
      {
        if i in select {
          var feerate := Rate(g, i);
          ghost var was := rates;
          for j := 0 to |g.entries|
            invariant todo == before - select && |rates| == |g.entries|
            invariant forall k :: k in todo && k < |rates| ==>
                        rates[k] == FeeRate(g, LeftOf(g, todo, select, if k < j then i + 1 else i, k))
          {
            TakeOne(g, before, todo, select, i, j);
            if j in Desc(g, i) && j in todo {
              rates := rates[j := Minus(rates[j], feerate)];
            }
          }
        } else {
          forall j | j in todo
            ensures LeftOf(g, todo, select, i + 1, j) == LeftOf(g, todo, select, i, j)
          {
          }
        }
      }
      DoneTaking(g, todo, select, before);
    }

    /** The remaining transaction whose remaining ancestors, together, are best. */
    method FindCandidateSet() returns (r: SetInfo)
      requires Valid() && todo != {}
      ensures Closed(g, todo, r.transactions) && r.transactions != {} && Summed(g, r)
      ensures forall j :: j in todo ==> !Better(FeeRate(g, Anc(g, j) * todo), r.feerate)
    {
      hide WellFormed, Acyclic, FeeRate, Sized, Better;
      UsedInRange(g);
      var found, best := false, 0;
      for i := 0 to |g.entries|
        invariant found ==> best in todo
        invariant !found ==> forall j :: j in todo ==> j >= i
        invariant found ==> forall j :: j in todo && j < i ==> !Better(rates[j], rates[best])
      {
        if i in todo {
          AncestorSet(g, todo, i);
          if found {
            AncestorSet(g, todo, best);
            if Better(rates[i], rates[best]) {
              forall j | j in todo && j < i
                ensures !Better(rates[j], rates[i])
              {
                AncestorSet(g, todo, j);
                BetterNotBoth(rates[i], rates[best]);
                NotBetterTransitive(rates[j], rates[best], rates[i]);
              }
              NotBetterSelf(rates[i]);
              best := i;
            }
          } else {
            NotBetterSelf(rates[i]);
            found, best := true, i;
          }
        }
      }
      assert found;
      AncestorSet(g, todo, best);
      r := SetInfo(Anc(g, best) * todo, rates[best]);
    }
  }

  lemma {:induction false} FirstAncestor(g: Graph, i: nat, first: nat)
    requires WellFormed(g) && Acyclic(g) && i in g.used && first in Anc(g, i)
    ensures first in g.used && (first != i ==> i !in Anc(g, first))
    ensures FeeRate(g, Anc(g, i)) == Plus(FeeRate(g, Anc(g, first)), FeeRate(g, Anc(g, i) - Anc(g, first)))
    ensures Plus(EMPTY, FeeRate(g, Anc(g, i))) == FeeRate(g, Anc(g, i))
  {
    hide WellFormed, Acyclic, FeeRate;
    AncestorUsed(g, i, first);
    forall a | a in Anc(g, first)
      ensures a in Anc(g, i)
    {
      AncestorTransitive(g, i, first, a);
    }
    FeeSubset(g, Anc(g, first), Anc(g, i));
    if first != i {
      FewerAncestors(g, i, first);
    }
  }

  lemma {:induction false} AllAncestors(g: Graph)
    requires WellFormed(g)
    ensures forall j :: j in g.used ==> j < |g.entries| && Anc(g, j) * g.used == Anc(g, j)
  {
    hide WellFormed;
    forall j | j in g.used
      ensures j < |g.entries| && Anc(g, j) * g.used == Anc(g, j)
    {
      SelfAncestor(g, j);
      forall a | a in Anc(g, j)
        ensures a in g.used
      {
        AncestorUsed(g, j, a);
      }
    }
  }

  /** The ancestors of j that are in todo, or still waiting to be taken out. */
  ghost function LeftOf(g: Graph, todo: set<nat>, select: set<nat>, i: nat, j: nat): set<nat> {
    set a | a in Anc(g, j) && (a in todo || (a in select && a >= i))
  }

  lemma {:induction false} StartTaking(g: Graph, before: set<nat>, todo: set<nat>, select: set<nat>)
    requires todo == before - select && select <= before
    ensures forall j :: LeftOf(g, todo, select, 0, j) == Anc(g, j) * before
  {
  }

  lemma {:induction false} DoneTaking(g: Graph, todo: set<nat>, select: set<nat>, before: set<nat>)
    requires WellFormed(g) && select <= before <= g.used
    ensures forall j :: LeftOf(g, todo, select, |g.entries|, j) == Anc(g, j) * todo
  {
    UsedInRange(g);
  }

  lemma {:induction false} TakeOne(g: Graph, before: set<nat>, todo: set<nat>, select: set<nat>, i: nat, j: nat)
    requires WellFormed(g) && before <= g.used && select <= before && todo == before - select && i in select
    ensures var a, b := LeftOf(g, todo, select, i, j), LeftOf(g, todo, select, i + 1, j);
            && (j in todo && j in Desc(g, i) ==>
                Rate(g, i).size <= FeeRate(g, a).size && FeeRate(g, b) == Minus(FeeRate(g, a), Rate(g, i)))
            && (j in todo && j !in Desc(g, i) ==> a == b)
  {
    hide WellFormed, FeeRate, Rate;
    if j in todo {
      var a, b := LeftOf(g, todo, select, i, j), LeftOf(g, todo, select, i + 1, j);
      if j in Desc(g, i) {
        DescendantUsed(g, j, i);
        SelfAncestor(g, i);
        assert a == b + {i} && i !in b;
        FeeUnion(g, b, {i});
        FeeOne(g, i);
      } else if i in Anc(g, j) {
        AncestorUsed(g, j, i);
      }
    }
  }

  lemma {:induction false} AncestorSet(g: Graph, todo: set<nat>, i: nat)
    requires WellFormed(g) && Sized(g) && todo <= g.used && i in todo
    ensures Closed(g, todo, Anc(g, i) * todo) && Anc(g, i) * todo != {} && FeeRate(g, Anc(g, i) * todo).size > 0
  {
    hide WellFormed, Sized, FeeRate;
    SelfAncestor(g, i);
    var c := Anc(g, i) * todo;
    assert i in c;
    forall x, y | x in c && y in Anc(g, x) && y in todo
      ensures y in c
    {
      AncestorTransitive(g, i, x, y);
    }
    FeePositive(g, c);
  }

  lemma BetterNotBoth(a: FeeFrac, b: FeeFrac)
    ensures !(Better(a, b) && Better(b, a))
  {
  }

  lemma NotBetterSelf(a: FeeFrac)
    ensures !Better(a, a)
  {
  }
}
