/** Why the pruned search for a best closed set loses nothing (src/cluster_linearize.h:740-1009).

    Transactions are numbered by decreasing feerate here. */
module SearchTheory {
  import opened FeeFracs
  import opened Sequences
  import opened DepGraphs
  import opened Linearizations
  import opened Chunkings

  datatype WorkItem = WorkItem(inc: SetInfo, und: set<nat>, potFeerate: FeeFrac)

  /** The graph, and what remains to be linearized. */
  ghost predicate Setting(g: Graph, todo: set<nat>) {
    && WellFormed(g) && Sized(g) && todo <= g.used
    && forall i, j :: i in g.used && j in g.used && i < j ==> Excess(Rate(g, j), Rate(g, i)) <= 0
  }

  ghost predicate Candidate(g: Graph, todo: set<nat>, c: set<nat>) {
    Closed(g, todo, c) && c != {}
  }

  /** No candidate has a higher feerate. */
  ghost predicate Optimum(g: Graph, todo: set<nat>, c: set<nat>) {
    Candidate(g, todo, c) && forall d :: Candidate(g, todo, d) ==> Excess(FeeRate(g, d), FeeRate(g, c)) <= 0
  }

  /** c includes inc, and otherwise only undecided transactions. */
  ghost predicate Fits(inc: set<nat>, und: set<nat>, c: set<nat>) {
    inc <= c <= inc + und
  }

  lemma SettingIs(g: Graph, todo: set<nat>)
    requires Setting(g, todo)
    ensures WellFormed(g) && Sized(g) && todo <= g.used
    ensures forall i :: i in todo ==> i < |g.entries|
  {
  }

  lemma Sorted(g: Graph, todo: set<nat>, i: nat, j: nat)
    requires Setting(g, todo) && i in todo && j in todo && i <= j
    ensures Excess(Rate(g, j), Rate(g, i)) <= 0
    ensures Rate(g, i).size > 0 && Rate(g, j).size > 0
  {
    HigherIsExcess(Rate(g, i), Rate(g, i));
  }

  // ---------------------------------------------------------------------------------------
  // Signs of gains

  lemma {:induction false} NoGain(g: Graph, s: set<nat>, rate: FeeFrac)
    requires WellFormed(g) && s <= g.used
    requires forall t :: t in s ==> Excess(Rate(g, t), rate) <= 0
    ensures Gain(g, s, rate) <= 0
    decreases s
  {
    hide WellFormed, Excess, Gain, Rate;
    if s == {} {
      GainNone(g, rate);
    } else {
      var t :| t in s;
      NoGain(g, s - {t}, rate);
      OneGain(g, s, t, rate);
    }
  }

  lemma {:induction false} SomeGain(g: Graph, s: set<nat>, rate: FeeFrac)
    requires WellFormed(g) && s <= g.used
    requires forall t :: t in s ==> Excess(Rate(g, t), rate) > 0
    ensures Gain(g, s, rate) >= 0 && (s != {} ==> Gain(g, s, rate) > 0)
    decreases s
  {
    hide WellFormed, Excess, Gain, Rate;
    if s == {} {
      GainNone(g, rate);
    } else {
      var t :| t in s;
      SomeGain(g, s - {t}, rate);
      OneGain(g, s, t, rate);
    }
  }

  lemma {:induction false} OneGain(g: Graph, s: set<nat>, t: nat, rate: FeeFrac)
    requires WellFormed(g) && s <= g.used && t in s
    ensures Gain(g, s, rate) == Gain(g, s - {t}, rate) + Excess(Rate(g, t), rate)
  {
    hide WellFormed, Excess, FeeRate;
    UsedInRange(g);
    assert s == s - {t} + {t};
    GainUnion(g, s - {t}, {t}, rate);
    FeeOne(g, t);
  }

  /** Adding the rest of what gains, and dropping what does not, only helps. */
  lemma {:induction false} GainBound(g: Graph, inc: set<nat>, more: set<nat>, c: set<nat>, rate: FeeFrac)
    requires WellFormed(g) && inc <= c <= g.used && more <= g.used && inc !! more
    requires forall t :: t in more ==> Excess(Rate(g, t), rate) > 0
    requires forall t :: t in c - inc - more ==> Excess(Rate(g, t), rate) <= 0
    ensures Gain(g, c, rate) <= Gain(g, inc + more, rate)
  {
    hide WellFormed, Excess, Gain, Rate;
    var x, y, z := c - inc - more, more - c, inc + (c * more);
    assert c == z + x && inc + more == z + y;
    GainUnion(g, z, x, rate);
    GainUnion(g, z, y, rate);
    NoGain(g, x, rate);
    SomeGain(g, y, rate);
  }

  // ---------------------------------------------------------------------------------------
  // Potential sets

  /** imp holds exactly the remaining transactions of higher feerate than best. */
  ghost predicate Improvers(g: Graph, todo: set<nat>, imp: set<nat>, best: FeeFrac) {
    forall t :: t in imp <==> t in todo && Excess(Rate(g, t), best) > 0
  }

  /** pot is inc with the improvers of und that raise its feerate. */
  ghost predicate IsPotential(g: Graph, inc: set<nat>, und: set<nat>, imp: set<nat>, pot: SetInfo) {
    && inc <= pot.transactions <= inc + und * imp && Summed(g, pot)
    && (forall t :: t in pot.transactions - inc ==> Excess(Rate(g, t), pot.feerate) > 0)
    && (forall t :: t in und * imp - pot.transactions ==> Excess(Rate(g, t), pot.feerate) <= 0)
  }

  /** What the loop over the improvers keeps. */
  ghost predicate PotentialTo(g: Graph, inc: set<nat>, und: set<nat>, imp: set<nat>, pot: SetInfo, n: nat) {
    && pot.transactions == inc + (set t | t in und * imp && t < n) && Summed(g, pot)
    && (forall t :: t in pot.transactions - inc ==> Excess(Rate(g, t), pot.feerate) > 0)
  }

  lemma {:induction false} PotentialMore(g: Graph, todo: set<nat>, inc: set<nat>, und: set<nat>, imp: set<nat>,
      pot: SetInfo, n: nat)
    requires Setting(g, todo) && inc <= todo && und <= todo && inc !! und && inc != {}
    requires PotentialTo(g, inc, und, imp, pot, n) && n in und * imp && Higher(Rate(g, n), pot.feerate)
    ensures n !in pot.transactions
    ensures PotentialTo(g, inc, und, imp, SetInfo(pot.transactions + {n}, Plus(pot.feerate, Rate(g, n))), n + 1)
  {
    hide Setting, Excess, Rate, FeeRate, Higher;
    SettingIs(g, todo);
    var r := Rate(g, n);
    var f := Plus(pot.feerate, r);
    HigherIsExcess(r, pot.feerate); HigherIsExcess(r, r); HigherIsExcess(f, r);
    ExcessPlus(pot.feerate, r, r);
    FeeUnion(g, pot.transactions, {n});
    FeeOne(g, n);
    assert (set t | t in und * imp && t < n + 1) == (set t | t in und * imp && t < n) + {n};
    forall t | t in pot.transactions + {n} - inc
      ensures Excess(Rate(g, t), f) > 0
    {
      Sorted(g, todo, t, n);
      HigherIsExcess(Rate(g, n), Rate(g, t));
      ExcessTransitive(Rate(g, t), r, f);
    }
  }

  lemma {:induction false} PotentialSkip(g: Graph, inc: set<nat>, und: set<nat>, imp: set<nat>, pot: SetInfo, n: nat)
    requires PotentialTo(g, inc, und, imp, pot, n) && n !in und * imp
    ensures PotentialTo(g, inc, und, imp, pot, n + 1)
  {
    assert (set t | t in und * imp && t < n + 1) == (set t | t in und * imp && t < n);
  }

  lemma {:induction false} PotentialStop(g: Graph, todo: set<nat>, inc: set<nat>, und: set<nat>, imp: set<nat>,
      pot: SetInfo, n: nat)
    requires Setting(g, todo) && und <= todo && PotentialTo(g, inc, und, imp, pot, n)
    requires n >= |g.entries| || (n in und * imp && !Higher(Rate(g, n), pot.feerate))
    ensures IsPotential(g, inc, und, imp, pot)
  {
    hide Setting, Excess, Rate, FeeRate, Higher;
    SettingIs(g, todo);
    forall t | t in und * imp - pot.transactions
      ensures Excess(Rate(g, t), pot.feerate) <= 0
    {
      assert t >= n;
      HigherIsExcess(Rate(g, n), pot.feerate);
      Sorted(g, todo, n, t);
      ExcessTransitive(Rate(g, t), Rate(g, n), pot.feerate);
    }
  }

  /** No set that fits has a higher feerate than both the potential and the best. */
  lemma {:induction false} PotentialBound(g: Graph, todo: set<nat>, inc: set<nat>, und: set<nat>, imp: set<nat>,
      pot: SetInfo, best: FeeFrac, c: set<nat>)
    requires Setting(g, todo) && inc <= todo && und <= todo && inc !! und && inc != {} && best.size > 0
    requires Improvers(g, todo, imp, best) && IsPotential(g, inc, und, imp, pot) && Fits(inc, und, c)
    ensures Excess(FeeRate(g, c), pot.feerate) <= 0 || Excess(FeeRate(g, c), best) <= 0
  {
    hide Setting, Excess, Rate, FeeRate;
    SettingIs(g, todo);
    var more := pot.transactions - inc;
    assert inc + more == pot.transactions;
    FeePositive(g, pot.transactions);
    HigherIsExcess(pot.feerate, pot.feerate);
    HigherIsExcess(best, pot.feerate);
    var rate := if Excess(best, pot.feerate) <= 0 then pot.feerate else best;
    forall t | t in more
      ensures Excess(Rate(g, t), rate) > 0
    {
      assert t in imp;
    }
    forall t | t in c - inc - more
      ensures Excess(Rate(g, t), rate) <= 0
    {
      if t in imp {
        assert t in und * imp - pot.transactions;
        ExcessTransitive(Rate(g, t), pot.feerate, best);
      } else {
        assert t in todo;
        ExcessTransitive(Rate(g, t), best, pot.feerate);
      }
    }
    GainBound(g, inc, more, c, rate);
  }

  // ---------------------------------------------------------------------------------------
  // Jumping ahead

  /** A closed part of the potential set lies within every optimum that fits and beats best. */
  lemma {:induction false} JumpAhead(g: Graph, todo: set<nat>, inc: set<nat>, und: set<nat>, imp: set<nat>,
      pot: SetInfo, best: FeeFrac, c: set<nat>, t: set<nat>)
    requires Setting(g, todo) && inc <= todo && und <= todo && inc !! und && inc != {} && best.size > 0
    requires Improvers(g, todo, imp, best) && IsPotential(g, inc, und, imp, pot) && Fits(inc, und, c)
    requires Optimum(g, todo, c) && Excess(FeeRate(g, c), best) > 0
    requires Closed(g, todo, t) && t <= pot.transactions
    ensures t <= c
  {
    hide Setting, Excess, Rate, FeeRate;
    SettingIs(g, todo);
    PotentialBound(g, todo, inc, und, imp, pot, best, c);
    var x, fc := t - c, FeeRate(g, c);
    assert forall y :: y in t ==> y in c || y in x;
    assert c + x == c + t;
    ClosedUnion(g, todo, c, t);
    assert Candidate(g, todo, c + t);
    if x != {} {
      SomeGain(g, x, pot.feerate);
      FeePositive(g, pot.transactions);
      FeePositive(g, x);
      FeePositive(g, c);
      HigherIsExcess(fc, pot.feerate);
      ExcessTransitive(FeeRate(g, x), pot.feerate, fc);
      FeeUnion(g, c, x);
      ExcessPlus(fc, FeeRate(g, x), fc);
      HigherIsExcess(fc, fc);
    }
  }

  lemma ClosedUnion(g: Graph, todo: set<nat>, a: set<nat>, b: set<nat>)
    requires Closed(g, todo, a) && Closed(g, todo, b)
    ensures Closed(g, todo, a + b)
  {
  }

  lemma {:induction false} AncestorsClosed(g: Graph, todo: set<nat>, i: nat)
    requires WellFormed(g) && todo <= g.used && i in todo
    ensures Closed(g, todo, Anc(g, i) * todo) && i in Anc(g, i) * todo
  {
    hide WellFormed;
    SelfAncestor(g, i);
    forall x, y | x in Anc(g, i) * todo && y in Anc(g, x) && y in todo
      ensures y in Anc(g, i)
    {
      AncestorTransitive(g, i, x, y);
    }
  }

  // ---------------------------------------------------------------------------------------
  // An optimum exists

  lemma {:induction false} MaximumExists(g: Graph, sets: set<set<nat>>)
    requires WellFormed(g) && Sized(g) && sets != {}
    requires forall c :: c in sets ==> c != {} && c <= g.used
    ensures exists c :: c in sets && forall d :: d in sets ==> Excess(FeeRate(g, d), FeeRate(g, c)) <= 0
    decreases |sets|
  {
    hide WellFormed, Sized, Excess, FeeRate;
    var x :| x in sets;
    HigherIsExcess(FeeRate(g, x), FeeRate(g, x));
    var others := sets - {x};
    assert forall d :: d in sets ==> d == x || d in others;
    if others == {} {
      assert forall d :: d in sets ==> Excess(FeeRate(g, d), FeeRate(g, x)) <= 0;
    } else {
      MaximumExists(g, others);
      var c :| c in others && forall d :: d in others ==> Excess(FeeRate(g, d), FeeRate(g, c)) <= 0;
      if Excess(FeeRate(g, x), FeeRate(g, c)) > 0 {
        FeePositive(g, c);
        HigherIsExcess(FeeRate(g, x), FeeRate(g, c));
        forall d | d in sets
          ensures Excess(FeeRate(g, d), FeeRate(g, x)) <= 0
        {
          ExcessTransitive(FeeRate(g, d), FeeRate(g, c), FeeRate(g, x));
        }
      } else {
        assert c in sets && forall d :: d in sets ==> Excess(FeeRate(g, d), FeeRate(g, c)) <= 0;
      }
    }
  }

  lemma {:induction false} OptimumExists(g: Graph, todo: set<nat>)
    requires Setting(g, todo) && todo != {}
    ensures exists c :: Optimum(g, todo, c)
  {
    hide Setting, Excess, FeeRate;
    SettingIs(g, todo);
    var sets := set c | c <= todo && Candidate(g, todo, c);
    assert todo in sets;
    MaximumExists(g, sets);
    var c :| c in sets && forall d :: d in sets ==> Excess(FeeRate(g, d), FeeRate(g, c)) <= 0;
    forall d | Candidate(g, todo, d)
      ensures Excess(FeeRate(g, d), FeeRate(g, c)) <= 0
    {
      assert d in sets;
    }
    assert Optimum(g, todo, c);
  }
}
