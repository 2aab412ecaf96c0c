/** Computing the chunks of a linearization, and of what remains of it while sets of
    transactions are taken out (src/cluster_linearize.h:337-540). */
module Chunkings {
  import opened FeeFracs
  import opened Diagrams
  import opened Sequences
  import opened DepGraphs
  import opened Linearizations

  /** A set of transactions together with its total fee and size. */
  datatype SetInfo = SetInfo(transactions: set<nat>, feerate: FeeFrac)

  ghost predicate Summed(g: Graph, info: SetInfo) {
    info.feerate == FeeRate(g, info.transactions)
  }

  /** info with more transactions added, which may overlap with those it has. */
  function Add(g: Graph, info: SetInfo, more: set<nat>): SetInfo {
    SetInfo(info.transactions + more, Plus(info.feerate, FeeRate(g, more - info.transactions)))
  }

  // ---------------------------------------------------------------------------------------
  // Chunk feerates of a whole linearization

  method ChunkLinearization(g: Graph, linearization: seq<nat>) returns (ret: seq<FeeFrac>)
    requires WellFormed(g) && Sized(g) && Distinct(linearization) && Elems(linearization) <= g.used
    ensures IsPath(PathOf(g, linearization)) && ret == Chunks(PathOf(g, linearization))
  {
    hide WellFormed, IsPath, IsChunking, AlmostChunked, Chunks, ChunksOf, PathOf, Higher, Rate;
    PathOfIsPath(g, linearization);
    ghost var p := PathOf(g, linearization);
    ghost var n := |linearization|;
    PathAt(g, linearization, 0, EMPTY);
    ghost var b: seq<nat> := [0];
    ret := [];
    NoChunks(p);
    for i := 0 to |linearization|
      invariant IsChunking(p, b, i) && Cuts(b, i) && ret == ChunksOf(p, b, i)
    {
      var newChunk := Rate(g, linearization[i]);
      AddChunk(p, b, i);
      b := b + [i + 1];
      StepIsRate(g, linearization, i);
      while ret != [] && Higher(newChunk, ret[|ret| - 1])
        invariant |b| >= 2 && AlmostChunked(p, b, i + 1) && Cuts(b, i + 1)
        invariant ret + [newChunk] == ChunksOf(p, b, i + 1)
        decreases |ret|
      {
        JoinChunks(p, b, i + 1, ret, newChunk);
        b := b[..|b| - 2] + [i + 1];
        newChunk := Plus(newChunk, ret[|ret| - 1]);
        ret := ret[..|ret| - 1];
      }
      ChunksSettled(p, b, i + 1, ret, newChunk);
      ret := ret + [newChunk];
    }
    ChunksAre(p, b, n);
  }

  lemma NoChunks(p: seq<FeeFrac>)
    requires IsPath(p)
    ensures IsChunking(p, [0], 0) && Cuts([0], 0) && ChunksOf(p, [0], 0) == []
  {
  }

  lemma ChunksAre(p: seq<FeeFrac>, b: seq<nat>, n: nat)
    requires IsPath(p) && n == |p| - 1 && IsChunking(p, b, n)
    ensures Cuts(b, n) && ChunksOf(p, b, n) == Chunks(p) && b == ChunkCuts(p, n)
  {
    hide ChunksOf;
    ChunkingUnique(p, b, ChunkCuts(p, n), n);
  }

  lemma {:induction false} StepIsRate(g: Graph, s: seq<nat>, i: nat)
    requires WellFormed(g) && Sized(g) && Distinct(s) && Elems(s) <= g.used && i < |s|
    ensures IsPath(PathOf(g, s)) && i + 1 < |PathOf(g, s)| && Step(PathOf(g, s), i, i + 1) == Rate(g, s[i])
  {
    hide WellFormed, FeeRate, Rate;
    PathOfIsPath(g, s);
    ElemsTake(s, i);
    FeeUnion(g, Elems(s[..i]), {s[i]});
    UsedInRange(g);
    assert s[i] in Elems(s);
    FeeOne(g, s[i]);
  }

  lemma {:induction false} AddChunk(p: seq<FeeFrac>, b: seq<nat>, i: nat)
    requires IsPath(p) && i + 1 < |p| && IsChunking(p, b, i)
    ensures AlmostChunked(p, b + [i + 1], i + 1) && Cuts(b, i) && Cuts(b + [i + 1], i + 1)
    ensures ChunksOf(p, b + [i + 1], i + 1) == ChunksOf(p, b, i) + [Step(p, i, i + 1)]
  {
    hide Excess;
    AppendedOne(p, b, i + 1);
  }

  lemma {:induction false} JoinChunks(p: seq<FeeFrac>, b: seq<nat>, n: nat, ret: seq<FeeFrac>, c: FeeFrac)
    requires AlmostChunked(p, b, n) && |b| >= 2 && ret + [c] == ChunksOf(p, b, n)
    requires ret != [] && Higher(c, ret[|ret| - 1])
    ensures |b| >= 3
    ensures var b' := b[..|b| - 2] + [n];
            AlmostChunked(p, b', n) && Cuts(b', n) && ret[..|ret| - 1] + [Plus(c, ret[|ret| - 1])] == ChunksOf(p, b', n)
  {
    hide Excess, IsChunk, ChunksOf, Higher;
    var d := ChunksOf(p, b, n);
    ChunkAt(p, b, n, 0);
    var i := |b| - 3;
    assert c == d[i + 1] && ret[i] == d[i];
    ChunkAt(p, b, n, i);
    ChunkAt(p, b, n, i + 1);
    HigherIsExcess(c, ret[i]);
    MergedLast(p, b, n);
    var b' := b[..|b| - 2] + [n];
    ChunkAt(p, b', n, i);
    var d', r := ChunksOf(p, b', n), ret[..i] + [Plus(c, ret[i])];
    assert d'[i] == r[i];
    forall j | 0 <= j < i
      ensures d'[j] == r[j]
    {
      ChunkAt(p, b, n, j);
      ChunkAt(p, b', n, j);
      assert ret[j] == d[j];
    }
  }

  lemma {:induction false} ChunkAt(p: seq<FeeFrac>, b: seq<nat>, n: nat, i: nat)
    requires IsPath(p) && n < |p| && Cuts(b, n) && i < |b| - 1
    ensures |ChunksOf(p, b, n)| == |b| - 1 && b[i] < b[i + 1] <= n
    ensures ChunksOf(p, b, n)[i] == Step(p, b[i], b[i + 1])
  {
    assert b[i] < b[i + 1] && (i + 1 == |b| - 1 || b[i + 1] < b[|b| - 1]);
  }

  lemma {:induction false} ChunksSettled(p: seq<FeeFrac>, b: seq<nat>, n: nat, ret: seq<FeeFrac>, c: FeeFrac)
    requires AlmostChunked(p, b, n) && |b| >= 2 && ret + [c] == ChunksOf(p, b, n)
    requires ret != [] ==> !Higher(c, ret[|ret| - 1])
    ensures IsChunking(p, b, n)
  {
    hide Excess, IsChunk, ChunksOf, Higher;
    var d := ChunksOf(p, b, n);
    ChunkAt(p, b, n, 0);
    if ret != [] {
      assert c == d[|d| - 1] && ret[|ret| - 1] == d[|d| - 2];
      ChunkAt(p, b, n, |d| - 1);
      ChunkAt(p, b, n, |d| - 2);
      HigherIsExcess(c, ret[|ret| - 1]);
    }
  }

  // ---------------------------------------------------------------------------------------
  // Chunk sets

  /** info is the set of transactions i to j of s. */
  ghost predicate IsSlice(g: Graph, info: SetInfo, s: seq<nat>, i: nat, j: nat)
    requires i <= j <= |s|
  {
    info.transactions == Elems(s[..j]) - Elems(s[..i]) && Summed(g, info)
  }

  /** cs are the sets of transactions between the cuts b of the first n of s. */
  ghost predicate SetsBetween(g: Graph, cs: seq<SetInfo>, s: seq<nat>, b: seq<nat>, n: nat)
  {
    && n <= |s| && Cuts(b, n) && |cs| == |b| - 1
    && forall i :: 0 <= i < |cs| ==> SliceAt(g, cs[i], s, b, n, i)
  }

  ghost predicate SliceAt(g: Graph, info: SetInfo, s: seq<nat>, b: seq<nat>, n: nat, i: nat)
    requires n <= |s| && Cuts(b, n) && i < |b| - 1
  {
    CutAt(b, n, i);
    IsSlice(g, info, s, b[i], b[i + 1])
  }

  lemma CutAt(b: seq<nat>, n: nat, i: nat)
    requires Cuts(b, n) && i < |b| - 1
    ensures b[i] < b[i + 1] <= n
  {
    assert b[i] < b[i + 1] && (i + 1 == |b| - 1 || b[i + 1] < b[|b| - 1]);
  }

  /** cs are the chunks of s. */
  ghost predicate ChunkSets(g: Graph, cs: seq<SetInfo>, s: seq<nat>) {
    && IsPath(PathOf(g, s))
    && SetsBetween(g, cs, s, ChunkCuts(PathOf(g, s), |s|), |s|)
  }

  lemma {:induction false} StepIsSlice(g: Graph, s: seq<nat>, i: nat, j: nat, info: SetInfo)
    requires IsPath(PathOf(g, s)) && i <= j <= |s| && IsSlice(g, info, s, i, j)
    ensures Step(PathOf(g, s), i, j) == info.feerate
  {
    hide FeeRate;
    var a, b := Elems(s[..i]), Elems(s[..j]);
    assert forall x :: x in s[..i] ==> x in s[..j];
    FeeSubset(g, a, b);
  }

  lemma {:induction false} JoinSlices(g: Graph, s: seq<nat>, i: nat, j: nat, k: nat, x: SetInfo, y: SetInfo)
    requires i <= j <= k <= |s| && IsSlice(g, x, s, i, j) && IsSlice(g, y, s, j, k)
    ensures x.transactions !! y.transactions
    ensures IsSlice(g, SetInfo(y.transactions + x.transactions, Plus(y.feerate, x.feerate)), s, i, k)
  {
    hide FeeRate;
    assert forall z :: z in s[..i] ==> z in s[..j];
    assert forall z :: z in s[..j] ==> z in s[..k];
    FeeUnion(g, y.transactions, x.transactions);
  }

  /** All sets but the last, and add as the last, lie between the cuts b. */
  ghost predicate Building(g: Graph, cs: seq<SetInfo>, add: SetInfo, s: seq<nat>, b: seq<nat>, n: nat) {
    && IsPath(PathOf(g, s)) && |b| >= 2
    && AlmostChunked(PathOf(g, s), b, n) && SetsBetween(g, cs + [add], s, b, n)
  }

  lemma {:induction false} StartBuilding(g: Graph, cs: seq<SetInfo>, add: SetInfo, s: seq<nat>, b: seq<nat>, n: nat)
    requires WellFormed(g) && Sized(g) && Distinct(s) && Elems(s) <= g.used && n < |s|
    requires IsPath(PathOf(g, s)) && IsChunking(PathOf(g, s), b, n) && SetsBetween(g, cs, s, b, n)
    requires add == SetInfo({s[n]}, Rate(g, s[n]))
    ensures Building(g, cs, add, s, b + [n + 1], n + 1)
  {
    hide WellFormed, Sized, AlmostChunked, IsChunking, ChunksOf, FeeRate, Rate, IsSlice, PathOf, IsPath, Excess, Gain;
    PathAt(g, s, 0, EMPTY);
    AddChunk(PathOf(g, s), b, n);
    var b', cs' := b + [n + 1], cs + [add];
    SingleSlice(g, s, n);
    forall i | 0 <= i < |cs'|
      ensures SliceAt(g, cs'[i], s, b', n + 1, i)
    {
      if i < |cs| {
        CutAt(b, n, i);
        assert SliceAt(g, cs[i], s, b, n, i);
      }
    }
  }

  lemma {:induction false} SingleSlice(g: Graph, s: seq<nat>, n: nat)
    requires WellFormed(g) && Distinct(s) && Elems(s) <= g.used && n < |s|
    ensures IsSlice(g, SetInfo({s[n]}, Rate(g, s[n])), s, n, n + 1)
  {
    hide FeeRate, WellFormed, Rate;
    ElemsTake(s, n);
    UsedInRange(g);
    assert s[n] in Elems(s);
    FeeOne(g, s[n]);
  }

  lemma {:induction false} LastTwo(g: Graph, cs: seq<SetInfo>, add: SetInfo, s: seq<nat>, b: seq<nat>, n: nat)
    requires Building(g, cs, add, s, b, n) && cs != []
    ensures |b| >= 3 && b[|b| - 3] < b[|b| - 2] < n <= |s| && b[|b| - 1] == n
    ensures IsSlice(g, cs[|cs| - 1], s, b[|b| - 3], b[|b| - 2]) && IsSlice(g, add, s, b[|b| - 2], n)
    ensures NotRising(PathOf(g, s), b, |b| - 3) <==> !Higher(add.feerate, cs[|cs| - 1].feerate)
  {
    hide AlmostChunked, IsSlice, Excess, Higher, FeeRate;
    var cs' := cs + [add];
    var i := |cs| - 1;
    CutAt(b, n, i);
    CutAt(b, n, i + 1);
    assert SliceAt(g, cs'[i], s, b, n, i) && SliceAt(g, cs'[i + 1], s, b, n, i + 1);
    StepIsSlice(g, s, b[i], b[i + 1], cs[i]);
    StepIsSlice(g, s, b[i + 1], n, add);
    HigherIsExcess(add.feerate, cs[i].feerate);
  }

  lemma {:induction false} KeepBuilding(g: Graph, cs: seq<SetInfo>, add: SetInfo, s: seq<nat>, b: seq<nat>, n: nat)
    requires Building(g, cs, add, s, b, n) && cs != [] && Higher(add.feerate, cs[|cs| - 1].feerate)
    ensures |b| >= 2 && add.transactions !! cs[|cs| - 1].transactions
    ensures var x := cs[|cs| - 1];
            Building(g, cs[..|cs| - 1], SetInfo(add.transactions + x.transactions, Plus(add.feerate, x.feerate)), s,
                b[..|b| - 2] + [n], n)
  {
    hide AlmostChunked, IsSlice, Higher, FeeRate, NotRising;
    LastTwo(g, cs, add, s, b, n);
    MergedLast(PathOf(g, s), b, n);
    var i := |cs| - 1;
    var x, b' := cs[i], b[..|b| - 2] + [n];
    JoinSlices(g, s, b[i], b[i + 1], n, x, add);
    var cs' := cs[..i] + [SetInfo(add.transactions + x.transactions, Plus(add.feerate, x.feerate))];
    JoinedCuts(b, n);
    forall k | 0 <= k < |cs'|
      ensures SliceAt(g, cs'[k], s, b', n, k)
    {
      if k < i {
        assert SliceAt(g, (cs + [add])[k], s, b, n, k);
      }
    }
  }

  lemma JoinedCuts(b: seq<nat>, n: nat)
    requires |b| >= 3 && Cuts(b, n)
    ensures Cuts(b[..|b| - 2] + [n], n)
  {
  }

  lemma {:induction false} DoneBuilding(g: Graph, cs: seq<SetInfo>, add: SetInfo, s: seq<nat>, b: seq<nat>, n: nat)
    requires Building(g, cs, add, s, b, n) && (cs != [] ==> !Higher(add.feerate, cs[|cs| - 1].feerate))
    ensures IsChunking(PathOf(g, s), b, n) && SetsBetween(g, cs + [add], s, b, n)
  {
    hide IsSlice, Higher, FeeRate, NotRising;
    if cs != [] {
      LastTwo(g, cs, add, s, b, n);
    }
  }

  // ---------------------------------------------------------------------------------------
  // The chunking of what remains of a linearization

  class LinearizationChunking {
    const g: Graph
    var lin: seq<nat>
    var chunks: seq<SetInfo>
    var skip: nat
    var todo: set<nat>

    /** What remains of the linearization. */
    ghost function Rest(): seq<nat>
      reads this
    {
      Without(lin, g.used - todo)
    }

    ghost predicate Shaped()
      reads this
    {
      && WellFormed(g) && Sized(g)
      && Distinct(lin) && Elems(lin) <= g.used && todo <= Elems(lin)
    }

    ghost predicate Valid()
      reads this
    {
      Shaped() && skip <= |chunks| && ChunkSets(g, chunks[skip..], Rest())
    }

    function NumChunksLeft(): nat
      requires Valid()
      reads this
    {
      |chunks| - skip
    }

    function GetChunk(n: nat): SetInfo
      requires Valid() && n < NumChunksLeft()
      reads this
    {
      chunks[n + skip]
    }

    constructor (g: Graph, lin: seq<nat>)
      requires WellFormed(g) && Sized(g) && Distinct(lin) && Elems(lin) <= g.used
      ensures Valid() && this.g == g && todo == Elems(lin) && Rest() == lin
    {
      this.g, this.lin, chunks, skip := g, lin, [], 0;
      todo := set i | i in lin;
      new;
      WithoutNothing(lin, g.used - todo);
      BuildChunks();
    }

    method BuildChunks()
      requires Shaped() && chunks == [] && skip == 0
      modifies this`lin, this`chunks
      ensures Valid() && Rest() == old(Rest())
    {
      hide WellFormed, IsChunking, SetsBetween, Building, Higher, Rate, FeeRate, Sized, PathOf, IsPath, Without,
          ChunkSets;
      ghost var s := Rest();
      WithoutElems(lin, g.used - todo);
      while lin != [] && lin[0] !in todo
        invariant chunks == [] && Distinct(lin) && Elems(lin) <= g.used && todo <= Elems(lin) && Rest() == s
        decreases |lin|
      {
        DropDone(lin, g.used - todo, todo);
        lin := lin[1..];
      }
      PathOfIsPath(g, s);
      ghost var b: seq<nat> := [0];
      ghost var n := 0;
      ghost var l := lin;
      NoSets(g, s);
      WithoutAll(lin[..0], g.used - todo);
      for i := 0 to |lin|
        invariant lin == l && n == |Without(lin[..i], g.used - todo)| <= |s|
        invariant IsChunking(PathOf(g, s), b, n) && SetsBetween(g, chunks, s, b, n)
      {
        var idx := lin[i];
        NextOfRest(lin, g.used - todo, i);
        if idx in todo {
          assert idx in Elems(lin);
          var add := SetInfo({idx}, Rate(g, idx));
          StartBuilding(g, chunks, add, s, b, n);
          n := n + 1;
          b := b + [n];
          while chunks != [] && Higher(add.feerate, chunks[|chunks| - 1].feerate)
            invariant lin == l && Building(g, chunks, add, s, b, n)
            decreases |chunks|
          {
            var last := chunks[|chunks| - 1];
            KeepBuilding(g, chunks, add, s, b, n);
            b := b[..|b| - 2] + [n];
            add := SetInfo(add.transactions + last.transactions, Plus(add.feerate, last.feerate));
            chunks := chunks[..|chunks| - 1];
          }
          DoneBuilding(g, chunks, add, s, b, n);
          chunks := chunks + [add];
        }
      }
      assert lin[..|lin|] == lin;
      AllBuilt(g, chunks, s, b);
      assert chunks[0..] == chunks;
    }

    /** Takes a set of transactions out of what remains. */
    method MarkDone(subset: set<nat>)
      requires Valid() && subset != {} && subset <= todo
      modifies this
      ensures Valid() && todo == old(todo) - subset
      ensures Rest() == Without(old(Rest()), subset)
    {
      hide WellFormed, Sized, ChunkSets, Without, Elems, Distinct;
      ghost var cs := chunks[skip..];
      Marked(g, lin, todo, subset);
      SomeChunk(g, cs, Rest());
      assert cs[0] == chunks[skip] && cs[1..] == chunks[skip + 1..];
      todo := todo - subset;
      if chunks[skip].transactions == subset {
        FirstChunkDone(g, lin, old(todo), subset, cs);
        skip := skip + 1;
        lin := lin[|subset|..];
      } else {
        chunks := [];
        skip := 0;
        BuildChunks();
      }
    }

    /** The shortest intersection of subset with the leading chunks that has no lower feerate
        than subset. */
    method IntersectPrefixes(subset: SetInfo) returns (r: SetInfo)
      requires Valid() && subset.transactions <= todo && Summed(g, subset)
      ensures Summed(g, r) && r.transactions <= subset.transactions
      ensures subset.transactions != {} ==> r.transactions != {}
      ensures PrefixPart(r.transactions, subset.transactions, Rest())
      ensures Excess(subset.feerate, r.feerate) <= 0
      ensures NoBetterStart(g, r.transactions, Rest())
    {
      hide WellFormed, Sized, ChunkSets, Excess, Higher, FeeRate, NoBetterStart, StartLower, PrefixPart, Without, Upto;
      ghost var s := Rest();
      ghost var cs := chunks[skip..];
      RestElems(lin, g.used, todo);
      UptoStart(g, cs, subset);
      var acc := SetInfo({}, EMPTY);
      for i := 0 to |chunks| - skip
        invariant acc.transactions == subset.transactions * Upto(cs, i) && Summed(g, acc)
        invariant StartsLower(g, subset, cs, i)
      {
        var toAdd := chunks[i + skip].transactions * subset.transactions;
        assert cs[i] == chunks[i + skip];
        UptoNext(g, cs, s, i, subset.transactions);
        FeeUnion(g, acc.transactions, toAdd);
        if toAdd != {} {
          acc := acc.(transactions := acc.transactions + toAdd);
          if acc.transactions == subset.transactions {
            WholeSubset(g, subset, cs, s, i + 1);
            return subset;
          }
          acc := acc.(feerate := Plus(acc.feerate, FeeRate(g, toAdd)));
          if !Higher(subset.feerate, acc.feerate) {
            PartOfSubset(g, acc, subset, cs, s, i + 1);
            return acc;
          }
        } else {
          assert acc.transactions + toAdd == acc.transactions;
        }
        StillLower(g, acc, subset, cs, i);
      }
      UptoAll(g, cs, s);
      assert acc.transactions == subset.transactions;
      WholeSubset(g, subset, cs, s, |cs|);
      r := subset;
    }
  }

  // ---------------------------------------------------------------------------------------
  // Taking the first chunk

  lemma {:induction false} RestElems(lin: seq<nat>, used: set<nat>, todo: set<nat>)
    requires Distinct(lin) && Elems(lin) <= used && todo <= Elems(lin)
    ensures Elems(Without(lin, used - todo)) == todo && Distinct(Without(lin, used - todo))
  {
    WithoutElems(lin, used - todo);
  }

  lemma {:induction false} SomeChunk(g: Graph, cs: seq<SetInfo>, s: seq<nat>)
    requires ChunkSets(g, cs, s) && Elems(s) != {}
    ensures cs != []
  {
    hide IsChunk, NotRising, FeeRate;
    var b := ChunkCuts(PathOf(g, s), |s|);
    assert b[0] == 0 && b[|b| - 1] == |s|;
  }

  lemma {:induction false} FirstChunkIs(g: Graph, cs: seq<SetInfo>, s: seq<nat>)
    requires ChunkSets(g, cs, s) && cs != [] && Distinct(s)
    ensures var b := ChunkCuts(PathOf(g, s), |s|);
            |b| >= 2 && 0 < b[1] <= |s| && cs[0].transactions == Elems(s[..b[1]]) && |cs[0].transactions| == b[1]
  {
    hide IsChunking, FeeRate, PathOf;
    var b := ChunkCuts(PathOf(g, s), |s|);
    CutAt(b, |s|, 0);
    assert SliceAt(g, cs[0], s, b, |s|, 0);
    assert s[..b[0]] == [];
    assert s == s[..b[1]] + s[b[1]..];
    DistinctAppend(s[..b[1]], s[b[1]..]);
    DistinctSize(s[..b[1]]);
  }

  lemma {:induction false} Marked(g: Graph, lin: seq<nat>, todo: set<nat>, subset: set<nat>)
    requires Distinct(lin) && Elems(lin) <= g.used && subset <= todo <= Elems(lin) && subset != {}
    ensures Elems(Without(lin, g.used - todo)) != {}
    ensures Without(lin, g.used - (todo - subset)) == Without(Without(lin, g.used - todo), subset)
    ensures todo - subset <= Elems(lin)
  {
    hide Without;
    RestElems(lin, g.used, todo);
    assert g.used - (todo - subset) == (g.used - todo) + subset;
    WithoutTwice(lin, g.used - todo, subset);
  }

  lemma {:induction false} FirstChunkDone(g: Graph, lin: seq<nat>, todo: set<nat>, subset: set<nat>, cs: seq<SetInfo>)
    requires WellFormed(g) && Sized(g) && Distinct(lin) && Elems(lin) <= g.used && subset <= todo <= Elems(lin)
    requires ChunkSets(g, cs, Without(lin, g.used - todo)) && cs != [] && cs[0].transactions == subset
    ensures |subset| <= |lin| && Distinct(lin[|subset|..]) && Elems(lin[|subset|..]) <= g.used
    ensures todo - subset <= Elems(lin[|subset|..])
    ensures Without(lin[|subset|..], g.used - (todo - subset)) == Without(Without(lin, g.used - todo), subset)
    ensures ChunkSets(g, cs[1..], Without(Without(lin, g.used - todo), subset))
  {
    hide ChunkSets, WellFormed, Sized, Without;
    var done := g.used - todo;
    var s := Without(lin, done);
    RestElems(lin, g.used, todo);
    assert g.used - (todo - subset) == done + subset;
    FirstChunkIs(g, cs, s);
    DropLeading(lin, done, subset, |subset|);
    DropFirst(s, subset, |subset|);
    TailChunkSets(g, cs, s);
  }

  lemma {:induction false} DropFirst(s: seq<nat>, subset: set<nat>, m: nat)
    requires Distinct(s) && m <= |s| && subset == Elems(s[..m])
    ensures Without(s, subset) == s[m..]
  {
    hide Without;
    assert s == s[..m] + s[m..];
    WithoutAppend(s[..m], s[m..], subset);
    WithoutAll(s[..m], subset);
    DistinctAppend(s[..m], s[m..]);
    WithoutNothing(s[m..], subset);
  }

  lemma {:induction false} DropLeading(lin: seq<nat>, done: set<nat>, subset: set<nat>, m: nat)
    requires Distinct(lin) && m <= |Without(lin, done)| && subset == Elems(Without(lin, done)[..m])
    ensures m <= |lin| && Distinct(lin[m..]) && Elems(lin[m..]) <= Elems(lin)
    ensures Elems(lin) - done - subset <= Elems(lin[m..])
    ensures Without(lin[m..], done + subset) == Without(Without(lin, done), subset)
  {
    hide Without;
    WithoutShorter(lin, done);
    LeadingDone(lin, done, subset, m);
    assert lin == lin[..m] + lin[m..];
    ElemsAppend(lin[..m], lin[m..]);
    DistinctAppend(lin[..m], lin[m..]);
    WithoutAppend(lin[..m], lin[m..], done + subset);
    WithoutAll(lin[..m], done + subset);
    WithoutTwice(lin, done, subset);
  }

  lemma {:induction false} WithoutShorter(s: seq<nat>, t: set<nat>)
    ensures |Without(s, t)| <= |s|
  {
    if s != [] {
      WithoutShorter(s[..|s| - 1], t);
    }
  }

  /** When the first m remaining transactions are done, the first m of the linearization are. */
  lemma {:induction false} LeadingDone(lin: seq<nat>, done: set<nat>, subset: set<nat>, m: nat)
    requires m <= |Without(lin, done)| <= |lin| && subset == Elems(Without(lin, done)[..m])
    ensures Elems(lin[..m]) <= done + subset
  {
    var s := Without(lin, done);
    forall x | x in lin[..m]
      ensures x in done + subset
    {
      var k :| 0 <= k < m && lin[k] == x;
      NextOfRest(lin, done, k);
      WithoutShorter(lin[..k], done);
      if x !in done {
        assert s[..m][|Without(lin[..k], done)|] == x;
      }
    }
  }

  lemma {:induction false} TailChunkSets(g: Graph, cs: seq<SetInfo>, s: seq<nat>)
    requires WellFormed(g) && Sized(g) && Distinct(s) && Elems(s) <= g.used
    requires ChunkSets(g, cs, s) && cs != []
    ensures |cs[0].transactions| <= |s| && ChunkSets(g, cs[1..], s[|cs[0].transactions|..])
  {
    hide IsChunking, FeeRate, WellFormed, Sized, PathOf, SetsBetween;
    var p := PathOf(g, s);
    var b := ChunkCuts(p, |s|);
    ChunksAre(p, b, |s|);
    FirstChunkIs(g, cs, s);
    var m := b[1];
    var t := s[m..];
    assert s == s[..m] + t;
    DistinctAppend(s[..m], t);
    ElemsAppend(s[..m], t);
    PathOfIsPath(g, t);
    TailPathOf(g, s, m);
    TailChunking(p, b, |s|);
    TailSets(g, cs, s, b);
    AllBuilt(g, cs[1..], t, TailCuts(b));
  }

  lemma {:induction false} TailSets(g: Graph, cs: seq<SetInfo>, s: seq<nat>, b: seq<nat>)
    requires SetsBetween(g, cs, s, b, |s|) && cs != [] && Distinct(s)
    ensures b[1] <= |s| && SetsBetween(g, cs[1..], s[b[1]..], TailCuts(b), |s| - b[1])
  {
    hide FeeRate, IsSlice;
    CutAt(b, |s|, 0);
    var m := b[1];
    var t, d := s[m..], TailCuts(b);
    assert forall i :: 0 <= i < |d| ==> d[i] == b[i + 1] - m;
    forall i | 0 <= i < |cs| - 1
      ensures SliceAt(g, cs[1..][i], t, d, |t|, i)
    {
      CutAt(b, |s|, i + 1);
      assert SliceAt(g, cs[i + 1], s, b, |s|, i + 1);
      assert i == 0 || b[1] < b[i + 1];
      TailSlice(g, cs[i + 1], s, m, b[i + 1], b[i + 2]);
    }
  }

  lemma {:induction false} TailSlice(g: Graph, info: SetInfo, s: seq<nat>, m: nat, i: nat, j: nat)
    requires m <= i <= j <= |s| && Distinct(s) && IsSlice(g, info, s, i, j)
    ensures IsSlice(g, info, s[m..], i - m, j - m)
  {
    PrefixMinus(s, m, i);
    PrefixMinus(s, m, j);
    assert forall x :: x in s[..m] ==> x in s[..i];
  }

  lemma {:induction false} PrefixMinus(s: seq<nat>, m: nat, i: nat)
    requires m <= i <= |s| && Distinct(s)
    ensures Elems(s[m..][..i - m]) == Elems(s[..i]) - Elems(s[..m])
    ensures Elems(s[..m]) <= Elems(s[..i])
  {
    assert s[..i] == s[..m] + s[m..][..i - m];
    ElemsAppend(s[..m], s[m..][..i - m]);
    assert s == s[..i] + s[i..];
    DistinctAppend(s[..i], s[i..]);
    DistinctAppend(s[..m], s[m..][..i - m]);
  }

  lemma {:induction false} TailPathOf(g: Graph, s: seq<nat>, m: nat)
    requires IsPath(PathOf(g, s)) && m <= |s| && Distinct(s)
    ensures PathOf(g, s[m..]) == TailPath(PathOf(g, s), m)
  {
    hide FeeRate;
    var p, t := PathOf(g, s), s[m..];
    forall k | 0 <= k <= |t|
      ensures PathOf(g, t)[k] == Step(p, m, m + k)
    {
      PrefixMinus(s, m, m + k);
      FeeSubset(g, Elems(s[..m]), Elems(s[..m + k]));
    }
  }

  // ---------------------------------------------------------------------------------------
  // Intersections with leading chunks

  ghost function Upto(cs: seq<SetInfo>, i: nat): set<nat>
    requires i <= |cs|
  {
    if i == 0 then {} else Upto(cs, i - 1) + cs[i - 1].transactions
  }

  lemma {:induction false} UptoIsPrefix(g: Graph, cs: seq<SetInfo>, s: seq<nat>, i: nat)
    requires ChunkSets(g, cs, s) && i <= |cs|
    ensures var b := ChunkCuts(PathOf(g, s), |s|);
            |b| == |cs| + 1 && b[i] <= |s| && Upto(cs, i) == Elems(s[..b[i]])
  {
    hide IsChunking, FeeRate, PathOf;
    var b := ChunkCuts(PathOf(g, s), |s|);
    assert i == |b| - 1 || b[i] < b[|b| - 1];
    if i > 0 {
      UptoIsPrefix(g, cs, s, i - 1);
      CutAt(b, |s|, i - 1);
      assert SliceAt(g, cs[i - 1], s, b, |s|, i - 1);
      assert forall x :: x in s[..b[i - 1]] ==> x in s[..b[i]];
    } else {
      assert s[..b[0]] == [];
    }
  }

  lemma {:induction false} UptoGrows(cs: seq<SetInfo>, i: nat, j: nat)
    requires i <= j <= |cs|
    ensures Upto(cs, i) <= Upto(cs, j)
  {
    if i < j {
      UptoGrows(cs, i, j - 1);
    }
  }

  lemma {:induction false} UptoNext(g: Graph, cs: seq<SetInfo>, s: seq<nat>, i: nat, subset: set<nat>)
    requires ChunkSets(g, cs, s) && i < |cs|
    ensures var toAdd := cs[i].transactions * subset;
            subset * Upto(cs, i) !! toAdd && subset * Upto(cs, i) + toAdd == subset * Upto(cs, i + 1)
  {
    hide IsChunking, FeeRate, PathOf;
    UptoIsPrefix(g, cs, s, i);
    var b := ChunkCuts(PathOf(g, s), |s|);
    assert SliceAt(g, cs[i], s, b, |s|, i);
  }

  lemma {:induction false} UptoAll(g: Graph, cs: seq<SetInfo>, s: seq<nat>)
    requires ChunkSets(g, cs, s)
    ensures Upto(cs, |cs|) == Elems(s)
  {
    hide IsChunking, FeeRate, PathOf;
    UptoIsPrefix(g, cs, s, |cs|);
    assert s[..|s|] == s;
  }

  /** What subset has in common with the first j chunks, for every j up to i, has a lower
      feerate than subset. */
  ghost predicate StartsLower(g: Graph, subset: SetInfo, cs: seq<SetInfo>, i: nat)
    requires i <= |cs|
  {
    forall j :: 0 <= j <= i ==> StartLower(g, subset, Upto(cs, j))
  }

  ghost predicate StartLower(g: Graph, subset: SetInfo, u: set<nat>) {
    subset.transactions * u == {} || Excess(FeeRate(g, subset.transactions * u), subset.feerate) < 0
  }

  /** No intersection of r with leading chunks has a higher feerate than r. */
  ghost predicate NoBetterStart(g: Graph, r: set<nat>, s: seq<nat>) {
    && IsPath(PathOf(g, s))
    && var b := ChunkCuts(PathOf(g, s), |s|);
       forall j :: 0 <= j < |b| && b[j] <= |s| ==> Excess(FeeRate(g, r * Elems(s[..b[j]])), FeeRate(g, r)) <= 0
  }

  ghost predicate PrefixPart(r: set<nat>, subset: set<nat>, s: seq<nat>) {
    exists k :: 0 <= k <= |s| && r == subset * Elems(s[..k])
  }

  lemma {:induction false} UptoStart(g: Graph, cs: seq<SetInfo>, subset: SetInfo)
    ensures Upto(cs, 0) == {} && FeeRate(g, {}) == EMPTY && StartsLower(g, subset, cs, 0)
  {
    FeeNone(g);
  }

  lemma {:induction false} StillLower(g: Graph, acc: SetInfo, subset: SetInfo, cs: seq<SetInfo>, i: nat)
    requires i < |cs| && StartsLower(g, subset, cs, i)
    requires acc.transactions == subset.transactions * Upto(cs, i + 1) && Summed(g, acc)
    requires Higher(subset.feerate, acc.feerate) || acc.transactions == subset.transactions * Upto(cs, i)
    ensures StartsLower(g, subset, cs, i + 1)
  {
    hide Excess, FeeRate, Higher, Upto;
    HigherIsExcess(subset.feerate, acc.feerate);
    assert StartLower(g, subset, Upto(cs, i));
    assert StartLower(g, subset, Upto(cs, i + 1));
  }

  lemma {:induction false} MakeNoBetterStart(g: Graph, r: set<nat>, cs: seq<SetInfo>, s: seq<nat>)
    requires ChunkSets(g, cs, s)
    requires forall j :: 0 <= j <= |cs| ==> Excess(FeeRate(g, r * Upto(cs, j)), FeeRate(g, r)) <= 0
    ensures NoBetterStart(g, r, s)
  {
    hide IsChunking, FeeRate, Excess, PathOf;
    var b := ChunkCuts(PathOf(g, s), |s|);
    forall j | 0 <= j < |b| && b[j] <= |s|
      ensures Excess(FeeRate(g, r * Elems(s[..b[j]])), FeeRate(g, r)) <= 0
    {
      UptoIsPrefix(g, cs, s, j);
    }
  }

  lemma {:induction false} WholeSubset(g: Graph, subset: SetInfo, cs: seq<SetInfo>, s: seq<nat>, i: nat)
    requires ChunkSets(g, cs, s) && Summed(g, subset) && i <= |cs|
    requires subset.transactions <= Upto(cs, i) && (forall j :: 0 <= j < i ==> StartLower(g, subset, Upto(cs, j)))
    ensures NoBetterStart(g, subset.transactions, s) && PrefixPart(subset.transactions, subset.transactions, s)
    ensures Excess(subset.feerate, subset.feerate) <= 0
  {
    hide ChunkSets, Excess, FeeRate, NoBetterStart, Upto;
    HigherIsExcess(subset.feerate, subset.feerate);
    var t := subset.transactions;
    forall j | 0 <= j <= |cs|
      ensures Excess(FeeRate(g, t * Upto(cs, j)), FeeRate(g, t)) <= 0
    {
      if j < i {
        assert StartLower(g, subset, Upto(cs, j));
        NoExcess(g, FeeRate(g, t));
      } else {
        UptoGrows(cs, i, j);
        assert t * Upto(cs, j) == t;
      }
    }
    MakeNoBetterStart(g, t, cs, s);
    UptoAll(g, cs, s);
    UptoGrows(cs, i, |cs|);
    assert s[..|s|] == s;
    assert t == t * Elems(s[..|s|]);
  }

  lemma NoExcess(g: Graph, rate: FeeFrac)
    ensures Excess(FeeRate(g, {}), rate) == 0
  {
    FeeNone(g);
  }

  lemma {:induction false} PartOfSubset(g: Graph, acc: SetInfo, subset: SetInfo, cs: seq<SetInfo>, s: seq<nat>, i: nat)
    requires WellFormed(g) && Sized(g) && subset.transactions <= g.used && subset.transactions != {}
    requires ChunkSets(g, cs, s) && Summed(g, subset) && Summed(g, acc) && i <= |cs|
    requires acc.transactions == subset.transactions * Upto(cs, i) && !Higher(subset.feerate, acc.feerate)
    requires forall j :: 0 <= j < i ==> StartLower(g, subset, Upto(cs, j))
    ensures NoBetterStart(g, acc.transactions, s) && PrefixPart(acc.transactions, subset.transactions, s)
    ensures Excess(subset.feerate, acc.feerate) <= 0
  {
    hide Excess, FeeRate, NoBetterStart, WellFormed, Sized, Upto, Higher, ChunkSets;
    HigherIsExcess(subset.feerate, acc.feerate);
    HigherIsExcess(acc.feerate, acc.feerate);
    FeePositive(g, subset.transactions);
    var t := acc.transactions;
    forall j | 0 <= j <= |cs|
      ensures Excess(FeeRate(g, t * Upto(cs, j)), FeeRate(g, t)) <= 0
    {
      if j < i {
        assert StartLower(g, subset, Upto(cs, j));
        NoExcess(g, acc.feerate);
        UptoGrows(cs, j, i);
        assert t * Upto(cs, j) == subset.transactions * Upto(cs, j);
        ExcessTransitive(FeeRate(g, t * Upto(cs, j)), subset.feerate, acc.feerate);
      } else {
        UptoGrows(cs, i, j);
        assert t * Upto(cs, j) == t;
      }
    }
    MakeNoBetterStart(g, t, cs, s);
    UptoIsPrefix(g, cs, s, i);
  }

  /** The improvement guarantee: such a set can be moved to the front of what remains. */
  lemma {:induction false} IntersectionGathers(g: Graph, r: set<nat>, cs: seq<SetInfo>, s: seq<nat>)
    requires WellFormed(g) && Sized(g) && Distinct(s) && Elems(s) <= g.used && r <= g.used && r != {}
    requires ChunkSets(g, cs, s) && cs != [] && NoBetterStart(g, r, s)
    requires Excess(cs[0].feerate, FeeRate(g, r)) <= 0
    ensures CanGather(g, s, r)
  {
    hide Excess, FeeRate, WellFormed, Sized, PathOf, IsSlice, Gain, IsChunk, NotRising;
    var p := PathOf(g, s);
    PathAt(g, s, 0, EMPTY);
    var b := ChunkCuts(p, |s|);
    var f := FeeRate(g, r);
    FeePositive(g, r);
    CutAt(b, |s|, 0);
    assert SliceAt(g, cs[0], s, b, |s|, 0);
    StepIsSlice(g, s, b[0], b[1], cs[0]);
    forall rate: FeeFrac, k | rate.size > 0 && 0 <= k <= |s|
      ensures BeatenByGood(g, s, r, rate, k)
    {
      var j := CutBeatsPoint(p, b, |s|, k, rate);
      PathAt(g, s, k, rate);
      PathAt(g, s, b[j], rate);
      PathAt(g, s, b[j], f);
      PathAt(g, s, 0, f);
      FallsAfterCut(p, b, |s|, 0, b[j], f);
      NoExcess(g, f);
      assert Elems(s[..0]) == {};
      assert GoodFor(g, r, Elems(s[..b[j]]));
    }
  }

  lemma {:induction false} NoSets(g: Graph, s: seq<nat>)
    requires IsPath(PathOf(g, s))
    ensures IsChunking(PathOf(g, s), [0], 0) && SetsBetween(g, [], s, [0], 0)
  {
    NoChunks(PathOf(g, s));
  }

  lemma {:induction false} AllBuilt(g: Graph, cs: seq<SetInfo>, s: seq<nat>, b: seq<nat>)
    requires IsPath(PathOf(g, s)) && IsChunking(PathOf(g, s), b, |s|) && SetsBetween(g, cs, s, b, |s|)
    ensures ChunkSets(g, cs, s)
  {
    hide SetsBetween;
    ChunksAre(PathOf(g, s), b, |s|);
  }

  lemma {:induction false} DropDone(lin: seq<nat>, done: set<nat>, todo: set<nat>)
    requires lin != [] && Distinct(lin) && todo <= Elems(lin) && lin[0] !in todo && (lin[0] in done)
    ensures Distinct(lin[1..]) && Elems(lin[1..]) <= Elems(lin) && todo <= Elems(lin[1..])
    ensures Without(lin[1..], done) == Without(lin, done)
  {
    assert lin == [lin[0]] + lin[1..];
    WithoutAppend([lin[0]], lin[1..], done);
    WithoutAll([lin[0]], done);
    ElemsAppend([lin[0]], lin[1..]);
    DistinctAppend([lin[0]], lin[1..]);
  }

  lemma {:induction false} NextOfRest(lin: seq<nat>, done: set<nat>, i: nat)
    requires i < |lin|
    ensures var w := Without(lin[..i], done);
            && Without(lin[..i + 1], done) == (if lin[i] in done then w else w + [lin[i]])
            && |w| <= |Without(lin, done)|
            && |Without(lin[..i + 1], done)| <= |Without(lin, done)|
            && (lin[i] !in done ==> |w| < |Without(lin, done)| && Without(lin, done)[|w|] == lin[i])
            && w == Without(lin, done)[..|w|]
  {
    assert lin[..i + 1] == lin[..i] + [lin[i]];
    assert lin == lin[..i + 1] + lin[i + 1..];
    WithoutAppend(lin[..i + 1], lin[i + 1..], done);
    WithoutAppend(lin[..i], [lin[i]], done);
    if lin[i] in done { WithoutAll([lin[i]], done); } else { WithoutNothing([lin[i]], done); }
  }
}
