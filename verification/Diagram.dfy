/** Chunks of a linearization, as the vertices of a hull, and the order on linearizations that
    their feerate diagrams induce (src/cluster_linearize.h:396-412, src/util/feefrac.h:219-229).

    A linearization is seen here as the path of its cumulative fee/size pairs: path[k] sums the
    first k transactions. */
module Diagrams {
  import opened FeeFracs

  /** Starts at the origin and every step has a positive size. */
  ghost predicate IsPath(p: seq<FeeFrac>) {
    && |p| >= 1 && p[0] == EMPTY
    && (forall i, j :: 0 <= i < j < |p| ==> p[i].size < p[j].size)
  }

  /** The fee and size between two points of a path. */
  ghost function Step(p: seq<FeeFrac>, i: nat, j: nat): FeeFrac
    requires IsPath(p) && i <= j < |p|
  {
    Minus(p[j], p[i])
  }

  lemma StepExcess(p: seq<FeeFrac>, i: nat, j: nat, rate: FeeFrac)
    requires IsPath(p) && i <= j < |p|
    ensures Excess(Step(p, i, j), rate) == Excess(p[j], rate) - Excess(p[i], rate)
  {
    hide Excess;
    ExcessMinus(p[j], p[i], rate);
  }

  /** Every proper prefix of the steps from i to j has a strictly lower feerate than all of them. */
  ghost predicate IsChunk(p: seq<FeeFrac>, i: nat, j: nat)
    requires IsPath(p)
  {
    && i < j < |p|
    && forall k :: i < k < j ==> Excess(Step(p, i, k), Step(p, i, j)) < 0
  }

  ghost predicate Cuts(b: seq<nat>, n: nat) {
    && |b| >= 1 && b[0] == 0 && b[|b| - 1] == n
    && (forall i, j :: 0 <= i < j < |b| ==> b[i] < b[j])
  }

  /** b cuts the first n steps into chunks, whose feerates do not increase except possibly at
      the last cut. */
  ghost predicate AlmostChunked(p: seq<FeeFrac>, b: seq<nat>, n: nat) {
    && IsPath(p) && n < |p| && Cuts(b, n)
    && (forall i :: 0 <= i < |b| - 1 ==> IsChunk(p, b[i], b[i + 1]))
    && (forall i :: 0 <= i < |b| - 3 ==> NotRising(p, b, i))
  }

  /** The chunk after cut i + 1 has no higher feerate than the one before it. */
  ghost predicate NotRising(p: seq<FeeFrac>, b: seq<nat>, i: nat)
    requires IsPath(p) && i + 2 < |b| && b[i] <= b[i + 1] <= b[i + 2] < |p|
  {
    Excess(Step(p, b[i + 1], b[i + 2]), Step(p, b[i], b[i + 1])) <= 0
  }

  /** b cuts the first n steps into chunks of non-increasing feerate. */
  ghost predicate IsChunking(p: seq<FeeFrac>, b: seq<nat>, n: nat) {
    && AlmostChunked(p, b, n)
    && (|b| >= 3 ==> NotRising(p, b, |b| - 3))
  }

  // ---------------------------------------------------------------------------------------
  // One chunk

  /** Joining a chunk with a following one of higher feerate gives a chunk. */
  lemma {:induction false} MergeChunks(p: seq<FeeFrac>, i: nat, j: nat, k: nat)
    requires IsPath(p) && IsChunk(p, i, j) && IsChunk(p, j, k)
    requires Excess(Step(p, j, k), Step(p, i, j)) > 0
    ensures IsChunk(p, i, k)
  {
    hide Excess;
    var a, b, w := Step(p, i, j), Step(p, j, k), Step(p, i, k);
    assert w == Plus(a, b);
    HigherIsExcess(a, b); HigherIsExcess(a, w); HigherIsExcess(b, w); HigherIsExcess(w, w);
    HigherIsExcess(a, a); HigherIsExcess(b, b);
    ExcessPlus(a, b, a); ExcessPlus(a, b, b); ExcessPlus(a, b, w);
    assert Excess(a, w) < 0 < Excess(b, w);
    forall m | i < m < k
      ensures Excess(Step(p, i, m), w) < 0
    {
      var q := Step(p, i, m);
      if m < j {
        ExcessTransitive(q, a, w);
      } else if m > j {
        var r := Step(p, j, m);
        assert q == Plus(a, r);
        ExcessPlus(a, r, w);
        PartExcess(r, b, w);
      }
    }
  }

  /** Inside a chunk no point rises above both ends, at any rate. */
  lemma {:induction false} InsideChunk(p: seq<FeeFrac>, i: nat, j: nat, k: nat, rate: FeeFrac)
    requires IsPath(p) && IsChunk(p, i, j) && i <= k <= j
    ensures Excess(p[k], rate) <= Max(Excess(p[i], rate), Excess(p[j], rate))
  {
    hide Excess;
    if i < k < j {
      StepExcess(p, i, k, rate);
      StepExcess(p, i, j, rate);
      PartExcess(Step(p, i, k), Step(p, i, j), rate);
    }
  }

  // ---------------------------------------------------------------------------------------
  // Chunkings

  /** At every rate, every point is beaten by some cut point. */
  lemma {:induction false} CutBeatsPoint(p: seq<FeeFrac>, b: seq<nat>, n: nat, k: nat, rate: FeeFrac) returns (i: nat)
    requires AlmostChunked(p, b, n) && k <= n
    ensures i < |b| && b[i] <= n && Excess(p[b[i]], rate) >= Excess(p[k], rate)
  {
    hide Excess;
    i := 0;
    while i + 1 < |b| && b[i + 1] <= k
      invariant i < |b| && b[i] <= k
    {
      i := i + 1;
    }
    if i + 1 < |b| {
      InsideChunk(p, b[i], b[i + 1], k, rate);
      if Excess(p[b[i]], rate) < Excess(p[k], rate) {
        i := i + 1;
      }
    }
    assert i == |b| - 1 || b[i] < b[|b| - 1];
  }

  lemma {:induction false} ChunkingAt(p: seq<FeeFrac>, b: seq<nat>, n: nat, i: nat)
    requires IsChunking(p, b, n) && i + 1 < |b|
    ensures b[i] < b[i + 1] <= n && IsChunk(p, b[i], b[i + 1])
    ensures i + 2 < |b| ==> b[i + 1] < b[i + 2] <= n && NotRising(p, b, i)
  {
    hide Excess, NotRising;
    assert i + 1 == |b| - 1 || b[i + 1] < b[|b| - 1];
    assert i + 2 >= |b| - 1 || b[i + 2] < b[|b| - 1];
  }

  /** At a rate no lower than the chunk that starts at cut i, nothing after that cut rises. */
  lemma {:induction false} FallsAfterCut(p: seq<FeeFrac>, b: seq<nat>, n: nat, i: nat, k: nat, rate: FeeFrac)
    requires IsChunking(p, b, n) && i + 1 < |b| && b[i] <= k <= n && b[i] <= b[i + 1] < |p|
    requires rate.size > 0 && Excess(Step(p, b[i], b[i + 1]), rate) <= 0
    ensures Excess(p[k], rate) <= Excess(p[b[i]], rate)
    ensures Excess(Step(p, b[i], b[i + 1]), rate) < 0 && b[i + 1] <= k ==> Excess(p[k], rate) < Excess(p[b[i]], rate)
    decreases |b| - i
  {
    hide Excess;
    ChunkingAt(p, b, n, i);
    StepExcess(p, b[i], b[i + 1], rate);
    if k <= b[i + 1] {
      InsideChunk(p, b[i], b[i + 1], k, rate);
    } else {
      assert i + 1 < |b| - 1;
      ExcessTransitive(Step(p, b[i + 1], b[i + 2]), Step(p, b[i], b[i + 1]), rate);
      FallsAfterCut(p, b, n, i + 1, k, rate);
    }
  }

  /** At a rate no higher than the chunk that ends at cut i, everything before that cut is lower. */
  lemma {:induction false} RisesToCut(p: seq<FeeFrac>, b: seq<nat>, n: nat, i: nat, k: nat, rate: FeeFrac)
    requires IsChunking(p, b, n) && 0 < i < |b| && k <= b[i] <= n && b[i - 1] <= b[i]
    requires rate.size > 0 && Excess(Step(p, b[i - 1], b[i]), rate) >= 0
    ensures Excess(p[k], rate) <= Excess(p[b[i]], rate)
    decreases i
  {
    hide Excess;
    ChunkingAt(p, b, n, i - 1);
    StepExcess(p, b[i - 1], b[i], rate);
    if b[i - 1] <= k {
      InsideChunk(p, b[i - 1], b[i], k, rate);
    } else {
      ChunkingAt(p, b, n, i - 2);
      HigherIsExcess(Step(p, b[i - 1], b[i]), Step(p, b[i - 2], b[i - 1]));
      ExcessTransitive(Step(p, b[i - 2], b[i - 1]), Step(p, b[i - 1], b[i]), rate);
      RisesToCut(p, b, n, i - 1, k, rate);
    }
  }

  lemma {:induction false} NextCutUnique(p: seq<FeeFrac>, b: seq<nat>, c: seq<nat>, n: nat, i: nat)
    requires IsChunking(p, b, n) && IsChunking(p, c, n)
    requires i + 1 < |b| && i + 1 < |c| && b[i] == c[i]
    ensures b[i + 1] >= c[i + 1]
  {
    hide Excess;
    ChunkingAt(p, b, n, i);
    ChunkingAt(p, c, n, i);
    if b[i + 1] < c[i + 1] {
      // All chunks of b from cut i on lie below the feerate of the chunk of c, which they make up.
      var w := Step(p, c[i], c[i + 1]);
      HigherIsExcess(w, w);
      StepExcess(p, c[i], c[i + 1], w);
      FallsAfterCut(p, b, n, i, c[i + 1], w);
    }
  }

  /** A path has one chunking only. */
  lemma {:induction false} ChunkingUnique(p: seq<FeeFrac>, b: seq<nat>, c: seq<nat>, n: nat)
    requires IsChunking(p, b, n) && IsChunking(p, c, n)
    ensures b == c
  {
    hide Excess, NotRising, IsChunk;
    assert forall j :: 0 <= j < |b| - 1 ==> b[j] < b[|b| - 1];
    assert forall j :: 0 <= j < |c| - 1 ==> c[j] < c[|c| - 1];
    var i := 0;
    while i + 1 < |b| && i + 1 < |c|
      invariant i < |b| && i < |c| && b[..i + 1] == c[..i + 1]
    {
      NextCutUnique(p, b, c, n, i);
      NextCutUnique(p, c, b, n, i);
      i := i + 1;
    }
    assert b[i] == c[i];
  }

  /** The path that starts at point m. */
  ghost function TailPath(p: seq<FeeFrac>, m: nat): seq<FeeFrac>
    requires IsPath(p) && m < |p|
  {
    seq(|p| - m, k requires 0 <= k < |p| - m => Step(p, m, m + k))
  }

  ghost function TailCuts(b: seq<nat>): seq<nat>
    requires |b| >= 2 && forall i, j :: 0 <= i < j < |b| ==> b[i] < b[j]
  {
    seq(|b| - 1, i requires 0 <= i < |b| - 1 => assert i == 0 || b[1] < b[i + 1]; b[i + 1] - b[1])
  }

  lemma {:induction false} TailIsPath(p: seq<FeeFrac>, m: nat)
    requires IsPath(p) && m < |p|
    ensures IsPath(TailPath(p, m))
    ensures forall i, j :: 0 <= i <= j < |p| - m ==> Step(TailPath(p, m), i, j) == Step(p, m + i, m + j)
  {
    var q := TailPath(p, m);
    forall k | 0 <= k < |q|
      ensures q[k] == Step(p, m, m + k) && p[m].size <= p[m + k].size
    {
    }
    assert q[0] == Step(p, m, m + 0);
  }

  /** Past its first chunk, a path is chunked by the remaining cuts. */
  lemma {:induction false} TailChunking(p: seq<FeeFrac>, b: seq<nat>, n: nat)
    requires IsChunking(p, b, n) && n == |p| - 1 && |b| >= 2
    ensures b[1] <= n && IsChunking(TailPath(p, b[1]), TailCuts(b), n - b[1])
  {
    hide Excess, TailPath, Step, IsChunk, NotRising;
    ChunkingAt(p, b, n, 0);
    var m := b[1];
    var q, c := TailPath(p, m), TailCuts(b);
    TailIsPath(p, m);
    assert |q| == |p| - m by { TailLength(p, m); }
    forall i | 0 <= i < |c| - 1
      ensures IsChunk(q, c[i], c[i + 1])
      ensures i < |c| - 2 ==> NotRising(q, c, i)
    {
      TailChunkAt(p, b, n, i);
    }
  }

  lemma {:induction false} TailChunkAt(p: seq<FeeFrac>, b: seq<nat>, n: nat, i: nat)
    requires IsChunking(p, b, n) && n == |p| - 1 && i + 2 < |b|
    ensures b[1] <= b[i + 1] < b[i + 2] <= n && IsPath(TailPath(p, b[1])) && |TailPath(p, b[1])| == |p| - b[1]
    ensures |TailCuts(b)| == |b| - 1 && TailCuts(b)[i] == b[i + 1] - b[1] && TailCuts(b)[i + 1] == b[i + 2] - b[1]
    ensures IsChunk(TailPath(p, b[1]), TailCuts(b)[i], TailCuts(b)[i + 1])
    ensures i + 3 < |b| ==> NotRising(TailPath(p, b[1]), TailCuts(b), i)
  {
    hide Excess, TailPath, Step;
    ChunkingAt(p, b, n, 0);
    assert i == 0 || b[1] < b[i + 1];
    ChunkingAt(p, b, n, i + 1);
    TailIsPath(p, b[1]);
    TailLength(p, b[1]);
    TailChunk(p, b[1], b[i + 1], b[i + 2]);
  }

  lemma TailLength(p: seq<FeeFrac>, m: nat)
    requires IsPath(p) && m < |p|
    ensures |TailPath(p, m)| == |p| - m
  {
  }

  lemma {:induction false} TailChunk(p: seq<FeeFrac>, m: nat, i: nat, j: nat)
    requires IsPath(p) && m < |p| && IsPath(TailPath(p, m)) && m <= i && IsChunk(p, i, j)
    ensures IsChunk(TailPath(p, m), i - m, j - m)
  {
    hide Excess, TailPath, Step;
    TailIsPath(p, m);
    TailLength(p, m);
    var q, c, d := TailPath(p, m), i - m, j - m;
    forall k | c < k < d
      ensures Excess(Step(q, c, k), Step(q, c, d)) < 0
    {
      assert Excess(Step(p, i, m + k), Step(p, i, j)) < 0;
    }
  }

  // ---------------------------------------------------------------------------------------
  // The chunking loop

  /** Merges the last two chunks while the last one has the higher feerate. */
  ghost function Absorb(p: seq<FeeFrac>, b: seq<nat>, n: nat): (r: seq<nat>)
    requires AlmostChunked(p, b, n) && |b| >= 2
    ensures IsChunking(p, r, n)
    decreases |b|
  {
    if |b| >= 3 && !NotRising(p, b, |b| - 3) then
      MergedLast(p, b, n);
      Absorb(p, b[..|b| - 2] + [n], n)
    else
      b
  }

  lemma {:induction false} MergedLast(p: seq<FeeFrac>, b: seq<nat>, n: nat)
    requires AlmostChunked(p, b, n) && |b| >= 3 && !NotRising(p, b, |b| - 3)
    ensures AlmostChunked(p, b[..|b| - 2] + [n], n)
  {
    hide Excess, IsChunk;
    var i, c := |b| - 3, b[..|b| - 2] + [n];
    MergeChunks(p, b[i], b[i + 1], b[i + 2]);
    forall j | 0 <= j < |c| - 3
      ensures NotRising(p, c, j)
    {
      assert NotRising(p, b, j);
    }
  }

  /** The cut points of the first n transactions that the loop of the program arrives at. */
  ghost function ChunkCuts(p: seq<FeeFrac>, n: nat): (b: seq<nat>)
    requires IsPath(p) && n < |p|
    ensures IsChunking(p, b, n)
  {
    if n == 0 then [0] else
      AppendedOne(p, ChunkCuts(p, n - 1), n);
      Absorb(p, ChunkCuts(p, n - 1) + [n], n)
  }

  lemma {:induction false} AppendedOne(p: seq<FeeFrac>, b: seq<nat>, n: nat)
    requires 0 < n < |p| && IsChunking(p, b, n - 1)
    ensures AlmostChunked(p, b + [n], n)
  {
    hide Excess;
    var c := b + [n];
    forall j | 0 <= j < |c| - 3
      ensures NotRising(p, c, j)
    {
      ChunkingAt(p, b, n - 1, j);
    }
  }

  /** The feerates of the chunks of the path. */
  ghost function Chunks(p: seq<FeeFrac>): (c: seq<FeeFrac>)
    requires IsPath(p)
    ensures ChunksPositive(c)
  {
    ChunkSizes(p, ChunkCuts(p, |p| - 1), |p| - 1);
    ChunksOf(p, ChunkCuts(p, |p| - 1), |p| - 1)
  }

  ghost function ChunksOf(p: seq<FeeFrac>, b: seq<nat>, n: nat): (c: seq<FeeFrac>)
    requires IsPath(p) && n < |p| && Cuts(b, n)
  {
    seq(|b| - 1, i requires 0 <= i < |b| - 1 =>
      assert b[i] < b[i + 1] && (i + 1 == |b| - 1 || b[i + 1] < b[|b| - 1]);
      Step(p, b[i], b[i + 1]))
  }

  ghost predicate ChunksPositive(c: seq<FeeFrac>) {
    forall i :: 0 <= i < |c| ==> c[i].size > 0
  }

  lemma {:induction false} ChunkSizes(p: seq<FeeFrac>, b: seq<nat>, n: nat)
    requires IsPath(p) && n < |p| && Cuts(b, n)
    ensures ChunksPositive(ChunksOf(p, b, n))
  {
    var c := ChunksOf(p, b, n);
    forall i | 0 <= i < |c|
      ensures c[i].size > 0
    {
      assert b[i] < b[i + 1] && (i + 1 == |b| - 1 || b[i + 1] < b[|b| - 1]);
      assert c[i] == Step(p, b[i], b[i + 1]);
    }
  }

  // ---------------------------------------------------------------------------------------
  // Diagrams

  /** The fee that a chunk contributes over the first x of its size. */
  ghost function Along(c: FeeFrac, x: real): real
    requires c.size > 0
  {
    c.fee as real * (x / c.size as real)
  }

  /** The feerate diagram of chunks: linear over each chunk, then flat. */
  ghost function DiagramAt(c: seq<FeeFrac>, x: real): real
    requires ChunksPositive(c)
  {
    if c == [] then 0.0
    else if x <= c[0].size as real then Along(c[0], x)
    else c[0].fee as real + DiagramAt(c[1..], x - c[0].size as real)
  }

  /** The diagram of q is nowhere below that of p. */
  ghost predicate NoWorse(q: seq<FeeFrac>, p: seq<FeeFrac>)
    requires IsPath(p) && IsPath(q)
  {
    forall x: real :: x >= 0.0 ==> DiagramAt(Chunks(q), x) >= DiagramAt(Chunks(p), x)
  }

  ghost predicate Reaches(q: seq<FeeFrac>, rate: FeeFrac, v: int) {
    exists k :: 0 <= k < |q| && Excess(q[k], rate) >= v
  }

  /** At every rate, q gathers at least the excess that p does. */
  ghost predicate Dominates(q: seq<FeeFrac>, p: seq<FeeFrac>) {
    forall rate: FeeFrac, k :: rate.size > 0 && 0 <= k < |p| ==> Reaches(q, rate, Excess(p[k], rate))
  }

  lemma {:induction false} DominatesTransitive(r: seq<FeeFrac>, q: seq<FeeFrac>, p: seq<FeeFrac>)
    requires Dominates(r, q) && Dominates(q, p)
    ensures Dominates(r, p)
  {
    hide Excess;
    forall rate: FeeFrac, k | rate.size > 0 && 0 <= k < |p|
      ensures Reaches(r, rate, Excess(p[k], rate))
    {
      assert Reaches(q, rate, Excess(p[k], rate));
      var j :| 0 <= j < |q| && Excess(q[j], rate) >= Excess(p[k], rate);
      assert Reaches(r, rate, Excess(q[j], rate));
    }
  }

  // ---------------------------------------------------------------------------------------
  // Dominance and diagrams agree

  lemma RealProduct(a: int, b: int)
    ensures (a * b) as real == a as real * b as real
  {
  }

  /** The value of a point (x, y) of a diagram at a rate, as Excess is that of a path point. */
  ghost function RealExcess(x: real, y: real, rate: FeeFrac): real {
    y * rate.size as real - rate.fee as real * x
  }

  lemma ExcessIsReal(a: FeeFrac, rate: FeeFrac)
    ensures Excess(a, rate) as real == RealExcess(a.size as real, a.fee as real, rate)
  {
    RealProduct(a.fee, rate.size);
    RealProduct(rate.fee, a.size);
  }

  lemma RealExcessSum(x: real, y: real, v: real, w: real, rate: FeeFrac)
    ensures RealExcess(x + v, y + w, rate) == RealExcess(x, y, rate) + RealExcess(v, w, rate)
  {
    assert (y + w) * rate.size as real == y * rate.size as real + w * rate.size as real;
    assert rate.fee as real * (x + v) == rate.fee as real * x + rate.fee as real * v;
  }

  /** Part of a chunk has at most the excess of the whole, or none. */
  lemma {:induction false} AlongExcess(c: FeeFrac, z: real, rate: FeeFrac)
    requires c.size > 0 && 0.0 <= z <= c.size as real
    ensures RealExcess(z, Along(c, z), rate) <= Max(0, Excess(c, rate)) as real
    ensures rate == c ==> RealExcess(z, Along(c, z), rate) == 0.0
    ensures z == c.size as real ==> Along(c, z) == c.fee as real
  {
    var t, f, s := z / c.size as real, c.fee as real, c.size as real;
    Ratio(z, s);
    ExcessIsReal(c, rate);
    var e := Excess(c, rate) as real;
    assert RealExcess(z, Along(c, z), rate) == t * e by {
      assert (f * t) * rate.size as real == t * (f * rate.size as real);
      assert rate.fee as real * (t * s) == t * (rate.fee as real * s);
    }
    Scaled(t, e);
    if rate == c {
      HigherIsExcess(c, c);
    }
  }

  lemma Ratio(z: real, s: real)
    requires 0.0 <= z <= s && s > 0.0
    ensures 0.0 <= z / s <= 1.0 && (z / s) * s == z
  {
    var t := z / s;
    assert t * s == z;
    assert (t - 1.0) * s == z - s;
    assert (t - 1.0) * s > 0.0 || t <= 1.0;
  }

  lemma Scaled(t: real, e: real)
    requires 0.0 <= t <= 1.0
    ensures e <= 0.0 ==> t * e <= 0.0
    ensures e >= 0.0 ==> t * e <= e
    ensures e == 0.0 ==> t * e == 0.0
  {
    if e >= 0.0 {
      assert e - t * e == (1.0 - t) * e;
    }
  }

  /** The diagram from cut i on, in coordinates relative to that cut. */
  ghost function DiagramFrom(p: seq<FeeFrac>, b: seq<nat>, n: nat, i: nat, x: real): real
    requires IsPath(p) && n < |p| && Cuts(b, n) && i < |b|
  {
    ChunkSizes(p, b, n);
    DiagramAt(ChunksOf(p, b, n)[i..], x)
  }

  lemma {:induction false} DiagramUnfold(p: seq<FeeFrac>, b: seq<nat>, n: nat, i: nat, x: real)
    requires IsPath(p) && n < |p| && Cuts(b, n) && i < |b|
    ensures i == |b| - 1 ==> DiagramFrom(p, b, n, i, x) == 0.0
    ensures i < |b| - 1 ==>
              && b[i] < b[i + 1] <= n
              && var d := Step(p, b[i], b[i + 1]);
                 DiagramFrom(p, b, n, i, x) ==
                 if x <= d.size as real then Along(d, x)
                 else d.fee as real + DiagramFrom(p, b, n, i + 1, x - d.size as real)
  {
    hide Along;
    ChunkSizes(p, b, n);
    var c := ChunksOf(p, b, n);
    if i < |b| - 1 {
      assert b[i] < b[i + 1] && (i + 1 == |b| - 1 || b[i + 1] < b[|b| - 1]);
      assert c[i..][0] == c[i] == Step(p, b[i], b[i + 1]) && c[i..][1..] == c[i + 1..];
    }
  }

  /** The chunk over which the diagram passes at x, and how far into it. */
  lemma {:induction false} Locate(p: seq<FeeFrac>, b: seq<nat>, n: nat, i: nat, x: real) returns (j: nat, z: real)
    requires IsChunking(p, b, n) && i < |b| - 1 && b[i] <= n
    requires 0.0 <= x <= (p[n].size - p[b[i]].size) as real
    ensures j < |b| - 1 && b[j] < b[j + 1] <= n
    ensures 0.0 <= z <= Step(p, b[j], b[j + 1]).size as real
    ensures p[b[i]].size as real + x == p[b[j]].size as real + z
    ensures p[b[i]].fee as real + DiagramFrom(p, b, n, i, x) == p[b[j]].fee as real + Along(Step(p, b[j], b[j + 1]), z)
    decreases |b| - i
  {
    hide Excess, NotRising, DiagramFrom, Along, IsChunk;
    DiagramUnfold(p, b, n, i, x);
    var d := Step(p, b[i], b[i + 1]);
    if x <= d.size as real {
      j, z := i, x;
    } else {
      assert b[|b| - 1] == n;
      j, z := Locate(p, b, n, i + 1, x - d.size as real);
    }
  }

  /** Past the end of the path the diagram stays at the total fee. */
  lemma {:induction false} FlatAfterEnd(p: seq<FeeFrac>, b: seq<nat>, n: nat, i: nat, x: real)
    requires IsPath(p) && n < |p| && Cuts(b, n) && i < |b| && b[i] <= n
    requires x >= (p[n].size - p[b[i]].size) as real
    ensures p[b[i]].fee as real + DiagramFrom(p, b, n, i, x) == p[n].fee as real
    decreases |b| - i
  {
    hide Excess, DiagramFrom, Along;
    DiagramUnfold(p, b, n, i, x);
    if i + 1 < |b| {
      var d := Step(p, b[i], b[i + 1]);
      if x <= d.size as real {
        assert b[i + 1] == n;
        AlongExcess(d, x, d);
      } else {
        FlatAfterEnd(p, b, n, i + 1, x - d.size as real);
      }
    }
  }

  /** No point of the path lies above the line through a chunk. */
  lemma {:induction false} LineIsSupport(p: seq<FeeFrac>, b: seq<nat>, n: nat, i: nat, rate: FeeFrac)
    requires IsChunking(p, b, n) && n == |p| - 1 && i + 1 < |b| && b[i] <= b[i + 1] <= n
    requires rate == Step(p, b[i], b[i + 1])
    ensures rate.size > 0
    ensures forall k :: 0 <= k < |p| ==> Excess(p[k], rate) <= Excess(p[b[i]], rate)
  {
    hide Excess;
    ChunkingAt(p, b, n, i);
    HigherIsExcess(rate, rate);
    StepExcess(p, b[i], b[i + 1], rate);
    forall k | 0 <= k < |p|
      ensures Excess(p[k], rate) <= Excess(p[b[i]], rate)
    {
      if b[i] <= k {
        FallsAfterCut(p, b, n, i, k, rate);
      } else {
        RisesToCut(p, b, n, i + 1, k, rate);
      }
    }
  }

  /** At every rate a point of the diagram has at most the excess of some point of the path. */
  lemma {:induction false} DiagramBelowPath(p: seq<FeeFrac>, b: seq<nat>, n: nat, x: real, rate: FeeFrac)
      returns (k: nat)
    requires IsChunking(p, b, n) && n > 0 && 0.0 <= x <= p[n].size as real
    ensures k <= n
    ensures RealExcess(x, DiagramFrom(p, b, n, 0, x), rate) <= Excess(p[k], rate) as real
  {
    hide Excess, NotRising, DiagramFrom, Along, RealExcess, IsChunk;
    var j, z := Locate(p, b, n, 0, x);
    var d := Step(p, b[j], b[j + 1]);
    AlongExcess(d, z, rate);
    ExcessIsReal(p[b[j]], rate);
    RealExcessSum(p[b[j]].size as real, p[b[j]].fee as real, z, Along(d, z), rate);
    StepExcess(p, b[j], b[j + 1], rate);
    k := if Excess(d, rate) > 0 then b[j + 1] else b[j];
  }

  /** At the rate of the chunk it passes over, a point of the diagram is above all of the path. */
  lemma {:induction false} DiagramAbovePath(p: seq<FeeFrac>, b: seq<nat>, n: nat, x: real) returns (rate: FeeFrac)
    requires IsChunking(p, b, n) && n == |p| - 1 && n > 0 && 0.0 <= x <= p[n].size as real
    ensures rate.size > 0
    ensures forall k :: 0 <= k < |p| ==> Excess(p[k], rate) as real <= RealExcess(x, DiagramFrom(p, b, n, 0, x), rate)
  {
    hide Excess, NotRising, DiagramFrom, Along, RealExcess, IsChunk;
    var j, z := Locate(p, b, n, 0, x);
    rate := Step(p, b[j], b[j + 1]);
    AlongExcess(rate, z, rate);
    ExcessIsReal(p[b[j]], rate);
    RealExcessSum(p[b[j]].size as real, p[b[j]].fee as real, z, Along(rate, z), rate);
    LineIsSupport(p, b, n, j, rate);
  }

  /** The whole diagram of q lies on or above that of p when q dominates p and ends at the same
      size with no lower fee. */
  lemma {:induction false} DominatesNoWorse(q: seq<FeeFrac>, p: seq<FeeFrac>)
    requires IsPath(p) && IsPath(q) && Dominates(q, p)
    requires q[|q| - 1].size == p[|p| - 1].size && q[|q| - 1].fee >= p[|p| - 1].fee
    ensures NoWorse(q, p)
  {
    hide Excess, Chunks, DiagramAt, Dominates, ChunkCuts, DiagramFrom, IsChunking;
    forall x: real | x >= 0.0
      ensures DiagramAt(Chunks(q), x) >= DiagramAt(Chunks(p), x)
    {
      NoWorseAt(q, p, ChunkCuts(q, |q| - 1), ChunkCuts(p, |p| - 1), x);
      DiagramIs(q, x);
      DiagramIs(p, x);
    }
  }

  lemma DiagramIs(p: seq<FeeFrac>, x: real)
    requires IsPath(p)
    ensures DiagramAt(Chunks(p), x) == DiagramFrom(p, ChunkCuts(p, |p| - 1), |p| - 1, 0, x)
  {
    hide ChunkCuts, DiagramAt;
    assert Chunks(p)[0..] == Chunks(p);
  }

  lemma {:induction false} NoWorseAt(q: seq<FeeFrac>, p: seq<FeeFrac>, b: seq<nat>, c: seq<nat>, x: real)
    requires IsPath(p) && IsPath(q) && Dominates(q, p)
    requires q[|q| - 1].size == p[|p| - 1].size && q[|q| - 1].fee >= p[|p| - 1].fee
    requires IsChunking(q, b, |q| - 1) && IsChunking(p, c, |p| - 1) && x >= 0.0
    ensures DiagramFrom(q, b, |q| - 1, 0, x) >= DiagramFrom(p, c, |p| - 1, 0, x)
  {
    hide Excess, IsChunk, NotRising, DiagramFrom, RealExcess;
    var m, n := |q| - 1, |p| - 1;
    if x >= p[n].size as real {
      FlatAfterEnd(q, b, m, 0, x);
      FlatAfterEnd(p, c, n, 0, x);
    } else {
      var rate := DiagramAbovePath(q, b, m, x);
      var k := DiagramBelowPath(p, c, n, x, rate);
      assert Reaches(q, rate, Excess(p[k], rate));
      CancelScale(x, DiagramFrom(q, b, m, 0, x), DiagramFrom(p, c, n, 0, x), rate);
    }
  }

  lemma CancelScale(x: real, y: real, z: real, rate: FeeFrac)
    requires rate.size > 0 && RealExcess(x, z, rate) <= RealExcess(x, y, rate)
    ensures z <= y
  {
    var r := rate.size as real;
    assert (y - z) * r == y * r - z * r;
  }
}
