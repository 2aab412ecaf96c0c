/** The linked-list form of the linearization improver (src/cluster_linearize.h:1136-1319). The
    groups of a pass are lists that point from back to front, in a circular list of groups that
    also points from back to front. */
module PostLinearizing {
  import opened FeeFracs
  import opened Diagrams
  import opened Sequences
  import opened DepGraphs
  import opened Linearizations
  import opened Linearizing
  import opened Grouping
  import opened Trees
  import opened PostLinearized

  /** Data for transaction t, at index t + 1. The fields after prevTx are used only for the last
      transaction of a group. Index 0 holds the sentinel. */
  datatype TxEntry = TxEntry(prevTx: nat, firstTx: nat, prevGroup: nat, group: set<nat>, deps: set<nat>,
      feerate: FeeFrac)

  const SENTINEL: nat := 0
  const NO_PREV_TX: nat := 0

  // ---------------------------------------------------------------------------------------
  // What the entries represent

  function DepsOf(g: Graph, c: seq<nat>): set<nat> {
    if c == [] then {} else DepsOf(g, c[..|c| - 1]) + Anc(g, c[|c| - 1])
  }

  lemma {:induction false} DepsAppend(g: Graph, a: seq<nat>, b: seq<nat>)
    ensures DepsOf(g, a + b) == DepsOf(g, a) + DepsOf(g, b)
  {
    if b == [] {
      assert a + b == a;
    } else {
      DepsAppend(g, a, b[..|b| - 1]);
      assert (a + b)[..|a + b| - 1] == a + b[..|b| - 1];
    }
  }

  lemma {:induction false} DepsAre(g: Graph, c: seq<nat>, y: nat)
    ensures y in DepsOf(g, c) <==> exists x :: x in c && y in Anc(g, x)
  {
    if c != [] {
      var r, z := c[..|c| - 1], c[|c| - 1];
      assert c == r + [z];
      DepsAre(g, r, y);
    }
  }

  lemma {:induction false} DependsIs(g: Graph, c: seq<nat>, p: seq<nat>)
    ensures Depends(g, c, p) <==> DepsOf(g, c) * Elems(p) != {}
  {
    if Depends(g, c, p) {
      var x, y :| x in c && y in p && y in Anc(g, x);
      DepsAre(g, c, y);
      assert y in DepsOf(g, c) * Elems(p);
    }
    if DepsOf(g, c) * Elems(p) != {} {
      var y :| y in DepsOf(g, c) * Elems(p);
      DepsAre(g, c, y);
    }
  }

  function Tail(c: seq<nat>): nat {
    if c == [] then 0 else c[|c| - 1] + 1
  }

  function LastTail(gs: seq<seq<nat>>): nat {
    if gs == [] then SENTINEL else Tail(gs[|gs| - 1])
  }

  function PrevTail(gs: seq<seq<nat>>, i: nat): nat {
    if i == 0 || i > |gs| then SENTINEL else Tail(gs[i - 1])
  }

  /** The entries of the transactions of c hold the group c. */
  ghost predicate Holds(g: Graph, e: seq<TxEntry>, c: seq<nat>) {
    && c != [] && (forall k :: 0 <= k < |c| ==> c[k] + 1 < |e|)
    && e[Tail(c)].firstTx == c[0] + 1 && e[Tail(c)].group == Elems(c)
    && e[Tail(c)].deps == DepsOf(g, c) && e[Tail(c)].feerate == Total(g, c)
    && (forall k :: 0 <= k < |c| ==> e[c[k] + 1].prevTx == Tail(c[..k]))
  }

  ghost predicate GroupAt(g: Graph, e: seq<TxEntry>, c: seq<nat>, prev: nat) {
    Holds(g, e, c) && e[Tail(c)].prevGroup == prev
  }

  /** The entries hold the list of groups gs. */
  ghost predicate Represents(g: Graph, e: seq<TxEntry>, gs: seq<seq<nat>>) {
    && |e| == |g.entries| + 1 && e[SENTINEL].feerate == EMPTY && e[SENTINEL].prevGroup == LastTail(gs)
    && Distinct(Flat(gs))
    && forall i :: 0 <= i < |gs| ==> GroupAt(g, e, gs[i], PrevTail(gs, i))
  }

  /** Nothing that concerns the group c itself has changed. */
  ghost predicate SameGroup(e: seq<TxEntry>, f: seq<TxEntry>, c: seq<nat>) {
    && |e| == |f|
    && forall k :: 0 <= k < |c| && c[k] + 1 < |e| ==> f[c[k] + 1].(prevGroup := 0) == e[c[k] + 1].(prevGroup := 0)
  }

  lemma {:induction false} StillHolds(g: Graph, e: seq<TxEntry>, f: seq<TxEntry>, c: seq<nat>)
    requires Holds(g, e, c) && SameGroup(e, f, c)
    ensures Holds(g, f, c)
  {
    hide Total, DepsOf;
    forall k | 0 <= k < |c|
      ensures f[c[k] + 1].prevTx == e[c[k] + 1].prevTx && f[c[k] + 1].firstTx == e[c[k] + 1].firstTx
      ensures f[c[k] + 1].group == e[c[k] + 1].group
      ensures f[c[k] + 1].deps == e[c[k] + 1].deps && f[c[k] + 1].feerate == e[c[k] + 1].feerate
    {
      assert f[c[k] + 1].(prevGroup := 0) == e[c[k] + 1].(prevGroup := 0);
    }
  }

  lemma {:induction false} GroupsApart(gs: seq<seq<nat>>, i: nat, j: nat)
    requires Distinct(Flat(gs)) && i < j < |gs|
    ensures Elems(gs[i]) !! Elems(gs[j])
  {
    var hs, c := gs[..|gs| - 1], gs[|gs| - 1];
    DistinctAppend(Flat(hs), c);
    if j < |gs| - 1 {
      GroupsApart(hs, i, j);
    } else {
      GroupWithin(hs, i);
    }
  }

  // ---------------------------------------------------------------------------------------
  // Swapping two groups

  function SwapEntries(e: seq<TxEntry>, next: nat, cur: nat, prev: nat): (f: seq<TxEntry>)
    requires next < |e| && cur < |e| && prev < |e|
  {
    var e1 := e[next := e[next].(prevGroup := prev)];
    var e2 := e1[prev := e1[prev].(prevGroup := cur)];
    e2[cur := e2[cur].(prevGroup := e[prev].prevGroup)]
  }

  /** Only the links between groups have changed. */
  ghost predicate SameBodies(e: seq<TxEntry>, f: seq<TxEntry>) {
    |e| == |f| && forall k :: 0 <= k < |e| ==> f[k].(prevGroup := 0) == e[k].(prevGroup := 0)
  }

  lemma SameBody(e: seq<TxEntry>, f: seq<TxEntry>, c: seq<nat>)
    requires SameBodies(e, f)
    ensures SameGroup(e, f, c)
  {
  }

  lemma {:induction false} TailsApart(gs: seq<seq<nat>>, i: nat, j: nat)
    requires Distinct(Flat(gs)) && i < |gs| && j < |gs| && i != j && gs[i] != [] && gs[j] != []
    ensures Tail(gs[i]) != Tail(gs[j])
  {
    GroupsApart(gs, if i < j then i else j, if i < j then j else i);
    assert gs[i][|gs[i]| - 1] in Elems(gs[i]) && gs[j][|gs[j]| - 1] in Elems(gs[j]);
  }

  lemma GroupIs(g: Graph, e: seq<TxEntry>, gs: seq<seq<nat>>, i: nat)
    requires Represents(g, e, gs) && i < |gs|
    ensures GroupAt(g, e, gs[i], PrevTail(gs, i)) && gs[i] != [] && 0 < Tail(gs[i]) < |e|
    ensures e[Tail(gs[i])].prevGroup == PrevTail(gs, i)
  {
  }

  function NextTail(gs: seq<seq<nat>>, n: nat): nat {
    if n + 1 < |gs| then Tail(gs[n + 1]) else SENTINEL
  }

  /** Groups n - 1 and n exchanged. */
  function Exchanged(gs: seq<seq<nat>>, n: nat): (hs: seq<seq<nat>>)
    requires 0 < n < |gs|
    ensures |hs| == |gs| && hs[n - 1] == gs[n] && hs[n] == gs[n - 1]
    ensures forall j :: 0 <= j < |gs| && j != n && j != n - 1 ==> hs[j] == gs[j]
  {
    gs[n - 1 := gs[n]][n := gs[n - 1]]
  }

  lemma {:induction false} AllApart(g: Graph, e: seq<TxEntry>, gs: seq<seq<nat>>, n: nat, j: nat)
    requires Represents(g, e, gs) && n < |gs| && j < |gs|
    ensures 0 < Tail(gs[n]) < |e| && e[Tail(gs[n])].prevGroup == PrevTail(gs, n)
    ensures Tail(gs[n]) == Tail(gs[j]) <==> n == j
  {
    hide Holds, Distinct, Flat;
    GroupIs(g, e, gs, n);
    GroupIs(g, e, gs, j);
    if n != j {
      TailsApart(gs, n, j);
    }
  }

  lemma {:induction false} SwapLink(g: Graph, e: seq<TxEntry>, gs: seq<seq<nat>>, n: nat, j: nat)
    requires Represents(g, e, gs) && 0 < n < |gs| && j < |gs|
    ensures Tail(gs[n]) < |e| && Tail(gs[n - 1]) < |e| && NextTail(gs, n) < |e| && Tail(Exchanged(gs, n)[j]) < |e|
    ensures SwapEntries(e, NextTail(gs, n), Tail(gs[n]), Tail(gs[n - 1]))[Tail(Exchanged(gs, n)[j])].prevGroup
         == PrevTail(Exchanged(gs, n), j)
  {
    hide Represents, Tail, Exchanged;
    var hs := Exchanged(gs, n);
    AllApart(g, e, gs, n, j);
    AllApart(g, e, gs, n - 1, j);
    AllApart(g, e, gs, n, n - 1);
    AllApart(g, e, gs, j, j);
    if n + 1 < |gs| {
      AllApart(g, e, gs, n + 1, n);
      AllApart(g, e, gs, n + 1, n - 1);
      AllApart(g, e, gs, n + 1, j);
    }
  }

  lemma {:induction false} SwapBodies(e: seq<TxEntry>, next: nat, cur: nat, prev: nat)
    requires next < |e| && cur < |e| && prev < |e|
    ensures SameBodies(e, SwapEntries(e, next, cur, prev))
  {
  }

  lemma {:induction false} SwapSentinel(e: seq<TxEntry>, next: nat, cur: nat, prev: nat)
    requires next < |e| && 0 < cur < |e| && 0 < prev < |e|
    ensures SwapEntries(e, next, cur, prev)[SENTINEL] == if next == SENTINEL then e[SENTINEL].(prevGroup := prev)
        else e[SENTINEL]
  {
  }

  lemma {:induction false} SwapGroupAt(g: Graph, e: seq<TxEntry>, gs: seq<seq<nat>>, n: nat, j: nat)
    requires Represents(g, e, gs) && 0 < n < |gs| && j < |gs|
    ensures Tail(gs[n]) < |e| && Tail(gs[n - 1]) < |e| && NextTail(gs, n) < |e|
    ensures GroupAt(g, SwapEntries(e, NextTail(gs, n), Tail(gs[n]), Tail(gs[n - 1])), Exchanged(gs, n)[j],
        PrevTail(Exchanged(gs, n), j))
  {
    hide Represents, Tail, NextTail, PrevTail, Exchanged, Holds, SwapEntries, SameBodies, SameGroup;
    var hs := Exchanged(gs, n);
    SwapLink(g, e, gs, n, j);
    var f := SwapEntries(e, NextTail(gs, n), Tail(gs[n]), Tail(gs[n - 1]));
    SwapBodies(e, NextTail(gs, n), Tail(gs[n]), Tail(gs[n - 1]));
    GroupIs(g, e, gs, if j == n then n - 1 else if j == n - 1 then n else j);
    SameBody(e, f, hs[j]);
    StillHolds(g, e, f, hs[j]);
  }

  lemma {:induction false} SwapRepresents(g: Graph, e: seq<TxEntry>, gs: seq<seq<nat>>, n: nat)
    requires Represents(g, e, gs) && 0 < n < |gs|
    ensures Tail(gs[n]) < |e| && Tail(gs[n - 1]) < |e| && NextTail(gs, n) < |e|
    ensures Represents(g, SwapEntries(e, NextTail(gs, n), Tail(gs[n]), Tail(gs[n - 1])), Exchanged(gs, n))
  {
    hide Tail, Exchanged, Distinct, Flat, GroupAt, SwapEntries;
    var hs := Exchanged(gs, n);
    SwapLink(g, e, gs, n, 0);
    var f := SwapEntries(e, NextTail(gs, n), Tail(gs[n]), Tail(gs[n - 1]));
    AllApart(g, e, gs, n, n);
    AllApart(g, e, gs, n - 1, n);
    SwapBodies(e, NextTail(gs, n), Tail(gs[n]), Tail(gs[n - 1]));
    SwapSentinel(e, NextTail(gs, n), Tail(gs[n]), Tail(gs[n - 1]));
    if n + 1 < |gs| {
      AllApart(g, e, gs, n + 1, n);
    }
    forall j | 0 <= j < |hs|
      ensures GroupAt(g, f, hs[j], PrevTail(hs, j))
    {
      SwapGroupAt(g, e, gs, n, j);
    }
    ExchangedDistinct(gs, n);
  }

  lemma ExchangedIs(gs: seq<seq<nat>>, n: nat)
    requires 0 < n < |gs|
    ensures gs == gs[..n - 1] + [gs[n - 1]] + ([gs[n]] + gs[n + 1..])
    ensures Exchanged(gs, n) == gs[..n - 1] + [gs[n]] + ([gs[n - 1]] + gs[n + 1..])
  {
  }

  lemma {:induction false} ExchangedDistinct(gs: seq<seq<nat>>, n: nat)
    requires 0 < n < |gs| && Distinct(Flat(gs))
    ensures Distinct(Flat(Exchanged(gs, n)))
    ensures Exchanged(gs, n)[..n - 1] == gs[..n - 1] && Exchanged(gs, n)[n..] == [gs[n - 1]] + gs[n + 1..]
  {
    hide Distinct, Flat;
    var a, p, c, b, hs := gs[..n - 1], gs[n - 1], gs[n], gs[n + 1..], Exchanged(gs, n);
    ExchangedIs(gs, n);
    FlatAround(a, p, [c] + b);
    FlatAround(a, c, [p] + b);
    FlatFirst(c, b);
    FlatFirst(p, b);
    assert Flat(gs) == Flat(a) + p + c + Flat(b) && Flat(hs) == Flat(a) + c + p + Flat(b);
    DistinctPieces(Flat(a), p, c, Flat(b));
  }

  // ---------------------------------------------------------------------------------------
  // Merging two groups

  function MergeEntries(e: seq<TxEntry>, cur: nat, prev: nat): (f: seq<TxEntry>)
    requires cur < |e| && prev < |e| && e[cur].firstTx < |e|
    ensures |f| == |e|
  {
    var e1 := e[cur := e[cur].(group := e[cur].group + e[prev].group, deps := e[cur].deps + e[prev].deps,
                               feerate := Plus(e[cur].feerate, e[prev].feerate))];
    var first := e1[cur].firstTx;
    var e2 := e1[first := e1[first].(prevTx := prev)];
    var e3 := e2[cur := e2[cur].(firstTx := e2[prev].firstTx)];
    e3[cur := e3[cur].(prevGroup := e3[prev].prevGroup)]
  }

  lemma {:induction false} MergeEntriesAt(e: seq<TxEntry>, cur: nat, prev: nat, k: nat)
    requires cur < |e| && prev < |e| && e[cur].firstTx < |e| && prev != cur && prev != e[cur].firstTx && k < |e|
    ensures var f, first := MergeEntries(e, cur, prev), e[cur].firstTx;
      && (k != cur && k != first ==> f[k] == e[k])
      && f[k].prevTx == (if k == first then prev else e[k].prevTx)
      && f[cur].firstTx == e[prev].firstTx && f[cur].prevGroup == e[prev].prevGroup
      && f[cur].group == e[cur].group + e[prev].group && f[cur].deps == e[cur].deps + e[prev].deps
      && f[cur].feerate == Plus(e[cur].feerate, e[prev].feerate)
  {
  }

  function Merged(gs: seq<seq<nat>>, n: nat): (hs: seq<seq<nat>>)
    requires 0 < n < |gs|
    ensures |hs| == |gs| - 1 && hs[n - 1] == gs[n - 1] + gs[n]
    ensures forall j :: 0 <= j < n - 1 ==> hs[j] == gs[j]
    ensures forall j :: n <= j < |hs| ==> hs[j] == gs[j + 1]
  {
    gs[..n - 1] + [gs[n - 1] + gs[n]] + gs[n + 1..]
  }

  lemma {:induction false} MergedFlat(gs: seq<seq<nat>>, n: nat)
    requires 0 < n < |gs|
    ensures Flat(Merged(gs, n)) == Flat(gs)
    ensures Merged(gs, n)[..n - 1] == gs[..n - 1] && Merged(gs, n)[n..] == gs[n + 1..]
  {
    hide Flat;
    var a, p, c, b := gs[..n - 1], gs[n - 1], gs[n], gs[n + 1..];
    ExchangedIs(gs, n);
    FlatAround(a, p, [c] + b);
    FlatFirst(c, b);
    FlatAround(a, p + c, b);
    assert Flat(a) + p + (c + Flat(b)) == Flat(a) + (p + c) + Flat(b);
  }

  /** What the entries of two groups say that are about to be merged. */
  lemma {:induction false} HeldTwo(g: Graph, e: seq<TxEntry>, p: seq<nat>, c: seq<nat>)
    requires Holds(g, e, p) && Holds(g, e, c) && Elems(p) !! Elems(c)
    ensures Tail(p) < |e| && Tail(c) < |e| && e[Tail(c)].firstTx == c[0] + 1 < |e|
    ensures Tail(p) != Tail(c) && Tail(p) != c[0] + 1
  {
    hide Total, DepsOf;
    assert p[|p| - 1] in Elems(p) && c[|c| - 1] in Elems(c) && c[0] in Elems(c);
  }

  lemma {:induction false} MergeHolds(g: Graph, e: seq<TxEntry>, p: seq<nat>, c: seq<nat>)
    requires Holds(g, e, p) && Holds(g, e, c) && Elems(p) !! Elems(c) && Distinct(c)
    ensures Tail(p) < |e| && Tail(c) < |e| && e[Tail(c)].firstTx < |e|
    ensures Holds(g, MergeEntries(e, Tail(c), Tail(p)), p + c)
  {
    hide Total, DepsOf, MergeEntries, Distinct;
    HeldTwo(g, e, p, c);
    var f, w := MergeEntries(e, Tail(c), Tail(p)), p + c;
    MergedTop(g, e, p, c);
    forall k | 0 <= k < |w|
      ensures w[k] + 1 < |f| && f[w[k] + 1].prevTx == Tail(w[..k])
    {
      MergedPrev(g, e, p, c, k);
    }
  }

  /** The entry that stands for the merged group. */
  lemma {:induction false} MergedTop(g: Graph, e: seq<TxEntry>, p: seq<nat>, c: seq<nat>)
    requires Holds(g, e, p) && Holds(g, e, c) && Elems(p) !! Elems(c)
    ensures Tail(p) < |e| && Tail(c) < |e| && e[Tail(c)].firstTx < |e| && Tail(p + c) == Tail(c)
    ensures var f, w := MergeEntries(e, Tail(c), Tail(p)), p + c;
            && |f| == |e| && w != [] && f[Tail(w)].firstTx == w[0] + 1 && f[Tail(w)].group == Elems(w)
            && f[Tail(w)].deps == DepsOf(g, w) && f[Tail(w)].feerate == Total(g, w)
  {
    hide Total, DepsOf, MergeEntries;
    HeldTwo(g, e, p, c);
    MergeEntriesAt(e, Tail(c), Tail(p), Tail(c));
    ElemsAppend(p, c);
    TotalMerged(g, p, c);
    DepsAppend(g, p, c);
  }

  lemma {:induction false} MergedPrev(g: Graph, e: seq<TxEntry>, p: seq<nat>, c: seq<nat>, k: nat)
    requires Holds(g, e, p) && Holds(g, e, c) && Elems(p) !! Elems(c) && Distinct(c) && k < |p + c|
    ensures Tail(p) < |e| && Tail(c) < |e| && e[Tail(c)].firstTx < |e| && (p + c)[k] + 1 < |e|
    ensures MergeEntries(e, Tail(c), Tail(p))[(p + c)[k] + 1].prevTx == Tail((p + c)[..k])
  {
    hide Total, DepsOf, MergeEntries;
    HeldTwo(g, e, p, c);
    MergeEntriesAt(e, Tail(c), Tail(p), (p + c)[k] + 1);
    if k < |p| {
      assert (p + c)[..k] == p[..k] && p[k] in Elems(p) && c[0] in Elems(c);
    } else {
      var d := c[..k - |p|];
      assert (p + c)[..k] == p + d;
    }
  }

  lemma {:induction false} TotalMerged(g: Graph, p: seq<nat>, c: seq<nat>)
    requires Elems(p) !! Elems(c)
    ensures Total(g, p + c) == Plus(Total(g, c), Total(g, p))
  {
    ElemsAppend(p, c);
    FeeUnion(g, Elems(p), Elems(c));
  }

  lemma {:induction false} MergeOther(g: Graph, e: seq<TxEntry>, p: seq<nat>, c: seq<nat>, q: seq<nat>, prev: nat)
    requires Holds(g, e, p) && Holds(g, e, c) && Elems(p) !! Elems(c)
    requires GroupAt(g, e, q, prev) && Elems(q) !! Elems(c)
    ensures Tail(p) < |e| && Tail(c) < |e| && e[Tail(c)].firstTx < |e|
    ensures GroupAt(g, MergeEntries(e, Tail(c), Tail(p)), q, prev)
  {
    hide Total, DepsOf, MergeEntries;
    HeldTwo(g, e, p, c);
    var f := MergeEntries(e, Tail(c), Tail(p));
    forall k | 0 <= k < |q|
      ensures f[q[k] + 1] == e[q[k] + 1]
    {
      assert q[k] in Elems(q) && c[0] in Elems(c) && c[|c| - 1] in Elems(c);
      MergeEntriesAt(e, Tail(c), Tail(p), q[k] + 1);
    }
    StillHolds(g, e, f, q);
  }

  lemma {:induction false} MergeGroupAt(g: Graph, e: seq<TxEntry>, gs: seq<seq<nat>>, n: nat, j: nat)
    requires Represents(g, e, gs) && 0 < n < |gs| && j < |gs| - 1
    ensures Tail(gs[n - 1]) < |e| && Tail(gs[n]) < |e| && e[Tail(gs[n])].firstTx < |e|
    ensures GroupAt(g, MergeEntries(e, Tail(gs[n]), Tail(gs[n - 1])), Merged(gs, n)[j], PrevTail(Merged(gs, n), j))
  {
    hide Represents, Holds, MergeEntries, Merged;
    var p, c, hs := gs[n - 1], gs[n], Merged(gs, n);
    GroupIs(g, e, gs, n - 1);
    GroupIs(g, e, gs, n);
    RepresentsDistinct(g, e, gs, n);
    GroupsApart(gs, n - 1, n);
    if j == n - 1 {
      MergeHolds(g, e, p, c);
      HeldTwo(g, e, p, c);
      MergeEntriesAt(e, Tail(c), Tail(p), Tail(c));
      assert Tail(p + c) == Tail(c);
    } else {
      var k := if j < n - 1 then j else j + 1;
      GroupIs(g, e, gs, k);
      GroupsApart(gs, if k < n then k else n, if k < n then n else k);
      MergeOther(g, e, p, c, gs[k], PrevTail(gs, k));
      assert Tail(p + c) == Tail(c);
    }
  }

  lemma {:induction false} RepresentsDistinct(g: Graph, e: seq<TxEntry>, gs: seq<seq<nat>>, n: nat)
    requires Represents(g, e, gs) && n < |gs|
    ensures Distinct(Flat(gs)) && Distinct(gs[n])
  {
    hide GroupAt, Distinct, Flat;
    assert gs == gs[..n] + [gs[n]] + gs[n + 1..];
    FlatAround(gs[..n], gs[n], gs[n + 1..]);
    DistinctAppend(Flat(gs[..n]) + gs[n], Flat(gs[n + 1..]));
    DistinctAppend(Flat(gs[..n]), gs[n]);
  }

  lemma {:induction false} MergeRepresents(g: Graph, e: seq<TxEntry>, gs: seq<seq<nat>>, n: nat)
    requires Represents(g, e, gs) && 0 < n < |gs|
    ensures Tail(gs[n - 1]) < |e| && Tail(gs[n]) < |e| && e[Tail(gs[n])].firstTx < |e|
    ensures Represents(g, MergeEntries(e, Tail(gs[n]), Tail(gs[n - 1])), Merged(gs, n))
  {
    hide Represents, Merged, Distinct, Flat, GroupAt, MergeEntries, Tail, LastTail, PrevTail;
    var hs := Merged(gs, n);
    MergeGroupAt(g, e, gs, n, n - 1);
    var f := MergeEntries(e, Tail(gs[n]), Tail(gs[n - 1]));
    forall j | 0 <= j < |hs|
      ensures GroupAt(g, f, hs[j], PrevTail(hs, j))
    {
      MergeGroupAt(g, e, gs, n, j);
    }
    MergedFlat(gs, n);
    SentinelKept(g, e, gs, n);
    RepresentsLength(g, e, gs);
    RepresentsDistinct(g, e, gs, n);
    GroupIs(g, e, gs, n);
    MergedLastTail(gs, n);
    MakeRepresents(g, f, hs);
  }

  lemma MakeRepresents(g: Graph, e: seq<TxEntry>, gs: seq<seq<nat>>)
    requires |e| == |g.entries| + 1 && e[SENTINEL].feerate == EMPTY && e[SENTINEL].prevGroup == LastTail(gs)
    requires Distinct(Flat(gs)) && forall i :: 0 <= i < |gs| ==> GroupAt(g, e, gs[i], PrevTail(gs, i))
    ensures Represents(g, e, gs)
  {
  }

  lemma RepresentsLength(h: Graph, e: seq<TxEntry>, gs: seq<seq<nat>>)
    requires Represents(h, e, gs)
    ensures |e| == |h.entries| + 1 && e[SENTINEL].feerate == EMPTY && e[SENTINEL].prevGroup == LastTail(gs)
  {
  }

  lemma MergedLastTail(gs: seq<seq<nat>>, n: nat)
    requires 0 < n < |gs| && gs[n] != []
    ensures LastTail(Merged(gs, n)) == LastTail(gs)
  {
    TailMerged(gs[n - 1], gs[n]);
  }

  lemma TailMerged(p: seq<nat>, c: seq<nat>)
    requires c != []
    ensures Tail(p + c) == Tail(c)
  {
  }

  lemma {:induction false} SentinelKept(g: Graph, e: seq<TxEntry>, gs: seq<seq<nat>>, n: nat)
    requires Represents(g, e, gs) && 0 < n < |gs|
    requires Tail(gs[n - 1]) < |e| && Tail(gs[n]) < |e| && e[Tail(gs[n])].firstTx < |e|
    ensures MergeEntries(e, Tail(gs[n]), Tail(gs[n - 1]))[SENTINEL] == e[SENTINEL]
  {
    hide Represents, MergeEntries;
    GroupIs(g, e, gs, n - 1);
    GroupIs(g, e, gs, n);
    RepresentsDistinct(g, e, gs, n);
    GroupsApart(gs, n - 1, n);
    HeldTwo(g, e, gs[n - 1], gs[n]);
    MergeEntriesAt(e, Tail(gs[n]), Tail(gs[n - 1]), SENTINEL);
  }

  // ---------------------------------------------------------------------------------------
  // Adding a transaction

  /** The cluster as a pass from the back or from the front sees it. */
  function Direction(g: Graph, rev: bool): Graph {
    if rev then Flip(g) else g
  }

  lemma {:induction false} AddRepresents(h: Graph, e: seq<TxEntry>, gs: seq<seq<nat>>, x: nat, f: seq<TxEntry>)
    requires Represents(h, e, gs) && x < |h.entries| && Distinct(Flat(gs) + [x]) && |f| == |e|
    requires f[x + 1] == TxEntry(NO_PREV_TX, x + 1, e[SENTINEL].prevGroup, {x}, Anc(h, x), Rate(h, x))
    requires f[SENTINEL] == e[SENTINEL].(prevGroup := x + 1)
    requires forall k :: 0 < k < |e| && k != x + 1 ==> f[k] == e[k]
    ensures Represents(h, f, gs + [[x]])
  {
    hide Holds, Distinct, Flat, Anc, Rate;
    var hs := gs + [[x]];
    FlatAppend(gs, [[x]]);
    FlatOne([x]);
    forall j | 0 <= j < |hs|
      ensures GroupAt(h, f, hs[j], PrevTail(hs, j))
    {
      if j < |gs| {
        GroupIs(h, e, gs, j);
        AddOther(h, e, gs, x, f, j);
      } else {
        OneHolds(h, f, x);
      }
    }
  }

  lemma {:induction false} OneHolds(h: Graph, f: seq<TxEntry>, x: nat)
    requires x < |h.entries| && x + 1 < |f|
    requires f[x + 1].prevTx == NO_PREV_TX && f[x + 1].firstTx == x + 1 && f[x + 1].group == {x}
    requires f[x + 1].deps == Anc(h, x) && f[x + 1].feerate == Rate(h, x)
    ensures Holds(h, f, [x])
  {
    hide FeeRate, Rate, Anc;
    FeeOne(h, x);
    assert Elems([x]) == {x};
    assert [x][..0] == [];
    assert DepsOf(h, [x]) == DepsOf(h, []) + Anc(h, x);
  }

  lemma {:induction false} AddOther(h: Graph, e: seq<TxEntry>, gs: seq<seq<nat>>, x: nat, f: seq<TxEntry>, j: nat)
    requires j < |gs| && GroupAt(h, e, gs[j], PrevTail(gs, j)) && Distinct(Flat(gs) + [x]) && |f| == |e|
    requires forall k :: 0 < k < |e| && k != x + 1 ==> f[k] == e[k]
    ensures GroupAt(h, f, gs[j], PrevTail(gs, j))
  {
    hide Distinct, Flat, Total, DepsOf;
    DistinctAppend(Flat(gs), [x]);
    GroupWithin(gs, j);
    var c := gs[j];
    forall k | 0 <= k < |c|
      ensures f[c[k] + 1] == e[c[k] + 1]
    {
      assert c[k] in Elems(c) && x in Elems([x]);
    }
    StillHolds(h, e, f, c);
  }

  /** Where the cur group stands among the groups, and where the loop will end. */
  ghost predicate Settling(h: Graph, gs: seq<seq<nat>>, n: nat, goal: seq<seq<nat>>) {
    n < |gs| && Settle(h, gs[..n], gs[n], gs[n + 1..]) == goal
  }

  lemma {:induction false} SettlingMerge(h: Graph, gs: seq<seq<nat>>, n: nat, goal: seq<seq<nat>>)
    requires Settling(h, gs, n, goal) && n > 0 && Higher(Total(h, gs[n]), Total(h, gs[n - 1]))
    requires Depends(h, gs[n], gs[n - 1])
    ensures Settling(h, Merged(gs, n), n - 1, goal)
  {
    hide Higher, Total, Depends, Merged;
    MergedFlat(gs, n);
    var l := gs[..n];
    assert l[..|l| - 1] == gs[..n - 1] && l[|l| - 1] == gs[n - 1];
    assert n - 1 + 1 == n;
  }

  lemma {:induction false} SettlingSwap(h: Graph, gs: seq<seq<nat>>, n: nat, goal: seq<seq<nat>>)
    requires Settling(h, gs, n, goal) && n > 0 && Higher(Total(h, gs[n]), Total(h, gs[n - 1]))
    requires !Depends(h, gs[n], gs[n - 1])
    requires Distinct(Flat(gs))
    ensures Settling(h, Exchanged(gs, n), n - 1, goal)
  {
    hide Higher, Total, Depends, Exchanged;
    ExchangedDistinct(gs, n);
    var l := gs[..n];
    assert l[..|l| - 1] == gs[..n - 1] && l[|l| - 1] == gs[n - 1];
    assert n - 1 + 1 == n;
  }

  lemma {:induction false} SettlingDone(h: Graph, gs: seq<seq<nat>>, n: nat, goal: seq<seq<nat>>)
    requires Settling(h, gs, n, goal) && (n > 0 ==> !Higher(Total(h, gs[n]), Total(h, gs[n - 1])))
    ensures gs == goal
  {
    hide Higher, Total;
    var l := gs[..n];
    assert l == [] || l[|l| - 1] == gs[n - 1];
    assert gs == gs[..n] + [gs[n]] + gs[n + 1..];
  }

  /** What the loop reads about the cur and prev groups. */
  lemma {:induction false} ReadGroups(h: Graph, e: seq<TxEntry>, gs: seq<seq<nat>>, n: nat)
    requires Represents(h, e, gs) && n < |gs|
    ensures 0 < Tail(gs[n]) < |e| && PrevTail(gs, n) < |e| && NextTail(gs, n) < |e| && e[Tail(gs[n])].firstTx < |e|
    ensures e[Tail(gs[n])].prevGroup == PrevTail(gs, n)
    ensures n == 0 <==> PrevTail(gs, n) == SENTINEL
    ensures Higher(e[Tail(gs[n])].feerate, e[PrevTail(gs, n)].feerate) <==>
        n > 0 && Higher(Total(h, gs[n]), Total(h, gs[n - 1]))
    ensures n > 0 ==>
        PrevTail(gs, n) == Tail(gs[n - 1])
        && (e[Tail(gs[n])].deps * e[PrevTail(gs, n)].group != {} <==> Depends(h, gs[n], gs[n - 1]))
  {
    hide Total, DepsOf, Depends, Distinct, Flat;
    GroupIs(h, e, gs, n);
    if n > 0 {
      GroupIs(h, e, gs, n - 1);
      DependsIs(h, gs[n], gs[n - 1]);
    }
    if n + 1 < |gs| {
      GroupIs(h, e, gs, n + 1);
    }
  }

  /** Merges group prev into group cur, which follows it. */
  method MergeGroups(entries: array<TxEntry>, curGroup: nat, prevGroup: nat) returns (prepre: nat)
    requires curGroup < entries.Length && prevGroup < entries.Length && entries[curGroup].firstTx < entries.Length
    requires prevGroup != curGroup && prevGroup != entries[curGroup].firstTx
    modifies entries
    ensures entries[..] == MergeEntries(old(entries[..]), curGroup, prevGroup)
    ensures prepre == old(entries[prevGroup].prevGroup)
  {
    hide Plus;
    ghost var e := entries[..];
    entries[curGroup] := entries[curGroup].(group := entries[curGroup].group + entries[prevGroup].group,
                                            deps := entries[curGroup].deps + entries[prevGroup].deps,
                                            feerate := Plus(entries[curGroup].feerate, entries[prevGroup].feerate));
    entries[entries[curGroup].firstTx] := entries[entries[curGroup].firstTx].(prevTx := prevGroup);
    entries[curGroup] := entries[curGroup].(firstTx := entries[prevGroup].firstTx);
    prepre := entries[prevGroup].prevGroup;
    entries[curGroup] := entries[curGroup].(prevGroup := prepre);
  }

  /** Exchanges group cur with the group prev before it. */
  method SwapGroups(entries: array<TxEntry>, nextGroup: nat, curGroup: nat, prevGroup: nat) returns (prepre: nat)
    requires nextGroup < entries.Length && curGroup < entries.Length && prevGroup < entries.Length
    modifies entries
    ensures entries[..] == SwapEntries(old(entries[..]), nextGroup, curGroup, prevGroup)
    ensures prepre == old(entries[prevGroup].prevGroup)
  {
    prepre := entries[prevGroup].prevGroup;
    entries[nextGroup] := entries[nextGroup].(prevGroup := prevGroup);
    entries[prevGroup] := entries[prevGroup].(prevGroup := curGroup);
    entries[curGroup] := entries[curGroup].(prevGroup := prepre);
  }

  lemma {:induction false} NextStep(h: Graph, e: seq<TxEntry>, gs: seq<seq<nat>>, n: nat)
    requires Represents(h, e, gs) && 0 < n < |gs|
    ensures Tail(gs[n - 1]) != Tail(gs[n]) && Tail(gs[n - 1]) < |e| && Tail(gs[n - 1]) != e[Tail(gs[n])].firstTx
    ensures e[Tail(gs[n - 1])].prevGroup == PrevTail(gs, n - 1)
    ensures PrevTail(Merged(gs, n), n - 1) == PrevTail(Exchanged(gs, n), n - 1) == PrevTail(gs, n - 1)
    ensures Tail(Merged(gs, n)[n - 1]) == Tail(Exchanged(gs, n)[n - 1]) == Tail(gs[n])
    ensures NextTail(Merged(gs, n), n - 1) == NextTail(gs, n) && NextTail(Exchanged(gs, n), n - 1) == Tail(gs[n - 1])
  {
    hide Represents, Holds, Merged, Exchanged;
    GroupIs(h, e, gs, n - 1);
    GroupIs(h, e, gs, n);
    RepresentsDistinct(h, e, gs, n);
    GroupsApart(gs, n - 1, n);
    HeldTwo(h, e, gs[n - 1], gs[n]);
    TailMerged(gs[n - 1], gs[n]);
  }

  /** Moves the last group forward to where it belongs. */
  method SettleGroup(entries: array<TxEntry>, last: nat, ghost h: Graph, ghost gs: seq<seq<nat>>,
      ghost goal: seq<seq<nat>>)
    requires gs != [] && Represents(h, entries[..], gs) && last == LastTail(gs) && Settling(h, gs, |gs| - 1, goal)
    modifies entries
    ensures Represents(h, entries[..], goal)
  {
    hide Represents, Settling, Higher, Total, Depends, Tail, PrevTail, NextTail, Merged, Exchanged, SwapEntries,
        MergeEntries;
    ghost var cs, n := gs, |gs| - 1;
    ReadGroups(h, entries[..], cs, n);
    var curGroup, nextGroup := last, SENTINEL;
    LastHasNoNext(gs);
    var prevGroup := entries[curGroup].prevGroup;
    while Higher(entries[curGroup].feerate, entries[prevGroup].feerate)
      invariant 0 <= n < |cs| && Represents(h, entries[..], cs) && Settling(h, cs, n, goal)
      invariant curGroup == Tail(cs[n]) < entries.Length && prevGroup == PrevTail(cs, n) < entries.Length
      invariant nextGroup == NextTail(cs, n)
      decreases n
    {
      ghost var e := entries[..];
      ReadGroups(h, e, cs, n);
      NextStep(h, e, cs, n);
      if entries[curGroup].deps * entries[prevGroup].group != {} {
        MergeRepresents(h, e, cs, n);
        SettlingMerge(h, cs, n, goal);
        prevGroup := MergeGroups(entries, curGroup, prevGroup);
        cs, n := Merged(cs, n), n - 1;
      } else {
        SwapRepresents(h, e, cs, n);
        RepresentsDistinct(h, e, cs, n);
        SettlingSwap(h, cs, n, goal);
        var prepre := SwapGroups(entries, nextGroup, curGroup, prevGroup);
        nextGroup, prevGroup := prevGroup, prepre;
        cs, n := Exchanged(cs, n), n - 1;
      }
      ReadGroups(h, entries[..], cs, n);
    }
    ReadGroups(h, entries[..], cs, n);
    SettlingDone(h, cs, n, goal);
  }

  lemma LastHasNoNext(gs: seq<seq<nat>>)
    requires gs != []
    ensures NextTail(gs, |gs| - 1) == SENTINEL && LastTail(gs) == Tail(gs[|gs| - 1])
  {
  }

  lemma {:induction false} StartSettling(h: Graph, gs: seq<seq<nat>>, x: nat)
    ensures Settling(h, gs + [[x]], |gs|, Settle(h, gs, [x], [])) && LastTail(gs + [[x]]) == x + 1
  {
    hide Settle;
    var cs, n := gs + [[x]], |gs|;
    assert cs[..n] == gs && cs[n] == [x] && cs[n + 1..] == [];
  }

  lemma DirectionAt(g: Graph, rev: bool, x: nat)
    requires WellFormed(g) && x in g.used
    ensures x < |g.entries| == |Direction(g, rev).entries|
    ensures Anc(Direction(g, rev), x) == if rev then g.entries[x].descendants else g.entries[x].ancestors
    ensures Rate(Direction(g, rev), x) == if rev then Negated(g.entries[x].feerate) else g.entries[x].feerate
  {
    FlipAt(g, x);
  }

  /** Appends a group of one transaction and moves it forward. */
  method AddGroup(depgraph: DepGraph, entries: array<TxEntry>, idx: nat, rev: bool, ghost h: Graph,
      ghost gs: seq<seq<nat>>)
    requires depgraph.Valid() && h == Direction(depgraph.View(), rev) && idx in depgraph.used
    requires Represents(h, entries[..], gs) && Distinct(Flat(gs) + [idx])
    modifies entries
    ensures Represents(h, entries[..], Settle(h, gs, [idx], []))
  {
    hide WellFormed, Represents, Settling, Settle, Distinct, Flat, Direction, Anc, Rate, LastTail;
    ghost var e := entries[..];
    DirectionAt(depgraph.View(), rev, idx);
    RepresentsLength(h, e, gs);
    var curGroup := idx + 1;
    var deps := if rev then depgraph.entries[idx].descendants else depgraph.entries[idx].ancestors;
    var feerate := depgraph.entries[idx].feerate;
    if rev {
      feerate := feerate.(fee := -feerate.fee);
    }
    entries[curGroup] := TxEntry(NO_PREV_TX, curGroup, entries[SENTINEL].prevGroup, {idx}, deps, feerate);
    entries[SENTINEL] := entries[SENTINEL].(prevGroup := curGroup);
    AddRepresents(h, e, gs, idx, entries[..]);
    StartSettling(h, gs, idx);
    SettleGroup(entries, curGroup, h, gs + [[idx]], Settle(h, gs, [idx], []));
  }

  // ---------------------------------------------------------------------------------------
  // Writing the groups back

  /** The first done transactions, from the back of s, are in their place. */
  ghost predicate Written(lin: seq<nat>, s: seq<nat>, done: nat, rev: bool) {
    && |lin| == |s| && done <= |s|
    && (if rev then lin[..done] == Reverse(s)[..done] else lin[|s| - done..] == s[|s| - done..])
  }

  lemma {:induction false} WriteOne(lin: seq<nat>, s: seq<nat>, done: nat, rev: bool, more: seq<nat>)
    requires Written(lin, s, done, rev) && done < |s| && |more| == |lin|
    requires rev ==> more == lin[done := s[|s| - 1 - done]]
    requires !rev ==> more == lin[|s| - 1 - done := s[|s| - 1 - done]]
    ensures Written(more, s, done + 1, rev)
  {
  }

  lemma AllWritten(lin: seq<nat>, s: seq<nat>, rev: bool)
    requires Written(lin, s, |s|, rev)
    ensures lin == if rev then Reverse(s) else s
  {
    assert lin[..|s|] == lin && lin[0..] == lin && s[0..] == s && Reverse(s)[..|s|] == Reverse(s);
  }

  /** The transaction that the walk over group j is about to write. */
  lemma {:induction false} NextWritten(h: Graph, e: seq<TxEntry>, gs: seq<seq<nat>>, j: nat, k: nat)
    requires Represents(h, e, gs) && j < |gs| && 0 < k <= |gs[j]|
    ensures |Flat(gs[..j])| + k <= |Flat(gs)|
    ensures 0 < Tail(gs[j][..k]) < |e| && Flat(gs)[|Flat(gs[..j])| + k - 1] == Tail(gs[j][..k]) - 1
    ensures e[Tail(gs[j][..k])].prevTx == Tail(gs[j][..k - 1])
  {
    hide Represents, Flat, Tail, Holds;
    GroupIs(h, e, gs, j);
    FlatAt(gs, j, k - 1);
    HeldPrev(h, e, gs[j], k);
  }

  lemma {:induction false} FlatAt(gs: seq<seq<nat>>, j: nat, k: nat)
    requires j < |gs| && k < |gs[j]|
    ensures |Flat(gs[..j])| + k < |Flat(gs)| && Flat(gs)[|Flat(gs[..j])| + k] == gs[j][k]
  {
    hide Flat;
    CutSlice(gs, j);
    var a, b := |Flat(gs[..j])|, |Flat(gs[..j + 1])|;
    assert Flat(gs)[a + k] == Flat(gs)[a..b][k];
  }

  lemma {:induction false} HeldPrev(h: Graph, e: seq<TxEntry>, c: seq<nat>, k: nat)
    requires Holds(h, e, c) && 0 < k <= |c|
    ensures 0 < Tail(c[..k]) < |e| && c[k - 1] == Tail(c[..k]) - 1 && e[Tail(c[..k])].prevTx == Tail(c[..k - 1])
  {
    hide Total, DepsOf;
    assert c[k - 1] + 1 < |e| && e[c[k - 1] + 1].prevTx == Tail(c[..k - 1]);
  }

  method WriteBack(linearization: array<nat>, entries: array<TxEntry>, rev: bool, ghost h: Graph,
      ghost gs: seq<seq<nat>>)
    requires Represents(h, entries[..], gs) && linearization.Length == |Flat(gs)|
    modifies linearization
    ensures linearization[..] == if rev then Reverse(Flat(gs)) else Flat(gs)
  {
    hide Represents, Flat, Written, Reverse, Tail;
    ghost var s, e := Flat(gs), entries[..];
    var n, done := linearization.Length, 0;
    ghost var j := |gs|;
    RepresentsLength(h, e, gs);
    var curGroup := entries[SENTINEL].prevGroup;
    assert gs[..|gs|] == gs;
    NothingWritten(linearization[..], s, rev);
    while curGroup != SENTINEL
      invariant entries[..] == e && 0 <= j <= |gs| && curGroup == PrevTail(gs, j)
      invariant 0 <= done <= n && done == n - |Flat(gs[..j])| && Written(linearization[..], s, done, rev)
      decreases j
    {
      j := j - 1;
      ghost var k := |gs[j]|;
      CutSlice(gs, j);
      GroupIs(h, e, gs, j);
      assert gs[j][..k] == gs[j];
      var curTx := curGroup;
      while curTx != NO_PREV_TX
        invariant entries[..] == e && 0 <= k <= |gs[j]| && curTx == Tail(gs[j][..k])
        invariant 0 <= done <= n && done == n - |Flat(gs[..j])| - k && Written(linearization[..], s, done, rev)
        decreases k
      {
        SomeTail(gs[j], k);
        NextWritten(h, e, gs, j, k);
        ghost var before := linearization[..];
        if rev {
          linearization[done] := curTx - 1;
          done := done + 1;
        } else {
          done := done + 1;
          linearization[n - done] := curTx - 1;
        }
        WriteOne(before, s, done - 1, rev, linearization[..]);
        curTx := entries[curTx].prevTx;
        k := k - 1;
      }
      NoTail(gs[j], k);
      curGroup := entries[curGroup].prevGroup;
    }
    FirstTail(h, e, gs, j);
    assert gs[..0] == [] && Flat([]) == [];
    AllWritten(linearization[..], s, rev);
  }

  lemma NothingWritten(lin: seq<nat>, s: seq<nat>, rev: bool)
    requires |lin| == |s|
    ensures Written(lin, s, 0, rev)
  {
  }

  lemma SomeTail(c: seq<nat>, k: nat)
    requires k <= |c| && Tail(c[..k]) != 0
    ensures k > 0
  {
  }

  lemma NoTail(c: seq<nat>, k: nat)
    requires k <= |c| && Tail(c[..k]) == 0
    ensures k == 0
  {
  }

  lemma FirstTail(h: Graph, e: seq<TxEntry>, gs: seq<seq<nat>>, j: nat)
    requires Represents(h, e, gs) && j <= |gs| && PrevTail(gs, j) == SENTINEL
    ensures j == 0 && Flat(gs[..j]) == []
  {
  }

  // ---------------------------------------------------------------------------------------
  // The passes

  lemma {:induction false} PassPrefix(h: Graph, s: seq<nat>, i: nat)
    requires WellFormed(h) && Sized(h) && Orders(h, h.used, s) && i < |s|
    ensures Distinct(Flat(Groups(h, s[..i])) + [s[i]]) && s[i] in h.used
    ensures Groups(h, s[..i + 1]) == Settle(h, Groups(h, s[..i]), [s[i]], [])
  {
    hide WellFormed, Sized, Topo, GoodGroups, Falling, Settle, Dominates, PathOf, Distinct;
    var r := s[..i];
    assert s == r + s[i..] && s[i..] == [s[i]] + s[i + 1..];
    DistinctAppend(r, s[i..]);
    DistinctAppend([s[i]], s[i + 1..]);
    TopoAppend(h, r, s[i..]);
    ElemsAppend(r, s[i..]);
    ElemsAppend([s[i]], s[i + 1..]);
    GroupedAll(h, r, Elems(r));
    DistinctAppend(Flat(Groups(h, r)), [s[i]]);
    assert s[..i + 1][..|s[..i + 1]| - 1] == r;
    assert s[i] in s;
  }

  lemma {:induction false} PassLength(h: Graph, s: seq<nat>)
    requires WellFormed(h) && Sized(h) && Orders(h, h.used, s)
    ensures |Flat(Groups(h, s))| == |s|
  {
    hide WellFormed, Sized, Topo, GoodGroups, Falling, Groups, Dominates, PathOf;
    GroupedAll(h, s, h.used);
    DistinctSize(s);
    DistinctSize(Flat(Groups(h, s)));
  }

  /** The order in which a pass goes through the linearization. */
  function InOrder(s: seq<nat>, rev: bool): (r: seq<nat>)
    ensures |r| == |s|
  {
    if rev then Reverse(s) else s
  }

  lemma {:induction false} InOrderGood(g: Graph, s: seq<nat>, rev: bool)
    requires WellFormed(g) && Sized(g) && Orders(g, g.used, s)
    ensures WellFormed(Direction(g, rev)) && Sized(Direction(g, rev)) && Direction(g, rev).used == g.used
    ensures Orders(Direction(g, rev), g.used, InOrder(s, rev))
    ensures |Direction(g, rev).entries| == |g.entries|
    ensures forall i :: 0 <= i < |s| ==> InOrder(s, rev)[i] == s[if rev then |s| - 1 - i else i]
  {
    hide WellFormed, Sized, Orders;
    FlipWellFormed(g);
    FlipOrders(g, g.used, s);
  }

  lemma {:induction false} EmptyRepresents(h: Graph, e: seq<TxEntry>)
    requires |e| == |h.entries| + 1 && e[SENTINEL].feerate == EMPTY && e[SENTINEL].prevGroup == SENTINEL
    ensures Represents(h, e, [])
  {
  }

  method RunPass(depgraph: DepGraph, linearization: array<nat>, entries: array<TxEntry>, rev: bool)
    requires depgraph.Valid() && Sized(depgraph.View()) && Orders(depgraph.View(), depgraph.used, linearization[..])
    requires entries.Length == |depgraph.entries| + 1 && entries[SENTINEL].feerate == EMPTY
    modifies linearization, entries
    ensures linearization[..] == if rev then BackPass(depgraph.View(), old(linearization[..]))
        else Pass(depgraph.View(), old(linearization[..]))
    ensures entries[SENTINEL].feerate == EMPTY
  {
    hide WellFormed, Sized, Orders, Represents, Groups, Direction, InOrder, Flat, Settle, Distinct, Reverse;
    ghost var g, lin := depgraph.View(), linearization[..];
    ghost var h, s := Direction(g, rev), InOrder(lin, rev);
    InOrderGood(g, lin, rev);
    entries[SENTINEL] := entries[SENTINEL].(prevGroup := SENTINEL);
    EmptyRepresents(h, entries[..]);
    NoGroupsYet(h, s);
    for i := 0 to linearization.Length
      invariant linearization[..] == lin && depgraph.View() == g && Represents(h, entries[..], Groups(h, s[..i]))
    {
      var idx := linearization[if rev then linearization.Length - 1 - i else i];
      assert idx == s[i];
      PassPrefix(h, s, i);
      AddGroup(depgraph, entries, idx, rev, h, Groups(h, s[..i]));
    }
    assert s[..|s|] == s;
    PassLength(h, s);
    WriteBack(linearization, entries, rev, h, Groups(h, s));
    RepresentsLength(h, entries[..], Groups(h, s));
    PassIs(g, lin, rev);
  }

  lemma NoGroupsYet(h: Graph, s: seq<nat>)
    ensures Groups(h, s[..0]) == []
  {
  }

  lemma PassIs(g: Graph, s: seq<nat>, rev: bool)
    ensures rev ==> Reverse(Flat(Groups(Direction(g, rev), InOrder(s, rev)))) == BackPass(g, s)
    ensures !rev ==> Flat(Groups(Direction(g, rev), InOrder(s, rev))) == Pass(g, s)
  {
  }

  method PostLinearize(depgraph: DepGraph, linearization: array<nat>)
    requires depgraph.Valid() && Sized(depgraph.View()) && Orders(depgraph.View(), depgraph.used, linearization[..])
    modifies linearization
    ensures linearization[..] == PostLinearization(depgraph.View(), old(linearization[..]))
    ensures Orders(depgraph.View(), depgraph.used, linearization[..])
    ensures NoWorseThanOld(depgraph.View(), linearization[..], old(linearization[..]))
    ensures ChunksConnected(depgraph.View(), linearization[..])
    ensures Acyclic(depgraph.View()) && (AtMostOneChild(depgraph.View()) || AtMostOneParent(depgraph.View())) ==>
        Unbeatable(depgraph.View(), linearization[..])
  {
    hide WellFormed, Sized, Acyclic, AtMostOneChild, AtMostOneParent, Orders, Pass, BackPass, NoWorseThanOld,
        ChunksConnected, Unbeatable, Dominates, PathOf;
    var g := depgraph.View();
    ghost var lin := linearization[..];
    var entries := new TxEntry[|depgraph.entries| + 1](i => TxEntry(0, 0, 0, {}, {}, EMPTY));
    BackPassGood(g, lin);
    for pass := 0 to 2
      invariant depgraph.View() == g && entries[SENTINEL].feerate == EMPTY
      invariant linearization[..] == if pass == 0 then lin else if pass == 1 then BackPass(g, lin)
          else PostLinearization(g, lin)
    {
      var rev := pass % 2 == 0;
      RunPass(depgraph, linearization, entries, rev);
    }
    PostLinearizationGood(g, lin);
    if Acyclic(g) && (AtMostOneChild(g) || AtMostOneParent(g)) {
      PostLinearizationTree(g, lin);
    }
  }
}
