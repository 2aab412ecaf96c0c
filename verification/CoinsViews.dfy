/** What a cache of coins means over the view below it (src/coins.h:93-107, 146-172): which coins
    are visible, and which flags are right. */
module CoinsViews {
  import opened Sequences
  import opened CoinsList

  type View = map<OutPoint, Coin>

  /** A view holds unspent coins only. */
  ghost predicate Unspent(v: View) {
    forall k :: k in v ==> !v[k].IsSpent()
  }

  /** The cached version of a coin hides the one below. */
  ghost function Visible(c: map<OutPoint, Bare>, below: View): View {
    map k | k in c.Keys + below.Keys && (k in c ==> !c[k].coin.IsSpent()) :: if k in c then c[k].coin else below[k]
  }

  /** The five combinations of spent, dirty and fresh that may occur. */
  predicate Legal(b: Bare) {
    if b.coin.IsSpent() then b.isDirty != b.isFresh else b.isDirty || !b.isFresh
  }

  /** An entry that is not dirty is the same below, and one that is fresh is not below. */
  ghost predicate Sound(k: OutPoint, b: Bare, below: View) {
    && Legal(b)
    && (b.coin.IsSpent() ==> b.coin == NULL_COIN)
    && (!b.isDirty && !b.coin.IsSpent() ==> k in below && below[k] == b.coin)
    && (b.isFresh ==> k !in below)
  }

  ghost predicate Coherent(c: map<OutPoint, Bare>, below: View) {
    forall k :: k in c ==> Sound(k, c[k], below)
  }

  lemma {:induction false} StoreSound(c: map<OutPoint, Bare>, below: View, k: OutPoint, b: Bare)
    requires Coherent(c, below) && Sound(k, b, below)
    ensures Coherent(c[k := b], below)
    ensures !b.coin.IsSpent() ==> Visible(c[k := b], below) == Visible(c, below)[k := b.coin]
    ensures b.coin.IsSpent() ==> Visible(c[k := b], below) == Visible(c, below) - {k}
  {
  }

  /** Storing an unspent coin, rightly or not. */
  lemma {:induction false} StoreAt(c: map<OutPoint, Bare>, below: View, k: OutPoint, b: Bare)
    requires Coherent(c, below) && !b.coin.IsSpent()
    ensures Coherent(c[k := b], below) <==> Sound(k, b, below)
    ensures Visible(c[k := b], below) == Visible(c, below)[k := b.coin]
  {
    if Coherent(c[k := b], below) {
      assert Sound(k, c[k := b][k], below);
    }
  }

  lemma {:induction false} EraseSound(c: map<OutPoint, Bare>, below: View, k: OutPoint)
    requires Coherent(c, below)
    ensures Coherent(c - {k}, below)
    ensures k !in below ==> Visible(c - {k}, below) == Visible(c, below) - {k}
    ensures k in below ==> Visible(c - {k}, below) == Visible(c, below)[k := below[k]]
  {
  }

  // ---------------------------------------------------------------------------------------
  // Writing a child's changes into its parent

  /** What the parent does with one entry of the child. */
  function BatchOne(p: map<OutPoint, Bare>, k: OutPoint, b: Bare): map<OutPoint, Bare> {
    if !b.isDirty then p
    else if k !in p then
      if b.isFresh && b.coin.IsSpent() then p else p[k := Bare(b.coin, true, b.isFresh)]
    else if p[k].isFresh && b.coin.IsSpent() then p - {k}
    else p[k := Bare(b.coin, true, p[k].isFresh)]
  }

  /** v with the dirty entries of c among done. */
  ghost function Overlay(v: View, c: map<OutPoint, Bare>, done: set<OutPoint>): View {
    map k | k in c.Keys + v.Keys && (k in done && k in c && c[k].isDirty ==> !c[k].coin.IsSpent()) &&
            (!(k in done && k in c && c[k].isDirty) ==> k in v)
          :: if k in done && k in c && c[k].isDirty then c[k].coin else v[k]
  }

  lemma {:induction false} OverlayNone(v: View, c: map<OutPoint, Bare>)
    ensures Overlay(v, c, {}) == v
  {
  }

  lemma {:induction false} OverlayOne(v: View, c: map<OutPoint, Bare>, done: set<OutPoint>, k: OutPoint)
    requires k in c
    ensures !c[k].isDirty ==> Overlay(v, c, done + {k}) == Overlay(v, c, done)
    ensures c[k].isDirty && c[k].coin.IsSpent() ==> Overlay(v, c, done + {k}) == Overlay(v, c, done) - {k}
    ensures c[k].isDirty && !c[k].coin.IsSpent() ==> Overlay(v, c, done + {k}) == Overlay(v, c, done)[k := c[k].coin]
    ensures k !in done ==> (k in Overlay(v, c, done) <==> k in v)
  {
  }

  lemma {:induction false} StillSound(v: View, c: map<OutPoint, Bare>, done: set<OutPoint>, k: OutPoint)
    requires k in c && k !in done && Sound(k, c[k], v)
    ensures Sound(k, c[k], Overlay(v, c, done))
  {
  }

  /** Once all flagged entries are written, the parent shows what the child did. */
  lemma {:induction false} OverlayAll(v: View, c: map<OutPoint, Bare>, done: set<OutPoint>)
    requires Coherent(c, v) && forall k :: k in c && c[k].isDirty ==> k in done
    ensures Overlay(v, c, done) == Visible(c, v)
  {
    forall k
      ensures k in Overlay(v, c, done) <==> k in Visible(c, v)
      ensures k in Overlay(v, c, done) && k in Visible(c, v) ==> Overlay(v, c, done)[k] == Visible(c, v)[k]
    {
      assert k in c ==> Sound(k, c[k], v);
    }
  }

  /** The parent stays sound over what is below it, and shows the new version of the coin. A
      fresh coin of the child is never unspent in the parent. */
  lemma {:induction false} BatchOneSound(p: map<OutPoint, Bare>, below: View, k: OutPoint, b: Bare)
    requires Coherent(p, below) && Sound(k, b, Visible(p, below))
    ensures b.isFresh && k in p ==> p[k].coin.IsSpent()
    ensures Coherent(BatchOne(p, k, b), below)
    ensures !b.isDirty ==> Visible(BatchOne(p, k, b), below) == Visible(p, below)
    ensures b.isDirty && b.coin.IsSpent() ==> Visible(BatchOne(p, k, b), below) == Visible(p, below) - {k}
    ensures b.isDirty && !b.coin.IsSpent() ==> Visible(BatchOne(p, k, b), below) == Visible(p, below)[k := b.coin]
  {
    assert k in p ==> Sound(k, p[k], below);
    if b.isDirty {
      if k !in p {
        StoreSound(p, below, k, Bare(b.coin, true, b.isFresh));
      } else if p[k].isFresh && b.coin.IsSpent() {
        EraseSound(p, below, k);
      } else {
        StoreSound(p, below, k, Bare(b.coin, true, p[k].isFresh));
      }
    }
  }

  /** One step of the loop over the child's list. */
  lemma {:induction false} BatchStep(p: map<OutPoint, Bare>, below: View, v: View, c: map<OutPoint, Bare>,
      order: seq<OutPoint>, i: nat)
    requires Coherent(p, below) && Coherent(c, v) && i < |order| && Distinct(order) && order[i] in c
    requires Visible(p, below) == Overlay(v, c, Elems(order[..i]))
    ensures c[order[i]].isFresh && order[i] in p ==> p[order[i]].coin.IsSpent()
    ensures Coherent(BatchOne(p, order[i], c[order[i]]), below)
    ensures Visible(BatchOne(p, order[i], c[order[i]]), below) == Overlay(v, c, Elems(order[..i + 1]))
  {
    hide Visible, Overlay, BatchOne, Sound;
    var k := order[i];
    ElemsTake(order, i);
    StillSound(v, c, Elems(order[..i]), k);
    OverlayOne(v, c, Elems(order[..i]), k);
    BatchOneSound(p, below, k, c[k]);
  }

  /** The child, cleaned, over the view that its changes were written to. */
  lemma {:induction false} CleanedSound(c: map<OutPoint, Bare>, v: View, r: map<OutPoint, Bare>)
    requires Coherent(c, v)
    requires forall k :: k in r ==> k in c && !c[k].coin.IsSpent() && r[k] == Bare(c[k].coin, false, false)
    ensures Coherent(r, Visible(c, v)) && Visible(r, Visible(c, v)) == Visible(c, v)
  {
  }

  // ---------------------------------------------------------------------------------------
  // Memory

  ghost function TotalUsage(c: map<OutPoint, Bare>): nat {
    if c == map[] then 0 else
      var k :| k in c;
      c[k].coin.DynamicMemoryUsage() + TotalUsage(c - {k})
  }

  lemma {:induction false} UsageWithout(c: map<OutPoint, Bare>, k: OutPoint)
    requires k in c
    ensures TotalUsage(c) == c[k].coin.DynamicMemoryUsage() + TotalUsage(c - {k})
    decreases |c|
  {
    var q :| q in c && TotalUsage(c) == c[q].coin.DynamicMemoryUsage() + TotalUsage(c - {q});
    if q != k {
      assert c - {q} - {k} == c - {k} - {q};
      UsageWithout(c - {q}, k);
      UsageWithout(c - {k}, q);
    }
  }

  lemma {:induction false} UsageStore(c: map<OutPoint, Bare>, k: OutPoint, b: Bare)
    ensures TotalUsage(c[k := b]) == TotalUsage(c - {k}) + b.coin.DynamicMemoryUsage()
    ensures k !in c ==> c - {k} == c
  {
    UsageWithout(c[k := b], k);
    assert c[k := b] - {k} == c - {k};
  }

  // ---------------------------------------------------------------------------------------
  // A child whose entries are cleaned one by one

  ghost function Cleaned(c: map<OutPoint, Bare>, done: set<OutPoint>): map<OutPoint, Bare> {
    map k | k in c && !(k in done && c[k].coin.IsSpent()) :: if k in done then Bare(c[k].coin, false, false) else c[k]
  }

  lemma {:induction false} CleanedNone(c: map<OutPoint, Bare>)
    ensures Cleaned(c, {}) == c
  {
  }

  lemma {:induction false} CleanedOne(c: map<OutPoint, Bare>, done: set<OutPoint>, k: OutPoint)
    requires k in c && k !in done
    ensures k in Cleaned(c, done) && Cleaned(c, done)[k] == c[k]
    ensures c[k].coin.IsSpent() ==> Cleaned(c, done + {k}) == Cleaned(c, done) - {k}
    ensures !c[k].coin.IsSpent() ==> Cleaned(c, done + {k}) == Cleaned(c, done)[k := Bare(c[k].coin, false, false)]
  {
  }

  lemma {:induction false} CleanedAll(c: map<OutPoint, Bare>, v: View, done: set<OutPoint>)
    requires Coherent(c, v) && forall k :: k in c ==> (k in done <==> c[k].isDirty || c[k].isFresh)
    ensures Coherent(Cleaned(c, done), Visible(c, v)) && Visible(Cleaned(c, done), Visible(c, v)) == Visible(c, v)
  {
    var r := Cleaned(c, done);
    forall k | k in r
      ensures !c[k].coin.IsSpent() && r[k] == Bare(c[k].coin, false, false)
    {
      assert Sound(k, c[k], v);
    }
    CleanedSound(c, v, r);
  }
}
