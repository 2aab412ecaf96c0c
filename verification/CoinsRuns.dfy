/** Whole runs of a tower of coin caches against one plain map. */
module CoinsRuns {
  import opened CoinsList
  import opened CoinsViews
  import opened CoinsCache

  /** Operations at the top, or at the cache so many levels below (at most the lowest one). */
  datatype Op =
    | Add(outpoint: OutPoint, coin: Coin, possibleOverwrite: bool)
    | Spend(outpoint: OutPoint)
    | Get(outpoint: OutPoint)
    | Uncache(below: nat, outpoint: OutPoint)
    | SetBest(below: nat, hash: nat)
    | GetBest
    | Flush(below: nat)
    | Sync(below: nat)

  /** The unspent coins, and the best block of every level, the database last. */
  datatype Plain = Plain(coins: View, bests: seq<nat>)

  /** What the operation does to a plain map of unspent coins. */
  ghost function PlainStep(s: Plain, op: Op): (r: Plain)
    requires |s.bests| >= 2
    ensures |r.bests| == |s.bests|
  {
    match op
    case Add(k, coin, _) => if coin.IsUnspendable() then s else s.(coins := s.coins[k := coin])
    case Spend(k) => s.(coins := s.coins - {k})
    case SetBest(n, hash) => s.(bests := s.bests[PlaceOf(s.bests, n) := hash])
    case GetBest => s.(bests := Filled(s.bests))
    case Flush(n) => s.(bests := WrittenAt(s.bests, n))
    case Sync(n) => s.(bests := WrittenAt(s.bests, n))
    case _ => s
  }

  /** An unspent coin is overwritten only where the caller says so, and what is written to the
      database has a best block. */
  predicate Allowed(s: Plain, op: Op)
    requires |s.bests| >= 2
  {
    match op
    case Add(k, coin, possibleOverwrite) => !coin.IsSpent()
        && (coin.IsUnspendable() || possibleOverwrite || k !in s.coins)
    case Flush(n) => MayWrite(s.bests, n)
    case Sync(n) => MayWrite(s.bests, n)
    case _ => true
  }

  ghost function PlainRun(s: Plain, ops: seq<Op>): (r: Plain)
    requires |s.bests| >= 2
    ensures |r.bests| == |s.bests|
  {
    if ops == [] then s else PlainStep(PlainRun(s, ops[..|ops| - 1]), ops[|ops| - 1])
  }

  ghost predicate AllowedRun(s: Plain, ops: seq<Op>)
    requires |s.bests| >= 2
  {
    forall i :: 0 <= i < |ops| ==> Allowed(PlainRun(s, ops[..i]), ops[i])
  }

  /** What a tower shows. */
  ghost function Shown(top: CoinsViewCache): (s: Plain)
    requires top.Shape()
    reads top.Repr
    ensures |s.bests| >= 2
  {
    Plain(top.View(), top.Bests())
  }

  method Step(top: CoinsViewCache, op: Op)
    requires top.Valid() && Allowed(Shown(top), op)
    modifies top.Repr
    ensures top.Valid() && Shown(top) == PlainStep(old(Shown(top)), op)
  {
    match op {
      case Add(k, coin, possibleOverwrite) =>
        var thrown := top.AddCoin(k, coin, possibleOverwrite);
        assert !thrown;
      case Spend(k) => var ok, coin := top.SpendCoin(k);
      case Get(k) => var coin := top.GetCoin(k);
      case Uncache(n, k) => top.UncacheAt(n, k);
      case SetBest(n, hash) => top.SetBestBlockAt(n, hash);
      case GetBest => var hash := top.GetBestBlock();
      case Flush(n) => top.FlushAt(n);
      case Sync(n) => top.SyncAt(n);
    }
  }

  /** In every run, at every level of flushing, the visible coins are those of the plain map, and
      the self-check passes. */
  method Run(top: CoinsViewCache, ops: seq<Op>) returns (ok: bool)
    requires top.Valid() && AllowedRun(Shown(top), ops)
    modifies top.Repr
    ensures top.Valid() && Shown(top) == PlainRun(old(Shown(top)), ops) && ok
  {
    ghost var s := Shown(top);
    ok := true;
    assert ops[..0] == [];
    for i := 0 to |ops|
      invariant top.Valid() && Shown(top) == PlainRun(s, ops[..i]) && ok
    {
      assert ops[..i + 1][..i] == ops[..i] && ops[..i + 1][i] == ops[i];
      Step(top, ops[i]);
      var fine := top.SanityCheck();
      ok := ok && fine;
    }
    assert ops[..|ops|] == ops;
  }
}
