/** The tree of block headers with its shortcuts, and the active chain (src/chain.cpp:21-29,
    55-64, 73-147, 192-211; src/chain.h:166-182, 489-548). */
module BlockTree {

  // ---------------------------------------------------------------------------------------
  // Skip heights

  /** x & y */
  function And(x: nat, y: nat): (r: nat)
    ensures r <= x && r <= y
  {
    if x == 0 || y == 0 then 0
    else 2 * And(x / 2, y / 2) + (if x % 2 == 1 && y % 2 == 1 then 1 else 0)
  }

  /** Turns the lowest one bit into a zero. */
  function InvertLowestOne(n: nat): (r: nat)
    ensures n > 0 ==> r < n
  {
    if n == 0 then 0 else And(n, n - 1)
  }

  /** The height that the skip pointer of a block goes back to. */
  function GetSkipHeight(height: nat): (r: nat)
    ensures height > 0 ==> r < height
  {
    if height < 2 then 0
    else if height % 2 == 1 then InvertLowestOne(InvertLowestOne(height - 1)) + 1
    else InvertLowestOne(height)
  }

  // ---------------------------------------------------------------------------------------
  // Blocks

  /** The blocks of c, from the genesis block on, are linked as they should be. */
  ghost predicate Chained(c: seq<BlockIndex>)
    reads c
  {
    forall i :: 0 <= i < |c| ==> c[i].LinkedIn(c, i)
  }

  /** The nearest block of a lane among the first n. */
  ghost function Nearest(c: seq<BlockIndex>, n: nat, auxpow: bool): (r: BlockIndex?)
    requires n <= |c|
    ensures r != null ==> r in c[..n] && r.auxpow == auxpow
    ensures forall j :: 0 <= j < n && c[j].auxpow == auxpow ==> r != null
  {
    if n == 0 then null
    else if c[n - 1].auxpow == auxpow then c[n - 1]
    else Nearest(c, n - 1, auxpow)
  }

  class BlockIndex {
    const auxpow: bool
    var nHeight: nat
    var pprev: BlockIndex?
    var pskip: BlockIndex?
    var pprevPermissionless: BlockIndex?
    var pprevAuxpow: BlockIndex?
    /** All ancestors from the genesis block on, this block included. */
    ghost var chain: seq<BlockIndex>

    ghost predicate LinkedIn(c: seq<BlockIndex>, i: nat)
      requires i < |c|
      reads this
    {
      && c[i] == this && nHeight == i && chain == c[..i + 1]
      && pprev == (if i == 0 then null else c[i - 1])
      && pskip == (if i == 0 then null else c[GetSkipHeight(i)])
      && pprevPermissionless == Nearest(c, i, false)
      && pprevAuxpow == Nearest(c, i, true)
    }

    ghost predicate Valid()
      reads this, chain
    {
      chain != [] && chain[|chain| - 1] == this && Chained(chain)
    }

    /** The ancestor at a height, by walking from parent to parent. */
    ghost function AncestorByParents(height: nat): BlockIndex
      requires Valid() && height <= nHeight
      reads this, chain
      decreases nHeight
    {
      if height == nHeight then this else
        ParentIs();
        pprev.AncestorByParents(height)
    }

    lemma TipIs()
      requires Valid()
      ensures nHeight == |chain| - 1
    {
      hide LinkedIn;
      PointersAt(chain, |chain| - 1);
    }

    lemma {:induction false} ParentIs()
      requires Valid()
      ensures nHeight > 0 ==>
          pprev != null && pprev in chain && pprev.Valid() && pprev.nHeight == nHeight - 1
          && pprev.chain == chain[..nHeight]
    {
      hide LinkedIn;
      TipIs();
      PointersAt(chain, nHeight);
      if nHeight > 0 {
        PrefixValid(chain, nHeight - 1);
        assert chain[..nHeight - 1 + 1] == chain[..nHeight];
      }
    }

    /** Walking from parent to parent gives the blocks of the chain. */
    lemma {:induction false} WalkIs(height: nat)
      requires Valid() && height <= nHeight
      ensures height < |chain| && AncestorByParents(height) == chain[height]
      decreases nHeight
    {
      hide LinkedIn;
      TipIs();
      ParentIs();
      if height < nHeight {
        pprev.WalkIs(height);
      }
    }

    /** The ancestor at a height, or null if there is none, through skip pointers. */
    method GetAncestor(height: int) returns (r: BlockIndex?)
      requires Valid()
      ensures r == if 0 <= height <= nHeight then AncestorByParents(height) else null
      ensures 0 <= height <= nHeight ==> r == chain[height]
    {
      hide LinkedIn, AncestorByParents, GetSkipHeight, Nearest, Chained;
      if height > nHeight || height < 0 {
        return null;
      }
      TipIs();
      WalkIs(height);
      var walk: BlockIndex, heightWalk := this, nHeight;
      while heightWalk > height
        invariant height <= heightWalk <= nHeight && walk == chain[heightWalk]
      {
        PointersAt(chain, heightWalk);
        var heightSkip := GetSkipHeight(heightWalk);
        var heightSkipPrev := GetSkipHeight(heightWalk - 1);
        if walk.pskip != null &&
           (heightSkip == height
               || (heightSkip > height && !(heightSkipPrev < heightSkip - 2 && heightSkipPrev >= height))) {
          walk, heightWalk := walk.pskip, heightSkip;
        } else {
          walk, heightWalk := walk.pprev, heightWalk - 1;
        }
      }
      return walk;
    }

    /** The most recent block of a lane, this one included; one of the other lane only from
        minHeight on. */
    method GetPreviousBlockForLane(lane: bool, minHeight: int) returns (r: BlockIndex?)
      requires Valid()
      ensures auxpow == lane ==> r == this
      ensures auxpow != lane ==>
          r == (if Nearest(chain, |chain|, lane) != null && Nearest(chain, |chain|, lane).nHeight >= minHeight
          then Nearest(chain, |chain|, lane) else null)
    {
      hide LinkedIn;
      TipIs();
      PointersAt(chain, nHeight);
      if auxpow == lane {
        return this;
      }
      NearestPrefix(chain, nHeight, lane);
      var candidate := if lane then pprevAuxpow else pprevPermissionless;
      return if candidate != null && candidate.nHeight >= minHeight then candidate else null;
    }

    /** A block whose parent is known; its shortcuts are still to be built. */
    constructor (prev: BlockIndex?, auxpow: bool)
      requires prev != null ==> prev.Valid()
      ensures this.auxpow == auxpow && pprev == prev && pskip == null && pprevPermissionless == null
      ensures pprevAuxpow == null
      ensures nHeight == (if prev == null then 0 else prev.nHeight + 1)
      ensures chain == (if prev == null then [] else prev.chain) + [this]
    {
      this.auxpow := auxpow;
      pprev, pskip, pprevPermissionless, pprevAuxpow := prev, null, null, null;
      nHeight := if prev == null then 0 else prev.nHeight + 1;
      chain := (if prev == null then [] else prev.chain) + [this];
    }

    method BuildSkip()
      requires pprev != null ==> pprev.Valid() && this !in pprev.chain && nHeight == pprev.nHeight + 1
      modifies this`pskip
      ensures pprev == null ==> pskip == old(pskip)
      ensures pprev != null ==> GetSkipHeight(nHeight) < |pprev.chain| && pskip == pprev.chain[GetSkipHeight(nHeight)]
    {
      if pprev != null {
        pprev.TipIs();
        pskip := pprev.GetAncestor(GetSkipHeight(nHeight));
      }
    }

    method BuildCadenceLaneLinks()
      requires pprev != null ==> pprev.Valid() && this !in pprev.chain
      modifies this`pprevPermissionless, this`pprevAuxpow
      ensures pprev == null ==> pprevPermissionless == null && pprevAuxpow == null
      ensures pprev != null ==>
                && pprevPermissionless == Nearest(pprev.chain, |pprev.chain|, false)
                && pprevAuxpow == Nearest(pprev.chain, |pprev.chain|, true)
    {
      pprevPermissionless, pprevAuxpow := null, null;
      if pprev == null {
        return;
      }
      hide LinkedIn;
      pprev.TipIs();
      PointersAt(pprev.chain, pprev.nHeight);
      if pprev.auxpow {
        pprevAuxpow := pprev;
        pprevPermissionless := pprev.pprevPermissionless;
      } else {
        pprevPermissionless := pprev;
        pprevAuxpow := pprev.pprevAuxpow;
      }
    }
  }

  /** Where the pointers of block i lead. */
  lemma {:induction false} PointersAt(c: seq<BlockIndex>, i: nat)
    requires Chained(c) && i < |c|
    ensures c[i].nHeight == i && c[i].chain == c[..i + 1]
    ensures c[i].pprev == if i == 0 then null else c[i - 1]
    ensures c[i].pskip == if i == 0 then null else c[GetSkipHeight(i)]
    ensures c[i].pprevPermissionless == Nearest(c, i, false) && c[i].pprevAuxpow == Nearest(c, i, true)
  {
    assert c[i].LinkedIn(c, i) by { hide BlockIndex.LinkedIn; }
    hide Chained;
  }

  lemma {:induction false} LinkedPrefix(c: seq<BlockIndex>, i: nat, j: nat)
    requires j <= i < |c| && c[j].LinkedIn(c, j)
    ensures c[j].LinkedIn(c[..i + 1], j)
  {
    hide Nearest;
    var d := c[..i + 1];
    assert d[..j + 1] == c[..j + 1] && d[..j] == c[..j];
    NearestSame(c, d, j, false);
    NearestSame(c, d, j, true);
  }

  lemma {:induction false} PrefixValid(c: seq<BlockIndex>, i: nat)
    requires Chained(c) && i < |c|
    ensures c[i].Valid() && c[i].chain == c[..i + 1] && c[i].nHeight == i
  {
    hide BlockIndex.LinkedIn;
    var d := c[..i + 1];
    PointersAt(c, i);
    forall j | 0 <= j < |d|
      ensures d[j].LinkedIn(d, j)
    {
      assert c[j].LinkedIn(c, j);
      LinkedPrefix(c, i, j);
    }
  }

  lemma {:induction false} NearestSame(c: seq<BlockIndex>, d: seq<BlockIndex>, n: nat, lane: bool)
    requires n <= |c| && n <= |d| && c[..n] == d[..n]
    ensures Nearest(c, n, lane) == Nearest(d, n, lane)
  {
    if n > 0 {
      assert c[..n][n - 1] == d[..n][n - 1];
      assert c[..n - 1] == c[..n][..n - 1] && d[..n - 1] == d[..n][..n - 1];
      NearestSame(c, d, n - 1, lane);
    }
  }

  /** Between the nearest block of a lane and block n, there is none of that lane. */
  lemma {:induction false} NearestIsLast(c: seq<BlockIndex>, n: nat, lane: bool) returns (i: nat)
    requires n <= |c| && Nearest(c, n, lane) != null
    ensures i < n && c[i] == Nearest(c, n, lane) && c[i].auxpow == lane && forall j :: i < j < n ==> c[j].auxpow != lane
  {
    if c[n - 1].auxpow == lane {
      i := n - 1;
    } else {
      i := NearestIsLast(c, n - 1, lane);
    }
  }

  lemma NearestPrefix(c: seq<BlockIndex>, n: nat, lane: bool)
    requires n < |c| && c[n].auxpow != lane && n == |c| - 1
    ensures Nearest(c, |c|, lane) == Nearest(c, n, lane)
  {
  }

  /** Adds a block to the tree, after its parent. */
  method AddBlock(prev: BlockIndex?, auxpow: bool) returns (b: BlockIndex)
    requires prev != null ==> prev.Valid()
    ensures fresh(b) && b.Valid() && b.auxpow == auxpow && b.pprev == prev
    ensures b.chain == (if prev == null then [] else prev.chain) + [b]
  {
    hide Nearest, GetSkipHeight, BlockIndex.LinkedIn;
    if prev != null {
      prev.TipIs();
    }
    ghost var c := if prev == null then [] else prev.chain;
    b := new BlockIndex(prev, auxpow);
    b.BuildSkip();
    b.BuildCadenceLaneLinks();
    Extended(c, b);
  }

  lemma {:induction false} LinkedLonger(c: seq<BlockIndex>, b: BlockIndex, i: nat)
    requires i < |c| && c[i].LinkedIn(c, i)
    ensures c[i].LinkedIn(c + [b], i)
  {
    hide Nearest;
    var d := c + [b];
    assert d[..i + 1] == c[..i + 1] && d[..i] == c[..i];
    NearestSame(c, d, i, false);
    NearestSame(c, d, i, true);
  }

  lemma {:induction false} LinkedNew(c: seq<BlockIndex>, b: BlockIndex)
    requires b.chain == c + [b] && b.nHeight == |c|
    requires b.pprev == if c == [] then null else c[|c| - 1]
    requires b.pskip == if c == [] then null else c[GetSkipHeight(|c|)]
    requires b.pprevPermissionless == Nearest(c, |c|, false) && b.pprevAuxpow == Nearest(c, |c|, true)
    ensures b.LinkedIn(c + [b], |c|)
  {
    hide Nearest;
    var d := c + [b];
    assert d[..|c| + 1] == d && d[..|c|] == c && c[..|c|] == c;
    NearestSame(c, d, |c|, false);
    NearestSame(c, d, |c|, true);
  }

  lemma {:induction false} Extended(c: seq<BlockIndex>, b: BlockIndex)
    requires Chained(c) && b.chain == c + [b] && b.nHeight == |c|
    requires b.pprev == if c == [] then null else c[|c| - 1]
    requires b.pskip == if c == [] then null else c[GetSkipHeight(|c|)]
    requires b.pprevPermissionless == Nearest(c, |c|, false) && b.pprevAuxpow == Nearest(c, |c|, true)
    ensures b.Valid()
  {
    hide Nearest, GetSkipHeight, BlockIndex.LinkedIn;
    LinkedNew(c, b);
    var d := c + [b];
    forall i | 0 <= i < |d|
      ensures d[i].LinkedIn(d, i)
    {
      if i < |c| {
        assert c[i].LinkedIn(c, i);
        LinkedLonger(c, b, i);
      }
    }
  }

  // ---------------------------------------------------------------------------------------
  // The active chain

  /** r is the highest block on both chains, or null if they have none in common. */
  ghost predicate HighestCommon(r: BlockIndex?, c: seq<BlockIndex>, d: seq<BlockIndex>)
    reads c, d
  {
    if r == null then forall x :: x in c ==> x !in d
    else r in c && r in d && forall x :: x in c && x in d ==> x.nHeight <= r.nHeight
  }

  /** A block stands at its height on every chain. */
  lemma {:induction false} PlaceOf(c: seq<BlockIndex>, b: BlockIndex)
    requires Chained(c) && b in c
    ensures b.nHeight < |c| && c[b.nHeight] == b && b.chain == c[..b.nHeight + 1]
  {
    hide Nearest, GetSkipHeight, BlockIndex.LinkedIn;
    var i :| 0 <= i < |c| && c[i] == b;
    PointersAt(c, i);
  }

  /** Chains that share a block agree up to it. */
  lemma {:induction false} SharedPrefix(c: seq<BlockIndex>, d: seq<BlockIndex>, h: nat)
    requires Chained(c) && Chained(d) && h < |c| && h < |d| && c[h] == d[h]
    ensures c[..h + 1] == d[..h + 1]
  {
    hide Nearest, GetSkipHeight, BlockIndex.LinkedIn, Chained;
    PointersAt(c, h);
    PointersAt(d, h);
  }

  /** Where chains differ at a height, they have nothing in common from there on. */
  lemma {:induction false} NothingAbove(c: seq<BlockIndex>, d: seq<BlockIndex>, h: nat)
    requires Chained(c) && Chained(d) && (h < |c| && h < |d| ==> c[h] != d[h])
    ensures forall x :: x in c && x in d ==> x.nHeight < h
  {
    hide Nearest, GetSkipHeight, BlockIndex.LinkedIn, Chained;
    forall x | x in c && x in d
      ensures x.nHeight < h
    {
      PlaceOf(c, x);
      PlaceOf(d, x);
      if x.nHeight >= h {
        SharedPrefix(c, d, x.nHeight);
        SamePrefix(c, d, x.nHeight);
      }
    }
  }

  lemma {:induction false} CommonAt(c: seq<BlockIndex>, d: seq<BlockIndex>, h: nat)
    requires Chained(c) && Chained(d) && h < |c| && h < |d| && c[h] == d[h]
    requires forall x :: x in c && x in d ==> x.nHeight <= h
    ensures HighestCommon(c[h], c, d)
  {
    PointersAt(c, h);
  }

  class Chain {
    var vChain: seq<BlockIndex?>
    /** The same blocks, which are never null. */
    ghost var blocks: seq<BlockIndex>

    ghost predicate Valid()
      reads this, blocks
    {
      Chained(blocks) && |vChain| == |blocks| && forall i :: 0 <= i < |blocks| ==> vChain[i] == blocks[i]
    }

    constructor ()
      ensures Valid() && vChain == [] && blocks == []
    {
      vChain, blocks := [], [];
    }

    function Height(): int
      reads this
    {
      |vChain| - 1
    }

    function At(height: int): BlockIndex?
      reads this
    {
      if height < 0 || height >= |vChain| then null else vChain[height]
    }

    /** Whether a block is an ancestor of the tip, or the tip itself. */
    method Contains(b: BlockIndex) returns (r: bool)
      requires Valid() && b.Valid()
      ensures r <==> b in blocks
    {
      hide BlockIndex.LinkedIn, Nearest, GetSkipHeight, Chained;
      if b in blocks {
        PlaceOf(blocks, b);
      }
      r := At(b.nHeight) == b;
    }

    method Next(b: BlockIndex) returns (r: BlockIndex?)
      requires Valid() && b.Valid()
      ensures r != null <==> b in blocks && b != blocks[|blocks| - 1]
      ensures r != null ==> r in blocks && r.pprev == b
    {
      hide BlockIndex.LinkedIn, Nearest, GetSkipHeight, Chained;
      var c := Contains(b);
      if c {
        PlaceOf(blocks, b);
        PointersAt(blocks, |blocks| - 1);
        r := At(b.nHeight + 1);
        if b.nHeight + 1 < |blocks| {
          PointersAt(blocks, b.nHeight + 1);
        }
      } else {
        r := null;
      }
    }

    /** Makes block the tip. Only the part that changes is written. */
    method SetTip(block: BlockIndex)
      requires Valid() && block.Valid()
      modifies this
      ensures Valid() && blocks == block.chain
    {
      hide BlockIndex.LinkedIn, Nearest, GetSkipHeight, Chained;
      ghost var c, d := blocks, block.chain;
      block.TipIs();
      var n := block.nHeight + 1;
      vChain := if n <= |vChain| then vChain[..n] else vChain + seq(n - |vChain|, i => null);
      var pindex: BlockIndex? := block;
      ghost var h: int := block.nHeight;
      while pindex != null && vChain[pindex.nHeight] != pindex
        invariant -1 <= h < n && |vChain| == n == |d|
        invariant (if h == -1 then pindex == null else pindex == d[h] && pindex.nHeight == h)
        invariant forall j :: h < j < n ==> vChain[j] == d[j]
        invariant forall j :: 0 <= j <= h ==> vChain[j] == if j < |c| then c[j] else null
        decreases h
      {
        vChain := vChain[pindex.nHeight := pindex];
        PointersAt(d, h);
        if h > 0 {
          PointersAt(d, h - 1);
        }
        pindex := pindex.pprev;
        h := h - 1;
      }
      if h >= 0 {
        SharedPrefix(c, d, h);
        SamePrefix(c, d, h);
      }
      blocks := d;
    }

    /** The last block of this chain that is an ancestor of a block, or the block itself. */
    method FindFork(block: BlockIndex?) returns (r: BlockIndex?)
      requires Valid() && (block != null ==> block.Valid())
      ensures block == null ==> r == null
      ensures block != null ==> HighestCommon(r, block.chain, blocks)
    {
      hide BlockIndex.LinkedIn, Nearest, GetSkipHeight, Chained, HighestCommon;
      if block == null {
        return null;
      }
      ghost var c := block.chain;
      block.TipIs();
      r := block;
      ghost var h: int := block.nHeight;
      if block.nHeight > Height() {
        r := block.GetAncestor(Height());
        h := Height();
        if h >= 0 {
          PrefixValid(c, h);
        }
      }
      NothingAbove(c, blocks, h + 1);
      var found := false;
      while r != null && !found
        invariant -1 <= h < |c| && h < |blocks|
        invariant (if h == -1 then r == null else r == c[h] && r.nHeight == h && r.Valid())
        invariant found ==> h >= 0 && c[h] == blocks[h]
        invariant forall x :: x in c && x in blocks ==> x.nHeight <= h
        decreases h, !found
      {
        found := Contains(r);
        if found {
          PlaceOf(blocks, r);
        } else {
          NotThere(blocks, r);
          NothingAbove(c, blocks, h);
          PointersAt(c, h);
          r.ParentIs();
          r := r.pprev;
          h := h - 1;
        }
      }
      if found {
        CommonAt(c, blocks, h);
      } else {
        NoneCommon(c, blocks);
      }
    }
  }

  lemma SamePrefix(c: seq<BlockIndex>, d: seq<BlockIndex>, h: nat)
    requires h < |c| && h < |d| && c[..h + 1] == d[..h + 1]
    ensures forall j :: 0 <= j <= h ==> c[j] == d[j]
  {
    forall j | 0 <= j <= h
      ensures c[j] == d[j]
    {
      assert c[..h + 1][j] == d[..h + 1][j];
    }
  }

  lemma NotThere(d: seq<BlockIndex>, b: BlockIndex)
    requires b !in d
    ensures forall i :: 0 <= i < |d| ==> d[i] != b
  {
  }

  lemma NoneCommon(c: seq<BlockIndex>, d: seq<BlockIndex>)
    requires forall x :: x in c && x in d ==> x.nHeight <= -1
    ensures HighestCommon(null, c, d)
  {
  }

  /** The last block that is an ancestor of both. Where they have none, both walks end together. */
  method LastCommonAncestor(a: BlockIndex, b: BlockIndex) returns (r: BlockIndex?)
    requires a.Valid() && b.Valid()
    ensures HighestCommon(r, a.chain, b.chain)
  {
    hide BlockIndex.LinkedIn, Nearest, GetSkipHeight, Chained, HighestCommon;
    ghost var c, d := a.chain, b.chain;
    a.TipIs();
    b.TipIs();
    var pa: BlockIndex?, pb: BlockIndex? := a, b;
    if a.nHeight > b.nHeight {
      pa := a.GetAncestor(b.nHeight);
    } else if b.nHeight > a.nHeight {
      pb := b.GetAncestor(a.nHeight);
    }
    ghost var h: int := if a.nHeight < b.nHeight then a.nHeight else b.nHeight;
    NothingAbove(c, d, h + 1);
    while pa != pb && pa != null && pb != null
      invariant -1 <= h < |c| && h < |d| && (if h == -1 then pa == null && pb == null else pa == c[h] && pb == d[h])
      invariant forall x :: x in c && x in d ==> x.nHeight <= h
      decreases h
    {
      NothingAbove(c, d, h);
      PointersAt(c, h);
      PointersAt(d, h);
      pa, pb := pa.pprev, pb.pprev;
      h := h - 1;
    }
    assert pa == pb;
    if h >= 0 {
      CommonAt(c, d, h);
    } else {
      NoneCommon(c, d);
    }
    return pa;
  }
}
