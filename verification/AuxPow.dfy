/** Commitments of merge-mined blocks (src/auxpow.cpp:18-44, src/auxpow_validation.cpp:23-148).
    Hashing and the proof-of-work check are parameters. */
module AuxPow {
  import opened Options
  import opened Sequences
  import LimbNumbers

  type Byte = b: nat | b < 0x100
  type Digest = s: seq<Byte> | |s| == 32 witness seq(32, i => 0)

  const MERGED_MINING_HEADER: seq<Byte> := [0xfa, 0xbe, 0x6d, 0x6d]
  const MAX_CHAIN_MERKLE_BRANCH_LENGTH: nat := 30
  const LEGACY_COMMITMENT_START_LIMIT: nat := 20
  const LCG_MULTIPLIER: nat := 1103515245
  const LCG_INCREMENT: nat := 12345
  const TWO32: nat := 0x1_0000_0000

  datatype CommitmentValidation = EITHER | INTERNAL | DISPLAY

  datatype CoinbaseTx = CoinbaseTx(isCoinBase: bool, hash: Digest, scriptSig: seq<Byte>)

  datatype AuxPow = AuxPow(
    coinbase: Option<CoinbaseTx>,
    coinbaseBranch: seq<Digest>,
    coinbaseBranchIndex: int,
    chainBranch: seq<Digest>,
    chainIndex: int,
    parentMerkleRoot: Digest,
    parentHash: Digest
  )

  type Hasher = (Digest, Digest) -> Digest

  // ---------------------------------------------------------------------------------------
  // Slots

  function AdvanceSlotLcg(value: nat): nat {
    (value * LCG_MULTIPLIER + LCG_INCREMENT) % TWO32
  }

  /** The slot of a chain in a tree of the given height. */
  function GetExpectedIndex(nonce: nat, chainId: nat, height: nat): nat {
    var rand := AdvanceSlotLcg((AdvanceSlotLcg(nonce) + chainId) % TWO32);
    if height >= 32 then rand else rand % LimbNumbers.Pow2(height)
  }

  // ---------------------------------------------------------------------------------------
  // Merkle branches

  /** The two inputs of a hash, in the order that the lowest bit of the index says. */
  function Pair(hash: Digest, sibling: Digest, index: nat): (Digest, Digest) {
    if index % 2 != 0 then (sibling, hash) else (hash, sibling)
  }

  function Join(hasher: Hasher, hash: Digest, sibling: Digest, index: nat): Digest {
    var p := Pair(hash, sibling, index);
    hasher(p.0, p.1)
  }

  function Fold(hasher: Hasher, hash: Digest, branch: seq<Digest>, index: nat): Digest
    decreases |branch|
  {
    if branch == [] then hash else Fold(hasher, Join(hasher, hash, branch[0], index), branch[1..], index / 2)
  }

  method CheckMerkleBranch(hasher: Hasher, leaf: Digest, branch: seq<Digest>, index: nat) returns (hash: Digest)
    ensures hash == Fold(hasher, leaf, branch, index)
  {
    hash := leaf;
    var rest := index;
    for k := 0 to |branch|
      invariant Fold(hasher, hash, branch[k..], rest) == Fold(hasher, leaf, branch, index)
    {
      assert branch[k..][0] == branch[k] && branch[k..][1..] == branch[k + 1..];
      hash := if rest % 2 != 0 then hasher(branch[k], hash) else hasher(hash, branch[k]);
      rest := rest / 2;
    }
    assert branch[|branch|..] == [];
  }

  function IndexAt(index: nat, k: nat): nat {
    if k == 0 then index else IndexAt(index / 2, k - 1)
  }

  /** The two digests that are hashed at level k of a branch. */
  ghost function InputAt(hasher: Hasher, x: Digest, xs: seq<Digest>, index: nat, k: nat): (Digest, Digest)
    requires k < |xs|
  {
    Pair(Fold(hasher, x, xs[..k], index), xs[k], IndexAt(index, k))
  }

  /** At level k the two branches hash different inputs to the same digest. */
  ghost predicate CollidesAt(hasher: Hasher, x: Digest, xs: seq<Digest>, y: Digest, ys: seq<Digest>, index: nat,
      k: nat) {
    && k < |xs| && k < |ys|
    && var p, q := InputAt(hasher, x, xs, index, k), InputAt(hasher, y, ys, index, k);
       p != q && hasher(p.0, p.1) == hasher(q.0, q.1)
  }

  /** What is hashed at a level of a branch is what is hashed one level below in the rest of it. */
  lemma {:induction false} InputOfRest(hasher: Hasher, x: Digest, xs: seq<Digest>, index: nat, k: nat)
    requires k + 1 < |xs|
    ensures InputAt(hasher, x, xs, index, k + 1) ==
        InputAt(hasher, Join(hasher, x, xs[0], index), xs[1..], index / 2, k)
  {
    assert xs[..k + 1][1..] == xs[1..][..k];
  }

  /** A root at a given depth and slot binds the leaf: of two different leaves under one root, the
      branches collide at some level. */
  lemma {:induction false} FoldBinds(hasher: Hasher, x: Digest, xs: seq<Digest>, y: Digest, ys: seq<Digest>, index: nat)
    requires |xs| == |ys| && Fold(hasher, x, xs, index) == Fold(hasher, y, ys, index)
    ensures x == y || exists k :: CollidesAt(hasher, x, xs, y, ys, index, k)
    decreases |xs|
  {
    if xs != [] && x != y {
      var u, v := Join(hasher, x, xs[0], index), Join(hasher, y, ys[0], index);
      if u == v {
        assert CollidesAt(hasher, x, xs, y, ys, index, 0);
      } else {
        FoldBinds(hasher, u, xs[1..], v, ys[1..], index / 2);
        var k: nat :| CollidesAt(hasher, u, xs[1..], v, ys[1..], index / 2, k);
        InputOfRest(hasher, x, xs, index, k);
        InputOfRest(hasher, y, ys, index, k);
        assert CollidesAt(hasher, x, xs, y, ys, index, k + 1);
      }
    }
  }

  // ---------------------------------------------------------------------------------------
  // Searching

  predicate OccursAt(s: seq<Byte>, t: seq<Byte>, i: nat) {
    i + |t| <= |s| && s[i..i + |t|] == t
  }

  ghost predicate FirstFrom(s: seq<Byte>, t: seq<Byte>, from: nat, i: nat) {
    from <= i && OccursAt(s, t, i) && forall j :: from <= j < i ==> !OccursAt(s, t, j)
  }

  /** std::search: the first place at or after from, or the end. */
  method Search(s: seq<Byte>, t: seq<Byte>, from: nat) returns (i: nat)
    requires t != [] && from <= |s|
    ensures i == |s| || FirstFrom(s, t, from, i)
    ensures i == |s| ==> forall j :: from <= j ==> !OccursAt(s, t, j)
  {
    i := from;
    while i + |t| <= |s|
      invariant from <= i <= |s| && forall j :: from <= j < i ==> !OccursAt(s, t, j)
    {
      if s[i..i + |t|] == t {
        return;
      }
      i := i + 1;
    }
    i := |s|;
  }

  function ReadLE32(s: seq<Byte>, i: nat): (r: nat)
    requires i + 4 <= |s|
    ensures r < TWO32
  {
    var a: nat, b: nat, c: nat, d: nat := s[i], s[i + 1], s[i + 2], s[i + 3];
    a + 0x100 * b + 0x1_0000 * c + 0x100_0000 * d
  }

  // ---------------------------------------------------------------------------------------
  // What is accepted

  /** The root stands, for the first time, right after the only header, or, without a header, near
      the start; the size and nonce after it fit the branch and its slot. */
  ghost predicate CommitsAt(script: seq<Byte>, root: seq<Byte>, i: nat, height: nat, chainIndex: int, chainId: nat) {
    && FirstFrom(script, root, 0, i)
    && (if (exists h :: OccursAt(script, MERGED_MINING_HEADER, h)) then OnlyHeader(script, i)
        else i <= LEGACY_COMMITMENT_START_LIMIT)
    && i + |root| + 8 <= |script|
    && ReadLE32(script, i + |root|) == LimbNumbers.Pow2(height)
    && chainIndex == GetExpectedIndex(ReadLE32(script, i + |root| + 4), chainId, height)
  }

  /** There is one header, and it ends at i. */
  ghost predicate OnlyHeader(script: seq<Byte>, i: nat) {
    i >= 4 && forall h :: OccursAt(script, MERGED_MINING_HEADER, h) <==> h == i - 4
  }

  ghost predicate Commits(script: seq<Byte>, root: seq<Byte>, height: nat, chainIndex: int, chainId: nat) {
    exists i :: CommitsAt(script, root, i, height, chainIndex, chainId)
  }

  /** The roots that the mode looks for. */
  function Commitments(root: Digest, mode: CommitmentValidation): seq<seq<Byte>> {
    match mode
    case INTERNAL => [root]
    case DISPLAY => [Reverse(root)]
    case EITHER => if root == Reverse(root) then [Reverse(root)] else [Reverse(root), root]
  }

  /** Everything but the commitment. */
  predicate WellShaped(hasher: Hasher, a: AuxPow, powOk: bool) {
    && a.coinbase.Some? && a.coinbase.value.isCoinBase
    && a.coinbaseBranchIndex == 0 && a.chainIndex >= 0
    && |a.chainBranch| <= MAX_CHAIN_MERKLE_BRANCH_LENGTH && |a.coinbaseBranch| < 32
    && a.chainIndex < LimbNumbers.Pow2(|a.chainBranch|)
    && Fold(hasher, a.coinbase.value.hash, a.coinbaseBranch, 0) == a.parentMerkleRoot
    && powOk
  }

  ghost predicate Accepts(hasher: Hasher, a: AuxPow, auxHash: Digest, chainId: nat, powOk: bool,
      mode: CommitmentValidation) {
    && WellShaped(hasher, a, powOk)
    && var roots := Commitments(Fold(hasher, auxHash, a.chainBranch, a.chainIndex), mode);
       exists k :: 0 <= k < |roots|
           && Commits(a.coinbase.value.scriptSig, roots[k], |a.chainBranch|, a.chainIndex, chainId)
  }

  /** Looks for one root in the script. */
  method CheckCommitment(script: seq<Byte>, root: seq<Byte>, height: nat, chainIndex: int, chainId: nat)
      returns (found: bool, error: Option<string>)
    requires root != []
    ensures found && error.None? <==> Commits(script, root, height, chainIndex, chainId)
  {
    var rootAt := Search(script, root, 0);
    if rootAt == |script| {
      return false, None;
    }
    found := true;
    OnlyPlace(script, root, rootAt, height, chainIndex, chainId);
    var headerAt := Search(script, MERGED_MINING_HEADER, 0);
    if headerAt != |script| {
      var second := Search(script, MERGED_MINING_HEADER, headerAt + 1);
      if second != |script| {
        assert OccursAt(script, MERGED_MINING_HEADER, headerAt) && OccursAt(script, MERGED_MINING_HEADER, second);
        return found, Some("bad-auxpow-commitment");
      }
      assert OccursAt(script, MERGED_MINING_HEADER, headerAt);
      if headerAt + 4 != rootAt {
        return found, Some("bad-auxpow-commitment");
      }
      assert OnlyHeader(script, rootAt);
    } else if rootAt > LEGACY_COMMITMENT_START_LIMIT {
      return found, Some("bad-auxpow-commitment");
    }
    var footerAt := rootAt + |root|;
    if |script| - footerAt < 8 {
      return found, Some("bad-auxpow-commitment");
    }
    var merkleSize, nonce := ReadLE32(script, footerAt), ReadLE32(script, footerAt + 4);
    if merkleSize != LimbNumbers.Pow2(height) {
      return found, Some("bad-auxpow-merkle-size");
    }
    if chainIndex != GetExpectedIndex(nonce, chainId, height) {
      return found, Some("bad-auxpow-chain-index");
    }
    error := None;
  }

  lemma OnlyPlace(script: seq<Byte>, root: seq<Byte>, i: nat, height: nat, chainIndex: int, chainId: nat)
    requires FirstFrom(script, root, 0, i)
    ensures Commits(script, root, height, chainIndex, chainId) <==>
        CommitsAt(script, root, i, height, chainIndex, chainId)
  {
    forall j | CommitsAt(script, root, j, height, chainIndex, chainId)
      ensures j == i
    {
      assert OccursAt(script, root, i) && OccursAt(script, root, j);
    }
  }

  /** None if the commitment is accepted, else the reason. */
  method Validate(hasher: Hasher, a: AuxPow, auxHash: Digest, chainId: nat, powOk: bool, mode: CommitmentValidation)
      returns (error: Option<string>)
    ensures error.None? <==> Accepts(hasher, a, auxHash, chainId, powOk, mode)
  {
    if a.coinbase.None? || !a.coinbase.value.isCoinBase {
      return Some("bad-auxpow-coinbase");
    }
    if a.coinbaseBranchIndex < 0 || a.coinbaseBranchIndex != 0 {
      return Some("bad-auxpow-coinbase-index");
    }
    if a.chainIndex < 0 {
      return Some("bad-auxpow-chain-index");
    }
    if |a.chainBranch| > MAX_CHAIN_MERKLE_BRANCH_LENGTH {
      return Some("bad-auxpow-chain-branch-size");
    }
    if |a.coinbaseBranch| >= 32 {
      return Some("bad-auxpow-coinbase-branch-size");
    }
    BelowWidth(a.chainIndex, LimbNumbers.Pow2(|a.chainBranch|));
    if a.chainIndex / LimbNumbers.Pow2(|a.chainBranch|) != 0 {
      return Some("bad-auxpow-chain-index");
    }
    var coinbaseRoot := CheckMerkleBranch(hasher, a.coinbase.value.hash, a.coinbaseBranch, a.coinbaseBranchIndex);
    if coinbaseRoot != a.parentMerkleRoot {
      return Some("bad-auxpow-coinbase-branch");
    }
    if !powOk {
      return Some("bad-auxpow-parent-hash");
    }
    var chainRoot := CheckMerkleBranch(hasher, auxHash, a.chainBranch, a.chainIndex);
    var script := a.coinbase.value.scriptSig;
    var roots := Commitments(chainRoot, mode);
    var commitmentError: Option<string> := None;
    for k := 0 to |roots|
      invariant forall j :: 0 <= j < k ==> !Commits(script, roots[j], |a.chainBranch|, a.chainIndex, chainId)
    {
      var found, e := CheckCommitment(script, roots[k], |a.chainBranch|, a.chainIndex, chainId);
      if found {
        if e.None? {
          return None;
        }
        commitmentError := e;
      }
    }
    if commitmentError.Some? {
      return commitmentError;
    }
    return Some("bad-auxpow-commitment");
  }

  lemma BelowWidth(x: nat, p: nat)
    requires p >= 1
    ensures x / p == 0 <==> x < p
  {
    assert x == p * (x / p) + x % p;
    if x / p >= 1 {
      assert p * (x / p) >= p;
    }
  }

  // ---------------------------------------------------------------------------------------
  // One coinbase commits to one block

  lemma {:induction false} PowersDiffer(m: nat, n: nat)
    requires LimbNumbers.Pow2(m) == LimbNumbers.Pow2(n)
    ensures m == n
  {
    if m > 0 && n > 0 {
      PowersDiffer(m - 1, n - 1);
    }
  }

  /** The header fixes the root, the tree size and the slot. */
  lemma {:induction false} HeaderFixes(script: seq<Byte>, h: nat, r: Digest, m: nat, i: int, s: Digest, n: nat, j: int,
      chainId: nat)
    requires OccursAt(script, MERGED_MINING_HEADER, h)
    requires Commits(script, r, m, i, chainId) && Commits(script, s, n, j, chainId)
    ensures r == s && m == n && i == j
  {
    hide GetExpectedIndex, LimbNumbers.Pow2, ReadLE32;
    var x: nat :| CommitsAt(script, r, x, m, i, chainId);
    var y: nat :| CommitsAt(script, s, y, n, j, chainId);
    assert OnlyHeader(script, x) && OnlyHeader(script, y);
    assert h == x - 4 && h == y - 4;
    assert OccursAt(script, r, x) && OccursAt(script, s, y);
    PowersDiffer(m, n);
  }

  /** For one parent coinbase with a merged-mining header, one chain id and one byte order, two
      accepted aux block hashes are the same, or their two branches show a hash collision. */
  lemma {:induction false} OneCoinbaseOneBlock(hasher: Hasher, a: AuxPow, x: Digest, b: AuxPow, y: Digest, h: nat,
      chainId: nat, powA: bool, powB: bool, mode: CommitmentValidation)
    requires mode != EITHER && Accepts(hasher, a, x, chainId, powA, mode) && Accepts(hasher, b, y, chainId, powB, mode)
    requires a.coinbase == b.coinbase && OccursAt(a.coinbase.value.scriptSig, MERGED_MINING_HEADER, h)
    ensures |a.chainBranch| == |b.chainBranch| && a.chainIndex == b.chainIndex >= 0
    ensures x == y || exists k :: CollidesAt(hasher, x, a.chainBranch, y, b.chainBranch, a.chainIndex, k)
  {
    hide GetExpectedIndex, LimbNumbers.Pow2, Fold, CommitsAt, OccursAt;
    var script := a.coinbase.value.scriptSig;
    var r, s := Fold(hasher, x, a.chainBranch, a.chainIndex), Fold(hasher, y, b.chainBranch, b.chainIndex);
    ReverseTwice(r);
    ReverseTwice(s);
    var u: Digest, v: Digest := if mode.INTERNAL? then r else Reverse(r), if mode.INTERNAL? then s else Reverse(s);
    HeaderFixes(script, h, u, |a.chainBranch|, a.chainIndex, v, |b.chainBranch|, b.chainIndex, chainId);
    FoldBinds(hasher, x, a.chainBranch, y, b.chainBranch, a.chainIndex);
  }
}
