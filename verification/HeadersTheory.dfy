/** Chains of headers as the download-twice protocol sees them (src/headerssync.cpp:9-138,
    src/headerssync.h:23-60): work, difficulty, one-bit commitments and memory. Hashing, block
    proofs and the difficulty rules are parameters. */
module HeadersTheory {
  import opened Options

  datatype AuxPow = AuxPow(hasCoinbase: bool, serializedSize: nat)

  datatype Header = Header(version: int, prevHash: nat, merkleRoot: nat, time: nat, bits: nat, nonce: nat,
      auxpow: Option<AuxPow>)

  /** A header without the hash of its predecessor. */
  datatype CompressedHeader = CompressedHeader(version: int, merkleRoot: nat, time: nat, bits: nat, nonce: nat,
      auxpow: Option<AuxPow>) {
    function GetFullHeader(prevHash: nat): Header {
      Header(version, prevHash, merkleRoot, time, bits, nonce, auxpow)
    }

    function AuxpowSerializedSize(): nat {
      if auxpow.Some? && auxpow.value.hasCoinbase then auxpow.value.serializedSize else 0
    }
  }

  function Compress(h: Header): CompressedHeader {
    CompressedHeader(h.version, h.merkleRoot, h.time, h.bits, h.nonce, h.auxpow)
  }

  datatype ASERTHeaderState = ASERTHeaderState(height: nat, time: nat, auxpowCount: nat)

  datatype Params = Params(
    hash: Header -> nat,
    commitmentBit: nat -> bool,              // lowest bit of the salted hash
    blockProof: nat -> nat,                  // work of a header with these bits
    signalsAuxpow: int -> bool,
    permittedTransition: (nat, nat, nat, nat, nat) -> bool,
    noRetargeting: bool,
    useASERT: bool,
    cadenceActive: nat -> bool,
    allowMinDifficulty: bool,
    targetSpacing: bool -> nat,
    powLimitBits: nat,
    nextASERTBits: (Option<ASERTHeaderState>, bool) -> nat
  )

  datatype DifficultyState = DifficultyState(
    lastHeader: Header,
    height: nat,
    auxpowCount: nat,
    previousPermissionless: Option<ASERTHeaderState>,
    previousAuxpow: Option<ASERTHeaderState>
  )

  /** The block that the peer's chain builds on. */
  datatype ChainStart = ChainStart(difficulty: DifficultyState, chainWork: nat) {
    function Height(): nat { difficulty.height }
    function Head(): Header { difficulty.lastHeader }
  }

  const HEADER_COMMITMENT_PERIOD: nat := 632
  const REDOWNLOAD_BUFFER_SIZE: nat := 15009
  const HEADERS_MESSAGE_SIZE: nat := 2000
  const MAX_PROTOCOL_MESSAGE_LENGTH: nat := 4_000_000
  const MAX_REDOWNLOAD_AUXPOW_SERIALIZED_SIZE: nat :=
    ((REDOWNLOAD_BUFFER_SIZE + HEADERS_MESSAGE_SIZE
        + HEADERS_MESSAGE_SIZE - 1) / HEADERS_MESSAGE_SIZE) * MAX_PROTOCOL_MESSAGE_LENGTH

  /** Work is a 256-bit number. */
  function AddWork(a: nat, b: nat): nat {
    (a + b) % 0x1_0000000000000000_0000000000000000_0000000000000000_0000000000000000
  }

  /** The difficulty state after the header, or nothing if the header breaks the rules. */
  function Advance(p: Params, d: DifficultyState, h: Header): Option<DifficultyState> {
    var nextHeight := d.height + 1;
    var isAuxpow := p.signalsAuxpow(h.version);
    if !p.permittedTransition(nextHeight, d.lastHeader.bits, h.bits, d.lastHeader.time, h.time) then None
    else if !p.noRetargeting && p.useASERT && p.cadenceActive(nextHeight) && h.bits != ExpectedBits(p, d, h) then None
    else
      var count := d.auxpowCount + if isAuxpow then 1 else 0;
      var current := Some(ASERTHeaderState(nextHeight, h.time, count));
      Some(DifficultyState(h, nextHeight, count,
                           if isAuxpow then d.previousPermissionless else current,
                           if isAuxpow then current else d.previousAuxpow))
  }

  function ExpectedBits(p: Params, d: DifficultyState, h: Header): nat {
    var isAuxpow := p.signalsAuxpow(h.version);
    if p.allowMinDifficulty && h.time > d.lastHeader.time + p.targetSpacing(isAuxpow) * 2 then p.powLimitBits
    else p.nextASERTBits(if isAuxpow then d.previousAuxpow else d.previousPermissionless, isAuxpow)
  }

  // ---------------------------------------------------------------------------------------
  // Whole chains

  /** The difficulty state after a chain of headers, or nothing if one breaks the rules. */
  ghost function DifficultyAfter(p: Params, d: DifficultyState, s: seq<Header>): Option<DifficultyState> {
    if s == [] then Some(d) else
      match DifficultyAfter(p, d, s[..|s| - 1])
      case None => None
      case Some(e) => Advance(p, e, s[|s| - 1])
  }

  ghost function WorkAfter(p: Params, w: nat, s: seq<Header>): nat {
    if s == [] then w else AddWork(WorkAfter(p, w, s[..|s| - 1]), p.blockProof(s[|s| - 1].bits))
  }

  /** The hash that a header after s must name. */
  ghost function Tip(p: Params, start: nat, s: seq<Header>): nat {
    if s == [] then start else p.hash(s[|s| - 1])
  }

  ghost predicate LinkedAt(p: Params, start: nat, s: seq<Header>, i: nat) {
    i < |s| && s[i].prevHash == Tip(p, start, s[..i])
  }

  ghost predicate Linked(p: Params, start: nat, s: seq<Header>) {
    forall i: nat :: i < |s| ==> LinkedAt(p, start, s, i)
  }

  predicate Committed(height: nat, offset: nat) {
    height % HEADER_COMMITMENT_PERIOD == offset
  }

  /** The commitment bits of a chain that starts above height h. */
  ghost function Commitments(p: Params, offset: nat, h: nat, s: seq<Header>): seq<bool> {
    if s == [] then [] else
      var r := Commitments(p, offset, h, s[..|s| - 1]);
      if Committed(h + |s|, offset) then r + [p.commitmentBit(p.hash(s[|s| - 1]))] else r
  }

  /** Some prefix of s has the required work. */
  ghost predicate Reached(p: Params, w: nat, minWork: nat, s: seq<Header>) {
    s != [] && (Reached(p, w, minWork, s[..|s| - 1]) || WorkAfter(p, w, s) >= minWork)
  }

  /** The part of s before the required work was reached. */
  ghost function Checked(p: Params, w: nat, minWork: nat, s: seq<Header>): (r: seq<Header>)
    ensures r <= s
  {
    if Reached(p, w, minWork, s) then Checked(p, w, minWork, s[..|s| - 1]) else s
  }

  function Compressed(s: seq<Header>): (r: seq<CompressedHeader>)
    ensures |r| == |s|
  {
    seq(|s|, i requires 0 <= i < |s| => Compress(s[i]))
  }

  ghost function AuxpowBytes(s: seq<Header>): nat {
    if s == [] then 0 else AuxpowBytes(s[..|s| - 1]) + Compress(s[|s| - 1]).AuxpowSerializedSize()
  }

  lemma {:induction false} BytesAppend(a: seq<Header>, b: seq<Header>)
    ensures AuxpowBytes(a + b) == AuxpowBytes(a) + AuxpowBytes(b)
  {
    if b == [] {
      assert a + b == a;
    } else {
      BytesAppend(a, b[..|b| - 1]);
      assert (a + b)[..|a + b| - 1] == a + b[..|b| - 1];
    }
  }

  // ---------------------------------------------------------------------------------------
  // Commitments of chains and their prefixes

  /** How many of the n headers above height h are at a commitment height. */
  ghost function CommitCount(offset: nat, h: nat, n: nat): nat {
    if n == 0 then 0 else CommitCount(offset, h, n - 1) + if Committed(h + n, offset) then 1 else 0
  }

  lemma {:induction false} CommitLength(p: Params, offset: nat, h: nat, s: seq<Header>)
    ensures |Commitments(p, offset, h, s)| == CommitCount(offset, h, |s|)
  {
    if s != [] {
      CommitLength(p, offset, h, s[..|s| - 1]);
    }
  }

  lemma {:induction false} CommitCountGrows(offset: nat, h: nat, m: nat, n: nat)
    requires m <= n
    ensures CommitCount(offset, h, m) <= CommitCount(offset, h, n)
    ensures m < n && Committed(h + m + 1, offset) ==> CommitCount(offset, h, m) < CommitCount(offset, h, n)
  {
    if m < n {
      CommitCountGrows(offset, h, m, n - 1);
    }
  }

  /** A commitment height of s has its own bit in the commitments. */
  lemma {:induction false} CommitAt(p: Params, offset: nat, h: nat, s: seq<Header>, i: nat)
    requires i < |s| && Committed(h + i + 1, offset)
    ensures CommitCount(offset, h, i) < |Commitments(p, offset, h, s)|
    ensures Commitments(p, offset, h, s)[CommitCount(offset, h, i)] == p.commitmentBit(p.hash(s[i]))
  {
    CommitLength(p, offset, h, s);
    CommitCountGrows(offset, h, i, |s|);
    var r := s[..|s| - 1];
    CommitLength(p, offset, h, r);
    if i < |s| - 1 {
      CommitAt(p, offset, h, r, i);
    }
  }

  /** Where the commitments of one chain start with those of another, the headers at commitment
      heights carry the same bit. */
  lemma {:induction false} SameBit(p: Params, offset: nat, h: nat, s: seq<Header>, r: seq<Header>, i: nat)
    requires Commitments(p, offset, h, r) <= Commitments(p, offset, h, s) && i < |r| && Committed(h + i + 1, offset)
    ensures i < |s| && p.commitmentBit(p.hash(r[i])) == p.commitmentBit(p.hash(s[i]))
  {
    CommitAt(p, offset, h, r, i);
    CommitLength(p, offset, h, s);
    if i >= |s| {
      CommitCountGrows(offset, h, |s|, i);
    } else {
      CommitAt(p, offset, h, s, i);
    }
  }

  lemma {:induction false} CommitPrefix(p: Params, offset: nat, h: nat, s: seq<Header>, k: nat)
    requires k <= |s|
    ensures Commitments(p, offset, h, s[..k]) <= Commitments(p, offset, h, s)
  {
    if k == |s| {
      assert s[..k] == s;
    } else {
      CommitPrefix(p, offset, h, s[..|s| - 1], k);
      assert s[..|s| - 1][..k] == s[..k];
    }
  }

  lemma {:induction false} DifficultyPrefix(p: Params, d: DifficultyState, s: seq<Header>, k: nat)
    requires k <= |s| && DifficultyAfter(p, d, s).Some?
    ensures DifficultyAfter(p, d, s[..k]).Some?
  {
    if k < |s| {
      DifficultyPrefix(p, d, s[..|s| - 1], k);
      assert s[..|s| - 1][..k] == s[..k];
    } else {
      assert s[..k] == s;
    }
  }

  lemma {:induction false} LinkedMore(p: Params, start: nat, s: seq<Header>, h: Header)
    requires Linked(p, start, s) && h.prevHash == Tip(p, start, s)
    ensures Linked(p, start, s + [h])
  {
    var r := s + [h];
    forall i: nat | i < |r|
      ensures LinkedAt(p, start, r, i)
    {
      if i < |s| {
        assert LinkedAt(p, start, s, i);
        assert r[..i] == s[..i];
      } else {
        assert r[..i] == s;
      }
    }
  }
}
