/** The download-twice protocol for headers (src/headerssync.cpp:46-381). */
module HeadersSync {
  import opened Options
  import opened HeadersTheory

  datatype Phase = PRESYNC | REDOWNLOAD | FINAL

  datatype ProcessingResult = ProcessingResult(powValidatedHeaders: seq<Header>, success: bool, requestMore: bool)

  /** What is safe in every state: released headers are a prefix of the second download, which
      connects; none is released unless the first download had the required work; before that
      work is reached again, released headers have enough others on top, and all commitments
      agree with the first download. */
  ghost predicate SafeRun(p: Params, start: ChainStart, minWork: nat, offset: nat, presync: seq<Header>,
      redownloaded: seq<Header>, released: seq<Header>) {
    && released <= redownloaded
    && Linked(p, p.hash(start.Head()), redownloaded)
    && (released != [] ==> WorkAfter(p, start.chainWork, presync) >= minWork)
    && (!Reached(p, start.chainWork, minWork, redownloaded) ==>
        released == [] || |released| + REDOWNLOAD_BUFFER_SIZE <= |redownloaded|)
    && Commitments(p, offset, start.Height(), Checked(p, start.chainWork, minWork, redownloaded)) <= Commitments(p,
        offset, start.Height(), presync)
  }

  /** The buffer holds what is not released yet. */
  ghost predicate Buffered(redownloaded: seq<Header>, released: seq<Header>, buffer: seq<CompressedHeader>,
      auxpowSize: nat) {
    && released <= redownloaded
    && buffer == Compressed(redownloaded[|released|..])
    && auxpowSize == AuxpowBytes(redownloaded[|released|..]) <= MAX_REDOWNLOAD_AUXPOW_SERIALIZED_SIZE
  }

  class HeadersSyncState {
    const params: Params
    const start: ChainStart
    const minWork: nat
    const commitOffset: nat
    const maxCommitments: nat

    var phase: Phase
    var currentWork: nat
    var lastHeader: Header
    var currentHeight: nat
    var commitments: seq<bool>
    var presyncDifficulty: DifficultyState
    var redownloadDifficulty: DifficultyState
    var buffer: seq<CompressedHeader>
    var bufferLastHeight: nat
    var bufferLastHash: nat
    var bufferFirstPrevHash: nat
    var redownloadWork: nat
    var auxpowSize: nat
    var processAll: bool

    /** All headers taken in the first phase, all stored in the second, and all released. */
    ghost var presync: seq<Header>
    ghost var redownloaded: seq<Header>
    ghost var released: seq<Header>

    // -------------------------------------------------------------------------------------
    // State

    ghost function StartHash(): nat { params.hash(start.Head()) }

    ghost function CommitmentsOf(s: seq<Header>): seq<bool> {
      Commitments(params, commitOffset, start.Height(), s)
    }

    ghost function WorkOf(s: seq<Header>): nat {
      WorkAfter(params, start.chainWork, s)
    }

    ghost predicate HasWork(s: seq<Header>) {
      Reached(params, start.chainWork, minWork, s)
    }

    ghost function CheckedPart(s: seq<Header>): seq<Header> {
      Checked(params, start.chainWork, minWork, s)
    }

    ghost predicate Safe()
      reads this
    {
      SafeRun(params, start, minWork, commitOffset, presync, redownloaded, released)
    }

    ghost predicate PresyncOk()
      reads this
    {
      && phase == PRESYNC && redownloaded == [] && released == [] && !processAll
      && lastHeader == (if presync == [] then start.Head() else presync[|presync| - 1])
      && currentHeight == start.Height() + |presync|
      && currentWork == WorkOf(presync)
      && commitments == CommitmentsOf(presync) && |commitments| <= maxCommitments
      && DifficultyAfter(params, start.difficulty, presync) == Some(presyncDifficulty)
    }

    ghost predicate BufferOk()
      reads this
    {
      && Buffered(redownloaded, released, buffer, auxpowSize)
      && bufferLastHeight == start.Height() + |redownloaded|
      && bufferLastHash == Tip(params, StartHash(), redownloaded)
      && bufferFirstPrevHash == Tip(params, StartHash(), released)
    }

    ghost predicate RedownloadOk()
      reads this
    {
      && phase == REDOWNLOAD && Safe() && BufferOk() && WorkOf(presync) >= minWork
      && DifficultyAfter(params, start.difficulty, presync).Some?
      && redownloadWork == WorkOf(redownloaded)
      && processAll == HasWork(redownloaded)
      && DifficultyAfter(params, start.difficulty, redownloaded) == Some(redownloadDifficulty)
      && CommitmentsOf(presync) == CommitmentsOf(CheckedPart(redownloaded)) + commitments
    }

    ghost predicate Valid()
      reads this
    {
      match phase
      case PRESYNC => PresyncOk()
      case REDOWNLOAD => RedownloadOk()
      case FINAL => Safe()
    }

    constructor (params: Params, start: ChainStart, minWork: nat, commitOffset: nat, maxCommitments: nat)
      ensures Valid() && phase == PRESYNC && presync == []
      ensures this.params == params && this.start == start && this.minWork == minWork
      ensures this.commitOffset == commitOffset && this.maxCommitments == maxCommitments
    {
      this.params, this.start, this.minWork, this.commitOffset, this.maxCommitments := params, start, minWork,
          commitOffset, maxCommitments;
      phase := PRESYNC;
      currentWork, lastHeader, currentHeight, commitments := start.chainWork, start.Head(), start.Height(), [];
      presyncDifficulty, redownloadDifficulty := start.difficulty, start.difficulty;
      buffer, bufferLastHeight, bufferLastHash, bufferFirstPrevHash := [], 0, 0, 0;
      redownloadWork, auxpowSize, processAll := 0, 0, false;
      presync, redownloaded, released := [], [], [];
    }

    lemma {:induction false} PresyncSafe()
      requires PresyncOk()
      ensures Safe()
    {
    }

    // -------------------------------------------------------------------------------------
    // First phase

    method ValidateAndProcessSingleHeader(current: Header) returns (ok: bool)
      requires PresyncOk()
      modifies this`currentWork, this`lastHeader, this`currentHeight, this`commitments, this`presyncDifficulty,
          this`presync
      ensures ok ==> PresyncOk() && presync == old(presync) + [current]
      ensures ok <==> && DifficultyAfter(params, start.difficulty, old(presync) + [current]).Some?
                      && |CommitmentsOf(old(presync) + [current])| <= maxCommitments
      ensures !ok ==> presync == old(presync)
    {
      hide Advance, AddWork;
      ghost var s := presync + [current];
      assert s[..|s| - 1] == presync;
      var nextHeight := currentHeight + 1;
      var d := Advance(params, presyncDifficulty, current);
      if d.None? {
        return false;
      }
      presyncDifficulty := d.value;
      if nextHeight % HEADER_COMMITMENT_PERIOD == commitOffset {
        commitments := commitments + [params.commitmentBit(params.hash(current))];
        if |commitments| > maxCommitments {
          return false;
        }
      }
      currentWork := AddWork(currentWork, params.blockProof(current.bits));
      lastHeader := current;
      currentHeight := nextHeight;
      presync := s;
      return true;
    }

    method ValidateAndStoreHeadersCommitments(headers: seq<Header>) returns (ok: bool)
      requires PresyncOk() && headers != []
      modifies this
      ensures ok ==> presync == old(presync) + headers && released == [] && redownloaded == []
      ensures ok ==> if WorkOf(presync) >= minWork then RedownloadOk() else PresyncOk()
      ensures !ok ==> Safe() && released == [] && redownloaded == []
      ensures ok <==> && headers[0].prevHash == Tip(params, StartHash(), old(presync))
                      && DifficultyAfter(params, start.difficulty, old(presync) + headers).Some?
                      && |CommitmentsOf(old(presync) + headers)| <= maxCommitments
    {
      hide Advance, DifficultyAfter, WorkAfter, Commitments, PresyncOk, RedownloadOk, SafeRun;
      PresyncIs();
      ghost var s := presync;
      if headers[0].prevHash != params.hash(lastHeader) {
        StartSafe();
        return false;
      }
      assert s + headers[..0] == s;
      for i := 0 to |headers|
        invariant PresyncOk() && presync == s + headers[..i] && released == [] && redownloaded == []
      {
        assert presync + [headers[i]] == s + headers[..i + 1];
        ok := ValidateAndProcessSingleHeader(headers[i]);
        if !ok {
          Fails(s + headers, |s| + i + 1);
          assert (s + headers)[..|s| + i + 1] == s + headers[..i + 1];
          StartSafe();
          return false;
        }
      }
      assert headers[..|headers|] == headers;
      PresyncIs();
      if currentWork >= minWork {
        StartRedownload();
      }
      return true;
    }

    lemma PresyncIs()
      requires PresyncOk()
      ensures params.hash(lastHeader) == Tip(params, StartHash(), presync) && currentWork == WorkOf(presync)
      ensures released == [] && redownloaded == [] && |CommitmentsOf(presync)| <= maxCommitments
      ensures DifficultyAfter(params, start.difficulty, presync).Some?
    {
    }

    /** The first phase has shown enough work. */
    method StartRedownload()
      requires PresyncOk() && currentWork >= minWork
      modifies this
      ensures RedownloadOk() && presync == old(presync) && released == [] && redownloaded == []
    {
      hide DifficultyAfter, WorkAfter, Commitments, SafeRun, Compressed, AuxpowBytes, Reached, Checked;
      assert redownloaded[|released|..] == [];
      buffer := [];
      bufferLastHeight := start.Height();
      bufferFirstPrevHash, bufferLastHash := params.hash(start.Head()), params.hash(start.Head());
      auxpowSize := 0;
      redownloadWork := start.chainWork;
      redownloadDifficulty := start.difficulty;
      phase := REDOWNLOAD;
      StartSafe();
      NothingYet();
    }

    lemma {:induction false} StartSafe()
      requires redownloaded == [] && released == []
      ensures Safe()
    {
    }

    lemma NothingYet()
      ensures Compressed([]) == [] && AuxpowBytes([]) == 0 && WorkOf([]) == start.chainWork && !HasWork([])
      ensures CheckedPart([]) == []
      ensures CommitmentsOf([]) == [] && DifficultyAfter(params, start.difficulty, []) == Some(start.difficulty)
    {
    }

    /** A chain that fails at some header fails as a whole. */
    lemma {:induction false} Fails(s: seq<Header>, k: nat)
      requires k <= |s|
      ensures DifficultyAfter(params, start.difficulty, s[..k]).None? ==>
          DifficultyAfter(params, start.difficulty, s).None?
      ensures |CommitmentsOf(s[..k])| <= |CommitmentsOf(s)|
    {
      if DifficultyAfter(params, start.difficulty, s).Some? {
        DifficultyPrefix(params, start.difficulty, s, k);
      }
      CommitPrefix(params, commitOffset, start.Height(), s, k);
    }

    // -------------------------------------------------------------------------------------
    // Second phase

    /** Connects, obeys the difficulty rules, carries the committed bit unless the required work
        is reached with it, and fits into the memory for AuxPoW data. */
    ghost predicate Accepts(header: Header)
      reads this
    {
      && header.prevHash == bufferLastHash
      && Advance(params, redownloadDifficulty, header).Some?
      && (HasWork(redownloaded + [header]) || !Committed(bufferLastHeight + 1, commitOffset)
          || (commitments != [] && commitments[0] == params.commitmentBit(params.hash(header))))
      && auxpowSize + Compress(header).AuxpowSerializedSize() <= MAX_REDOWNLOAD_AUXPOW_SERIALIZED_SIZE
    }

    lemma {:induction false} OneMore(s: seq<Header>, h: Header)
      ensures WorkOf(s + [h]) == AddWork(WorkOf(s), params.blockProof(h.bits))
      ensures HasWork(s + [h]) <==> HasWork(s) || WorkOf(s + [h]) >= minWork
      ensures CheckedPart(s + [h]) == if HasWork(s + [h]) then CheckedPart(s) else s + [h]
      ensures !HasWork(s) ==> CheckedPart(s) == s
      ensures CommitmentsOf(s + [h]) == CommitmentsOf(s) + if Committed(start.Height() + |s| + 1, commitOffset)
          then [params.commitmentBit(params.hash(h))] else []
      ensures DifficultyAfter(params, start.difficulty, s).Some? ==>
                DifficultyAfter(params, start.difficulty, s + [h]) ==
                    Advance(params, DifficultyAfter(params, start.difficulty, s).value, h)
      ensures Tip(params, StartHash(), s + [h]) == params.hash(h)
    {
      hide Advance, AddWork;
      assert (s + [h])[..|s|] == s;
    }

    lemma {:induction false} BufferMore(s: seq<Header>, k: nat, h: Header)
      requires k <= |s|
      ensures Compressed((s + [h])[k..]) == Compressed(s[k..]) + [Compress(h)]
      ensures AuxpowBytes((s + [h])[k..]) == AuxpowBytes(s[k..]) + Compress(h).AuxpowSerializedSize()
    {
      var r := (s + [h])[k..];
      assert r == s[k..] + [h];
      assert r[..|r| - 1] == s[k..];
    }

    lemma {:induction false} SafeMore(h: Header, before: seq<Header>, rest: seq<bool>)
      requires released <= before && Linked(params, StartHash(), before)
      requires h.prevHash == Tip(params, StartHash(), before)
      requires released != [] ==> WorkOf(presync) >= minWork
      requires !HasWork(before) ==> released == [] || |released| + REDOWNLOAD_BUFFER_SIZE <= |before|
      requires CommitmentsOf(presync) == CommitmentsOf(CheckedPart(before + [h])) + rest
      requires redownloaded == before + [h]
      ensures Safe()
    {
      hide WorkAfter, Commitments;
      OneMore(before, h);
      LinkedMore(params, StartHash(), before, h);
    }

    /** Below the required work, a header at a commitment height must carry the next bit. */
    method VerifyCommitment(header: Header, nextHeight: nat) returns (ok: bool)
      modifies this`commitments
      ensures ok <==> processAll || !Committed(nextHeight, commitOffset)
                      || (old(commitments) != [] && old(commitments)[0] == params.commitmentBit(params.hash(header)))
      ensures ok ==>
          old(commitments) ==
          (if processAll || !Committed(nextHeight, commitOffset) then []
          else [params.commitmentBit(params.hash(header))]) + commitments
    {
      if !processAll && nextHeight % HEADER_COMMITMENT_PERIOD == commitOffset {
        if |commitments| == 0 {
          return false;
        }
        var commitment := params.commitmentBit(params.hash(header));
        var expected := commitments[0];
        commitments := commitments[1..];
        if commitment != expected {
          return false;
        }
      }
      return true;
    }

    method ValidateAndStoreRedownloadedHeader(header: Header) returns (ok: bool)
      requires RedownloadOk()
      modifies this
      ensures ok <==> old(Accepts(header))
      ensures ok ==> RedownloadOk() && redownloaded == old(redownloaded) + [header]
      ensures !ok ==> Safe() && redownloaded == old(redownloaded)
      ensures released == old(released) && presync == old(presync)
    {
      hide Advance, AddWork, WorkAfter, Reached, Checked, Commitments, DifficultyAfter, Linked, SafeRun, Buffered;
      ghost var s, r := redownloaded, redownloaded + [header];
      SafeIs();
      BufferIs();
      OneMore(s, header);
      var nextHeight := bufferLastHeight + 1;
      if header.prevHash != bufferLastHash {
        return false;
      }
      var d := Advance(params, redownloadDifficulty, header);
      if d.None? {
        return false;
      }
      redownloadDifficulty := d.value;
      redownloadWork := AddWork(redownloadWork, params.blockProof(header.bits));
      if redownloadWork >= minWork {
        processAll := true;
      }
      ok := VerifyCommitment(header, nextHeight);
      if !ok {
        return false;
      }
      if Compress(header).AuxpowSerializedSize() > MAX_REDOWNLOAD_AUXPOW_SERIALIZED_SIZE - auxpowSize {
        return false;
      }
      Store(header, nextHeight);
      TakeBits(header, s, old(commitments));
      SafeMore(header, s, commitments);
      return true;
    }

    lemma {:induction false} TakeBits(header: Header, s: seq<Header>, before: seq<bool>)
      requires CommitmentsOf(presync) == CommitmentsOf(CheckedPart(s)) + before
      requires before == (if HasWork(s + [header]) || !Committed(start.Height() + |s| + 1, commitOffset) then []
                          else [params.commitmentBit(params.hash(header))]) + commitments
      ensures CommitmentsOf(presync) == CommitmentsOf(CheckedPart(s + [header])) + commitments
    {
      hide Reached, Checked, Commitments;
      OneMore(s, header);
    }

    /** Puts a header into the buffer. */
    method Store(header: Header, nextHeight: nat)
      requires BufferOk() && nextHeight == bufferLastHeight + 1
      requires auxpowSize + Compress(header).AuxpowSerializedSize() <= MAX_REDOWNLOAD_AUXPOW_SERIALIZED_SIZE
      modifies this`auxpowSize, this`buffer, this`bufferLastHeight, this`bufferLastHash, this`redownloaded
      ensures BufferOk() && redownloaded == old(redownloaded) + [header]
    {
      hide Compressed, AuxpowBytes;
      BufferMore(redownloaded, |released|, header);
      var compressed := Compress(header);
      auxpowSize := auxpowSize + compressed.AuxpowSerializedSize();
      buffer := buffer + [compressed];
      bufferLastHeight := nextHeight;
      bufferLastHash := params.hash(header);
      redownloaded := redownloaded + [header];
    }

    lemma BufferIs()
      requires BufferOk()
      ensures released <= redownloaded
      ensures bufferLastHeight == start.Height() + |redownloaded|
      ensures bufferLastHash == Tip(params, StartHash(), redownloaded)
      ensures auxpowSize <= MAX_REDOWNLOAD_AUXPOW_SERIALIZED_SIZE
    {
    }

    lemma SafeIs()
      requires Safe()
      ensures released <= redownloaded && Linked(params, StartHash(), redownloaded)
      ensures released != [] ==> WorkOf(presync) >= minWork
      ensures !HasWork(redownloaded) ==> released == [] || |released| + REDOWNLOAD_BUFFER_SIZE <= |redownloaded|
      ensures CommitmentsOf(CheckedPart(redownloaded)) <= CommitmentsOf(presync)
    {
    }

    /** The first header of the buffer, with its predecessor's hash, is the next one to release. */
    lemma {:induction false} NextReleased()
      requires BufferOk() && Linked(params, StartHash(), redownloaded) && buffer != []
      ensures |released| < |redownloaded|
      ensures buffer[0].GetFullHeader(bufferFirstPrevHash) == redownloaded[|released|]
      ensures released + [redownloaded[|released|]] <= redownloaded
      ensures buffer[1..] == Compressed(redownloaded[|released| + 1..])
      ensures auxpowSize == buffer[0].AuxpowSerializedSize() + AuxpowBytes(redownloaded[|released| + 1..])
    {
      hide AuxpowBytes;
      var k := |released|;
      assert LinkedAt(params, StartHash(), redownloaded, k) && redownloaded[..k] == released;
      var rest := redownloaded[k..];
      assert rest == [redownloaded[k]] + redownloaded[k + 1..];
      BytesAppend([redownloaded[k]], redownloaded[k + 1..]);
      OneBytes(redownloaded[k]);
    }

    lemma OneBytes(h: Header)
      ensures AuxpowBytes([h]) == Compress(h).AuxpowSerializedSize()
    {
      assert [h][..0] == [];
    }

    /** How far a buffer is emptied. */
    ghost function ReadyCount(before: nat): nat
      reads this
    {
      if HasWork(redownloaded) then |redownloaded|
      else if |redownloaded| >= before + REDOWNLOAD_BUFFER_SIZE then |redownloaded| - REDOWNLOAD_BUFFER_SIZE
      else before
    }

    method PopHeader() returns (h: Header)
      requires RedownloadOk() && buffer != [] && (|buffer| > REDOWNLOAD_BUFFER_SIZE || processAll)
      modifies this`buffer, this`auxpowSize, this`bufferFirstPrevHash, this`released
      ensures RedownloadOk() && released == old(released) + [h] && |buffer| == old(|buffer|) - 1
    {
      hide WorkAfter, Reached, Checked, Commitments, DifficultyAfter, Linked, SafeRun, Buffered, Tip;
      SafeIs();
      NextReleased();
      BufferIs();
      BufferLength();
      h := buffer[0].GetFullHeader(bufferFirstPrevHash);
      auxpowSize := auxpowSize - buffer[0].AuxpowSerializedSize();
      buffer := buffer[1..];
      bufferFirstPrevHash := params.hash(h);
      released := released + [h];
      ReleasedMore(h);
    }

    method PopHeadersReadyForAcceptance() returns (ret: seq<Header>)
      requires RedownloadOk()
      modifies this`buffer, this`auxpowSize, this`bufferFirstPrevHash, this`released
      ensures RedownloadOk() && released == old(released) + ret
      ensures |released| == ReadyCount(|old(released)|)
    {
      hide RedownloadOk, Reached;
      ret := [];
      ghost var r, n := released, ReadyCount(|released|);
      BufferLength();
      while |buffer| > REDOWNLOAD_BUFFER_SIZE || (|buffer| > 0 && processAll)
        invariant RedownloadOk() && released == r + ret && |released| <= n && |buffer| == |redownloaded| - |released|
        invariant processAll == HasWork(redownloaded)
        decreases |buffer|
      {
        var h := PopHeader();
        ret := ret + [h];
      }
    }

    lemma BufferLength()
      requires RedownloadOk()
      ensures |buffer| == |redownloaded| - |released| && released <= redownloaded && processAll == HasWork(redownloaded)
    {
    }

    lemma {:induction false} ReleasedMore(h: Header)
      requires released != [] && released <= redownloaded && released[|released| - 1] == h
      requires Linked(params, StartHash(), redownloaded)
      requires buffer == Compressed(redownloaded[|released|..])
      requires auxpowSize == AuxpowBytes(redownloaded[|released|..]) <= MAX_REDOWNLOAD_AUXPOW_SERIALIZED_SIZE
      requires WorkOf(presync) >= minWork
      requires HasWork(redownloaded) || |released| + REDOWNLOAD_BUFFER_SIZE <= |redownloaded|
      requires CommitmentsOf(CheckedPart(redownloaded)) <= CommitmentsOf(presync)
      ensures Safe() && Buffered(redownloaded, released, buffer, auxpowSize)
      ensures Tip(params, StartHash(), released) == params.hash(h)
    {
    }

    // -------------------------------------------------------------------------------------
    // A peer that repeats itself

    /** The next headers of the second download are those of the first, and their AuxPoW data
        fits. */
    ghost predicate Repeats(headers: seq<Header>)
      reads this
    {
      && Linked(params, StartHash(), presync) && redownloaded + headers <= presync
      && auxpowSize + AuxpowBytes(headers) <= MAX_REDOWNLOAD_AUXPOW_SERIALIZED_SIZE
    }

    lemma {:induction false} RepeatAccepted(header: Header)
      requires RedownloadOk() && Repeats([header])
      ensures Accepts(header)
    {
      hide Advance, AddWork, WorkAfter, Reached, Checked, Commitments, DifficultyAfter, Linked, SafeRun, Buffered,
          AuxpowBytes, Tip;
      var s, k := redownloaded, |redownloaded|;
      OneBytes(header);
      LinkIs(k);
      assert presync[..k] == s && presync[..k + 1] == s + [header];
      OneMore(s, header);
      DifficultyPrefix(params, start.difficulty, presync, k + 1);
      CommitPrefix(params, commitOffset, start.Height(), presync, k + 1);
      BufferIs();
      if !HasWork(s + [header]) && Committed(bufferLastHeight + 1, commitOffset) {
        var a, bit := CommitmentsOf(s), params.commitmentBit(params.hash(header));
        assert (a + [bit])[|a|] == bit;
        assert CommitmentsOf(presync)[|a|] == bit;
      }
    }

    lemma LinkIs(k: nat)
      requires Linked(params, StartHash(), presync) && k < |presync|
      ensures presync[k].prevHash == Tip(params, StartHash(), presync[..k])
    {
      assert LinkedAt(params, StartHash(), presync, k);
    }

    lemma {:induction false} RepeatSplit(s: seq<Header>, headers: seq<Header>, i: nat, size: nat)
      requires i < |headers| && s + headers <= presync
      requires size + AuxpowBytes(headers) <= MAX_REDOWNLOAD_AUXPOW_SERIALIZED_SIZE
      requires Linked(params, StartHash(), presync) && redownloaded == s + headers[..i]
      requires auxpowSize == size + AuxpowBytes(headers[..i])
      ensures Repeats([headers[i]])
      ensures AuxpowBytes(headers[..i + 1]) == AuxpowBytes(headers[..i]) + Compress(headers[i]).AuxpowSerializedSize()
    {
      hide AuxpowBytes, Linked;
      var a, b := headers[..i], headers[i + 1..];
      assert headers == a + [headers[i]] + b && headers[..i + 1] == a + [headers[i]];
      BytesAppend(a + [headers[i]], b);
      BytesAppend(a, [headers[i]]);
      OneBytes(headers[i]);
      assert s + headers == s + a + [headers[i]] + b;
    }

    method StoreAll(headers: seq<Header>) returns (ok: bool)
      requires RedownloadOk()
      modifies this
      ensures ok ==> RedownloadOk() && redownloaded == old(redownloaded) + headers
      ensures !ok ==> Safe()
      ensures released == old(released) && presync == old(presync)
      ensures old(Repeats(headers)) ==> ok
    {
      hide RedownloadOk, Accepts, Repeats, SafeRun, AuxpowBytes;
      ghost var s, size, honest := redownloaded, auxpowSize, Repeats(headers);
      RepeatsIs(headers);
      assert headers[..0] == [] && s + [] == s;
      NoBytes();
      for i := 0 to |headers|
        invariant RedownloadOk() && redownloaded == s + headers[..i] && released == old(released)
        invariant presync == old(presync)
        invariant honest ==> auxpowSize == size + AuxpowBytes(headers[..i])
      {
        if honest {
          RepeatSplit(s, headers, i, size);
          RepeatAccepted(headers[i]);
        }
        SizeIs();
        ghost var r, n := redownloaded, auxpowSize;
        ok := ValidateAndStoreRedownloadedHeader(headers[i]);
        if !ok {
          return;
        }
        SizeIs();
        MoreBytes(r, headers[i]);
        assert r + [headers[i]] == s + headers[..i + 1];
      }
      ok := true;
      assert headers[..|headers|] == headers;
    }

    lemma RepeatsIs(headers: seq<Header>)
      ensures Repeats(headers) ==> Linked(params, StartHash(), presync) && redownloaded + headers <= presync
      ensures Repeats(headers) ==> auxpowSize + AuxpowBytes(headers) <= MAX_REDOWNLOAD_AUXPOW_SERIALIZED_SIZE
    {
    }

    lemma NoBytes()
      ensures AuxpowBytes([]) == 0
    {
    }

    lemma SizeIs()
      requires RedownloadOk()
      ensures released <= redownloaded && auxpowSize == AuxpowBytes(redownloaded[|released|..])
      ensures SafeRun(params, start, minWork, commitOffset, presync, redownloaded, released)
    {
    }

    lemma MoreBytes(r: seq<Header>, h: Header)
      requires released <= r
      ensures AuxpowBytes((r + [h])[|released|..]) == AuxpowBytes(r[|released|..]) + Compress(h).AuxpowSerializedSize()
    {
      BufferMore(r, |released|, h);
    }

    // -------------------------------------------------------------------------------------
    // Messages

    /** Frees all memory; this object is of no further use. */
    method Finalize()
      modifies this
      ensures phase == FINAL && presync == old(presync) && redownloaded == old(redownloaded)
      ensures released == old(released)
    {
      commitments := [];
      buffer := [];
      bufferLastHash, bufferFirstPrevHash := 0, 0;
      auxpowSize := 0;
      processAll := false;
      currentHeight := 0;
      phase := FINAL;
    }

    method ProcessNextHeaders(headers: seq<Header>, fullMessage: bool) returns (ret: ProcessingResult)
      requires Valid()
      modifies this
      ensures Valid() && Safe()
      ensures released == old(released) + ret.powValidatedHeaders
      ensures headers == [] || old(phase) == FINAL ==>
                phase == old(phase) && presync == old(presync) && redownloaded == old(redownloaded) && !ret.success
      // In the first phase, the headers must connect and obey the rules, and must not be too many.
      ensures headers != [] && old(phase) == PRESYNC ==>
                && ret.powValidatedHeaders == []
                && (ret.success <==> && headers[0].prevHash == Tip(params, StartHash(), old(presync))
                                     && DifficultyAfter(params, start.difficulty, old(presync) + headers).Some?
                                     && |CommitmentsOf(old(presync) + headers)| <= maxCommitments)
                && (ret.success ==> presync == old(presync) + headers && redownloaded == [])
                && phase == (if !ret.success then FINAL else if WorkOf(presync) >= minWork then REDOWNLOAD
                    else if fullMessage then PRESYNC else FINAL)
      // In the second phase, what is ready is released, and the end is reached with the work.
      ensures headers != [] && old(phase) == REDOWNLOAD ==>
                && presync == old(presync)
                && (old(Repeats(headers)) ==> ret.success)
                && (ret.success ==>
                    redownloaded == old(redownloaded) + headers && |released| == ReadyCount(|old(released)|))
                && phase == (if ret.success && fullMessage && !HasWork(redownloaded) then REDOWNLOAD else FINAL)
      ensures ret.success && ret.requestMore <==> ret.success && phase != FINAL
    {
      hide PresyncOk, RedownloadOk, SafeRun, Repeats, WorkAfter, Reached, Commitments, DifficultyAfter, Tip, Linked;
      ret := ProcessingResult([], false, false);
      ValidSafe();
      if headers == [] || phase == FINAL {
        return;
      }
      if phase == PRESYNC {
        var ok := ValidateAndStoreHeadersCommitments(headers);
        PhaseIs();
        ret := ret.(success := ok, requestMore := ok && (fullMessage || phase == REDOWNLOAD));
      } else {
        var ok := StoreAll(headers);
        ret := ret.(success := ok);
        if ok {
          var ready := PopHeadersReadyForAcceptance();
          BufferLength();
          PhaseIs();
          ReadyAll(|old(released)|);
          ret := ret.(powValidatedHeaders := ready, requestMore := !(buffer == [] && processAll) && fullMessage);
        }
      }
      ValidSafe();
      if !(ret.success && ret.requestMore) {
        Finalize();
      }
    }

    lemma ValidSafe()
      ensures RedownloadOk() || PresyncOk() ==> Safe()
      ensures PresyncOk() ==> released == [] && redownloaded == []
    {
      if PresyncOk() {
        PresyncSafe();
      }
    }

    lemma PhaseIs()
      ensures RedownloadOk() ==> phase == REDOWNLOAD
      ensures PresyncOk() ==> phase == PRESYNC
    {
    }

    lemma ReadyAll(before: nat)
      ensures HasWork(redownloaded) ==> ReadyCount(before) == |redownloaded|
    {
    }
  }

  // ---------------------------------------------------------------------------------------
  // What safety means for each header

  /** Header i of what is released is header i of the second download, names its predecessor, and
      had enough headers on top of it unless the required work was reached. */
  lemma {:induction false} ReleasedHeader(p: Params, start: ChainStart, minWork: nat, offset: nat, presync: seq<Header>,
      redownloaded: seq<Header>, released: seq<Header>, i: nat)
    requires SafeRun(p, start, minWork, offset, presync, redownloaded, released) && i < |released|
    ensures i < |redownloaded| && released[i] == redownloaded[i]
    ensures released[i].prevHash == if i == 0 then p.hash(start.Head()) else p.hash(released[i - 1])
    ensures WorkAfter(p, start.chainWork, presync) >= minWork
    ensures i + REDOWNLOAD_BUFFER_SIZE < |redownloaded| || Reached(p, start.chainWork, minWork, redownloaded)
  {
    hide WorkAfter, Reached, Checked, Commitments;
    assert LinkedAt(p, p.hash(start.Head()), redownloaded, i);
    assert i > 0 ==> redownloaded[..i][i - 1] == released[i - 1];
  }

  /** Below the required work, the second download agrees with the first at every commitment
      height. */
  lemma {:induction false} RedownloadedBit(p: Params, start: ChainStart, minWork: nat, offset: nat,
      presync: seq<Header>, redownloaded: seq<Header>, released: seq<Header>, i: nat)
    requires SafeRun(p, start, minWork, offset, presync, redownloaded, released)
    requires i < |redownloaded| && !Reached(p, start.chainWork, minWork, redownloaded[..i + 1])
    requires Committed(start.Height() + i + 1, offset)
    ensures i < |presync| && p.commitmentBit(p.hash(redownloaded[i])) == p.commitmentBit(p.hash(presync[i]))
  {
    hide WorkAfter, Reached, Commitments, Linked;
    CheckedAt(p, start.chainWork, minWork, redownloaded, i);
    SameBit(p, offset, start.Height(), presync, Checked(p, start.chainWork, minWork, redownloaded), i);
  }

  lemma {:induction false} CheckedAt(p: Params, w: nat, minWork: nat, s: seq<Header>, i: nat)
    requires i < |s| && !Reached(p, w, minWork, s[..i + 1])
    ensures i < |Checked(p, w, minWork, s)| && Checked(p, w, minWork, s)[i] == s[i]
  {
    assert s[..|s|] == s;
    if Reached(p, w, minWork, s) {
      assert s[..|s| - 1][..i + 1] == s[..i + 1];
      CheckedAt(p, w, minWork, s[..|s| - 1], i);
    }
  }

  // ---------------------------------------------------------------------------------------
  // Replaying a chain

  ghost function Joined(messages: seq<seq<Header>>): seq<Header> {
    if messages == [] then [] else Joined(messages[..|messages| - 1]) + messages[|messages| - 1]
  }

  /** Full messages, except that the last may be shorter, none with too much AuxPoW data. */
  ghost predicate Messages(messages: seq<seq<Header>>) {
    && messages != [] && messages[|messages| - 1] != []
    && (forall i :: 0 <= i < |messages| ==>
        |messages[i]| <= HEADERS_MESSAGE_SIZE && AuxpowBytes(messages[i]) <= MAX_PROTOCOL_MESSAGE_LENGTH)
    && (forall i :: 0 <= i < |messages| - 1 ==> |messages[i]| == HEADERS_MESSAGE_SIZE)
  }

  lemma {:induction false} JoinedPrefix(messages: seq<seq<Header>>, i: nat)
    requires i <= |messages|
    ensures Joined(messages[..i]) <= Joined(messages)
    ensures i < |messages| ==>
        Joined(messages[..i + 1]) == Joined(messages[..i]) + messages[i]
        && Joined(messages[..i]) + messages[i] <= Joined(messages)
  {
    if i < |messages| {
      var r := messages[..|messages| - 1];
      assert messages[..i + 1][..i] == messages[..i];
      if i < |r| {
        JoinedPrefix(r, i);
        assert r[..i] == messages[..i] && r[..i + 1] == messages[..i + 1];
      } else {
        assert r == messages[..i] && messages[..i + 1] == messages;
      }
    } else {
      assert messages[..i] == messages;
    }
  }

  lemma {:induction false} JoinedLength(messages: seq<seq<Header>>, i: nat)
    requires Messages(messages) && i < |messages|
    ensures |Joined(messages[..i])| == HEADERS_MESSAGE_SIZE * i
  {
    hide AuxpowBytes;
    if i > 0 {
      JoinedLength(messages, i - 1);
      assert messages[..i][..i - 1] == messages[..i - 1];
    }
  }

  /** The last 2000 * j headers before message i came in its j predecessors. */
  lemma {:induction false} SuffixBytes(messages: seq<seq<Header>>, i: nat, k: nat, j: nat)
    requires Messages(messages) && i < |messages| && k <= |Joined(messages[..i])| <= k + HEADERS_MESSAGE_SIZE * j
    ensures AuxpowBytes(Joined(messages[..i])[k..]) <= MAX_PROTOCOL_MESSAGE_LENGTH * j
    decreases j
  {
    hide AuxpowBytes;
    var s := Joined(messages[..i]);
    JoinedLength(messages, i);
    if k == |s| {
      assert s[k..] == [];
      NoAuxpow();
    } else {
      var m, r := messages[i - 1], Joined(messages[..i - 1]);
      assert messages[..i][..i - 1] == messages[..i - 1];
      assert s == r + m;
      JoinedLength(messages, i - 1);
      if k >= |r| {
        assert m == m[..k - |r|] + s[k..];
        BytesAppend(m[..k - |r|], s[k..]);
      } else {
        assert s[k..] == r[k..] + m;
        BytesAppend(r[k..], m);
        SuffixBytes(messages, i - 1, k, j - 1);
      }
    }
  }

  lemma NoAuxpow()
    ensures AuxpowBytes([]) == 0
  {
  }

  lemma {:induction false} BudgetFits(messages: seq<seq<Header>>, i: nat, k: nat)
    requires Messages(messages) && i < |messages| && k <= |Joined(messages[..i])| <= k + REDOWNLOAD_BUFFER_SIZE
    ensures AuxpowBytes(Joined(messages[..i])[k..]) + AuxpowBytes(messages[i]) <= MAX_REDOWNLOAD_AUXPOW_SERIALIZED_SIZE
  {
    hide AuxpowBytes, Joined;
    SuffixBytes(messages, i, k, 8);
  }

  /** A peer that serves in the second phase the chain of the first, never fails, and all headers
      through the message that reaches the required work are released. */
  method Replay(sync: HeadersSyncState, messages: seq<seq<Header>>) returns (done: nat, ok: bool)
    requires sync.Valid() && sync.phase == REDOWNLOAD && sync.redownloaded == []
    requires Messages(messages) && Joined(messages) == sync.presync
    requires Linked(sync.params, sync.StartHash(), sync.presync)
    modifies sync
    ensures ok && sync.Valid() && sync.phase == FINAL
    ensures 0 < done <= |messages| && sync.released == Joined(messages[..done])
    ensures sync.HasWork(Joined(messages[..done])) && !sync.HasWork(Joined(messages[..done - 1]))
  {
    hide Reached, WorkAfter, Checked, Commitments, DifficultyAfter, Linked, Tip, Messages, Joined, AuxpowBytes, SafeRun;
    ghost var chain := sync.presync;
    done, ok := 0, true;
    sync.SizeIs();
    ReplayStart(sync, messages);
    while sync.phase != FINAL
      invariant 0 <= done <= |messages| && ok && sync.Valid() && sync.phase != PRESYNC && sync.presync == chain
      invariant sync.redownloaded == Joined(messages[..done])
      invariant sync.phase == REDOWNLOAD ==> done < |messages| && !sync.HasWork(sync.redownloaded)
      invariant sync.phase == REDOWNLOAD ==> |sync.redownloaded| <= |sync.released| + REDOWNLOAD_BUFFER_SIZE
      invariant sync.phase == FINAL ==>
                  done > 0 && sync.released == sync.redownloaded && sync.HasWork(sync.redownloaded)
                      && !sync.HasWork(Joined(messages[..done - 1]))
      decreases sync.phase != FINAL, |messages| - done
    {
      JoinedPrefix(messages, done);
      sync.SizeIs();
      BudgetFits(messages, done, |sync.released|);
      MessageIs(messages, done);
      ghost var before := |sync.released|;
      var ret := sync.ProcessNextHeaders(messages[done], |messages[done]| == HEADERS_MESSAGE_SIZE);
      ok := ok && ret.success;
      done := done + 1;
      ReplayDone(sync, messages, done, chain);
      sync.SafeIs();
    }
  }

  lemma ReplayStart(sync: HeadersSyncState, messages: seq<seq<Header>>)
    requires sync.RedownloadOk() && sync.redownloaded == [] && Messages(messages)
    ensures Joined(messages[..0]) == [] && messages != [] && !sync.HasWork([])
  {
  }

  lemma MessageIs(messages: seq<seq<Header>>, i: nat)
    requires Messages(messages) && i < |messages|
    ensures messages[i] != [] && (i < |messages| - 1 ==> |messages[i]| == HEADERS_MESSAGE_SIZE)
  {
  }

  lemma {:induction false} ReplayDone(sync: HeadersSyncState, messages: seq<seq<Header>>, done: nat, chain: seq<Header>)
    requires Messages(messages) && 0 < done <= |messages| && Joined(messages) == chain
    requires WorkAfter(sync.params, sync.start.chainWork, chain) >= sync.minWork
    ensures done == |messages| ==> sync.HasWork(Joined(messages[..done]))
  {
    hide WorkAfter;
    if done == |messages| {
      assert messages[..done] == messages;
      assert Joined(messages) != [];
    }
  }
}
