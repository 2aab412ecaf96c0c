/** Saving and loading the address manager (src/addrman.cpp:133-399). The order in which the entries
    are written is a parameter. */
module AddrFile {
  import opened Options
  import opened Sequences
  import opened AddrTables
  import opened AddrManager
  import opened AddrCheck
  import opened AddrBook
  import opened AddrRoundTrip

  ghost function BookOf(a: AddrMan): Book
    reads a
  {
    Book(a.mapInfo, a.mapAddr, a.vRandom, a.nIdCount, a.nNew, a.nTried, a.vvNew, a.vvTried, a.networkCounts)
  }

  // ---------------------------------------------------------------------------------------
  // Saving

  /** The entries of one table among the first ones of the order. */
  ghost predicate Picked(m: Infos, order: seq<nat>, k: nat, tried: bool, ids: seq<nat>, rs: seq<Record>) {
    && k <= |order| && Distinct(ids) && Records(m, ids, rs)
    && forall id :: id in ids <==> id in order[..k] && id in m && m[id].inTried == tried
  }

  lemma {:induction false} PickOne(m: Infos, order: seq<nat>, k: nat, tried: bool, ids: seq<nat>, rs: seq<Record>)
    requires Picked(m, order, k, tried, ids, rs) && k < |order| && Distinct(order) && order[k] in m
    ensures var id := order[k];
            id !in ids && if m[id].inTried == tried then Picked(m, order, k + 1, tried, ids + [id], rs + [Saved(m[id])])
                          else Picked(m, order, k + 1, tried, ids, rs)
  {
    var id := order[k];
    assert order[..k + 1] == order[..k] + [id];
    assert id !in order[..k];
    DistinctAppend(ids, [id]);
  }

  lemma {:induction false} PickedAll(p: Params, m: Infos, order: seq<nat>, tried: bool, ids: seq<nat>, rs: seq<Record>)
    requires Picked(m, order, |order|, tried, ids, rs) && Lists(order, m.Keys)
    ensures Lists(ids, Members(p, m, tried, None)) && Records(m, ids, rs)
  {
    assert order[..|order|] == order;
  }

  /** The counter cannot be reached before the last entry is written. */
  lemma {:induction false} RoomLeft(p: Params, m: Infos, order: seq<nat>, k: nat, tried: bool, ids: seq<nat>,
      rs: seq<Record>)
    requires Picked(m, order, k, tried, ids, rs) && k < |order| && order[k] in m && m[order[k]].inTried == tried
    requires order[k] !in ids
    ensures |ids| < |Members(p, m, tried, None)|
  {
    DistinctSize(ids);
    Fewer(Elems(ids) + {order[k]}, Members(p, m, tried, None));
  }

  /** The numbers given to the new entries. */
  ghost predicate Numbered(unk: map<nat, nat>, ids: seq<nat>) {
    forall i :: 0 <= i < |ids| ==> ids[i] in unk && unk[ids[i]] == i
  }

  method SaveNew(a: AddrMan, order: seq<nat>) returns (rs: seq<Record>, unk: map<nat, nat>, ghost ids: seq<nat>)
    requires a.Valid() && Lists(order, a.mapInfo.Keys)
    ensures Lists(ids, Members(a.p, a.mapInfo, false, None)) && Records(a.mapInfo, ids, rs) && Numbered(unk, ids)
  {
    hide Indexed, NewOk, TriedOk, Counted, Sane, PendingOk, Picked, Numbered, Members;
    rs, unk, ids := [], map[], [];
    PickedNone(a.mapInfo, order, false);
    var nIds := 0;
    for k := 0 to |order|
      invariant Picked(a.mapInfo, order, k, false, ids, rs) && Numbered(unk, ids) && nIds == |ids|
    {
      var id := order[k];
      assert id in a.mapInfo.Keys;
      PickOne(a.mapInfo, order, k, false, ids, rs);
      TableOf(a.p, a.mapInfo, a.vvNew, id);
      NumberOne(unk, ids, id, nIds);
      unk := unk[id := nIds];
      if a.mapInfo[id].refCount != 0 {
        RoomLeft(a.p, a.mapInfo, order, k, false, ids, rs);
        CountIs(a.p, a.mapInfo, a.nNew, a.nTried, a.networkCounts);
        assert nIds != a.nNew by { assert a.mapInfo - {} == a.mapInfo; }
        rs, ids, nIds := rs + [Saved(a.mapInfo[id])], ids + [id], nIds + 1;
      }
    }
    PickedAll(a.p, a.mapInfo, order, false, ids, rs);
  }

  lemma PickedNone(m: Infos, order: seq<nat>, tried: bool)
    ensures Picked(m, order, 0, tried, [], []) && Numbered(map[], [])
  {
  }

  /** New entries have references, tried ones have none. */
  lemma TableOf(p: Params, m: Infos, news: Table, id: nat)
    requires NewOk(p, m, news) && Sane(p, m, {}) && id in m
    ensures m[id].inTried <==> m[id].refCount == 0
  {
    if m[id].inTried {
      TriedHasNoRefs(p, m, news, id);
    }
  }

  lemma CountIs(p: Params, m: Infos, nNew: nat, nTried: nat, counts: Counts)
    requires Counted(p, m - {}, nNew, nTried, counts)
    ensures nNew == |Members(p, m, false, None)| && nTried == |Members(p, m, true, None)|
  {
    assert m - {} == m;
  }

  lemma NumberOne(unk: map<nat, nat>, ids: seq<nat>, id: nat, n: nat)
    requires Numbered(unk, ids) && n == |ids|
    ensures id !in ids ==> Numbered(unk[id := n], ids) && Numbered(unk[id := n], ids + [id])
  {
    assert forall i :: 0 <= i < |ids| ==> ids[i] in ids;
  }

  method SaveTried(a: AddrMan, order: seq<nat>) returns (rs: seq<Record>, ghost ids: seq<nat>)
    requires a.Valid() && Lists(order, a.mapInfo.Keys)
    ensures Lists(ids, Members(a.p, a.mapInfo, true, None)) && Records(a.mapInfo, ids, rs)
  {
    hide Indexed, NewOk, TriedOk, Counted, Sane, PendingOk, Picked, Members;
    rs, ids := [], [];
    PickedNone(a.mapInfo, order, true);
    var nIds := 0;
    for k := 0 to |order|
      invariant Picked(a.mapInfo, order, k, true, ids, rs) && nIds == |ids|
    {
      var id := order[k];
      assert id in a.mapInfo.Keys;
      PickOne(a.mapInfo, order, k, true, ids, rs);
      if a.mapInfo[id].inTried {
        RoomLeft(a.p, a.mapInfo, order, k, true, ids, rs);
        CountIs(a.p, a.mapInfo, a.nNew, a.nTried, a.networkCounts);
        assert nIds != a.nTried;
        rs, ids, nIds := rs + [Saved(a.mapInfo[id])], ids + [id], nIds + 1;
      }
    }
    PickedAll(a.p, a.mapInfo, order, true, ids, rs);
  }

  /** The entries of one bucket, by number. */
  method SaveBucket(a: AddrMan, bucket: nat, unk: map<nat, nat>, ghost ids: seq<nat>) returns (row: seq<int>)
    requires a.Valid() && Lists(ids, Members(a.p, a.mapInfo, false, None)) && Numbered(unk, ids)
    ensures Indices(a.vvNew, ids, RowCells(a.vvNew, bucket, BUCKET_SIZE), row)
  {
    hide Indexed, NewOk, TriedOk, Counted, Sane, PendingOk;
    row := [];
    for i := 0 to BUCKET_SIZE
      invariant Indices(a.vvNew, ids, RowCells(a.vvNew, bucket, i), row)
    {
      var c := Cell(bucket, i);
      if c in a.vvNew {
        NumberOf(a.p, a.mapInfo, a.vvNew, unk, ids, c);
        row := row + [unk[a.vvNew[c]]];
      }
    }
  }

  lemma {:induction false} NumberOf(p: Params, m: Infos, news: Table, unk: map<nat, nat>, ids: seq<nat>, c: Cell)
    requires NewOk(p, m, news) && Lists(ids, Members(p, m, false, None)) && Numbered(unk, ids) && c in news
    ensures news[c] in unk && unk[news[c]] < |ids| && ids[unk[news[c]]] == news[c]
  {
    assert NewAt(p, m, news, c);
    assert news[c] in Members(p, m, false, None);
  }

  method Serialize(a: AddrMan, order: seq<nat>) returns (f: File, ghost newIds: seq<nat>, ghost triedIds: seq<nat>)
    requires a.Valid() && Lists(order, a.mapInfo.Keys)
    ensures FileOf(a.p, BookOf(a), f, newIds, triedIds)
  {
    hide Indexed, NewOk, TriedOk, Counted, Sane, PendingOk, Lists, Records, Numbered, Indices;
    var news, tried, unk;
    news, unk, newIds := SaveNew(a, order);
    tried, triedIds := SaveTried(a, order);
    var buckets := [];
    for bucket := 0 to NEW_BUCKET_COUNT
      invariant |buckets| == bucket
      invariant forall k :: 0 <= k < bucket ==> Indices(a.vvNew, newIds, RowCells(a.vvNew, k, BUCKET_SIZE), buckets[k])
    {
      var row := SaveBucket(a, bucket, unk, newIds);
      buckets := buckets + [row];
    }
    f := File(news, tried, buckets);
  }

  // ---------------------------------------------------------------------------------------
  // Loading

  method AppendEntry(a: AddrMan, r: Record, inTried: bool)
    requires Sound(a.p, BookOf(a))
    modifies a
    ensures BookOf(a) == AddEntry(a.p, old(BookOf(a)), r, inTried) && Sound(a.p, BookOf(a))
    ensures a.triedCollisions == old(a.triedCollisions)
  {
    hide Sound, Raise, Loaded;
    AddEntrySound(a.p, BookOf(a), r, inTried);
    var id := a.nIdCount;
    a.mapInfo := a.mapInfo[id := Loaded(r, inTried, |a.vRandom|)];
    a.mapAddr := a.mapAddr[r.service := id];
    a.vRandom := a.vRandom + [id];
    a.nIdCount := id + 1;
    if inTried {
      a.nTried := a.nTried + 1;
    } else {
      a.nNew := a.nNew + 1;
    }
    a.networkCounts := Raise(a.networkCounts, a.p.network(r.service), inTried);
  }

  method AppendTried(a: AddrMan, r: Record)
    requires Sound(a.p, BookOf(a))
    modifies a
    ensures BookOf(a) == AddTried(a.p, old(BookOf(a)), r) && Sound(a.p, BookOf(a))
    ensures a.triedCollisions == old(a.triedCollisions)
  {
    hide Sound, TriedCell, Loaded, Raise;
    AddTriedSound(a.p, BookOf(a), r);
    var cell := TriedCell(a.p, r.service);
    if a.p.valid(r.service) && cell !in a.vvTried {
      var id := a.nIdCount;
      AppendEntry(a, r, true);
      a.vvTried := a.vvTried[cell := id];
    }
  }

  method AppendRef(a: AddrMan, restore: bool, e: Entry)
    requires Sound(a.p, BookOf(a)) && e.index in a.mapInfo && (restore ==> e.bucket < NEW_BUCKET_COUNT)
    modifies a`mapInfo, a`vvNew
    ensures BookOf(a) == AddRef(a.p, old(BookOf(a)), restore, e) && Sound(a.p, BookOf(a))
    ensures a.mapInfo.Keys == old(a.mapInfo.Keys)
  {
    hide Sound, NewCell, Position;
    AddRefSound(a.p, BookOf(a), restore, e);
    var x := a.mapInfo[e.index];
    if a.p.valid(x.service) && x.refCount < NEW_BUCKETS_PER_ADDRESS {
      var c := Cell(e.bucket, Position(a.p, true, e.bucket, x.service));
      if !(restore && c !in a.vvNew) {
        c := NewCell(a.p, x.service, x.source);
      }
      if c !in a.vvNew {
        a.vvNew := a.vvNew[c := e.index];
        a.mapInfo := a.mapInfo[e.index := x.(refCount := x.refCount + 1)];
      }
    }
  }

  /** The entries of the buckets that can be used. */
  method ReadBuckets(buckets: seq<seq<int>>, count: nat) returns (es: seq<Entry>)
    ensures es == AllEntries(buckets, count)
    ensures forall i :: 0 <= i < |es| ==> es[i].bucket < |buckets| && es[i].index < count
  {
    es := [];
    for bucket := 0 to |buckets|
      invariant es == AllEntries(buckets[..bucket], count)
      invariant forall i :: 0 <= i < |es| ==> es[i].bucket < bucket && es[i].index < count
    {
      var row := ReadBucket(bucket, buckets[bucket], count);
      assert buckets[..bucket + 1][..bucket] == buckets[..bucket];
      es := es + row;
    }
    assert buckets[..|buckets|] == buckets;
  }

  method ReadBucket(bucket: nat, row: seq<int>, count: nat) returns (es: seq<Entry>)
    ensures es == BucketEntries(bucket, row, count)
    ensures forall i :: 0 <= i < |es| ==> es[i].bucket == bucket && es[i].index < count
  {
    es := [];
    for n := 0 to |row|
      invariant es == BucketEntries(bucket, row[..n], count)
      invariant forall i :: 0 <= i < |es| ==> es[i].bucket == bucket && es[i].index < count
    {
      assert row[..n + 1][..n] == row[..n];
      if 0 <= row[n] < count {
        es := es + [Entry(bucket, row[n])];
      }
    }
    assert row[..|row|] == row;
  }

  ghost predicate NothingToPrune(m: Infos) {
    forall id :: id in m ==> m[id].inTried || m[id].refCount > 0
  }

  /** The entries that are in a table. */
  ghost function InTables(m: Infos): set<nat> {
    set id | id in m && (m[id].inTried || m[id].refCount > 0)
  }

  /** The addresses of the entries that are in none. */
  ghost function Homeless(m: Infos, ids: set<nat>): set<nat> {
    set id | id in m && id in ids && !m[id].inTried && m[id].refCount == 0 :: m[id].service
  }

  /** b is a without some of the new entries that found no cell: those of the ids given. */
  ghost predicate PrunedOf(a: Book, b: Book, ids: set<nat>) {
    && b.infos.Keys == a.infos.Keys - (ids - InTables(a.infos)) && Kept(a.infos, b.infos, b.infos.Keys)
    && b.addrs == a.addrs - Homeless(a.infos, ids)
    && b.news == a.news && b.tried == a.tried && b.idCount == a.idCount && b.nTried == a.nTried
    && (NothingToPrune(a.infos) ==> b == a)
  }

  lemma NothingPruned(a: Book)
    ensures PrunedOf(a, a, {})
  {
    assert Homeless(a.infos, {}) == {};
    assert a.addrs - {} == a.addrs;
  }

  /** One more entry was looked at, and dropped if it is in no table. */
  lemma {:induction false} PrunedMore(a: Book, b: Book, ids: set<nat>, id: nat, c: Book)
    requires PrunedOf(a, b, ids) && id in a.infos && id in b.infos
    requires if id in InTables(a.infos) then c == b else
               && c.infos.Keys == b.infos.Keys - {id} && Kept(b.infos, c.infos, c.infos.Keys)
                   && c.addrs == b.addrs - {a.infos[id].service}
               && c == b.(infos := c.infos, addrs := c.addrs, random := c.random, nNew := c.nNew, counts := c.counts)
    ensures PrunedOf(a, c, ids + {id})
  {
    var m := a.infos;
    if id in InTables(m) {
      assert Homeless(m, ids + {id}) == Homeless(m, ids);
    } else {
      HomelessMore(m, ids, id);
      assert a.addrs - Homeless(m, ids) - {m[id].service} == a.addrs - (Homeless(m, ids) + {m[id].service});
    }
  }

  lemma {:induction false} HomelessMore(m: Infos, ids: set<nat>, id: nat)
    requires id in m && id !in InTables(m)
    ensures Homeless(m, ids + {id}) == Homeless(m, ids) + {m[id].service}
  {
    forall s
      ensures s in Homeless(m, ids + {id}) <==> s in Homeless(m, ids) || s == m[id].service
    {
      if s in Homeless(m, ids) {
        var q :| q in m && q in ids && !m[q].inTried && m[q].refCount == 0 && m[q].service == s;
        assert q in ids + {id};
      }
      if s == m[id].service {
        assert id in ids + {id};
      }
    }
  }

  /** Drops exactly the new entries that found no cell. */
  method Prune(a: AddrMan)
    requires Sound(a.p, BookOf(a))
    modifies a`mapInfo, a`mapAddr, a`vRandom, a`nNew, a`networkCounts
    ensures Sound(a.p, BookOf(a)) && PrunedOf(old(BookOf(a)), BookOf(a), old(a.mapInfo.Keys))
    ensures a.mapInfo.Keys == InTables(old(a.mapInfo)) && Kept(old(a.mapInfo), a.mapInfo, a.mapInfo.Keys)
  {
    hide Sound, PrunedOf, InTables;
    ghost var book := BookOf(a);
    ghost var done: set<nat> := {};
    var todo := a.mapInfo.Keys;
    NothingPruned(book);
    while todo != {}
      invariant Sound(a.p, BookOf(a)) && todo !! done && todo + done == book.infos.Keys
      invariant PrunedOf(book, BookOf(a), done)
      decreases todo
    {
      var id :| id in todo;
      ghost var before := BookOf(a);
      StillThere(book, before, done, id);
      if !a.mapInfo[id].inTried && a.mapInfo[id].refCount == 0 {
        PruneOne(a, id);
      }
      PrunedMore(book, before, done, id, BookOf(a));
      todo := todo - {id};
      done := done + {id};
    }
    assert done == book.infos.Keys;
    AllPruned(book, BookOf(a));
  }

  lemma StillThere(a: Book, b: Book, ids: set<nat>, id: nat)
    requires PrunedOf(a, b, ids) && id in a.infos && id !in ids
    ensures id in b.infos && b.infos[id] == a.infos[id].(randomPos := b.infos[id].randomPos)
    ensures id in InTables(a.infos) <==> b.infos[id].inTried || b.infos[id].refCount > 0
  {
  }

  lemma AllPruned(a: Book, b: Book)
    requires PrunedOf(a, b, a.infos.Keys)
    ensures b.infos.Keys == InTables(a.infos) && Kept(a.infos, b.infos, b.infos.Keys)
  {
  }

  method PruneOne(a: AddrMan, id: nat)
    requires Sound(a.p, BookOf(a)) && id in a.mapInfo && !a.mapInfo[id].inTried
    modifies a`mapInfo, a`mapAddr, a`vRandom, a`nNew, a`networkCounts
    ensures Sound(a.p, BookOf(a)) && a.mapInfo.Keys == old(a.mapInfo.Keys) - {id}
    ensures a.mapAddr == old(a.mapAddr) - {old(a.mapInfo)[id].service}
    ensures Kept(old(a.mapInfo), a.mapInfo, a.mapInfo.Keys)
  {
    hide Sound, Lower, Swapped;
    DropSound(a.p, BookOf(a), id);
    a.Drop(id);
  }

  /** Loads a file into an empty manager; false if the file is corrupt. */
  method Unserialize(a: AddrMan, f: File, sameMap: bool) returns (ok: bool)
    requires BookOf(a) == EMPTY
    modifies a
    ensures a.triedCollisions == old(a.triedCollisions)
    ensures ok ==> |f.news| <= NEW_BUCKET_COUNT * BUCKET_SIZE && |f.tried| <= TRIED_BUCKET_COUNT * BUCKET_SIZE
    ensures |f.news| <= NEW_BUCKET_COUNT * BUCKET_SIZE && |f.tried| <= TRIED_BUCKET_COUNT * BUCKET_SIZE ==>
              && (var b := Load(a.p, f, sameMap);
                  a.mapInfo.Keys == InTables(b.infos) && Sound(a.p, BookOf(a)) && PrunedOf(b, BookOf(a), b.infos.Keys))
              && (ok <==>
                  Consistent(a.p, a.mapInfo, a.mapAddr, a.vRandom, a.nNew, a.nTried, a.vvNew, a.vvTried,
                  a.networkCounts))
  {
    hide Sound, Consistent, LoadNew, LoadTried, LoadRefs, PrunedOf, InTables;
    if |f.news| > NEW_BUCKET_COUNT * BUCKET_SIZE || |f.tried| > TRIED_BUCKET_COUNT * BUCKET_SIZE {
      return false;
    }
    ReadEntries(a, f);
    var es := ReadBuckets(f.buckets, |f.news|);
    var restore := |f.buckets| == NEW_BUCKET_COUNT && sameMap;
    RestoreRefs(a, restore, es, |f.news|);
    Prune(a);
    SoundBounded(a.p, BookOf(a));
    var code := CheckAddrman(a);
    ok := code == 0;
  }

  method RestoreRefs(a: AddrMan, restore: bool, es: seq<Entry>, count: nat)
    requires Sound(a.p, BookOf(a)) && forall k :: 0 <= k < count ==> k in a.mapInfo
    requires forall i :: 0 <= i < |es| ==> es[i].index < count && (restore ==> es[i].bucket < NEW_BUCKET_COUNT)
    modifies a`mapInfo, a`vvNew
    ensures Sound(a.p, BookOf(a)) && BookOf(a) == LoadRefs(a.p, old(BookOf(a)), restore, es)
  {
    hide Sound, AddRef;
    for i := 0 to |es|
      invariant Sound(a.p, BookOf(a)) && BookOf(a) == LoadRefs(a.p, old(BookOf(a)), restore, es[..i])
      invariant forall k :: 0 <= k < count ==> k in a.mapInfo
    {
      assert es[..i + 1][..i] == es[..i];
      AppendRef(a, restore, es[i]);
    }
    assert es[..|es|] == es;
  }

  lemma SoundBounded(p: Params, b: Book)
    requires Sound(p, b)
    ensures Bounded(b.tried, TRIED_BUCKET_COUNT) && Bounded(b.news, NEW_BUCKET_COUNT)
  {
  }

  method ReadEntries(a: AddrMan, f: File)
    requires BookOf(a) == EMPTY
    modifies a
    ensures BookOf(a) == LoadTried(a.p, LoadNew(a.p, f.news), f.tried) && Sound(a.p, BookOf(a))
    ensures a.triedCollisions == old(a.triedCollisions)
    ensures forall k :: 0 <= k < |f.news| ==> k in a.mapInfo
  {
    hide Sound, AddEntry, AddTried;
    EmptySound(a.p);
    for n := 0 to |f.news|
      invariant Sound(a.p, BookOf(a)) && BookOf(a) == LoadNew(a.p, f.news[..n])
      invariant a.triedCollisions == old(a.triedCollisions)
    {
      assert f.news[..n + 1][..n] == f.news[..n];
      AppendEntry(a, f.news[n], false);
    }
    assert f.news[..|f.news|] == f.news;
    ghost var b := BookOf(a);
    for n := 0 to |f.tried|
      invariant Sound(a.p, BookOf(a)) && BookOf(a) == LoadTried(a.p, b, f.tried[..n])
      invariant a.triedCollisions == old(a.triedCollisions)
    {
      assert f.tried[..n + 1][..n] == f.tried[..n];
      AppendTried(a, f.tried[n]);
    }
    assert f.tried[..|f.tried|] == f.tried;
    NewKeys(a.p, f.news);
    TriedKeys(a.p, b, f.tried);
  }

  lemma {:induction false} NewKeys(p: Params, rs: seq<Record>)
    ensures LoadNew(p, rs).idCount == |rs| && forall k :: 0 <= k < |rs| ==> k in LoadNew(p, rs).infos
  {
    if rs != [] {
      NewKeys(p, rs[..|rs| - 1]);
    }
  }

  lemma {:induction false} TriedKeys(p: Params, b: Book, rs: seq<Record>)
    ensures b.infos.Keys <= LoadTried(p, b, rs).infos.Keys
  {
    if rs != [] {
      TriedKeys(p, b, rs[..|rs| - 1]);
    }
  }

  /** Saving and loading again gives a manager that passes the check and has the same entries in the
      same cells. */
  method Reload(a: AddrMan, order: seq<nat>) returns (b: AddrMan, ghost ids: seq<nat>)
    requires a.Valid() && Lists(order, a.mapInfo.Keys) && RoutableIsValid(a.p)
    ensures fresh(b) && b.p == a.p && b.Valid() && b.triedCollisions == {}
    ensures SameEntries(BookOf(a), BookOf(b), ids) && SameCounts(BookOf(a), BookOf(b))
    ensures b.mapAddr.Keys == a.mapAddr.Keys
  {
    hide Indexed, NewOk, TriedOk, Counted, Sane, Timed, Consistent, Closed, FileOf, Load, SameEntries, SameCounts,
        PrunedOf, InTables, Sound;
    ghost var book := BookOf(a);
    var f;
    ghost var newIds, triedIds;
    f, newIds, triedIds := Serialize(a, order);
    ids := newIds + triedIds;
    assert OrderedBook(a.p, book) by { assert a.mapInfo - {} == a.mapInfo; }
    RoundTrip(a.p, book, f, newIds, triedIds);
    FileFits(a.p, book, f, newIds, triedIds);
    ghost var l := Load(a.p, f, true);
    InvConsistent(a.p, l.infos, l.addrs, l.random, l.idCount, l.nNew, l.nTried, l.news, l.tried, l.counts);
    OrderedPrunes(a.p, l);
    b := new AddrMan(a.p);
    var ok := Unserialize(b, f, true);
    PrunedSame(l, BookOf(b), l.infos.Keys);
    assert ok;
    assert b.mapInfo - {} == b.mapInfo;
  }

  lemma PrunedSame(a: Book, b: Book, ids: set<nat>)
    requires PrunedOf(a, b, ids) && NothingToPrune(a.infos)
    ensures b == a
  {
  }

  lemma OrderedPrunes(p: Params, b: Book)
    requires OrderedBook(p, b)
    ensures NothingToPrune(b.infos)
  {
  }

  lemma FileFits(p: Params, a: Book, f: File, newIds: seq<nat>, triedIds: seq<nat>)
    requires OrderedBook(p, a) && FileOf(p, a, f, newIds, triedIds)
    ensures |f.news| <= NEW_BUCKET_COUNT * BUCKET_SIZE && |f.tried| <= TRIED_BUCKET_COUNT * BUCKET_SIZE
  {
    hide Indexed, NewOk, TriedOk, Counted, Sane;
    MembersFit(p, a.infos, a.news, a.tried);
    DistinctSize(newIds);
    DistinctSize(triedIds);
    assert Elems(newIds) == Members(p, a.infos, false, None);
    assert Elems(triedIds) == Members(p, a.infos, true, None);
  }
}
