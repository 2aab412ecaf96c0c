/** What is saved of the address manager, and what loading it gives (src/addrman.cpp:133-399). */
module AddrBook {
  import opened Options
  import opened AddrTables
  import opened AddrManager
  import opened AddrCheck

  /** The saved part of an entry. */
  datatype Record = Record(service: nat, source: nat, time: int, services: set<nat>, lastSuccess: int, attempts: nat)

  /** New and tried entries, and for each bucket of the new table the indices of its entries. */
  datatype File = File(news: seq<Record>, tried: seq<Record>, buckets: seq<seq<int>>)

  /** The fields of an address manager that loading sets. */
  datatype Book = Book(
    infos: Infos,
    addrs: map<nat, nat>,
    random: seq<nat>,
    idCount: nat,
    nNew: nat,
    nTried: nat,
    news: Table,
    tried: Table,
    counts: Counts
  )

  /** A bucket and the index of an entry. */
  datatype Entry = Entry(bucket: nat, index: nat)

  function Saved(x: AddrInfo): Record {
    Record(x.service, x.source, x.time, x.services, x.lastSuccess, x.attempts)
  }

  function Loaded(r: Record, inTried: bool, randomPos: nat): AddrInfo {
    AddrInfo(r.service, r.source, r.time, r.services, 0, 0, r.lastSuccess, r.attempts, 0, inTried, randomPos)
  }

  const EMPTY: Book := Book(map[], map[], [], 0, 0, 0, map[], map[], map[])

  // ---------------------------------------------------------------------------------------
  // Loading, record by record

  /** One more entry, in no table yet. */
  function AddEntry(p: Params, b: Book, r: Record, inTried: bool): Book {
    b.(infos := b.infos[b.idCount := Loaded(r, inTried, |b.random|)],
       addrs := b.addrs[r.service := b.idCount],
       random := b.random + [b.idCount],
       idCount := b.idCount + 1,
       nNew := b.nNew + (if inTried then 0 else 1),
       nTried := b.nTried + (if inTried then 1 else 0),
       counts := Raise(b.counts, p.network(r.service), inTried))
  }

  /** A tried entry is lost if its address is invalid or its cell is taken. */
  function AddTried(p: Params, b: Book, r: Record): Book {
    if p.valid(r.service) && TriedCell(p, r.service) !in b.tried
    then AddEntry(p, b, r, true).(tried := b.tried[TriedCell(p, r.service) := b.idCount])
    else b
  }

  function Refer(b: Book, c: Cell, id: nat): Book
    requires id in b.infos
  {
    b.(news := b.news[c := id], infos := b.infos[id := b.infos[id].(refCount := b.infos[id].refCount + 1)])
  }

  /** An entry goes back to its bucket, or else to that of its source. */
  function AddRef(p: Params, b: Book, restore: bool, e: Entry): Book {
    if e.index !in b.infos then b else
      var x := b.infos[e.index];
      if !p.valid(x.service) || x.refCount >= NEW_BUCKETS_PER_ADDRESS then b else
        var c, d := Cell(e.bucket, Position(p, true, e.bucket, x.service)), NewCell(p, x.service, x.source);
        if restore && c !in b.news then Refer(b, c, e.index)
        else if d !in b.news then Refer(b, d, e.index)
        else b
  }

  function LoadNew(p: Params, rs: seq<Record>): Book {
    if rs == [] then EMPTY else AddEntry(p, LoadNew(p, rs[..|rs| - 1]), rs[|rs| - 1], false)
  }

  function LoadTried(p: Params, b: Book, rs: seq<Record>): Book {
    if rs == [] then b else AddTried(p, LoadTried(p, b, rs[..|rs| - 1]), rs[|rs| - 1])
  }

  function LoadRefs(p: Params, b: Book, restore: bool, es: seq<Entry>): Book {
    if es == [] then b else AddRef(p, LoadRefs(p, b, restore, es[..|es| - 1]), restore, es[|es| - 1])
  }

  /** The entries of a bucket whose index is in range. */
  function BucketEntries(bucket: nat, row: seq<int>, count: nat): seq<Entry> {
    if row == [] then [] else
      var last := row[|row| - 1];
      BucketEntries(bucket, row[..|row| - 1], count) + if 0 <= last < count then [Entry(bucket, last)] else []
  }

  function AllEntries(buckets: seq<seq<int>>, count: nat): seq<Entry> {
    if buckets == [] then [] else
      var n := |buckets| - 1;
      AllEntries(buckets[..n], count) + BucketEntries(n, buckets[n], count)
  }

  /** A whole file. The buckets are restored if their number and the map of autonomous systems are as they were. */
  function Load(p: Params, f: File, sameMap: bool): Book {
    LoadRefs(p, LoadTried(p, LoadNew(p, f.news), f.tried), |f.buckets| == NEW_BUCKET_COUNT
        && sameMap, AllEntries(f.buckets, |f.news|))
  }

  // ---------------------------------------------------------------------------------------
  // What holds of every file

  /** The random order lists every entry at its place. */
  ghost predicate Placed(m: Infos, random: seq<nat>) {
    && (forall id :: id in m ==> Holds(m, random, id))
    && (forall i :: 0 <= i < |random| ==> random[i] in m && m[random[i]].randomPos == i)
  }

  /** The random order lists the entries, the counters count them, and cells are cells. */
  ghost predicate Sound(p: Params, b: Book) {
    && (forall id :: id in b.infos ==> id < b.idCount) && Placed(b.infos, b.random)
    && Counted(p, b.infos, b.nNew, b.nTried, b.counts)
    && Bounded(b.tried, TRIED_BUCKET_COUNT) && Bounded(b.news, NEW_BUCKET_COUNT)
  }

  lemma {:induction false} AddEntrySound(p: Params, b: Book, r: Record, inTried: bool)
    requires Sound(p, b)
    ensures Sound(p, AddEntry(p, b, r, inTried))
  {
    hide Counted, Raise;
    CountedAdd(p, b.infos, b.idCount, Loaded(r, inTried, |b.random|), b.nNew, b.nTried, b.counts);
  }

  lemma {:induction false} AddTriedSound(p: Params, b: Book, r: Record)
    requires Sound(p, b)
    ensures Sound(p, AddTried(p, b, r))
  {
    AddEntrySound(p, b, r, true);
  }

  lemma {:induction false} ReferSound(p: Params, b: Book, c: Cell, id: nat)
    requires Sound(p, b) && id in b.infos && c.bucket < NEW_BUCKET_COUNT && c.position < BUCKET_SIZE
    ensures Sound(p, Refer(b, c, id))
  {
    CountedSame(p, b.infos, Refer(b, c, id).infos, b.nNew, b.nTried, b.counts);
    hide Counted;
  }

  lemma {:induction false} AddRefSound(p: Params, b: Book, restore: bool, e: Entry)
    requires Sound(p, b) && (restore ==> e.bucket < NEW_BUCKET_COUNT)
    ensures Sound(p, AddRef(p, b, restore, e))
  {
    hide Sound;
    if e.index in b.infos {
      var x := b.infos[e.index];
      var c, d := Cell(e.bucket, Position(p, true, e.bucket, x.service)), NewCell(p, x.service, x.source);
      if restore && c !in b.news {
        ReferSound(p, b, c, e.index);
      } else {
        ReferSound(p, b, d, e.index);
      }
    }
  }

  lemma {:induction false} EmptySound(p: Params)
    ensures Sound(p, EMPTY)
  {
    NothingCounted(p);
  }

  lemma {:induction false} LoadNewSound(p: Params, rs: seq<Record>)
    ensures Sound(p, LoadNew(p, rs))
  {
    hide Sound;
    if rs == [] {
      EmptySound(p);
    } else {
      LoadNewSound(p, rs[..|rs| - 1]);
      AddEntrySound(p, LoadNew(p, rs[..|rs| - 1]), rs[|rs| - 1], false);
    }
  }

  /** An entry that is dropped leaves the rest sound. */
  lemma {:induction false} DropHolds(m: Infos, random: seq<nat>, id: nat)
    requires id in m && Placed(m, random)
    ensures Holds(m, random, id) && random[|random| - 1] in m
    ensures var i, n := m[id].randomPos, |random| - 1;
            Placed(Swapped(m, random, i, n) - {id}, random[i := random[n]][..n])
  {
    assert Holds(m, random, id);
    var i, n := m[id].randomPos, |random| - 1;
    var m2, random2 := Swapped(m, random, i, n) - {id}, random[i := random[n]][..n];
    forall q | q in m2
      ensures Holds(m2, random2, q)
    {
      assert Holds(m, random, q);
    }
  }

  lemma {:induction false} DropCounted(p: Params, m: Infos, random: seq<nat>, id: nat, nNew: nat, nTried: nat,
      counts: Counts)
    requires id in m && Holds(m, random, id) && random[|random| - 1] in m && !m[id].inTried
    requires Counted(p, m, nNew, nTried, counts)
    ensures nNew > 0 && CountOf(counts, p.network(m[id].service)).nNew > 0
    ensures Counted(p, Swapped(m, random, m[id].randomPos, |random| - 1) - {id}, nNew - 1, nTried,
        Lower(counts, p.network(m[id].service), false))
  {
    hide Counted, Lower;
    var m2 := Swapped(m, random, m[id].randomPos, |random| - 1);
    CountedSame(p, m, m2, nNew, nTried, counts);
    CountedDrop(p, m2, id, nNew, nTried, counts);
  }

  lemma {:induction false} DropSound(p: Params, b: Book, id: nat)
    requires Sound(p, b) && id in b.infos && !b.infos[id].inTried
    ensures Holds(b.infos, b.random, id) && b.random[|b.random| - 1] in b.infos
    ensures b.nNew > 0 && CountOf(b.counts, p.network(b.infos[id].service)).nNew > 0
    ensures var i, n := b.infos[id].randomPos, |b.random| - 1;
            var m := Swapped(b.infos, b.random, i, n);
            && m.Keys == b.infos.Keys && Kept(b.infos, m, m.Keys)
            && Sound(p, b.(infos := m - {id}, addrs := b.addrs - {b.infos[id].service},
                random := b.random[i := b.random[n]][..n],
                           nNew := b.nNew - 1, counts := Lower(b.counts, p.network(b.infos[id].service), false)))
  {
    hide Counted, Lower, Swapped, Kept, Bounded, CountOf, Placed;
    DropHolds(b.infos, b.random, id);
    DropCounted(p, b.infos, b.random, id, b.nNew, b.nTried, b.counts);
    SwapKept(b.infos, b.random, b.infos[id].randomPos, |b.random| - 1);
  }

  lemma {:induction false} SwapKept(m: Infos, random: seq<nat>, i: nat, j: nat)
    requires i < |random| && j < |random| && random[i] in m && random[j] in m
    ensures Swapped(m, random, i, j).Keys == m.Keys && Kept(m, Swapped(m, random, i, j), m.Keys)
  {
  }

  // ---------------------------------------------------------------------------------------
  // How much a table holds

  lemma {:induction false} ImageAtMost(t: Table, s: set<Cell>)
    requires s <= t.Keys
    ensures |set c | c in s :: t[c]| <= |s|
    decreases |s|
  {
    var image := set c | c in s :: t[c];
    if s == {} {
      assert image == {};
    } else {
      var c :| c in s;
      ImageAtMost(t, s - {c});
      var rest := set d | d in s - {c} :: t[d];
      Fewer(image, rest + {t[c]});
    }
  }

  ghost function Code(c: Cell): nat {
    c.bucket * BUCKET_SIZE + c.position
  }

  lemma {:induction false} CodesSize(s: set<Cell>)
    requires forall c :: c in s ==> c.position < BUCKET_SIZE
    ensures |set c | c in s :: Code(c)| == |s|
    decreases |s|
  {
    hide Code;
    var codes := set c | c in s :: Code(c);
    if s == {} {
      assert codes == {};
    } else {
      var c :| c in s;
      CodesSize(s - {c});
      var rest := set d | d in s - {c} :: Code(d);
      assert codes == rest + {Code(c)};
      forall d | d in s - {c}
        ensures Code(d) != Code(c)
      {
        CodeApart(c, d);
      }
    }
  }

  lemma CodeApart(c: Cell, d: Cell)
    requires c.position < BUCKET_SIZE && d.position < BUCKET_SIZE && c != d
    ensures Code(c) != Code(d)
  {
  }

  lemma {:induction false} TableSize(t: Table, buckets: nat)
    requires Bounded(t, buckets)
    ensures |t.Keys| <= buckets * BUCKET_SIZE
  {
    var codes := set c | c in t.Keys :: Code(c);
    CodesSize(t.Keys);
    BelowSize(buckets * BUCKET_SIZE);
    forall c | c in t.Keys
      ensures Code(c) in Below(buckets * BUCKET_SIZE)
    {
    }
    Fewer(codes, Below(buckets * BUCKET_SIZE));
  }

  /** The tables have room for no more entries than the loader allows. */
  lemma {:induction false} MembersFit(p: Params, m: Infos, news: Table, tried: Table)
    requires NewOk(p, m, news) && TriedOk(p, m, tried) && Sane(p, m, {})
    ensures |Members(p, m, false, None)| <= NEW_BUCKET_COUNT * BUCKET_SIZE
    ensures |Members(p, m, true, None)| <= TRIED_BUCKET_COUNT * BUCKET_SIZE
  {
    TablesBounded(p, m, news, tried);
    TableSize(news, NEW_BUCKET_COUNT);
    TableSize(tried, TRIED_BUCKET_COUNT);
    hide Bounded;
    NewFit(p, m, news);
    TriedFit(p, m, tried);
  }

  lemma {:induction false} NewFit(p: Params, m: Infos, news: Table)
    requires NewOk(p, m, news) && Sane(p, m, {})
    ensures |Members(p, m, false, None)| <= |news.Keys|
  {
    var ids := set c | c in news.Keys :: news[c];
    forall id | id in Members(p, m, false, None)
      ensures id in ids
    {
      assert |Refs(news, id)| > 0;
      var c :| c in Refs(news, id);
    }
    ImageAtMost(news, news.Keys);
    Fewer(Members(p, m, false, None), ids);
  }

  lemma {:induction false} TriedFit(p: Params, m: Infos, tried: Table)
    requires TriedOk(p, m, tried)
    ensures |Members(p, m, true, None)| <= |tried.Keys|
  {
    var ids := set c | c in tried.Keys :: tried[c];
    forall id | id in Members(p, m, true, None)
      ensures id in ids
    {
      assert TriedCell(p, m[id].service) in tried.Keys;
    }
    ImageAtMost(tried, tried.Keys);
    Fewer(Members(p, m, true, None), ids);
  }
}
