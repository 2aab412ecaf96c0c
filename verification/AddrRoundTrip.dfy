/** Loading what was saved gives the same address manager, up to the numbering of its entries
    (src/addrman.cpp:133-399). */
module AddrRoundTrip {
  import opened Options
  import opened Sequences
  import opened AddrTables
  import opened AddrManager
  import opened AddrCheck
  import opened AddrBook

  ghost predicate OrderedBook(p: Params, b: Book) {
    InOrder(p, b.infos, b.addrs, b.random, b.idCount, b.nNew, b.nTried, b.news, b.tried, b.counts)
  }

  // ---------------------------------------------------------------------------------------
  // Files

  /** Every element once. */
  ghost predicate Lists<T(!new)>(xs: seq<T>, s: set<T>) {
    (forall x :: x in s <==> x in xs) && Distinct(xs)
  }

  /** The records of entries. */
  ghost predicate Records(m: Infos, ids: seq<nat>, rs: seq<Record>) {
    |rs| == |ids| && forall k :: 0 <= k < |ids| ==> ids[k] in m && rs[k] == Saved(m[ids[k]])
  }

  /** The occupied cells of a bucket before a position. */
  ghost function RowCells(news: Table, bucket: nat, position: nat): seq<Cell> {
    if position == 0 then [] else
      var c := Cell(bucket, position - 1);
      RowCells(news, bucket, position - 1) + if c in news then [c] else []
  }

  ghost function AllCells(news: Table, buckets: nat): seq<Cell> {
    if buckets == 0 then [] else AllCells(news, buckets - 1) + RowCells(news, buckets - 1, BUCKET_SIZE)
  }

  /** A row of indices names the entries of some cells. */
  ghost predicate Indices(news: Table, newIds: seq<nat>, cs: seq<Cell>, row: seq<int>) {
    |row| == |cs| && forall j :: 0 <= j < |cs| ==>
        0 <= row[j] < |newIds| && cs[j] in news && newIds[row[j]] == news[cs[j]]
  }

  /** The file of a manager, whose entries were written in this order. */
  ghost predicate FileOf(p: Params, a: Book, f: File, newIds: seq<nat>, triedIds: seq<nat>) {
    && Lists(newIds, Members(p, a.infos, false, None)) && Records(a.infos, newIds, f.news)
    && Lists(triedIds, Members(p, a.infos, true, None)) && Records(a.infos, triedIds, f.tried)
    && |f.buckets| == NEW_BUCKET_COUNT
    && forall k :: 0 <= k < NEW_BUCKET_COUNT ==> Indices(a.news, newIds, RowCells(a.news, k, BUCKET_SIZE), f.buckets[k])
  }

  // ---------------------------------------------------------------------------------------
  // Reading the entries

  /** The entries of these records have been read, the first n of them new. */
  ghost predicate ReadSoFar(p: Params, b: Book, rs: seq<Record>, n: nat) {
    && b.idCount == |rs| == |b.random| && b.news == map[]
    && (forall id: nat :: id in b.infos <==> id < |rs|)
    && (forall id :: 0 <= id < |rs| ==> b.random[id] == id && b.infos[id] == Loaded(rs[id], id >= n, id))
    && (forall c :: c in b.tried ==> n <= b.tried[c] < |rs| && c == TriedCell(p, rs[b.tried[c]].service))
    && (forall id :: n <= id < |rs| ==>
        TriedCell(p, rs[id].service) in b.tried && b.tried[TriedCell(p, rs[id].service)] == id)
    && (forall s :: s in b.addrs ==> b.addrs[s] < |rs| && rs[b.addrs[s]].service == s)
    && (forall id :: 0 <= id < |rs| ==> rs[id].service in b.addrs && b.addrs[rs[id].service] == id)
  }

  ghost predicate Apart(rs: seq<Record>) {
    forall i, j :: 0 <= i < j < |rs| ==> rs[i].service != rs[j].service
  }

  lemma {:induction false} ReadNew(p: Params, rs: seq<Record>)
    requires Apart(rs)
    ensures ReadSoFar(p, LoadNew(p, rs), rs, |rs|) && Sound(p, LoadNew(p, rs))
  {
    hide ReadSoFar, Sound;
    if rs == [] {
      ReadNone(p);
    } else {
      var n := |rs| - 1;
      ReadNew(p, rs[..n]);
      var b := LoadNew(p, rs[..n]);
      NewService(p, b, rs);
      AddEntrySound(p, b, rs[n], false);
      ReadOne(p, b, rs[..n], n, rs[n]);
      assert rs[..n] + [rs[n]] == rs;
    }
  }

  lemma ReadNone(p: Params)
    ensures ReadSoFar(p, EMPTY, [], 0) && Sound(p, EMPTY)
  {
    EmptySound(p);
  }

  lemma NewService(p: Params, b: Book, rs: seq<Record>)
    requires Apart(rs) && rs != [] && ReadSoFar(p, b, rs[..|rs| - 1], |rs| - 1)
    ensures rs[|rs| - 1].service !in b.addrs
  {
  }

  lemma {:induction false} ReadOne(p: Params, b: Book, rs: seq<Record>, n: nat, r: Record)
    requires ReadSoFar(p, b, rs, n) && n == |rs| && r.service !in b.addrs
    ensures ReadSoFar(p, AddEntry(p, b, r, false), rs + [r], n + 1)
  {
    hide TriedCell, Raise;
  }

  lemma {:induction false} ReadOneTried(p: Params, b: Book, rs: seq<Record>, n: nat, r: Record)
    requires ReadSoFar(p, b, rs, n) && n <= |rs| && r.service !in b.addrs && p.valid(r.service)
    requires TriedCell(p, r.service) !in b.tried
    ensures ReadSoFar(p, AddTried(p, b, r), rs + [r], n)
  {
    hide TriedCell, Raise;
  }

  ghost predicate TriedApart(p: Params, ts: seq<Record>) {
    && (forall i :: 0 <= i < |ts| ==> p.valid(ts[i].service))
    && forall i, j :: 0 <= i < j < |ts| ==> TriedCell(p, ts[i].service) != TriedCell(p, ts[j].service)
  }

  lemma {:induction false} ReadTried(p: Params, ns: seq<Record>, ts: seq<Record>)
    requires Apart(ns + ts) && TriedApart(p, ts)
    ensures var b := LoadTried(p, LoadNew(p, ns), ts); ReadSoFar(p, b, ns + ts, |ns|) && Sound(p, b)
    decreases |ts|
  {
    hide TriedCell, ReadSoFar, Sound;
    if ts == [] {
      assert ns + ts == ns;
      ReadNew(p, ns);
    } else {
      var t, r := |ts| - 1, ts[|ts| - 1];
      assert ns + ts[..t] == (ns + ts)[..|ns| + t];
      ReadTried(p, ns, ts[..t]);
      var b := LoadTried(p, LoadNew(p, ns), ts[..t]);
      TriedFits(p, b, ns, ts);
      ReadOneTried(p, b, ns + ts[..t], |ns|, r);
      AddTriedSound(p, b, r);
      assert ns + ts[..t] + [r] == ns + ts;
    }
  }

  lemma {:induction false} TriedFits(p: Params, b: Book, ns: seq<Record>, ts: seq<Record>)
    requires ts != [] && Apart(ns + ts) && TriedApart(p, ts) && ReadSoFar(p, b, ns + ts[..|ts| - 1], |ns|)
    ensures var r := ts[|ts| - 1]; r.service !in b.addrs && TriedCell(p, r.service) !in b.tried
  {
    hide TriedCell;
    var t, r := |ts| - 1, ts[|ts| - 1];
    var rs := ns + ts[..t];
    assert (ns + ts)[|ns| + t] == r && rs == (ns + ts)[..|ns| + t];
    assert forall id :: |ns| <= id < |rs| ==> rs[id] == ts[id - |ns|];
  }

  // ---------------------------------------------------------------------------------------
  // The cells of the new table

  ghost predicate Points(news: Table, newIds: seq<nat>, c: Cell, e: Entry) {
    c in news && e.bucket == c.bucket && e.index < |newIds| && newIds[e.index] == news[c]
  }

  /** The entries name the cells one by one. */
  ghost predicate Named(news: Table, newIds: seq<nat>, cs: seq<Cell>, es: seq<Entry>) {
    |cs| == |es| && forall i :: 0 <= i < |cs| ==> Points(news, newIds, cs[i], es[i])
  }

  lemma {:induction false} RowNamed(news: Table, newIds: seq<nat>, bucket: nat, cs: seq<Cell>, row: seq<int>)
    requires Indices(news, newIds, cs, row) && forall c :: c in cs ==> c.bucket == bucket
    ensures Named(news, newIds, cs, BucketEntries(bucket, row, |newIds|))
    decreases |cs|
  {
    if cs != [] {
      var n := |cs| - 1;
      assert cs[n] in cs;
      RowNamed(news, newIds, bucket, cs[..n], row[..n]);
    }
  }

  lemma NamedNone(news: Table, newIds: seq<nat>)
    ensures Named(news, newIds, [], [])
  {
  }

  lemma {:induction false} NamedJoin(news: Table, newIds: seq<nat>, cs: seq<Cell>, es: seq<Entry>, cs2: seq<Cell>,
      es2: seq<Entry>)
    requires Named(news, newIds, cs, es) && Named(news, newIds, cs2, es2)
    ensures Named(news, newIds, cs + cs2, es + es2)
  {
    hide Points;
  }

  lemma {:induction false} RowBucket(news: Table, bucket: nat, position: nat)
    ensures forall c :: c in RowCells(news, bucket, position) <==>
        c in news && c.bucket == bucket && c.position < position
    ensures Distinct(RowCells(news, bucket, position))
  {
    if position > 0 {
      RowBucket(news, bucket, position - 1);
      var c, rest := Cell(bucket, position - 1), RowCells(news, bucket, position - 1);
      DistinctAppend(rest, [c]);
      assert rest + [] == rest;
    }
  }

  lemma {:induction false} AllNamed(news: Table, newIds: seq<nat>, buckets: seq<seq<int>>)
    requires forall k :: 0 <= k < |buckets| ==> Indices(news, newIds, RowCells(news, k, BUCKET_SIZE), buckets[k])
    ensures Named(news, newIds, AllCells(news, |buckets|), AllEntries(buckets, |newIds|))
  {
    hide Indices, Points, Named;
    if buckets == [] {
      NamedNone(news, newIds);
    } else {
      var n := |buckets| - 1;
      AllNamed(news, newIds, buckets[..n]);
      RowBucket(news, n, BUCKET_SIZE);
      RowNamed(news, newIds, n, RowCells(news, n, BUCKET_SIZE), buckets[n]);
      NamedJoin(news, newIds, AllCells(news, n), AllEntries(buckets[..n], |newIds|), RowCells(news, n, BUCKET_SIZE),
          BucketEntries(n, buckets[n], |newIds|));
    }
  }

  lemma {:induction false} CellsListed(news: Table, n: nat)
    ensures forall c :: c in AllCells(news, n) <==> c in news && c.bucket < n && c.position < BUCKET_SIZE
    ensures Distinct(AllCells(news, n))
  {
    if n > 0 {
      CellsListed(news, n - 1);
      RowBucket(news, n - 1, BUCKET_SIZE);
      var a, b := AllCells(news, n - 1), RowCells(news, n - 1, BUCKET_SIZE);
      DistinctAppend(a, b);
    }
  }

  lemma CellsAll(news: Table)
    requires Bounded(news, NEW_BUCKET_COUNT)
    ensures Lists(AllCells(news, NEW_BUCKET_COUNT), news.Keys)
  {
    CellsListed(news, NEW_BUCKET_COUNT);
  }

  // ---------------------------------------------------------------------------------------
  // Restoring the references

  /** The cells cs of the saved table have been restored on top of what was read. */
  ghost predicate Restored(a: Book, newIds: seq<nat>, read: Book, b: Book, cs: seq<Cell>) {
    && b == read.(infos := b.infos, news := b.news)
    && (forall c :: c in b.news <==> c in cs)
    && (forall c :: c in b.news ==> c in a.news && b.news[c] < |newIds| && newIds[b.news[c]] == a.news[c])
    && b.infos.Keys == read.infos.Keys
    && (forall id :: id in b.infos ==> b.infos[id] == read.infos[id].(refCount := |Refs(b.news, id)|))
  }

  /** What the loaded entries have in common with the saved ones. */
  ghost predicate Recovered(p: Params, a: Book, newIds: seq<nat>, read: Book) {
    forall k :: 0 <= k < |newIds| ==>
      newIds[k] in a.infos && k in read.infos && read.infos[k].service == a.infos[newIds[k]].service
          && p.valid(read.infos[k].service)
  }

  lemma {:induction false} RestoreOne(p: Params, a: Book, newIds: seq<nat>, read: Book, b: Book, cs: seq<Cell>, c: Cell,
      e: Entry)
    requires Restored(a, newIds, read, b, cs) && Recovered(p, a, newIds, read) && c !in cs
    requires Points(a.news, newIds, c, e)
    requires NewOk(p, a.infos, a.news) && Sane(p, a.infos, {})
    ensures Restored(a, newIds, read, AddRef(p, b, true, e), cs + [c]) && e.bucket < NEW_BUCKET_COUNT
  {
    hide Position, NewCell;
    var k := e.index;
    assert NewAt(p, a.infos, a.news, c);
    FewerRefs(p, a, newIds, b, c, k);
    assert AddRef(p, b, true, e) == Refer(b, c, k);
    hide NewOk, Sane, Points, Recovered;
    ReferRestored(a, newIds, read, b, cs, c, k);
  }

  lemma {:induction false} FewerRefs(p: Params, a: Book, newIds: seq<nat>, b: Book, c: Cell, k: nat)
    requires k < |newIds| && c in a.news && newIds[k] == a.news[c] && c !in b.news
    requires forall d :: d in b.news ==> d in a.news && b.news[d] < |newIds| && newIds[b.news[d]] == a.news[d]
    requires NewOk(p, a.infos, a.news) && Sane(p, a.infos, {})
    ensures |Refs(b.news, k)| < NEW_BUCKETS_PER_ADDRESS
  {
    assert NewAt(p, a.infos, a.news, c);
    assert SaneAt(p, a.infos[newIds[k]]);
    assert c !in Refs(b.news, k);
    Fewer(Refs(b.news, k) + {c}, Refs(a.news, newIds[k]));
  }

  lemma {:induction false} ReferRestored(a: Book, newIds: seq<nat>, read: Book, b: Book, cs: seq<Cell>, c: Cell, k: nat)
    requires Restored(a, newIds, read, b, cs) && c !in cs && k in b.infos && c in a.news && k < |newIds|
    requires newIds[k] == a.news[c]
    ensures Restored(a, newIds, read, Refer(b, c, k), cs + [c])
  {
    var b2 := Refer(b, c, k);
    forall id | id in b2.infos
      ensures b2.infos[id] == read.infos[id].(refCount := |Refs(b2.news, id)|)
    {
      RefsPut(b.news, c, k, id);
    }
  }

  lemma {:induction false} RestoreAll(p: Params, a: Book, newIds: seq<nat>, read: Book, cs: seq<Cell>, es: seq<Entry>)
    requires read.news == map[] && Recovered(p, a, newIds, read) && Named(a.news, newIds, cs, es) && Sound(p, read)
    requires Distinct(cs)
    requires forall id :: id in read.infos ==> read.infos[id].refCount == 0
    requires NewOk(p, a.infos, a.news) && Sane(p, a.infos, {})
    ensures Restored(a, newIds, read, LoadRefs(p, read, true, es), cs) && Sound(p, LoadRefs(p, read, true, es))
    decreases |cs|
  {
    hide NewOk, Sane, Recovered, Sound, AddRef, Points;
    if cs == [] {
      assert forall id :: Refs(read.news, id) == {};
    } else {
      var n := |cs| - 1;
      RestoreAll(p, a, newIds, read, cs[..n], es[..n]);
      hide Restored;
      var b := LoadRefs(p, read, true, es[..n]);
      assert Points(a.news, newIds, cs[n], es[n]);
      RestoreOne(p, a, newIds, read, b, cs[..n], cs[n], es[n]);
      AddRefSound(p, b, true, es[n]);
      assert cs[..n] + [cs[n]] == cs;
    }
  }

  // ---------------------------------------------------------------------------------------
  // The round trip

  /** The same entry, up to when it was last tried and its place in the random order. */
  ghost predicate SameEntry(x: AddrInfo, y: AddrInfo) {
    Saved(x) == Saved(y) && x.refCount == y.refCount && x.inTried == y.inTried
  }

  /** The same cells hold the same entries. */
  ghost predicate SameTable(ids: seq<nat>, t: Table, u: Table) {
    u.Keys == t.Keys && forall c :: c in u ==> u[c] < |ids| && ids[u[c]] == t[c]
  }

  /** The entries of b are those of a under other numbers: entry i of b is entry ids[i] of a. */
  ghost predicate SameEntries(a: Book, b: Book, ids: seq<nat>) {
    && Lists(ids, a.infos.Keys) && (forall id: nat :: id in b.infos <==> id < |ids|)
    && (forall id :: id in b.infos ==> SameEntry(a.infos[ids[id]], b.infos[id]))
    && SameTable(ids, a.news, b.news) && SameTable(ids, a.tried, b.tried)
  }

  ghost predicate SameCounts(a: Book, b: Book) {
    b.nNew == a.nNew && b.nTried == a.nTried && forall net :: CountOf(b.counts, net) == CountOf(a.counts, net)
  }

  lemma {:induction false} IdsListed(p: Params, a: Book, f: File, newIds: seq<nat>, triedIds: seq<nat>)
    requires FileOf(p, a, f, newIds, triedIds)
    ensures Lists(newIds + triedIds, a.infos.Keys) && Records(a.infos, newIds + triedIds, f.news + f.tried)
  {
    DistinctAppend(newIds, triedIds);
    forall id
      ensures id in a.infos.Keys <==> id in newIds + triedIds
    {
      assert id in a.infos ==> id in Members(p, a.infos, a.infos[id].inTried, None);
    }
  }

  lemma {:induction false} ServicesApart(p: Params, a: Book, ids: seq<nat>, rs: seq<Record>)
    requires OrderedBook(p, a) && Lists(ids, a.infos.Keys) && Records(a.infos, ids, rs)
    ensures Apart(rs)
  {
    forall i, j | 0 <= i < j < |rs|
      ensures rs[i].service != rs[j].service
    {
      assert IndexedAt(a.infos, a.addrs, a.random, a.idCount, ids[i])
          && IndexedAt(a.infos, a.addrs, a.random, a.idCount, ids[j]);
    }
  }

  /** Routable addresses are valid. */
  ghost predicate RoutableIsValid(p: Params) {
    forall s :: p.routable(s) ==> p.valid(s)
  }

  lemma {:induction false} TriedCellsApart(p: Params, a: Book, triedIds: seq<nat>, ts: seq<Record>)
    requires OrderedBook(p, a) && RoutableIsValid(p) && Lists(triedIds, Members(p, a.infos, true, None))
    requires Records(a.infos, triedIds, ts)
    ensures TriedApart(p, ts)
  {
    hide TriedCell;
    forall i | 0 <= i < |ts|
      ensures p.valid(ts[i].service) && triedIds[i] in Members(p, a.infos, true, None)
    {
      assert triedIds[i] in triedIds;
      assert SaneAt(p, a.infos[triedIds[i]]);
    }
  }

  /** What was read, before references are restored. */
  lemma {:induction false} ReadAll(p: Params, a: Book, f: File, newIds: seq<nat>, triedIds: seq<nat>)
    requires OrderedBook(p, a) && RoutableIsValid(p) && FileOf(p, a, f, newIds, triedIds)
    ensures var read := LoadTried(p, LoadNew(p, f.news), f.tried);
            ReadSoFar(p, read, f.news + f.tried, |f.news|) && Sound(p, read)
  {
    hide OrderedBook, ReadSoFar, Sound;
    IdsListed(p, a, f, newIds, triedIds);
    ServicesApart(p, a, newIds + triedIds, f.news + f.tried);
    TriedCellsApart(p, a, triedIds, f.tried);
    ReadTried(p, f.news, f.tried);
  }

  lemma {:induction false} ReadRecovered(p: Params, a: Book, f: File, newIds: seq<nat>, triedIds: seq<nat>, read: Book)
    requires OrderedBook(p, a) && RoutableIsValid(p) && FileOf(p, a, f, newIds, triedIds)
    requires ReadSoFar(p, read, f.news + f.tried, |f.news|)
    ensures Recovered(p, a, newIds, read) && forall id :: id in read.infos ==> read.infos[id].refCount == 0
    ensures read.news == map[]
  {
    hide Indexed, NewOk, TriedOk, Counted, TriedCell, Indices;
    forall k | 0 <= k < |newIds|
      ensures newIds[k] in a.infos && k in read.infos && read.infos[k].service == a.infos[newIds[k]].service
      ensures p.valid(read.infos[k].service)
    {
      assert (f.news + f.tried)[k] == f.news[k];
      assert SaneAt(p, a.infos[newIds[k]]);
    }
  }

  lemma {:induction false} LoadRestores(p: Params, a: Book, f: File, newIds: seq<nat>, triedIds: seq<nat>)
    requires OrderedBook(p, a) && RoutableIsValid(p) && FileOf(p, a, f, newIds, triedIds)
    ensures var read := LoadTried(p, LoadNew(p, f.news), f.tried);
            var b := Load(p, f, true);
            && ReadSoFar(p, read, f.news + f.tried, |f.news|) && Sound(p, b)
            && Restored(a, newIds, read, b, AllCells(a.news, NEW_BUCKET_COUNT))
                && Lists(AllCells(a.news, NEW_BUCKET_COUNT), a.news.Keys)
  {
    hide Sound, Restored, Recovered, Named, ReadSoFar, FileOf, NewOk, TriedOk, Indexed, Counted, Sane, RoutableIsValid,
        LoadNew, LoadTried, LoadRefs, AllEntries;
    var read := LoadTried(p, LoadNew(p, f.news), f.tried);
    ReadAll(p, a, f, newIds, triedIds);
    ReadRecovered(p, a, f, newIds, triedIds, read);
    TablesBounded(p, a.infos, a.news, a.tried);
    CellsAll(a.news);
    FileNames(p, a, f, newIds, triedIds);
    RestoreAll(p, a, newIds, read, AllCells(a.news, NEW_BUCKET_COUNT), AllEntries(f.buckets, |f.news|));
  }

  lemma FileNames(p: Params, a: Book, f: File, newIds: seq<nat>, triedIds: seq<nat>)
    requires FileOf(p, a, f, newIds, triedIds)
    ensures |f.buckets| == NEW_BUCKET_COUNT
    ensures Named(a.news, newIds, AllCells(a.news, NEW_BUCKET_COUNT), AllEntries(f.buckets, |f.news|))
  {
    hide Named;
    AllNamed(a.news, newIds, f.buckets);
  }

  /** The loaded manager has the saved entries in the saved cells. */
  lemma {:induction false} LoadSame(p: Params, a: Book, f: File, newIds: seq<nat>, triedIds: seq<nat>)
    requires OrderedBook(p, a) && RoutableIsValid(p) && FileOf(p, a, f, newIds, triedIds)
    ensures SameEntries(a, Load(p, f, true), newIds + triedIds)
  {
    hide Load, LoadNew, LoadTried, Sound, FileOf, OrderedBook, SameEntry, SameTable, RoutableIsValid, ReadSoFar,
        Restored, Records, Lists;
    var read, b := LoadTried(p, LoadNew(p, f.news), f.tried), Load(p, f, true);
    LoadRestores(p, a, f, newIds, triedIds);
    IdsListed(p, a, f, newIds, triedIds);
    NewTableSame(a, newIds, triedIds, read, b);
    TriedTableSame(p, a, f, newIds, triedIds, read);
    LoadShape(p, a, f, newIds, triedIds, read, b);
    forall id | id in b.infos
      ensures (newIds + triedIds)[id] in a.infos && SameEntry(a.infos[(newIds + triedIds)[id]], b.infos[id])
    {
      EntrySame(p, a, f, newIds, triedIds, read, b, id);
    }
  }

  lemma LoadShape(p: Params, a: Book, f: File, newIds: seq<nat>, triedIds: seq<nat>, read: Book, b: Book)
    requires FileOf(p, a, f, newIds, triedIds) && ReadSoFar(p, read, f.news + f.tried, |f.news|)
    requires Restored(a, newIds, read, b, AllCells(a.news, NEW_BUCKET_COUNT))
    ensures b.tried == read.tried && forall id: nat :: id in b.infos <==> id < |newIds + triedIds|
  {
  }

  lemma {:induction false} NewTableSame(a: Book, newIds: seq<nat>, triedIds: seq<nat>, read: Book, b: Book)
    requires Restored(a, newIds, read, b, AllCells(a.news, NEW_BUCKET_COUNT))
    requires Lists(AllCells(a.news, NEW_BUCKET_COUNT), a.news.Keys)
    ensures SameTable(newIds + triedIds, a.news, b.news)
  {
    assert b.news.Keys == a.news.Keys;
  }

  lemma {:induction false} TriedTableSame(p: Params, a: Book, f: File, newIds: seq<nat>, triedIds: seq<nat>, read: Book)
    requires OrderedBook(p, a) && FileOf(p, a, f, newIds, triedIds) && ReadSoFar(p, read, f.news + f.tried, |f.news|)
    ensures SameTable(newIds + triedIds, a.tried, read.tried)
  {
    hide TriedCell, FileOf, OrderedBook, ReadSoFar;
    forall c | c in read.tried
      ensures c in a.tried && read.tried[c] < |newIds + triedIds| && (newIds + triedIds)[read.tried[c]] == a.tried[c]
    {
      TriedThere(p, a, f, newIds, triedIds, read, c);
    }
    forall c | c in a.tried
      ensures c in read.tried
    {
      TriedBack(p, a, f, newIds, triedIds, read, c);
    }
  }

  lemma {:induction false} TriedThere(p: Params, a: Book, f: File, newIds: seq<nat>, triedIds: seq<nat>, read: Book,
      c: Cell)
    requires OrderedBook(p, a) && FileOf(p, a, f, newIds, triedIds) && ReadSoFar(p, read, f.news + f.tried, |f.news|)
    requires c in read.tried
    ensures c in a.tried && read.tried[c] < |newIds + triedIds| && (newIds + triedIds)[read.tried[c]] == a.tried[c]
  {
    hide TriedCell, NewOk, Indexed, Counted, Sane;
    var id := read.tried[c];
    var j := id - |newIds|;
    assert (f.news + f.tried)[id] == f.tried[j];
    assert triedIds[j] in triedIds;
    assert triedIds[j] in Members(p, a.infos, true, None);
  }

  lemma {:induction false} TriedBack(p: Params, a: Book, f: File, newIds: seq<nat>, triedIds: seq<nat>, read: Book,
      c: Cell)
    requires OrderedBook(p, a) && FileOf(p, a, f, newIds, triedIds) && ReadSoFar(p, read, f.news + f.tried, |f.news|)
    requires c in a.tried
    ensures c in read.tried
  {
    hide TriedCell, NewOk, Indexed, Counted, Sane;
    assert a.tried[c] in Members(p, a.infos, true, None);
    var j :| 0 <= j < |triedIds| && triedIds[j] == a.tried[c];
    assert (f.news + f.tried)[|newIds| + j] == f.tried[j];
  }

  lemma {:induction false} EntrySame(p: Params, a: Book, f: File, newIds: seq<nat>, triedIds: seq<nat>, read: Book,
      b: Book, id: nat)
    requires OrderedBook(p, a) && FileOf(p, a, f, newIds, triedIds) && ReadSoFar(p, read, f.news + f.tried, |f.news|)
    requires Restored(a, newIds, read, b, AllCells(a.news, NEW_BUCKET_COUNT))
    requires Lists(AllCells(a.news, NEW_BUCKET_COUNT), a.news.Keys) && id in b.infos
    ensures id < |newIds + triedIds| && (newIds + triedIds)[id] in a.infos
    ensures SameEntry(a.infos[(newIds + triedIds)[id]], b.infos[id])
  {
    hide TriedCell, TriedOk, Indexed, Counted, Sane;
    var ids := newIds + triedIds;
    IdsListed(p, a, f, newIds, triedIds);
    if id < |newIds| {
      assert ids[id] in newIds;
      RefsEqual(a, newIds, read, b, id);
    } else {
      assert ids[id] in triedIds;
      TriedHasNoRefs(p, a.infos, a.news, ids[id]) by { assert ids[id] in Members(p, a.infos, true, None); }
      assert Refs(b.news, id) == {};
    }
  }

  lemma {:induction false} RefsEqual(a: Book, newIds: seq<nat>, read: Book, b: Book, k: nat)
    requires Restored(a, newIds, read, b, AllCells(a.news, NEW_BUCKET_COUNT))
    requires Lists(AllCells(a.news, NEW_BUCKET_COUNT), a.news.Keys)
    requires k < |newIds| && Distinct(newIds)
    ensures Refs(b.news, k) == Refs(a.news, newIds[k])
  {
    forall c
      ensures c in Refs(b.news, k) <==> c in Refs(a.news, newIds[k])
    {
      assert c in a.news <==> c in b.news;
    }
  }

  // ---------------------------------------------------------------------------------------
  // The loaded manager is in order

  lemma {:induction false} ImageSize(ids: seq<nat>, s: set<nat>, t: set<nat>)
    requires Distinct(ids) && (forall i :: i in s ==> i < |ids| && ids[i] in t) && forall x :: x in t ==>
        exists i: nat :: i < |ids| && i in s && ids[i] == x
    ensures |s| == |t|
    decreases |s|
  {
    if s == {} {
      assert t == {};
    } else {
      var i :| i in s;
      var s2, t2 := s - {i}, t - {ids[i]};
      forall x | x in t2
        ensures exists j: nat :: j < |ids| && j in s2 && ids[j] == x
      {
        var j: nat :| j < |ids| && j in s && ids[j] == x;
        assert j in s2;
      }
      ImageSize(ids, s2, t2);
    }
  }

  lemma {:induction false} MembersSame(p: Params, a: Book, b: Book, ids: seq<nat>, tried: bool, net: Option<nat>)
    requires SameEntries(a, b, ids)
    ensures |Members(p, b.infos, tried, net)| == |Members(p, a.infos, tried, net)|
  {
    var s, t := Members(p, b.infos, tried, net), Members(p, a.infos, tried, net);
    forall x | x in t
      ensures exists i: nat :: i < |ids| && i in s && ids[i] == x
    {
      assert x in ids;
      var i: nat :| i < |ids| && ids[i] == x;
      assert SameEntry(a.infos[ids[i]], b.infos[i]);
    }
    forall i | i in s
      ensures i < |ids| && ids[i] in t
    {
      assert SameEntry(a.infos[ids[i]], b.infos[i]);
      assert ids[i] in ids;
    }
    ImageSize(ids, s, t);
  }

  lemma {:induction false} CountsSame(p: Params, a: Book, b: Book, ids: seq<nat>)
    requires SameEntries(a, b, ids) && OrderedBook(p, a) && Counted(p, b.infos, b.nNew, b.nTried, b.counts)
    ensures SameCounts(a, b)
  {
    hide SameEntries, Members, Indexed, NewOk, TriedOk, Sane;
    MembersSame(p, a, b, ids, false, None);
    MembersSame(p, a, b, ids, true, None);
    forall net
      ensures CountOf(b.counts, net) == CountOf(a.counts, net)
    {
      assert NetCounted(p, a.infos, a.counts, net) && NetCounted(p, b.infos, b.counts, net);
      MembersSame(p, a, b, ids, false, Some(net));
      MembersSame(p, a, b, ids, true, Some(net));
    }
  }

  lemma {:induction false} SameTriedOk(p: Params, a: Book, b: Book, ids: seq<nat>)
    requires SameEntries(a, b, ids) && TriedOk(p, a.infos, a.tried)
    ensures TriedOk(p, b.infos, b.tried)
  {
    hide TriedCell;
    forall c | c in b.tried
      ensures b.tried[c] in b.infos && b.infos[b.tried[c]].inTried && c == TriedCell(p, b.infos[b.tried[c]].service)
    {
      assert SameEntry(a.infos[ids[b.tried[c]]], b.infos[b.tried[c]]);
    }
    forall id | id in b.infos && b.infos[id].inTried
      ensures TriedCell(p, b.infos[id].service) in b.tried && b.tried[TriedCell(p, b.infos[id].service)] == id
    {
      assert SameEntry(a.infos[ids[id]], b.infos[id]);
      assert ids[id] in ids;
      var c := TriedCell(p, b.infos[id].service);
      assert c in a.tried && a.tried[c] == ids[id];
      assert c in b.tried.Keys;
    }
  }

  lemma {:induction false} SameNewOk(p: Params, a: Book, b: Book, ids: seq<nat>)
    requires SameEntries(a, b, ids) && NewOk(p, a.infos, a.news)
    ensures NewOk(p, b.infos, b.news)
  {
    hide Position;
    forall c | c in b.news
      ensures NewAt(p, b.infos, b.news, c)
    {
      assert c in a.news.Keys;
      assert NewAt(p, a.infos, a.news, c);
      assert SameEntry(a.infos[ids[b.news[c]]], b.infos[b.news[c]]);
    }
    forall id | id in b.infos
      ensures b.infos[id].refCount == |Refs(b.news, id)|
    {
      assert SameEntry(a.infos[ids[id]], b.infos[id]);
      assert ids[id] in ids;
      SameRefs(a, b, ids, id);
    }
  }

  lemma {:induction false} SameRefs(a: Book, b: Book, ids: seq<nat>, id: nat)
    requires SameTable(ids, a.news, b.news) && Distinct(ids) && id < |ids|
    ensures Refs(b.news, id) == Refs(a.news, ids[id])
  {
    forall c
      ensures c in Refs(b.news, id) <==> c in Refs(a.news, ids[id])
    {
      assert c in a.news.Keys <==> c in b.news.Keys;
    }
  }

  lemma {:induction false} SameSane(p: Params, a: Book, b: Book, ids: seq<nat>)
    requires SameEntries(a, b, ids) && Sane(p, a.infos, {}) && Timed(a.infos) && forall id :: id in b.infos ==>
        b.infos[id].lastTry == 0
    ensures Sane(p, b.infos, {}) && Timed(b.infos)
  {
    forall id | id in b.infos
      ensures SaneAt(p, b.infos[id]) && TimedAt(b.infos[id]) && (!b.infos[id].inTried ==> b.infos[id].refCount > 0)
    {
      assert SameEntry(a.infos[ids[id]], b.infos[id]);
      assert ids[id] in ids;
      assert SaneAt(p, a.infos[ids[id]]) && TimedAt(a.infos[ids[id]]);
    }
  }

  lemma {:induction false} LoadIndexed(p: Params, a: Book, f: File, newIds: seq<nat>, read: Book, b: Book)
    requires ReadSoFar(p, read, f.news + f.tried, |f.news|)
    requires Restored(a, newIds, read, b, AllCells(a.news, NEW_BUCKET_COUNT))
    ensures Indexed(b.infos, b.addrs, b.random, b.idCount) && forall id :: id in b.infos ==> b.infos[id].lastTry == 0
  {
    hide TriedCell, Refs, AllCells;
    forall id | id in b.infos
      ensures IndexedAt(b.infos, b.addrs, b.random, b.idCount, id)
    {
    }
  }

  /** Saving and loading: entry by entry and cell by cell the same manager, and in order again. */
  lemma {:induction false} RoundTrip(p: Params, a: Book, f: File, newIds: seq<nat>, triedIds: seq<nat>)
    requires OrderedBook(p, a) && RoutableIsValid(p) && FileOf(p, a, f, newIds, triedIds)
    ensures var b := Load(p, f, true);
            OrderedBook(p, b) && SameEntries(a, b, newIds + triedIds) && SameCounts(a, b)
                && b.addrs.Keys == a.addrs.Keys
  {
    hide Load, LoadNew, LoadTried, FileOf, RoutableIsValid, ReadSoFar, Restored, Lists, SameEntries, SameCounts;
    hide Indexed, NewOk, TriedOk, Counted, Sane, Timed;
    var read, b, ids := LoadTried(p, LoadNew(p, f.news), f.tried), Load(p, f, true), newIds + triedIds;
    LoadRestores(p, a, f, newIds, triedIds);
    LoadSame(p, a, f, newIds, triedIds);
    LoadIndexed(p, a, f, newIds, read, b);
    CountsSame(p, a, b, ids);
    SameTriedOk(p, a, b, ids);
    SameNewOk(p, a, b, ids);
    SameSane(p, a, b, ids);
    SameAddrs(p, a, b, ids);
  }

  lemma {:induction false} SameAddrs(p: Params, a: Book, b: Book, ids: seq<nat>)
    requires SameEntries(a, b, ids) && Indexed(a.infos, a.addrs, a.random, a.idCount)
    requires Indexed(b.infos, b.addrs, b.random, b.idCount)
    ensures b.addrs.Keys == a.addrs.Keys
  {
    forall s | s in b.addrs
      ensures s in a.addrs
    {
      var id := b.addrs[s];
      assert SameEntry(a.infos[ids[id]], b.infos[id]);
      assert ids[id] in ids;
      assert IndexedAt(a.infos, a.addrs, a.random, a.idCount, ids[id]);
    }
    forall s | s in a.addrs
      ensures s in b.addrs
    {
      assert a.addrs[s] in ids;
      var id: nat :| id < |ids| && ids[id] == a.addrs[s];
      assert SameEntry(a.infos[ids[id]], b.infos[id]);
      assert IndexedAt(b.infos, b.addrs, b.random, b.idCount, id);
    }
  }
}
