/** The tables of the address manager and how they must agree (src/addrman_impl.h:23-110,
    src/addrman.cpp:26-65, 1063-1166). A table maps its occupied cells to ids. */
module AddrTables {
  import opened Options
  import opened Sequences

  const TRIED_BUCKET_COUNT: nat := 256
  const NEW_BUCKET_COUNT: nat := 1024
  const BUCKET_SIZE: nat := 64
  const NEW_BUCKETS_PER_ADDRESS: nat := 8

  datatype AddrInfo = AddrInfo(
    service: nat,            // address and port
    source: nat,
    time: int,
    services: set<nat>,
    lastTry: int,
    lastCountAttempt: int,
    lastSuccess: int,
    attempts: nat,
    refCount: nat,
    inTried: bool,
    randomPos: nat
  )

  datatype Cell = Cell(bucket: nat, position: nat)

  type Infos = map<nat, AddrInfo>
  type Table = map<Cell, nat>
  /** new and tried entries of a network */
  datatype NewTriedCount = NewTriedCount(nNew: nat, nTried: nat)

  /** Keyed hashes, and what is known of addresses. */
  datatype Params = Params(
    triedHash: nat -> nat,
    newHash: (nat, nat) -> nat,
    positionHash: (bool, nat, nat) -> nat,
    network: nat -> nat,
    routable: nat -> bool,
    valid: nat -> bool
  )

  function Position(p: Params, isNew: bool, bucket: nat, service: nat): nat {
    p.positionHash(isNew, bucket, service) % BUCKET_SIZE
  }

  /** Where a tried address belongs. */
  function TriedCell(p: Params, service: nat): Cell {
    var bucket := p.triedHash(service) % TRIED_BUCKET_COUNT;
    Cell(bucket, Position(p, false, bucket, service))
  }

  /** Where a new address from a source belongs. */
  function NewCell(p: Params, service: nat, source: nat): Cell {
    var bucket := p.newHash(service, source) % NEW_BUCKET_COUNT;
    Cell(bucket, Position(p, true, bucket, service))
  }

  // ---------------------------------------------------------------------------------------
  // Agreement

  ghost predicate IndexedAt(infos: Infos, addrs: map<nat, nat>, random: seq<nat>, idCount: nat, id: nat)
    requires id in infos
  {
    && id < idCount && infos[id].service in addrs && addrs[infos[id].service] == id
    && infos[id].randomPos < |random| && random[infos[id].randomPos] == id
  }

  /** Ids, addresses and positions in the random order determine each other. */
  ghost predicate Indexed(infos: Infos, addrs: map<nat, nat>, random: seq<nat>, idCount: nat) {
    && (forall id :: id in infos ==> IndexedAt(infos, addrs, random, idCount, id))
    && (forall s :: s in addrs ==> addrs[s] in infos && infos[addrs[s]].service == s)
    && (forall i :: 0 <= i < |random| ==> random[i] in infos && infos[random[i]].randomPos == i)
  }

  /** The tried table holds exactly the tried entries, each in its cell. */
  ghost predicate TriedOk(p: Params, infos: Infos, tried: Table) {
    && (forall c :: c in tried ==>
        tried[c] in infos && infos[tried[c]].inTried && c == TriedCell(p, infos[tried[c]].service))
    && (forall id :: id in infos && infos[id].inTried ==>
        TriedCell(p, infos[id].service) in tried && tried[TriedCell(p, infos[id].service)] == id)
  }

  ghost function Refs(news: Table, id: nat): set<Cell> {
    set c | c in news && news[c] == id
  }

  ghost predicate NewAt(p: Params, infos: Infos, news: Table, c: Cell)
    requires c in news
  {
    && news[c] in infos && !infos[news[c]].inTried && c.bucket < NEW_BUCKET_COUNT
    && c.position == Position(p, true, c.bucket, infos[news[c]].service)
  }

  /** The new table holds new entries only, each as often as it is referenced. */
  ghost predicate NewOk(p: Params, infos: Infos, news: Table) {
    && (forall c :: c in news ==> NewAt(p, infos, news, c))
    && (forall id :: id in infos ==> infos[id].refCount == |Refs(news, id)|)
  }

  /** The entries that are tried, or not, of one network or of all. */
  ghost function Members(p: Params, infos: Infos, tried: bool, net: Option<nat>): set<nat> {
    set id | id in infos && infos[id].inTried == tried && (net.Some? ==> p.network(infos[id].service) == net.value)
  }

  function CountOf(counts: map<nat, NewTriedCount>, net: nat): NewTriedCount {
    if net in counts then counts[net] else NewTriedCount(0, 0)
  }

  ghost predicate NetCounted(p: Params, infos: Infos, counts: map<nat, NewTriedCount>, net: nat) {
    && CountOf(counts, net).nNew == |Members(p, infos, false, Some(net))|
    && CountOf(counts, net).nTried == |Members(p, infos, true, Some(net))|
  }

  /** All counters are right. */
  ghost predicate Counted(p: Params, infos: Infos, nNew: nat, nTried: nat, counts: map<nat, NewTriedCount>) {
    && nNew == |Members(p, infos, false, None)| && nTried == |Members(p, infos, true, None)|
    && forall net :: NetCounted(p, infos, counts, net)
  }

  ghost predicate SaneAt(p: Params, info: AddrInfo) {
    info.refCount <= NEW_BUCKETS_PER_ADDRESS && p.routable(info.service)
  }

  /** Reference counts are in range; entries outside of loose are in a table. */
  ghost predicate Sane(p: Params, infos: Infos, loose: set<nat>) {
    && (forall id :: id in infos ==> SaneAt(p, infos[id]))
    && (forall id :: id in infos && id !in loose && !infos[id].inTried ==> infos[id].refCount > 0)
  }

  ghost predicate TimedAt(info: AddrInfo) {
    info.lastTry >= 0 && info.lastSuccess >= 0 && (info.inTried ==> info.lastSuccess > 0)
  }

  /** No time is before the epoch, and tried entries have had a success after it. */
  ghost predicate Timed(infos: Infos) {
    forall id :: id in infos ==> TimedAt(infos[id])
  }

  /** No entry has come, become tried or got other times. */
  ghost predicate TimesKept(before: Infos, after: Infos) {
    forall id :: id in after ==>
      && id in before && after[id].lastTry == before[id].lastTry && after[id].lastSuccess == before[id].lastSuccess
      && (after[id].inTried ==> before[id].inTried)
  }

  /** Every pending collision that still exists names an occupied tried cell. */
  ghost predicate PendingOk(p: Params, infos: Infos, tried: Table, collisions: set<nat>, idCount: nat) {
    && (forall id :: id in collisions ==> id < idCount)
    && (forall id :: id in collisions && id in infos ==> TriedCell(p, infos[id].service) in tried)
  }

  // ---------------------------------------------------------------------------------------
  // Changes that do not matter for the tables

  /** The same entries in the same tables. */
  ghost predicate SamePlaces(a: Infos, b: Infos) {
    a.Keys == b.Keys && forall id :: id in a ==>
        b[id].service == a[id].service && b[id].refCount == a[id].refCount && b[id].inTried == a[id].inTried
  }

  lemma {:induction false} SamePlacesOk(p: Params, a: Infos, b: Infos, news: Table, tried: Table)
    requires SamePlaces(a, b) && NewOk(p, a, news) && TriedOk(p, a, tried)
    ensures NewOk(p, b, news) && TriedOk(p, b, tried)
  {
    forall c | c in news
      ensures NewAt(p, b, news, c)
    {
      assert NewAt(p, a, news, c);
    }
  }

  lemma {:induction false} CountedSame(p: Params, a: Infos, b: Infos, nNew: nat, nTried: nat, counts: map<nat,
      NewTriedCount>)
    requires a.Keys == b.Keys && Counted(p, a, nNew, nTried, counts)
    requires forall id :: id in a ==> b[id].service == a[id].service && b[id].inTried == a[id].inTried
    ensures Counted(p, b, nNew, nTried, counts)
  {
    forall tried: bool, net: Option<nat>
      ensures Members(p, b, tried, net) == Members(p, a, tried, net)
    {
    }
    forall net
      ensures NetCounted(p, b, counts, net)
    {
      assert NetCounted(p, a, counts, net);
    }
  }

  // ---------------------------------------------------------------------------------------
  // Counters

  /** One entry more in a network. */
  function Raise(counts: map<nat, NewTriedCount>, net: nat, tried: bool): map<nat, NewTriedCount> {
    var c := CountOf(counts, net);
    counts[net := if tried then c.(nTried := c.nTried + 1) else c.(nNew := c.nNew + 1)]
  }

  /** One entry less. */
  function Lower(counts: map<nat, NewTriedCount>, net: nat, tried: bool): map<nat, NewTriedCount>
    requires if tried then CountOf(counts, net).nTried > 0 else CountOf(counts, net).nNew > 0
  {
    var c := CountOf(counts, net);
    counts[net := if tried then c.(nTried := c.nTried - 1) else c.(nNew := c.nNew - 1)]
  }

  ghost predicate Matches(p: Params, x: AddrInfo, tried: bool, net: Option<nat>) {
    x.inTried == tried && (net.Some? ==> p.network(x.service) == net.value)
  }

  lemma {:induction false} MembersAdd(p: Params, m: Infos, id: nat, x: AddrInfo, tried: bool, net: Option<nat>)
    requires id !in m
    ensures |Members(p, m[id := x], tried, net)| == |Members(p, m, tried, net)| + if Matches(p, x, tried, net) then 1
        else 0
  {
    var m2, hit := m[id := x], Matches(p, x, tried, net);
    var s, t := Members(p, m, tried, net), Members(p, m2, tried, net);
    forall q
      ensures q in t <==> q in s || (q == id && hit)
    {
      if q != id {
        assert q in m2 <==> q in m;
      }
    }
    if hit {
      assert t == s + {id};
    } else {
      assert t == s;
    }
  }

  lemma {:induction false} CountedAdd(p: Params, m: Infos, id: nat, x: AddrInfo, nNew: nat, nTried: nat,
      counts: map<nat, NewTriedCount>)
    requires id !in m && Counted(p, m, nNew, nTried, counts)
    ensures Counted(p, m[id := x], nNew + (if x.inTried then 0 else 1), nTried + (if x.inTried then 1 else 0),
        Raise(counts, p.network(x.service), x.inTried))
  {
    hide Members;
    MembersAdd(p, m, id, x, false, None);
    MembersAdd(p, m, id, x, true, None);
    var more, m2 := Raise(counts, p.network(x.service), x.inTried), m[id := x];
    forall net
      ensures NetCounted(p, m2, more, net)
    {
      assert NetCounted(p, m, counts, net);
      MembersAdd(p, m, id, x, false, Some(net));
      MembersAdd(p, m, id, x, true, Some(net));
    }
  }

  lemma {:induction false} CountedDrop(p: Params, m: Infos, id: nat, nNew: nat, nTried: nat, counts: map<nat,
      NewTriedCount>)
    requires id in m && Counted(p, m, nNew, nTried, counts)
    ensures if m[id].inTried then nTried > 0 && CountOf(counts, p.network(m[id].service)).nTried > 0
        else nNew > 0 && CountOf(counts, p.network(m[id].service)).nNew > 0
    ensures Counted(p, m - {id}, nNew - (if m[id].inTried then 0 else 1), nTried - (if m[id].inTried then 1 else 0),
        Lower(counts, p.network(m[id].service), m[id].inTried))
  {
    hide Members;
    var r, x := m - {id}, m[id];
    assert m == r[id := x];
    MembersAdd(p, r, id, x, false, None);
    MembersAdd(p, r, id, x, true, None);
    assert NetCounted(p, m, counts, p.network(x.service));
    MembersAdd(p, r, id, x, x.inTried, Some(p.network(x.service)));
    var fewer := Lower(counts, p.network(x.service), x.inTried);
    forall net
      ensures NetCounted(p, r, fewer, net)
    {
      assert NetCounted(p, m, counts, net);
      MembersAdd(p, r, id, x, false, Some(net));
      MembersAdd(p, r, id, x, true, Some(net));
    }
  }

  // ---------------------------------------------------------------------------------------
  // References

  lemma {:induction false} RefsPut(news: Table, c: Cell, id: nat, other: nat)
    requires c !in news
    ensures |Refs(news[c := id], other)| == |Refs(news, other)| + if other == id then 1 else 0
  {
    if other == id {
      assert Refs(news[c := id], other) == Refs(news, other) + {c};
    } else {
      assert Refs(news[c := id], other) == Refs(news, other);
    }
  }

  lemma {:induction false} NewPut(p: Params, m: Infos, news: Table, c: Cell, id: nat)
    requires NewOk(p, m, news) && c !in news && id in m && !m[id].inTried
    requires c.bucket < NEW_BUCKET_COUNT && c.position == Position(p, true, c.bucket, m[id].service)
    ensures NewOk(p, m[id := m[id].(refCount := m[id].refCount + 1)], news[c := id])
  {
    hide Refs, Position;
    var m2, news2 := m[id := m[id].(refCount := m[id].refCount + 1)], news[c := id];
    forall d | d in news2
      ensures NewAt(p, m2, news2, d)
    {
      if d != c {
        assert NewAt(p, m, news, d);
      }
    }
    forall other | other in m2
      ensures m2[other].refCount == |Refs(news2, other)|
    {
      RefsPut(news, c, id, other);
    }
  }

  lemma {:induction false} NewTake(p: Params, m: Infos, news: Table, c: Cell)
    requires NewOk(p, m, news) && c in news
    ensures news[c] in m && !m[news[c]].inTried && m[news[c]].refCount > 0
    ensures NewOk(p, m[news[c] := m[news[c]].(refCount := m[news[c]].refCount - 1)], news - {c})
  {
    hide Refs, Position;
    var id := news[c];
    assert NewAt(p, m, news, c);
    var rest := news - {c};
    assert news == rest[c := id];
    RefsPut(rest, c, id, id);
    var m2 := m[id := m[id].(refCount := m[id].refCount - 1)];
    forall d | d in rest
      ensures NewAt(p, m2, rest, d)
    {
      assert NewAt(p, m, news, d);
    }
    forall other | other in m2
      ensures m2[other].refCount == |Refs(rest, other)|
    {
      RefsPut(rest, c, id, other);
    }
  }

  lemma {:induction false} NoRefs(p: Params, m: Infos, news: Table, id: nat)
    requires NewOk(p, m, news) && id in m && m[id].refCount == 0
    ensures forall c :: c in news ==> news[c] != id
  {
    forall c | c in news
      ensures news[c] != id
    {
      assert news[c] == id ==> c in Refs(news, id);
    }
  }

  lemma {:induction false} TriedHasNoRefs(p: Params, m: Infos, news: Table, id: nat)
    requires NewOk(p, m, news) && id in m && m[id].inTried
    ensures m[id].refCount == 0
  {
    forall c | c in news
      ensures news[c] != id
    {
      assert NewAt(p, m, news, c);
    }
    assert Refs(news, id) == {};
  }

  /** An entry that no cell names can come or go. */
  lemma {:induction false} NewDrop(p: Params, m: Infos, news: Table, id: nat)
    requires NewOk(p, m, news) && id in m && m[id].refCount == 0
    ensures NewOk(p, m - {id}, news)
  {
    NoRefs(p, m, news, id);
    forall c | c in news
      ensures NewAt(p, m - {id}, news, c)
    {
      assert NewAt(p, m, news, c);
    }
  }

  lemma {:induction false} NewCome(p: Params, m: Infos, news: Table, id: nat, x: AddrInfo)
    requires NewOk(p, m, news) && id !in m && x.refCount == 0
    ensures NewOk(p, m[id := x], news)
  {
    forall c | c in news
      ensures NewAt(p, m[id := x], news, c) && news[c] != id
    {
      assert NewAt(p, m, news, c);
    }
    assert Refs(news, id) == {};
  }

  /** What an entry without references says about itself does not matter to the new table. */
  lemma {:induction false} NewChange(p: Params, m: Infos, news: Table, id: nat, x: AddrInfo)
    requires NewOk(p, m, news) && id in m && m[id].refCount == 0 && x.refCount == 0
    ensures NewOk(p, m[id := x], news)
  {
    NewDrop(p, m, news, id);
    NewCome(p, m - {id}, news, id, x);
    assert (m - {id})[id := x] == m[id := x];
  }

  // ---------------------------------------------------------------------------------------
  // The tried table

  lemma {:induction false} TriedPut(p: Params, m: Infos, tried: Table, id: nat)
    requires TriedOk(p, m, tried) && id in m && !m[id].inTried && TriedCell(p, m[id].service) !in tried
    ensures TriedOk(p, m[id := m[id].(inTried := true)], tried[TriedCell(p, m[id].service) := id])
  {
    hide TriedCell;
  }

  lemma {:induction false} TriedTake(p: Params, m: Infos, tried: Table, c: Cell)
    requires TriedOk(p, m, tried) && c in tried
    ensures tried[c] in m && m[tried[c]].inTried
    ensures TriedOk(p, m[tried[c] := m[tried[c]].(inTried := false)], tried - {c})
  {
    hide TriedCell;
  }

  lemma {:induction false} TriedOther(p: Params, m: Infos, tried: Table, id: nat, x: AddrInfo)
    requires TriedOk(p, m, tried) && (id in m ==> !m[id].inTried) && !x.inTried
    ensures TriedOk(p, m[id := x], tried) && TriedOk(p, m - {id}, tried)
  {
    hide TriedCell;
  }
}
