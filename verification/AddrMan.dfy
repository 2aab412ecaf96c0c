/** The address manager (src/addrman.cpp:400-1000, 1063-1166). Hashes, the clock and random
    choices are parameters. */
module AddrManager {
  import opened Options
  import opened Sequences
  import opened AddrTables

  const MINUTE: int := 60
  const HOUR: int := 3600
  const DAY: int := 24 * HOUR
  const HORIZON: int := 30 * DAY
  const RETRIES: nat := 3
  const MAX_FAILURES: nat := 10
  const MIN_FAIL: int := 7 * DAY
  const REPLACEMENT: int := 4 * HOUR
  const TRIED_COLLISION_SIZE: nat := 10
  const TEST_WINDOW: int := 40 * MINUTE

  function Max(a: int, b: int): int { if a >= b then a else b }

  /** An address as a peer announces it; isSelf if it is the source's own. */
  datatype Announcement = Announcement(service: nat, time: int, services: set<nat>, isSelf: bool) {
    /** No penalty for what a source says about itself. */
    function Penalty(timePenalty: int): int { if isSelf then 0 else timePenalty }
  }

  /** Whether an entry is bad enough to be dropped. */
  predicate IsTerrible(x: AddrInfo, now: int) {
    && now - x.lastTry > MINUTE
    && (|| x.time > now + 10 * MINUTE
        || now - x.time > HORIZON
        || (x.lastSuccess == 0 && x.attempts >= RETRIES)
        || (now - x.lastSuccess > MIN_FAIL && x.attempts >= MAX_FAILURES))
  }

  /** What an announcement makes of a known entry. */
  function Refreshed(x: AddrInfo, addrTime: int, services: set<nat>, penalty: int, now: int): AddrInfo {
    var interval := if now - addrTime < DAY then HOUR else DAY;
    x.(time := if x.time < addrTime - interval - penalty then Max(0, addrTime - penalty)
        else x.time, services := x.services + services)
  }

  /** Whether an entry gets a cell: it is free, or its occupant is bad, or has another cell while
      the entry has none. */
  ghost predicate GetsCell(m: Infos, news: Table, c: Cell, id: nat, now: int)
    requires id in m
  {
    c in news ==>
        news[c] != id && news[c] in m
        && (IsTerrible(m[news[c]], now) || (m[news[c]].refCount > 1 && m[id].refCount == 0))
  }

  /** Whether a tested entry must make way for one that waits for its cell. */
  predicate Replaces(waiting: AddrInfo, tested: AddrInfo, now: int) {
    && now - tested.lastSuccess >= REPLACEMENT
    && if now - tested.lastTry < REPLACEMENT then now - tested.lastTry > MINUTE
        else now - waiting.lastSuccess > TEST_WINDOW
  }

  /** The entries of ids are as they were, up to their place in the random order. */
  ghost predicate Kept(before: Infos, after: Infos, ids: set<nat>) {
    forall id :: id in ids && id in before ==> id in after && after[id] == before[id].(randomPos := after[id].randomPos)
  }

  /** An entry stands where it says in the random order. */
  predicate Holds(m: Infos, random: seq<nat>, id: nat)
    requires id in m
  {
    m[id].randomPos < |random| && random[m[id].randomPos] == id
  }

  /** The entries after two places of the random order were exchanged. */
  function Swapped(m: Infos, random: seq<nat>, i: nat, j: nat): Infos
    requires i == j || (i < |random| && j < |random| && random[i] in m && random[j] in m)
  {
    if i == j then m else
      var m1 := m[random[i] := m[random[i]].(randomPos := j)];
      m1[random[j] := m1[random[j]].(randomPos := i)]
  }

  /** What an observer sees of a manager; randoms is the length of the random order. */
  datatype Snapshot = Snapshot(infos: Infos, addrs: map<nat, nat>, idCount: nat, randoms: nat, news: Table,
      tried: Table)

  /** What an announcement does: whether the address is inserted, into which cell, and what its
      entry then says. */
  ghost predicate Announced(p: Params, a: Snapshot, b: Snapshot, addr: Announcement, source: nat, penalty: int,
      now: int, lucky: bool, inserted: bool) {
    var c := NewCell(p, addr.service, source);
    b.tried == a.tried &&
    if !p.routable(addr.service) then !inserted && b.infos == a.infos && b.news == a.news
    else if addr.service !in a.addrs then
      var id := a.idCount;
      var x := AddrInfo(addr.service, source, Max(0, addr.time - penalty), addr.services, 0, 0, 0, 0, 0, false,
          a.randoms);
      && (inserted <==> GetsCell(a.infos[id := x], a.news, c, id, now)) && (addr.service in b.addrs <==> inserted)
      && b.news == (if inserted then a.news[c := id] else a.news)
      && (inserted ==>
          b.addrs[addr.service] == id && id in b.infos
          && b.infos[id] == x.(refCount := 1, randomPos := b.infos[id].randomPos))
    else
      var id := a.addrs[addr.service];
      id in a.infos && id in b.infos &&
      var x := Refreshed(a.infos[id], addr.time, addr.services, penalty, now);
      && (inserted <==> && addr.time > x.time && !x.inTried && x.refCount < NEW_BUCKETS_PER_ADDRESS && lucky
                        && GetsCell(a.infos[id := x], a.news, c, id, now))
      && b.news == (if inserted then a.news[c := id] else a.news) && addr.service in b.addrs
          && b.addrs[addr.service] == id
      && b.infos[id] == x.(refCount := x.refCount + (if inserted then 1 else 0), randomPos := b.infos[id].randomPos)
  }

  /** A pending collision that is over: its entry is gone or invalid, or the entry in its cell has
      connected of late or must be replaced. */
  ghost predicate Over(p: Params, infos: Infos, tried: Table, id: nat, now: int) {
    id in infos ==>
      var x := infos[id];
      var cell := TriedCell(p, x.service);
      || !p.valid(x.service)
      || (cell in tried && tried[cell] in infos
          && (now - infos[tried[cell]].lastSuccess < REPLACEMENT || Replaces(x, infos[tried[cell]], now)))
  }

  class AddrMan {
    const p: Params
    var nIdCount: nat
    var mapInfo: Infos
    var mapAddr: map<nat, nat>
    var vRandom: seq<nat>
    var nTried: nat
    var vvTried: Table
    var nNew: nat
    var vvNew: Table
    var lastGood: int
    var triedCollisions: set<nat>
    var networkCounts: map<nat, NewTriedCount>

    /** Everything agrees, except that entries in limbo are not counted, and that those in loose
        may be in no table. */
    ghost predicate Inv(limbo: set<nat>, loose: set<nat>)
      reads this
    {
      && Indexed(mapInfo, mapAddr, vRandom, nIdCount)
      && NewOk(p, mapInfo, vvNew)
      && TriedOk(p, mapInfo, vvTried)
      && Counted(p, mapInfo - limbo, nNew, nTried, networkCounts)
      && Sane(p, mapInfo, loose)
    }

    /** All indexes, tables and counters agree, whatever the times say. */
    ghost predicate Agree()
      reads this
    {
      Inv({}, {}) && PendingOk(p, mapInfo, vvTried, triedCollisions, nIdCount)
    }

    ghost predicate Valid()
      reads this
    {
      Agree() && Timed(mapInfo)
    }

    ghost function Now(): Snapshot
      reads this
    {
      Snapshot(mapInfo, mapAddr, nIdCount, |vRandom|, vvNew, vvTried)
    }

    constructor (p: Params)
      ensures Valid() && this.p == p && nIdCount == 0 && mapInfo == map[] && mapAddr == map[] && vRandom == []
      ensures nTried == nNew == 0 && vvTried == vvNew == map[] && triedCollisions == {} && networkCounts == map[]
    {
      this.p := p;
      nIdCount, mapInfo, mapAddr, vRandom := 0, map[], map[], [];
      nTried, vvTried, nNew, vvNew := 0, map[], 0, map[];
      lastGood, triedCollisions, networkCounts := 1, {}, map[];
      new;
      NothingCounted(p);
      assert mapInfo - {} == map[];
    }

    method Find(service: nat) returns (r: Option<nat>)
      requires Indexed(mapInfo, mapAddr, vRandom, nIdCount)
      ensures r.Some? <==> service in mapAddr
      ensures r.Some? ==> r.value in mapInfo && mapInfo[r.value].service == service && mapAddr[service] == r.value
    {
      r := if service in mapAddr then Some(mapAddr[service]) else None;
    }

    method Create(service: nat, source: nat, time: int, services: set<nat>, ghost limbo: set<nat>,
        ghost loose: set<nat>) returns (id: nat)
      requires Inv(limbo, loose) && service !in mapAddr && p.routable(service) && nIdCount !in limbo
      modifies this
      ensures Inv(limbo, loose + {id}) && id == old(nIdCount) && id !in old(mapInfo)
      ensures mapInfo ==
          old(mapInfo)[id := AddrInfo(service, source, time, services, 0, 0, 0, 0, 0, false, |old(vRandom)|)]
      ensures mapAddr == old(mapAddr)[service := id] && nIdCount == old(nIdCount) + 1
      ensures vvNew == old(vvNew) && vvTried == old(vvTried) && triedCollisions == old(triedCollisions)
    {
      hide Indexed, NewOk, TriedOk, Counted, Sane, Raise;
      ghost var m := mapInfo;
      id := nIdCount;
      var x := AddrInfo(service, source, time, services, 0, 0, 0, 0, 0, false, |vRandom|);
      FreshId(mapInfo, mapAddr, vRandom, nIdCount);
      CreateIndexed(mapInfo, mapAddr, vRandom, nIdCount, x);
      NewCome(p, mapInfo, vvNew, id, x);
      TriedOther(p, mapInfo, vvTried, id, x);
      CountedAdd(p, mapInfo - limbo, id, x, nNew, nTried, networkCounts);
      assert (mapInfo - limbo)[id := x] == mapInfo[id := x] - limbo;
      SaneCome(p, mapInfo, id, x, loose);
      nIdCount := nIdCount + 1;
      mapInfo := mapInfo[id := x];
      mapAddr := mapAddr[service := id];
      vRandom := vRandom + [id];
      nNew := nNew + 1;
      networkCounts := Raise(networkCounts, p.network(service), false);
    }

    /** Exchanges two places of the random order. */
    method SwapRandom(pos1: nat, pos2: nat)
      requires pos1 == pos2
          || (pos1 < |vRandom| && pos2 < |vRandom| && vRandom[pos1] in mapInfo && vRandom[pos2] in mapInfo)
      modifies this`mapInfo, this`vRandom
      ensures mapInfo == Swapped(old(mapInfo), old(vRandom), pos1, pos2)
      ensures vRandom == if pos1 == pos2 then old(vRandom)
          else old(vRandom)[pos1 := old(vRandom)[pos2]][pos2 := old(vRandom)[pos1]]
    {
      if pos1 == pos2 {
        return;
      }
      var id1, id2 := vRandom[pos1], vRandom[pos2];
      mapInfo := mapInfo[id1 := mapInfo[id1].(randomPos := pos2)];
      mapInfo := mapInfo[id2 := mapInfo[id2].(randomPos := pos1)];
      vRandom := vRandom[pos1 := id2][pos2 := id1];
    }

    /** Forgets an entry, which trades places with the last one of the random order first. */
    method Drop(id: nat)
      requires id in mapInfo && Holds(mapInfo, vRandom, id) && vRandom[|vRandom| - 1] in mapInfo
      requires nNew > 0 && CountOf(networkCounts, p.network(mapInfo[id].service)).nNew > 0
      modifies this`mapInfo, this`mapAddr, this`vRandom, this`nNew, this`networkCounts
      ensures var m, v := old(mapInfo), old(vRandom);
              && mapInfo == Swapped(m, v, m[id].randomPos, |v| - 1) - {id}
                  && vRandom == v[m[id].randomPos := v[|v| - 1]][..|v| - 1]
              && mapAddr == old(mapAddr) - {m[id].service} && nNew == old(nNew) - 1
              && networkCounts == Lower(old(networkCounts), p.network(m[id].service), false)
    {
      SwapRandom(mapInfo[id].randomPos, |vRandom| - 1);
      networkCounts := Lower(networkCounts, p.network(mapInfo[id].service), false);
      vRandom := vRandom[..|vRandom| - 1];
      mapAddr := mapAddr - {mapInfo[id].service};
      mapInfo := mapInfo - {id};
      nNew := nNew - 1;
    }

    /** Removes an entry that is in no table. */
    method Delete(id: nat, ghost limbo: set<nat>, ghost loose: set<nat>)
      requires Inv(limbo, loose) && id in mapInfo && !mapInfo[id].inTried && mapInfo[id].refCount == 0 && id !in limbo
      modifies this
      ensures Inv(limbo, loose) && mapInfo.Keys == old(mapInfo.Keys) - {id} && Kept(old(mapInfo), mapInfo, mapInfo.Keys)
      ensures vvNew == old(vvNew) && vvTried == old(vvTried) && triedCollisions == old(triedCollisions)
      ensures nIdCount == old(nIdCount) && lastGood == old(lastGood)
      ensures mapAddr == old(mapAddr) - {old(mapInfo[id].service)} && TimesKept(old(mapInfo), mapInfo)
    {
      hide Indexed, NewOk, TriedOk, Counted, Sane, Lower, Swapped;
      EntryAt(mapInfo, mapAddr, vRandom, nIdCount, id);
      RandomAt(mapInfo, mapAddr, vRandom, nIdCount, |vRandom| - 1);
      ghost var m := Swapped(mapInfo, vRandom, mapInfo[id].randomPos, |vRandom| - 1);
      SwapDrop(mapInfo, mapAddr, vRandom, nIdCount, id);
      Repositioned(p, mapInfo, m, vvNew, vvTried, limbo, loose, nNew, nTried, networkCounts);
      NewDrop(p, m, vvNew, id);
      TriedOther(p, m, vvTried, id, m[id]);
      CountedDrop(p, m - limbo, id, nNew, nTried, networkCounts);
      assert (m - limbo) - {id} == (m - {id}) - limbo;
      SaneGo(p, m, id, loose);
      Drop(id);
    }

    /** Empties a cell of the new table; an entry without any other cell is deleted. */
    method ClearNew(c: Cell, ghost limbo: set<nat>, ghost loose: set<nat>)
      requires Inv(limbo, loose) && forall id :: id in limbo && id in mapInfo ==> mapInfo[id].refCount == 0
      modifies this
      ensures Inv(limbo, loose) && c !in vvNew && vvNew == old(vvNew) - {c}
      ensures vvTried == old(vvTried) && triedCollisions == old(triedCollisions) && nIdCount == old(nIdCount)
      ensures lastGood == old(lastGood)
      ensures forall id :: id in mapInfo ==>
                id in old(mapInfo) && mapInfo[id] ==
                    old(mapInfo)[id].(randomPos := mapInfo[id].randomPos, refCount := mapInfo[id].refCount)
      ensures forall id :: id in old(mapInfo) && !(c in old(vvNew) && old(vvNew)[c] == id) ==>
                id in mapInfo && mapInfo[id] == old(mapInfo)[id].(randomPos := mapInfo[id].randomPos)
      ensures c in old(vvNew) ==>
                var id := old(vvNew)[c];
                id in old(mapInfo) && (id in mapInfo <==> old(mapInfo)[id].refCount > 1)
                    && (id in mapInfo ==> mapInfo[id].refCount == old(mapInfo)[id].refCount - 1)
      ensures TimesKept(old(mapInfo), mapInfo)
    {
      hide Indexed, NewOk, TriedOk, Counted, Sane;
      if c in vvNew {
        var id := vvNew[c];
        ghost var m := mapInfo;
        NewTake(p, mapInfo, vvNew, c);
        var x := mapInfo[id].(refCount := mapInfo[id].refCount - 1);
        Rewrite(p, m, id, x, mapAddr, vRandom, nIdCount, vvTried, limbo, nNew, nTried, networkCounts);
        SaneIs(p, m, loose, id);
        SaneCome(p, m, id, x, loose);
        mapInfo := mapInfo[id := x];
        vvNew := vvNew - {c};
        if mapInfo[id].refCount == 0 {
          Delete(id, limbo, loose + {id});
          SaneWithout(p, mapInfo, loose, id);
        } else {
          SaneStill(p, mapInfo, loose, id);
        }
      } else {
        assert vvNew - {c} == vvNew;
      }
    }

    /** Takes an entry out of all cells of the new table. */
    method LeaveNew(id: nat)
      requires Inv({}, {}) && id in mapInfo && !mapInfo[id].inTried
      modifies this`mapInfo, this`vvNew
      ensures Inv({}, {id}) && mapInfo == old(mapInfo)[id := old(mapInfo)[id].(refCount := 0)]
    {
      hide Indexed, NewOk, TriedOk, Counted, Sane, Position;
      ghost var m := mapInfo;
      SaneCome(p, mapInfo, id, mapInfo[id], {}) by { SaneIs(p, mapInfo, {}, id); }
      assert mapInfo[id := mapInfo[id]] == mapInfo && {} + {id} == {id};
      var service := mapInfo[id].service;
      var start := p.newHash(service, mapInfo[id].source) % NEW_BUCKET_COUNT;
      var n := 0;
      while n < NEW_BUCKET_COUNT
        invariant 0 <= n <= NEW_BUCKET_COUNT && Inv({}, {id}) && id in mapInfo
        invariant mapInfo == m[id := m[id].(refCount := mapInfo[id].refCount)]
        invariant forall c :: c in vvNew && vvNew[c] == id ==> !GoneRound(start, n, c.bucket)
      {
        var bucket := (start + n) % NEW_BUCKET_COUNT;
        var c := Cell(bucket, Position(p, true, bucket, service));
        if c in vvNew && vvNew[c] == id {
          LeaveCell(c, id);
          if mapInfo[id].refCount == 0 {
            return;
          }
        }
        OneMoreVisited(p, mapInfo, vvNew, id, start, n);
        n := n + 1;
      }
      AllVisited(p, mapInfo, vvNew, id, start);
    }

    /** Takes an entry out of one cell. */
    method LeaveCell(c: Cell, id: nat)
      requires Inv({}, {id}) && c in vvNew && vvNew[c] == id
      modifies this`mapInfo, this`vvNew
      ensures id in old(mapInfo) && old(mapInfo)[id].refCount > 0
      ensures Inv({}, {id})
      ensures mapInfo == old(mapInfo)[id := old(mapInfo)[id].(refCount := old(mapInfo)[id].refCount - 1)]
      ensures vvNew == old(vvNew) - {c}
    {
      hide Indexed, NewOk, TriedOk, Counted, Sane, Position;
      NewTake(p, mapInfo, vvNew, c);
      var x := mapInfo[id].(refCount := mapInfo[id].refCount - 1);
      Rewrite(p, mapInfo, id, x, mapAddr, vRandom, nIdCount, vvTried, {}, nNew, nTried, networkCounts);
      SaneIs(p, mapInfo, {id}, id);
      SaneCome(p, mapInfo, id, x, {id});
      assert {id} + {id} == {id};
      vvNew := vvNew - {c};
      mapInfo := mapInfo[id := x];
    }

    /** Takes the entry out of a tried cell. */
    method LeaveTried(cell: Cell, ghost id: nat) returns (e: nat)
      requires Inv({id}, {id}) && cell in vvTried && id in mapInfo && !mapInfo[id].inTried
      modifies this`mapInfo, this`vvTried, this`nTried, this`networkCounts
      ensures e == old(vvTried)[cell] && e in old(mapInfo) && e != id && old(mapInfo)[e].refCount == 0
      ensures Inv({id, e}, {id, e}) && vvTried == old(vvTried) - {cell}
      ensures mapInfo == old(mapInfo)[e := old(mapInfo)[e].(inTried := false)]
    {
      hide Indexed, NewOk, TriedOk, Counted, Sane, Lower;
      e := vvTried[cell];
      TriedTake(p, mapInfo, vvTried, cell);
      TriedHasNoRefs(p, mapInfo, vvNew, e);
      var x := mapInfo[e].(inTried := false);
      NewChange(p, mapInfo, vvNew, e, x);
      IndexedSame(mapInfo, e, x, mapAddr, vRandom, nIdCount);
      CountedDrop(p, mapInfo - {id}, e, nNew, nTried, networkCounts);
      assert (mapInfo - {id}) - {e} == mapInfo[e := x] - {id, e};
      SaneIs(p, mapInfo, {id}, e);
      SaneCome(p, mapInfo, e, x, {id});
      assert {id} + {e} == {id, e};
      mapInfo := mapInfo[e := x];
      vvTried := vvTried - {cell};
      nTried := nTried - 1;
      networkCounts := Lower(networkCounts, p.network(x.service), true);
    }

    /** Puts an entry that is in no table into a free cell of the new table. */
    method EnterNew(e: nat, c: Cell, ghost id: nat)
      requires Inv({id, e}, {id, e}) && e != id && e in mapInfo && !mapInfo[e].inTried && mapInfo[e].refCount == 0
      requires c !in vvNew
      requires c == NewCell(p, mapInfo[e].service, mapInfo[e].source)
      modifies this`mapInfo, this`vvNew, this`nNew, this`networkCounts
      ensures Inv({id}, {id}) && mapInfo == old(mapInfo)[e := old(mapInfo)[e].(refCount := 1)]
    {
      hide Indexed, NewOk, TriedOk, Counted, Sane, Raise, Position;
      var x := mapInfo[e].(refCount := 1);
      CellIs(p, x.service, x.source);
      NewPut(p, mapInfo, vvNew, c, e);
      TriedOther(p, mapInfo, vvTried, e, x);
      IndexedSame(mapInfo, e, x, mapAddr, vRandom, nIdCount);
      CountedAdd(p, mapInfo - {id, e}, e, x, nNew, nTried, networkCounts);
      assert (mapInfo - {id, e})[e := x] == mapInfo[e := x] - {id};
      SaneIs(p, mapInfo, {id, e}, e);
      SaneCome(p, mapInfo, e, x, {id, e});
      SaneTighten(p, mapInfo[e := x], id, e);
      mapInfo := mapInfo[e := x];
      vvNew := vvNew[c := e];
      nNew := nNew + 1;
      networkCounts := Raise(networkCounts, p.network(x.service), false);
    }

    /** Moves the entry of a tried cell back to the new table, to make room for id. */
    method Evict(cell: Cell, ghost id: nat)
      requires Inv({id}, {id}) && cell in vvTried && id in mapInfo && !mapInfo[id].inTried && mapInfo[id].refCount == 0
      modifies this
      ensures Inv({id}, {id}) && vvTried == old(vvTried) - {cell} && triedCollisions == old(triedCollisions)
      ensures nIdCount == old(nIdCount) && lastGood == old(lastGood)
      ensures id in mapInfo && mapInfo[id] == old(mapInfo)[id].(randomPos := mapInfo[id].randomPos)
      ensures old(vvTried)[cell] in mapInfo && !mapInfo[old(vvTried)[cell]].inTried && old(vvTried)[cell] != id
      ensures forall q :: q in mapInfo ==> q in old(mapInfo) && mapInfo[q].service == old(mapInfo)[q].service
      ensures TimesKept(old(mapInfo), mapInfo)
    {
      hide Indexed, NewOk, TriedOk, Counted, Sane, NewCell;
      var e := LeaveTried(cell, id);
      var c := NewCell(p, mapInfo[e].service, mapInfo[e].source);
      NoRefs(p, mapInfo, vvNew, e);
      NoRefs(p, mapInfo, vvNew, id);
      ClearNew(c, {id, e}, {id, e});
      EnterNew(e, c, id);
    }

    /** Enters an entry that is in no table into a free cell of the tried table. */
    method EnterTried(id: nat)
      requires Inv({id}, {id}) && id in mapInfo && !mapInfo[id].inTried && mapInfo[id].refCount == 0
      requires TriedCell(p, mapInfo[id].service) !in vvTried
      modifies this`mapInfo, this`vvTried, this`nTried, this`networkCounts
      ensures Inv({}, {}) && vvTried == old(vvTried)[TriedCell(p, old(mapInfo)[id].service) := id]
      ensures mapInfo == old(mapInfo)[id := old(mapInfo)[id].(inTried := true)]
    {
      hide Indexed, NewOk, TriedOk, Counted, Sane, Raise, TriedCell;
      var x := mapInfo[id].(inTried := true);
      TriedPut(p, mapInfo, vvTried, id);
      NewChange(p, mapInfo, vvNew, id, x);
      IndexedSame(mapInfo, id, x, mapAddr, vRandom, nIdCount);
      CountedAdd(p, mapInfo - {id}, id, x, nNew, nTried, networkCounts);
      assert (mapInfo - {id})[id := x] == mapInfo[id := x] - {};
      SaneIs(p, mapInfo, {id}, id);
      SaneCome(p, mapInfo, id, x, {id});
      assert {id} + {id} == {} + {id};
      SaneStill(p, mapInfo[id := x], {}, id);
      vvTried := vvTried[TriedCell(p, mapInfo[id].service) := id];
      nTried := nTried + 1;
      mapInfo := mapInfo[id := x];
      networkCounts := Raise(networkCounts, p.network(x.service), true);
    }

    /** Counts an entry that has left the new table no longer. */
    method Uncount(id: nat)
      requires Inv({}, {id}) && id in mapInfo && !mapInfo[id].inTried
      modifies this`nNew, this`networkCounts
      ensures Inv({id}, {id})
    {
      hide Indexed, NewOk, TriedOk, Counted, Sane, Lower;
      CountedDrop(p, mapInfo - {}, id, nNew, nTried, networkCounts);
      assert (mapInfo - {}) - {id} == mapInfo - {id};
      nNew := nNew - 1;
      networkCounts := Lower(networkCounts, p.network(mapInfo[id].service), false);
    }

    /** Moves an entry from the new table to the tried table. */
    method MakeTried(id: nat)
      requires Agree() && id in mapInfo && !mapInfo[id].inTried
      modifies this
      ensures Agree() && vvTried == old(vvTried)[TriedCell(p, old(mapInfo)[id].service) := id]
      ensures triedCollisions == old(triedCollisions)
      ensures var cell := TriedCell(p, old(mapInfo)[id].service); cell in old(vvTried) ==>
                old(vvTried)[cell] in mapInfo && !mapInfo[old(vvTried)[cell]].inTried && old(vvTried)[cell] != id
      ensures id in mapInfo
      ensures mapInfo[id] == old(mapInfo)[id].(inTried := true, refCount := 0, randomPos := mapInfo[id].randomPos)
      ensures nIdCount == old(nIdCount) && lastGood == old(lastGood)
      ensures forall q :: q in mapInfo ==> q in old(mapInfo) && mapInfo[q].service == old(mapInfo)[q].service
      ensures TimesKept(old(mapInfo), mapInfo - {id})
    {
      hide Indexed, NewOk, TriedOk, Counted, Sane, TriedCell, PendingOk, TimesKept;
      ghost var m, tried := mapInfo, vvTried;
      LeaveNew(id);
      Uncount(id);
      ghost var m1 := mapInfo;
      TimesSame(m1);
      var cell := TriedCell(p, mapInfo[id].service);
      if cell in vvTried {
        Evict(cell, id);
      }
      TimesMade(m, id, m1[id], mapInfo, mapInfo[id].(inTried := true));
      EnterTried(id);
      PendingStill(p, m, mapInfo, tried, vvTried, triedCollisions, nIdCount, nIdCount);
    }

    // -------------------------------------------------------------------------------------
    // Operations

    /** Replaces an entry by one that differs only in what we know about the address. */
    method Update(id: nat, x: AddrInfo)
      requires Agree() && id in mapInfo
      requires x ==
          mapInfo[id].(time := x.time, services := x.services, lastTry := x.lastTry,
          lastCountAttempt := x.lastCountAttempt,
                                 lastSuccess := x.lastSuccess, attempts := x.attempts)
      modifies this`mapInfo
      ensures Agree() && mapInfo == old(mapInfo)[id := x]
      ensures old(Timed(mapInfo)) ==> (Timed(mapInfo) <==> TimedAt(x))
    {
      hide Indexed, NewOk, TriedOk, Counted, PendingOk, Sane, TimedAt;
      ghost var m := mapInfo;
      SaneIs(p, m, {}, id);
      TimedPut(m, id, x);
      Rewrite(p, m, id, x, mapAddr, vRandom, nIdCount, vvTried, {}, nNew, nTried, networkCounts);
      assert SamePlaces(m, m[id := x]);
      SamePlacesOk(p, m, m[id := x], vvNew, vvTried);
      SaneSame(p, m, id, x);
      PendingStill(p, m, m[id := x], vvTried, vvTried, triedCollisions, nIdCount, nIdCount);
      mapInfo := mapInfo[id := x];
    }

    /** Takes over what an announcement of a known address says; returns whether it is news. */
    method Refresh(id: nat, addrTime: int, services: set<nat>, penalty: int, now: int) returns (news: bool)
      requires Valid() && id in mapInfo
      modifies this`mapInfo
      ensures Valid() && mapInfo == old(mapInfo)[id := Refreshed(old(mapInfo)[id], addrTime, services, penalty, now)]
      ensures news <==> addrTime > mapInfo[id].time
    {
      hide Indexed, NewOk, TriedOk, Counted, PendingOk, Sane;
      var interval := if now - addrTime < DAY then HOUR else DAY;
      var x := mapInfo[id];
      if x.time < addrTime - interval - penalty {
        x := x.(time := Max(0, addrTime - penalty));
      }
      x := x.(services := x.services + services);
      Update(id, x);
      news := addrTime > mapInfo[id].time;
    }

    /** Puts an entry into its cell for a source, if the cell is free or its occupant must yield;
        an entry that is in no table then goes. */
    method Place(id: nat, source: nat, now: int, ghost loose: set<nat>) returns (inserted: bool)
      requires Inv({}, loose) && loose <= {id} && id in mapInfo && !mapInfo[id].inTried
      requires mapInfo[id].refCount < NEW_BUCKETS_PER_ADDRESS
      requires PendingOk(p, mapInfo, vvTried, triedCollisions, nIdCount)
      modifies this
      ensures Agree() && vvTried == old(vvTried) && triedCollisions == old(triedCollisions)
      ensures TimesKept(old(mapInfo), mapInfo)
      ensures inserted <==> GetsCell(old(mapInfo), old(vvNew), NewCell(p, old(mapInfo)[id].service, source), id, now)
      ensures vvNew == if inserted then old(vvNew)[NewCell(p, old(mapInfo)[id].service, source) := id] else old(vvNew)
      ensures id in mapInfo <==> inserted || old(mapInfo)[id].refCount > 0
      ensures id in mapInfo ==>
          mapInfo[id] ==
          old(mapInfo)[id].(randomPos := mapInfo[id].randomPos, refCount := old(mapInfo)[id].refCount + if inserted
          then 1 else 0)
      ensures forall q :: q in mapInfo ==> q in old(mapInfo)
      ensures !inserted ==> Kept(old(mapInfo), mapInfo, old(mapInfo).Keys - {id})
      ensures id !in mapInfo ==> mapAddr == old(mapAddr) - {old(mapInfo)[id].service}
    {
      hide Indexed, NewOk, TriedOk, Counted, Sane, PendingOk, NewCell, IsTerrible, Position, TimesKept;
      TimesSame(mapInfo);
      ghost var m, news := mapInfo, vvNew;
      var service := mapInfo[id].service;
      var c := NewCell(p, service, source);
      inserted := c !in vvNew;
      if c in vvNew && vvNew[c] == id {
        HasRef(p, mapInfo, vvNew, c);
        Tightened(p, mapInfo, loose, id);
        return;
      }
      if !inserted {
        NewTake(p, mapInfo, vvNew, c);
        var existing := mapInfo[vvNew[c]];
        if IsTerrible(existing, now) || (existing.refCount > 1 && mapInfo[id].refCount == 0) {
          inserted := true;
        }
      }
      if inserted {
        ClearNew(c, {}, loose);
        TimesPut(m, mapInfo, id, mapInfo[id].(refCount := mapInfo[id].refCount + 1));
        Reference(id, c, source, loose);
        assert (news - {c})[c := id] == news[c := id];
      } else {
        if mapInfo[id].refCount == 0 {
          Delete(id, {}, loose);
          LooseGone(p, mapInfo, loose, id);
        } else {
          Tightened(p, mapInfo, loose, id);
        }
      }
      PendingStill(p, m, mapInfo, vvTried, vvTried, triedCollisions, nIdCount, nIdCount);
    }

    /** One more cell for an entry. */
    method Reference(id: nat, c: Cell, source: nat, ghost loose: set<nat>)
      requires Inv({}, loose) && loose <= {id} && id in mapInfo && !mapInfo[id].inTried
      requires mapInfo[id].refCount < NEW_BUCKETS_PER_ADDRESS
      requires c !in vvNew && c == NewCell(p, mapInfo[id].service, source)
      modifies this`mapInfo, this`vvNew
      ensures Inv({}, {}) && mapInfo == old(mapInfo)[id := old(mapInfo)[id].(refCount := old(mapInfo)[id].refCount + 1)]
      ensures vvNew == old(vvNew)[c := id]
      ensures id in vvNew.Values
    {
      hide Indexed, NewOk, TriedOk, Counted, Sane, Position;
      var x := mapInfo[id].(refCount := mapInfo[id].refCount + 1);
      CellIs(p, x.service, source);
      NewPut(p, mapInfo, vvNew, c, id);
      Rewrite(p, mapInfo, id, x, mapAddr, vRandom, nIdCount, vvTried, {}, nNew, nTried, networkCounts);
      SaneIs(p, mapInfo, loose, id);
      SaneCome(p, mapInfo, id, x, loose);
      assert loose + {id} == {id};
      Tightened(p, mapInfo[id := x], {id}, id);
      mapInfo := mapInfo[id := x];
      vvNew := vvNew[c := id];
      assert c in vvNew.Keys;
    }

    /** A known address that came from a source. */
    method AddKnown(id: nat, addrTime: int, services: set<nat>, source: nat, penalty: int, now: int, lucky: bool)
        returns (inserted: bool)
      requires Valid() && id in mapInfo
      modifies this
      ensures Valid() && vvTried == old(vvTried) && triedCollisions == old(triedCollisions)
      ensures vvNew == if inserted then old(vvNew)[NewCell(p, old(mapInfo)[id].service, source) := id] else old(vvNew)
      ensures var x := Refreshed(old(mapInfo)[id], addrTime, services, penalty, now);
              && (inserted <==> && addrTime > x.time && !x.inTried && x.refCount < NEW_BUCKETS_PER_ADDRESS && lucky
                                && GetsCell(old(mapInfo)[id := x], old(vvNew), NewCell(p, x.service, source), id, now))
              && x.service in mapAddr && mapAddr[x.service] == id
              && id in mapInfo && mapInfo[id] ==
                  x.(refCount := x.refCount + (if inserted then 1 else 0), randomPos := mapInfo[id].randomPos)
    {
      hide Indexed, NewOk, TriedOk, Counted, Sane, PendingOk, NewCell, IsTerrible, Refreshed, GetsCell, Timed;
      var news := Refresh(id, addrTime, services, penalty, now);
      RefreshedKeeps(old(mapInfo)[id], addrTime, services, penalty, now);
      EntryAt(mapInfo, mapAddr, vRandom, nIdCount, id);
      if !news || mapInfo[id].inTried || mapInfo[id].refCount == NEW_BUCKETS_PER_ADDRESS {
        return false;
      }
      Referenced(p, mapInfo, {}, id);
      if mapInfo[id].refCount > 0 && !lucky {
        return false;
      }
      ghost var m := mapInfo;
      inserted := Place(id, source, now, {});
      TimedStill(m, mapInfo);
      EntryAt(mapInfo, mapAddr, vRandom, nIdCount, id);
    }

    /** An address not known before. */
    method AddUnknown(service: nat, addrTime: int, services: set<nat>, source: nat, penalty: int, now: int)
        returns (inserted: bool)
      requires Valid() && service !in mapAddr && p.routable(service)
      modifies this
      ensures Valid() && vvTried == old(vvTried) && triedCollisions == old(triedCollisions)
      ensures vvNew == if inserted then old(vvNew)[NewCell(p, service, source) := old(nIdCount)] else old(vvNew)
      ensures var x :=
          AddrInfo(service, source, Max(0, addrTime - penalty), services, 0, 0, 0, 0, 0, false, |old(vRandom)|);
              var id := old(nIdCount);
              && (inserted <==> GetsCell(old(mapInfo)[id := x], old(vvNew), NewCell(p, service, source), id, now))
              && (service in mapAddr <==> inserted)
              && (inserted ==>
                  mapAddr[service] == id && id in mapInfo
                  && mapInfo[id] == x.(refCount := 1, randomPos := mapInfo[id].randomPos))
    {
      hide Indexed, NewOk, TriedOk, Counted, Sane, PendingOk, NewCell, IsTerrible, GetsCell, Max, Timed;
      ghost var m := mapInfo;
      FreshId(mapInfo, mapAddr, vRandom, nIdCount);
      var id := Create(service, source, addrTime, services, {}, {});
      PendingStill(p, m, mapInfo, vvTried, vvTried, triedCollisions, id, nIdCount);
      assert {} + {id} == {id};
      Penalize(id, penalty);
      ghost var x :=
          AddrInfo(service, source, Max(0, addrTime - penalty), services, 0, 0, 0, 0, 0, false, |old(vRandom)|);
      assert mapInfo == m[id := x];
      TimedPut(m, id, x);
      inserted := Place(id, source, now, {id});
      TimedStill(m[id := x], mapInfo);
      if inserted {
        EntryAt(mapInfo, mapAddr, vRandom, nIdCount, id);
      }
    }

    /** Adds an address that came from a source, whose own address it may be. Whether the stochastic
        test passes is a parameter. */
    method AddSingle(addr: Announcement, source: nat, timePenalty: int, now: int, lucky: bool) returns (inserted: bool)
      requires Valid()
      modifies this
      ensures Valid() && triedCollisions == old(triedCollisions)
      ensures Announced(p, old(Now()), Now(), addr, source, addr.Penalty(timePenalty), now, lucky, inserted)
    {
      hide Indexed, NewOk, TriedOk, Counted, Sane, PendingOk, NewCell, GetsCell, Refreshed, Max;
      if !p.routable(addr.service) {
        return false;
      }
      RefreshedService(addr, timePenalty, now);
      var found := Find(addr.service);
      if found.Some? {
        inserted := AddKnown(found.value, addr.time, addr.services, source, addr.Penalty(timePenalty), now, lucky);
      } else {
        inserted := AddUnknown(addr.service, addr.time, addr.services, source, addr.Penalty(timePenalty), now);
      }
    }

    method Penalize(id: nat, penalty: int)
      requires Inv({}, {id}) && PendingOk(p, mapInfo, vvTried, triedCollisions, nIdCount) && id in mapInfo
      modifies this`mapInfo
      ensures Inv({}, {id}) && PendingOk(p, mapInfo, vvTried, triedCollisions, nIdCount)
      ensures mapInfo == old(mapInfo)[id := old(mapInfo)[id].(time := Max(0, old(mapInfo)[id].time - penalty))]
    {
      hide Indexed, NewOk, TriedOk, Counted, Sane, PendingOk;
      ghost var m := mapInfo;
      var x := mapInfo[id].(time := Max(0, mapInfo[id].time - penalty));
      Rewrite(p, m, id, x, mapAddr, vRandom, nIdCount, vvTried, {}, nNew, nTried, networkCounts);
      assert SamePlaces(m, m[id := x]);
      SamePlacesOk(p, m, m[id := x], vvNew, vvTried);
      SaneIs(p, m, {id}, id);
      SaneCome(p, m, id, x, {id});
      assert {id} + {id} == {id};
      PendingStill(p, m, m[id := x], vvTried, vvTried, triedCollisions, nIdCount, nIdCount);
      mapInfo := mapInfo[id := x];
    }

    /** Adds addresses one by one; whether each stochastic test passes is a parameter. */
    method Add(addrs: seq<Announcement>, source: nat, timePenalty: int, now: int, lucky: nat -> bool)
        returns (any: bool, ghost trace: seq<Snapshot>, ghost results: seq<bool>)
      requires Valid()
      modifies this
      ensures Valid() && vvTried == old(vvTried) && triedCollisions == old(triedCollisions)
      ensures |results| == |addrs| && |trace| == |addrs| + 1 && trace[0] == old(Now()) && trace[|addrs|] == Now()
      ensures forall i :: 0 <= i < |addrs| ==>
                Announced(p, trace[i], trace[i + 1], addrs[i], source, addrs[i].Penalty(timePenalty), now, lucky(i),
                    results[i])
      ensures any <==> true in results
    {
      hide Announced, Inv, PendingOk, Timed;
      var added := 0;
      trace, results := [Now()], [];
      for i := 0 to |addrs|
        invariant Valid() && vvTried == old(vvTried) && triedCollisions == old(triedCollisions)
        invariant |results| == i && |trace| == i + 1 && trace[0] == old(Now()) && trace[i] == Now()
        invariant forall k :: 0 <= k < i ==>
                    Announced(p, trace[k], trace[k + 1], addrs[k], source, addrs[k].Penalty(timePenalty), now, lucky(k),
                        results[k])
        invariant added >= 0 && (added > 0 <==> true in results)
      {
        var inserted := AddSingle(addrs[i], source, timePenalty, now, lucky(i));
        AnnouncedTried(p, trace[i], Now(), addrs[i], source, addrs[i].Penalty(timePenalty), now, lucky(i), inserted);
        added := added + if inserted then 1 else 0;
        trace, results := trace + [Now()], results + [inserted];
      }
      any := added > 0;
    }

    /** A successful connection: the entry moves to the tried table, unless it would have to evict
        another one that must be tested first. */
    method Good(service: nat, testBeforeEvict: bool, time: int) returns (moved: bool)
      requires Valid()
      modifies this
      ensures Agree() && lastGood == time && old(vvTried.Keys) <= vvTried.Keys
      ensures Valid() <==>
                || service !in old(mapAddr) || time > 0
                || (time == 0 && !old(mapInfo)[old(mapAddr)[service]].inTried && testBeforeEvict
                    && TriedCell(p, service) in old(vvTried))
      ensures moved <==> (&& service in old(mapAddr) && !old(mapInfo)[old(mapAddr)[service]].inTried
                          && !(testBeforeEvict && TriedCell(p, service) in old(vvTried)))
      ensures moved ==> service in mapAddr && mapAddr[service] == old(mapAddr)[service]
                        && TriedCell(p, service) in vvTried && vvTried[TriedCell(p, service)] == mapAddr[service]
      ensures triedCollisions == old(triedCollisions) +
                (if service in old(mapAddr) && !old(mapInfo)[old(mapAddr)[service]].inTried && !moved
                    && |old(triedCollisions)| < TRIED_COLLISION_SIZE
                 then {old(mapAddr)[service]} else {})
      ensures !moved ==> vvTried == old(vvTried) && vvNew == old(vvNew) && mapAddr == old(mapAddr)
      ensures service !in old(mapAddr) ==> mapInfo == old(mapInfo)
      ensures service in old(mapAddr) ==>
                var id := old(mapAddr)[service];
                && id in old(mapInfo) && id in mapInfo && mapInfo[id].lastSuccess == mapInfo[id].lastTry == time
                    && mapInfo[id].attempts == 0
                && (mapInfo[id].inTried <==> moved || old(mapInfo)[id].inTried) && Timed(mapInfo - {id})
                && (!moved ==>
                    mapInfo == old(mapInfo)[id :=
                    old(mapInfo)[id].(lastSuccess := time, lastTry := time, attempts := 0)])
    {
      hide Indexed, NewOk, TriedOk, Counted, Sane, PendingOk, TriedCell, SaneAt, Timed;
      lastGood := time;
      var found := Find(service);
      if found.None? {
        return false;
      }
      var id := found.value;
      Succeeded(id, time);
      ghost var m := mapInfo;
      TimedOthers(m, id);
      if mapInfo[id].inTried {
        return false;
      }
      if testBeforeEvict && TriedCell(p, service) in vvTried {
        Collide(id);
        return false;
      }
      MakeTried(id);
      TimedMade(m, mapInfo, id);
      EntryAt(mapInfo, mapAddr, vRandom, nIdCount, id);
      moved := true;
    }

    /** Notes a collision, if there are not too many yet. */
    method Collide(id: nat)
      requires Agree() && id in mapInfo && TriedCell(p, mapInfo[id].service) in vvTried
      modifies this`triedCollisions
      ensures Agree() && triedCollisions == old(triedCollisions) + if |old(triedCollisions)| < TRIED_COLLISION_SIZE
          then {id} else {}
    {
      hide Indexed, NewOk, TriedOk, Counted, Sane, PendingOk, TriedCell;
      if |triedCollisions| < TRIED_COLLISION_SIZE {
        EntryAt(mapInfo, mapAddr, vRandom, nIdCount, id);
        PendingMore(p, mapInfo, vvTried, triedCollisions, nIdCount, id);
        triedCollisions := triedCollisions + {id};
      }
    }

    /** Notes a success. */
    method Succeeded(id: nat, time: int)
      requires Valid() && id in mapInfo
      modifies this`mapInfo
      ensures Agree()
      ensures mapInfo == old(mapInfo)[id := old(mapInfo)[id].(lastSuccess := time, lastTry := time, attempts := 0)]
      ensures Timed(mapInfo) <==> time > 0 || (time == 0 && !mapInfo[id].inTried)
      ensures Timed(mapInfo - {id})
    {
      hide Indexed, NewOk, TriedOk, Counted, PendingOk, Sane, Timed;
      TimedOff(mapInfo, id, mapInfo[id].(lastSuccess := time, lastTry := time, attempts := 0));
      Update(id, mapInfo[id].(lastSuccess := time, lastTry := time, attempts := 0));
    }

    /** A connection attempt. */
    method Attempt(service: nat, countFailure: bool, time: int)
      requires Valid()
      modifies this`mapInfo
      ensures Agree() && (Valid() <==> service !in mapAddr || time >= 0) && mapInfo.Keys == old(mapInfo.Keys)
      ensures service !in mapAddr ==> mapInfo == old(mapInfo)
      ensures service in mapAddr ==>
                var id := mapAddr[service];
                id in old(mapInfo) && var x := old(mapInfo)[id];
                mapInfo == old(mapInfo)[id := if countFailure && x.lastCountAttempt < lastGood
                                              then x.(lastTry := time, lastCountAttempt := time,
                                                  attempts := x.attempts + 1)
                                              else x.(lastTry := time)]
    {
      hide Indexed, NewOk, TriedOk, Counted, PendingOk, Sane;
      var found := Find(service);
      if found.Some? {
        var id := found.value;
        TimedIs(mapInfo, id);
        var x := mapInfo[id].(lastTry := time);
        if countFailure && x.lastCountAttempt < lastGood {
          x := x.(lastCountAttempt := time, attempts := x.attempts + 1);
        }
        Update(id, x);
      }
    }

    /** A connection that lasted: the time is moved on if it is more than 20 minutes old. */
    method Connected(service: nat, time: int)
      requires Valid()
      modifies this`mapInfo
      ensures Valid() && mapInfo.Keys == old(mapInfo.Keys)
      ensures service !in mapAddr ==> mapInfo == old(mapInfo)
      ensures service in mapAddr ==>
                var id := mapAddr[service];
                id in old(mapInfo) && var x := old(mapInfo)[id];
                mapInfo == old(mapInfo)[id := x.(time := if time - x.time > 20 * MINUTE then time else x.time)]
    {
      hide Indexed, NewOk, TriedOk, Counted, PendingOk, Sane;
      var found := Find(service);
      if found.Some? {
        var id := found.value;
        TimedIs(mapInfo, id);
        if time - mapInfo[id].time > 20 * MINUTE {
          Update(id, mapInfo[id].(time := time));
        }
      }
    }

    method SetServices(service: nat, services: set<nat>)
      requires Valid()
      modifies this`mapInfo
      ensures Valid() && mapInfo.Keys == old(mapInfo.Keys)
      ensures service !in mapAddr ==> mapInfo == old(mapInfo)
      ensures service in mapAddr ==>
          mapAddr[service] in old(mapInfo)
          && mapInfo == old(mapInfo)[mapAddr[service] := old(mapInfo)[mapAddr[service]].(services := services)]
    {
      hide Indexed, NewOk, TriedOk, Counted, PendingOk, Sane;
      var found := Find(service);
      if found.Some? {
        TimedIs(mapInfo, found.value);
        Update(found.value, mapInfo[found.value].(services := services));
      }
    }

    /** Settles one pending collision; returns whether it is over. */
    method ResolveOne(id: nat, now: int) returns (over: bool)
      requires Valid() && id in triedCollisions
      modifies this
      ensures Valid() && old(vvTried.Keys) <= vvTried.Keys && triedCollisions == old(triedCollisions)
      ensures over <==> Over(p, old(mapInfo), old(vvTried), id, now)
      ensures id in old(mapInfo) ==>
                var x := old(mapInfo)[id];
                var cell := TriedCell(p, x.service);
                && cell in old(vvTried) && old(vvTried)[cell] in old(mapInfo)
                && var tested := old(mapInfo)[old(vvTried)[cell]];
                && (p.valid(x.service) && Replaces(x, tested, now) ==> cell in vvTried && vvTried[cell] == id)
                && (!(p.valid(x.service) && Replaces(x, tested, now)) ==>
                    mapInfo == old(mapInfo) && vvTried == old(vvTried) && vvNew == old(vvNew))
      ensures !over ==> mapInfo == old(mapInfo) && vvTried == old(vvTried) && vvNew == old(vvNew)
    {
      hide Indexed, NewOk, TriedOk, Counted, Sane, PendingOk, TriedCell;
      if id !in mapInfo {
        return true;
      }
      var x := mapInfo[id];
      var cell := TriedCell(p, x.service);
      PendingIs(p, mapInfo, vvTried, triedCollisions, nIdCount, id);
      EntryAt(mapInfo, mapAddr, vRandom, nIdCount, id);
      // The cell is occupied, so that a collision never has to be settled because its cell is free.
      TriedCellOf(p, mapInfo, vvTried, cell);
      TimedIs(mapInfo, vvTried[cell]);
      if !p.valid(x.service) {
        return true;
      }
      var tested := mapInfo[vvTried[cell]];
      if now - tested.lastSuccess < REPLACEMENT {
        return true;
      }
      if now - tested.lastTry < REPLACEMENT {
        if now - tested.lastTry > MINUTE {
          Replace(id, now);
          return true;
        }
      } else if now - x.lastSuccess > TEST_WINDOW {
        Replace(id, now);
        return true;
      }
      over := false;
    }

    /** Gives an entry its tried cell. */
    method Replace(id: nat, now: int)
      requires Valid() && id in mapInfo && now > 0
      modifies this
      ensures Valid() && old(vvTried.Keys) <= vvTried.Keys && triedCollisions == old(triedCollisions)
      ensures var cell := TriedCell(p, old(mapInfo)[id].service); cell in vvTried && vvTried[cell] == id
    {
      hide Indexed, NewOk, TriedOk, Counted, Sane, PendingOk, TriedCell;
      EntryAt(mapInfo, mapAddr, vRandom, nIdCount, id);
      if mapInfo[id].inTried {
        TriedAt(p, mapInfo, vvTried, id);
      }
      var _ := Good(mapInfo[id].service, false, now);
    }

    /** Settles one pending collision and forgets it if it is over. */
    method SettleOne(id: nat, now: int) returns (ghost over: bool)
      requires Valid() && id in triedCollisions
      modifies this
      ensures Valid() && old(vvTried.Keys) <= vvTried.Keys && (over <==> Over(p, old(mapInfo), old(vvTried), id, now))
      ensures triedCollisions == if over then old(triedCollisions) - {id} else old(triedCollisions)
    {
      hide Indexed, NewOk, TriedOk, Counted, Sane, PendingOk, Timed, Over;
      var erase := ResolveOne(id, now);
      over := erase;
      if erase {
        PendingLess(p, mapInfo, vvTried, triedCollisions, nIdCount, id);
        triedCollisions := triedCollisions - {id};
      }
    }

    /** Settles, from the lowest id on, the pending collisions that can be settled now. The visits
        are the states in which each was looked at: it stays exactly if it was not over then. */
    method ResolveCollisions(now: int) returns (ghost ids: seq<nat>, ghost visits: seq<Snapshot>)
      requires Valid()
      modifies this
      ensures Valid() && old(vvTried.Keys) <= vvTried.Keys
      ensures Visited(p, ids, visits, {}, triedCollisions, old(triedCollisions), now)
      ensures (ids != [] ==> visits[0] == old(Now()))
    {
      hide Indexed, NewOk, TriedOk, Counted, Sane, PendingOk, Timed, Over, Visited;
      var todo := triedCollisions;
      ids, visits := [], [];
      ghost var all := triedCollisions;
      NoVisits(p, all, now);
      while todo != {}
        invariant Valid() && old(vvTried.Keys) <= vvTried.Keys
        invariant Visited(p, ids, visits, todo, triedCollisions, all, now)
        invariant |visits| == |ids| && if ids == [] then Now() == old(Now()) else visits[0] == old(Now())
        decreases todo
      {
        var id := First(todo);
        VisitLeft(p, ids, visits, todo, triedCollisions, all, now, id);
        ghost var before, left := Now(), triedCollisions;
        ghost var over := SettleOne(id, now);
        VisitOne(p, ids, visits, todo, left, all, now, id, before, over);
        todo := todo - {id};
        ids, visits := ids + [id], visits + [before];
      }
    }

    /** A pending collision, chosen by the caller: the tried entry that would have to go. */
    method SelectTriedCollision(choice: nat) returns (r: Option<AddrInfo>)
      requires Valid() && (triedCollisions != {} ==> choice in triedCollisions)
      modifies this`triedCollisions
      ensures Valid() && triedCollisions <= old(triedCollisions)
      ensures r.None? <==> old(triedCollisions) == {} || choice !in mapInfo
      ensures r.Some? ==>
          r.value.inTried && r.value in mapInfo.Values
          && TriedCell(p, r.value.service) == TriedCell(p, mapInfo[choice].service)
    {
      hide Indexed, NewOk, TriedOk, Counted, Sane, PendingOk, TriedCell;
      if triedCollisions == {} {
        return None;
      }
      if choice !in mapInfo {
        PendingLess(p, mapInfo, vvTried, triedCollisions, nIdCount, choice);
        triedCollisions := triedCollisions - {choice};
        return None;
      }
      var cell := TriedCell(p, mapInfo[choice].service);
      PendingIs(p, mapInfo, vvTried, triedCollisions, nIdCount, choice);
      TriedCellOf(p, mapInfo, vvTried, cell);
      assert vvTried[cell] in mapInfo.Keys;
      r := Some(mapInfo[vvTried[cell]]);
    }
  }

  // ---------------------------------------------------------------------------------------
  // Ids, addresses and the random order

  lemma NothingCounted(p: Params)
    ensures Counted(p, map[], 0, 0, map[])
  {
    forall net
      ensures NetCounted(p, map[], map[], net)
    {
      assert Members(p, map[], false, Some(net)) == {} && Members(p, map[], true, Some(net)) == {};
    }
    assert Members(p, map[], false, None) == {} && Members(p, map[], true, None) == {};
  }

  lemma FreshId(m: Infos, addrs: map<nat, nat>, random: seq<nat>, idCount: nat)
    requires Indexed(m, addrs, random, idCount)
    ensures idCount !in m
  {
    assert idCount in m ==> IndexedAt(m, addrs, random, idCount, idCount);
  }

  lemma RandomAt(m: Infos, addrs: map<nat, nat>, random: seq<nat>, idCount: nat, i: nat)
    requires Indexed(m, addrs, random, idCount) && i < |random|
    ensures random[i] in m && m[random[i]].randomPos == i
  {
  }

  lemma {:induction false} CreateIndexed(m: Infos, addrs: map<nat, nat>, random: seq<nat>, idCount: nat, x: AddrInfo)
    requires Indexed(m, addrs, random, idCount) && x.service !in addrs && x.randomPos == |random|
    ensures Indexed(m[idCount := x], addrs[x.service := idCount], random + [idCount], idCount + 1)
  {
    FreshId(m, addrs, random, idCount);
    var m2, addrs2, random2 := m[idCount := x], addrs[x.service := idCount], random + [idCount];
    forall id | id in m2
      ensures IndexedAt(m2, addrs2, random2, idCount + 1, id)
    {
      if id != idCount {
        assert IndexedAt(m, addrs, random, idCount, id);
      }
    }
  }

  lemma {:induction false} SwapIndexed(m: Infos, addrs: map<nat, nat>, random: seq<nat>, idCount: nat, i: nat, j: nat)
    requires Indexed(m, addrs, random, idCount) && i < |random| && j < |random| && i != j && random[i] in m
    requires random[j] in m
    ensures var m1 := m[random[i] := m[random[i]].(randomPos := j)];
            random[j] in m1
                && Indexed(m1[random[j] := m1[random[j]].(randomPos := i)], addrs,
                random[i := random[j]][j := random[i]], idCount)
  {
    var x, y := random[i], random[j];
    assert m[x].randomPos == i && m[y].randomPos == j;
    var m1 := m[x := m[x].(randomPos := j)];
    var m2, random2 := m1[y := m1[y].(randomPos := i)], random[i := y][j := x];
    forall id | id in m2
      ensures IndexedAt(m2, addrs, random2, idCount, id)
    {
      assert IndexedAt(m, addrs, random, idCount, id);
    }
  }

  /** The last entry of the random order goes. */
  lemma {:induction false} DropIndexed(m: Infos, addrs: map<nat, nat>, random: seq<nat>, idCount: nat, id: nat)
    requires Indexed(m, addrs, random, idCount) && random != [] && random[|random| - 1] == id && id in m
    ensures Indexed(m - {id}, addrs - {m[id].service}, random[..|random| - 1], idCount)
  {
    var m2, addrs2, random2 := m - {id}, addrs - {m[id].service}, random[..|random| - 1];
    assert IndexedAt(m, addrs, random, idCount, id);
    forall q | q in m2
      ensures IndexedAt(m2, addrs2, random2, idCount, q)
    {
      assert IndexedAt(m, addrs, random, idCount, q);
    }
    forall i | 0 <= i < |random2|
      ensures random2[i] in m2 && m2[random2[i]].randomPos == i
    {
      assert random[i] in m && m[random[i]].randomPos == i;
    }
  }

  lemma {:induction false} SwapDrop(m: Infos, addrs: map<nat, nat>, random: seq<nat>, idCount: nat, id: nat)
    requires Indexed(m, addrs, random, idCount) && id in m && Holds(m, random, id) && random[|random| - 1] in m
    ensures var m2 := Swapped(m, random, m[id].randomPos, |random| - 1);
            && m2.Keys == m.Keys && Kept(m, m2, m.Keys)
            && Indexed(m2 - {id}, addrs - {m[id].service},
                random[m[id].randomPos := random[|random| - 1]][..|random| - 1], idCount)
  {
    hide Indexed;
    var i, n := m[id].randomPos, |random| - 1;
    RandomAt(m, addrs, random, idCount, n);
    var m2 := Swapped(m, random, i, n);
    var random2 := random[i := random[n]][n := id];
    if i == n {
      assert random2 == random;
    } else {
      SwapIndexed(m, addrs, random, idCount, i, n);
    }
    DropIndexed(m2, addrs, random2, idCount, id);
    assert random2[..n] == random[i := random[n]][..n];
  }

  lemma EntryAt(m: Infos, addrs: map<nat, nat>, random: seq<nat>, idCount: nat, id: nat)
    requires Indexed(m, addrs, random, idCount) && id in m
    ensures id < idCount && m[id].randomPos < |random| && random[m[id].randomPos] == id
    ensures m[id].service in addrs && addrs[m[id].service] == id
  {
    assert IndexedAt(m, addrs, random, idCount, id);
  }

  // ---------------------------------------------------------------------------------------
  // Changes to one entry

  lemma {:induction false} Repositioned(p: Params, m: Infos, m2: Infos, news: Table, tried: Table, limbo: set<nat>,
      loose: set<nat>,
                                        nNew: nat, nTried: nat, counts: map<nat, NewTriedCount>)
    requires m2.Keys == m.Keys && Kept(m, m2, m2.Keys) && NewOk(p, m, news) && TriedOk(p, m, tried)
    requires Counted(p, m - limbo, nNew, nTried, counts) && Sane(p, m, loose)
    ensures NewOk(p, m2, news) && TriedOk(p, m2, tried) && Counted(p, m2 - limbo, nNew, nTried, counts)
    ensures Sane(p, m2, loose)
  {
    assert SamePlaces(m, m2);
    SamePlacesOk(p, m, m2, news, tried);
    hide NewOk, TriedOk, Counted;
    CountedSame(p, m - limbo, m2 - limbo, nNew, nTried, counts);
    forall id | id in m2
      ensures SaneAt(p, m2[id])
    {
      assert SaneAt(p, m[id]);
    }
  }

  lemma SaneIs(p: Params, m: Infos, loose: set<nat>, id: nat)
    requires Sane(p, m, loose) && id in m
    ensures SaneAt(p, m[id])
  {
  }

  lemma {:induction false} SaneCome(p: Params, m: Infos, id: nat, x: AddrInfo, loose: set<nat>)
    requires Sane(p, m, loose) && SaneAt(p, x)
    ensures Sane(p, m[id := x], loose + {id})
  {
  }

  lemma {:induction false} SaneGo(p: Params, m: Infos, id: nat, loose: set<nat>)
    requires Sane(p, m, loose)
    ensures Sane(p, m - {id}, loose)
  {
  }

  lemma SaneWithout(p: Params, m: Infos, loose: set<nat>, id: nat)
    requires Sane(p, m, loose + {id}) && id !in m
    ensures Sane(p, m, loose)
  {
  }

  lemma SaneStill(p: Params, m: Infos, loose: set<nat>, id: nat)
    requires Sane(p, m, loose + {id}) && id in m && (m[id].refCount > 0 || m[id].inTried)
    ensures Sane(p, m, loose)
  {
  }

  /** An entry that keeps its address, its place and whether it is tried. */
  lemma {:induction false} Rewrite(p: Params, m: Infos, id: nat, x: AddrInfo, addrs: map<nat, nat>, random: seq<nat>,
      idCount: nat, tried: Table,
                                   limbo: set<nat>, nNew: nat, nTried: nat, counts: map<nat, NewTriedCount>)
    requires id in m && x.service == m[id].service && x.inTried == m[id].inTried && x.randomPos == m[id].randomPos
    requires Indexed(m, addrs, random, idCount) && TriedOk(p, m, tried) && Counted(p, m - limbo, nNew, nTried, counts)
    ensures Indexed(m[id := x], addrs, random, idCount) && TriedOk(p, m[id := x], tried)
    ensures Counted(p, m[id := x] - limbo, nNew, nTried, counts)
  {
    hide Counted, Indexed, TriedOk;
    CountedSame(p, m - limbo, m[id := x] - limbo, nNew, nTried, counts);
    IndexedSame(m, id, x, addrs, random, idCount);
    TriedSame(p, m, tried, id, x);
  }

  lemma {:induction false} TriedSame(p: Params, m: Infos, tried: Table, id: nat, x: AddrInfo)
    requires TriedOk(p, m, tried) && id in m && x.service == m[id].service && x.inTried == m[id].inTried
    ensures TriedOk(p, m[id := x], tried)
  {
    hide TriedCell;
  }

  /** Pending collisions stay right while entries go and tried cells come. */
  lemma {:induction false} PendingStill(p: Params, m: Infos, m2: Infos, tried: Table, tried2: Table,
      collisions: set<nat>, idCount: nat, idCount2: nat)
    requires PendingOk(p, m, tried, collisions, idCount) && tried.Keys <= tried2.Keys && idCount <= idCount2
    requires forall id :: id in m2 && id < idCount ==> id in m && m2[id].service == m[id].service
    ensures PendingOk(p, m2, tried2, collisions, idCount2)
  {
  }

  // ---------------------------------------------------------------------------------------
  // Going round all buckets

  /** One of the n buckets from start on, going round. */
  ghost predicate GoneRound(start: nat, n: nat, bucket: nat) {
    (bucket + NEW_BUCKET_COUNT - start % NEW_BUCKET_COUNT) % NEW_BUCKET_COUNT < n
  }

  lemma {:induction false} OneMoreVisited(p: Params, m: Infos, news: Table, id: nat, start: nat, n: nat)
    requires NewOk(p, m, news) && id in m && n < NEW_BUCKET_COUNT && start < NEW_BUCKET_COUNT
    requires forall c :: c in news && news[c] == id ==> !GoneRound(start, n, c.bucket)
    requires var b := (start + n) % NEW_BUCKET_COUNT; var d := Cell(b, Position(p, true, b, m[id].service));
        d in news ==> news[d] != id
    ensures forall c :: c in news && news[c] == id ==> !GoneRound(start, n + 1, c.bucket)
  {
    hide Position;
    forall c | c in news && news[c] == id
      ensures !GoneRound(start, n + 1, c.bucket)
    {
      assert NewAt(p, m, news, c);
      assert c == Cell(c.bucket, Position(p, true, c.bucket, m[id].service));
      if GoneRound(start, n + 1, c.bucket) {
        LastVisited(start, n, c.bucket);
      }
    }
  }

  lemma LastVisited(start: nat, n: nat, bucket: nat)
    requires start < NEW_BUCKET_COUNT && n < NEW_BUCKET_COUNT && bucket < NEW_BUCKET_COUNT
    requires GoneRound(start, n + 1, bucket) && !GoneRound(start, n, bucket)
    ensures bucket == (start + n) % NEW_BUCKET_COUNT
  {
    var d := if bucket >= start then bucket - start else bucket + NEW_BUCKET_COUNT - start;
    RoundTo(bucket + NEW_BUCKET_COUNT - start, d);
    RoundTo(start + n, bucket);
  }

  lemma RoundTo(x: nat, r: nat)
    requires r < NEW_BUCKET_COUNT && (x == r || x == r + NEW_BUCKET_COUNT)
    ensures x % NEW_BUCKET_COUNT == r
  {
  }

  lemma {:induction false} AllVisited(p: Params, m: Infos, news: Table, id: nat, start: nat)
    requires NewOk(p, m, news) && id in m && start < NEW_BUCKET_COUNT
    requires forall c :: c in news && news[c] == id ==> !GoneRound(start, NEW_BUCKET_COUNT, c.bucket)
    ensures m[id].refCount == 0
  {
    assert Refs(news, id) == {};
  }

  // ---------------------------------------------------------------------------------------
  // Moving between tables

  lemma {:induction false} IndexedSame(m: Infos, id: nat, x: AddrInfo, addrs: map<nat, nat>, random: seq<nat>,
      idCount: nat)
    requires Indexed(m, addrs, random, idCount) && id in m && x.service == m[id].service
    requires x.randomPos == m[id].randomPos
    ensures Indexed(m[id := x], addrs, random, idCount)
  {
    var m2 := m[id := x];
    forall q | q in m2
      ensures IndexedAt(m2, addrs, random, idCount, q)
    {
      assert IndexedAt(m, addrs, random, idCount, q);
    }
  }

  lemma CellIs(p: Params, service: nat, source: nat)
    ensures var c := NewCell(p, service, source);
        c.bucket < NEW_BUCKET_COUNT && c.position == Position(p, true, c.bucket, service)
  {
  }

  lemma SaneTighten(p: Params, m: Infos, id: nat, e: nat)
    requires Sane(p, m, {id, e} + {e}) && e in m && m[e].refCount > 0
    ensures Sane(p, m, {id})
  {
  }

  lemma SaneSame(p: Params, m: Infos, id: nat, x: AddrInfo)
    requires Sane(p, m, {}) && id in m && SaneAt(p, x) && x.refCount == m[id].refCount && x.inTried == m[id].inTried
    ensures Sane(p, m[id := x], {})
  {
  }

  lemma HasRef(p: Params, m: Infos, news: Table, c: Cell)
    requires NewOk(p, m, news) && c in news
    ensures news[c] in m && m[news[c]].refCount > 0
  {
    NewTake(p, m, news, c);
  }

  lemma Tightened(p: Params, m: Infos, loose: set<nat>, id: nat)
    requires Sane(p, m, loose) && loose <= {id} && id in m && m[id].refCount > 0
    ensures Sane(p, m, {})
  {
  }

  lemma LooseGone(p: Params, m: Infos, loose: set<nat>, id: nat)
    requires Sane(p, m, loose) && loose <= {id} && id !in m
    ensures Sane(p, m, {})
  {
  }

  lemma Referenced(p: Params, m: Infos, loose: set<nat>, id: nat)
    requires Sane(p, m, loose) && id in m && id !in loose && !m[id].inTried
    ensures 0 < m[id].refCount <= NEW_BUCKETS_PER_ADDRESS
  {
    assert SaneAt(p, m[id]);
  }

  lemma PendingMore(p: Params, m: Infos, tried: Table, collisions: set<nat>, idCount: nat, id: nat)
    requires PendingOk(p, m, tried, collisions, idCount) && id in m && id < idCount
    requires TriedCell(p, m[id].service) in tried
    ensures PendingOk(p, m, tried, collisions + {id}, idCount)
  {
  }

  lemma PendingLess(p: Params, m: Infos, tried: Table, collisions: set<nat>, idCount: nat, id: nat)
    requires PendingOk(p, m, tried, collisions, idCount)
    ensures PendingOk(p, m, tried, collisions - {id}, idCount)
  {
  }

  lemma PendingIs(p: Params, m: Infos, tried: Table, collisions: set<nat>, idCount: nat, id: nat)
    requires PendingOk(p, m, tried, collisions, idCount) && id in collisions && id in m
    ensures TriedCell(p, m[id].service) in tried
  {
  }

  lemma TriedAt(p: Params, m: Infos, tried: Table, id: nat)
    requires TriedOk(p, m, tried) && id in m && m[id].inTried
    ensures TriedCell(p, m[id].service) in tried && tried[TriedCell(p, m[id].service)] == id
  {
  }

  lemma TriedCellOf(p: Params, m: Infos, tried: Table, c: Cell)
    requires TriedOk(p, m, tried) && c in tried
    ensures tried[c] in m && m[tried[c]].inTried && TriedCell(p, m[tried[c]].service) == c
  {
  }

  lemma RefreshedKeeps(x: AddrInfo, addrTime: int, services: set<nat>, penalty: int, now: int)
    ensures var y := Refreshed(x, addrTime, services, penalty, now); y == x.(time := y.time, services := y.services)
  {
  }

  lemma RefreshedService(addr: Announcement, timePenalty: int, now: int)
    ensures forall x: AddrInfo ::
              Refreshed(x, addr.time, addr.services, addr.Penalty(timePenalty), now).service == x.service
  {
  }

  lemma AnnouncedTried(p: Params, a: Snapshot, b: Snapshot, addr: Announcement, source: nat, penalty: int, now: int,
      lucky: bool, inserted: bool)
    requires Announced(p, a, b, addr, source, penalty, now, lucky, inserted)
    ensures b.tried == a.tried
  {
  }

  // ---------------------------------------------------------------------------------------
  // Times

  lemma TimedIs(m: Infos, id: nat)
    requires Timed(m) && id in m
    ensures TimedAt(m[id])
  {
  }

  lemma TimedPut(m: Infos, id: nat, x: AddrInfo)
    ensures Timed(m) ==> (Timed(m[id := x]) <==> TimedAt(x))
  {
    if Timed(m[id := x]) {
      assert TimedAt(m[id := x][id]);
    }
  }

  lemma TimedStill(m: Infos, m2: Infos)
    requires Timed(m) && TimesKept(m, m2)
    ensures Timed(m2)
  {
    forall id | id in m2
      ensures TimedAt(m2[id])
    {
      assert TimedAt(m[id]);
    }
  }

  lemma TimesSame(m: Infos)
    ensures TimesKept(m, m)
  {
  }

  lemma TimesPut(m: Infos, m2: Infos, id: nat, x: AddrInfo)
    requires TimesKept(m, m2) && id in m2 && x.lastTry == m2[id].lastTry && x.lastSuccess == m2[id].lastSuccess
    requires x.inTried == m2[id].inTried
    ensures TimesKept(m, m2[id := x])
  {
  }

  lemma TimesMade(m: Infos, id: nat, x: AddrInfo, m2: Infos, y: AddrInfo)
    requires TimesKept(m[id := x], m2)
    ensures TimesKept(m, m2[id := y] - {id})
  {
  }

  lemma TimedOthers(m: Infos, id: nat)
    requires Timed(m - {id})
    ensures forall q :: q in m && q != id ==> TimedAt(m[q])
  {
    assert forall q :: q in m && q != id ==> q in m - {id};
  }

  lemma TimedOff(m: Infos, id: nat, x: AddrInfo)
    requires Timed(m)
    ensures Timed(m[id := x] - {id})
  {
  }

  lemma {:induction false} TimedMade(m: Infos, m2: Infos, id: nat)
    requires TimesKept(m, m2 - {id}) && id in m2 && Timed(m - {id})
    ensures Timed(m2 - {id}) && (Timed(m2) <==> TimedAt(m2[id]))
  {
    forall q | q in m2 - {id}
      ensures TimedAt(m2[q])
    {
      assert q in m - {id};
      assert TimedAt((m - {id})[q]);
    }
    assert forall q :: q in m2 && q != id ==> q in m2 - {id};
  }

  // ---------------------------------------------------------------------------------------
  // Collisions that were looked at

  ghost predicate VisitedAt(p: Params, ids: seq<nat>, visits: seq<Snapshot>, left: set<nat>, now: int, i: nat)
    requires i < |ids| == |visits|
  {
    ids[i] in left <==> !Over(p, visits[i].infos, visits[i].tried, ids[i], now)
  }

  /** All collisions were looked at from the lowest id on, except for those of todo, which come later;
      one that was looked at is left exactly if it was not over then. */
  ghost predicate Visited(p: Params, ids: seq<nat>, visits: seq<Snapshot>, todo: set<nat>, left: set<nat>,
      all: set<nat>, now: int) {
    && |ids| == |visits| && (forall i, j :: 0 <= i < j < |ids| ==> ids[i] < ids[j])
    && (forall i, q :: 0 <= i < |ids| && q in todo ==> ids[i] < q)
    && Elems(ids) + todo == all && todo <= left <= all
    && (forall i :: 0 <= i < |ids| ==> VisitedAt(p, ids, visits, left, now, i))
  }

  lemma VisitLeft(p: Params, ids: seq<nat>, visits: seq<Snapshot>, todo: set<nat>, left: set<nat>, all: set<nat>,
      now: int, id: nat)
    requires Visited(p, ids, visits, todo, left, all, now) && id in todo
    ensures id in left
  {
  }

  lemma {:induction false} VisitOne(p: Params, ids: seq<nat>, visits: seq<Snapshot>, todo: set<nat>, left: set<nat>,
      all: set<nat>, now: int, id: nat, s: Snapshot, over: bool)
    requires Visited(p, ids, visits, todo, left, all, now) && id in todo && (forall q :: q in todo ==> id <= q)
    requires over <==> Over(p, s.infos, s.tried, id, now)
    ensures Visited(p, ids + [id], visits + [s], todo - {id}, if over then left - {id} else left, all, now)
  {
    hide Over;
    ElemsAppend(ids, [id]);
    var ids2, visits2, left2 := ids + [id], visits + [s], if over then left - {id} else left;
    forall i | 0 <= i < |ids2|
      ensures VisitedAt(p, ids2, visits2, left2, now, i)
    {
      if i < |ids| {
        assert VisitedAt(p, ids, visits, left, now, i);
        assert ids[i] < id;
      }
    }
  }

  lemma NoVisits(p: Params, all: set<nat>, now: int)
    ensures Visited(p, [], [], all, all, all, now)
  {
  }
}
