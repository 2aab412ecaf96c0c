/** The consistency check of the address manager (src/addrman.cpp:1046-1166). */
module AddrCheck {
  import opened Options
  import opened AddrTables
  import opened AddrManager

  type Counts = map<nat, NewTriedCount>

  /** The cells of a table with this many buckets. */
  ghost predicate Bounded(t: Table, buckets: nat) {
    forall c :: c in t ==> c.bucket < buckets && c.position < BUCKET_SIZE
  }

  ghost predicate EntryOk(m: Infos, addrs: map<nat, nat>, random: seq<nat>, id: nat)
    requires id in m
  {
    var x := m[id];
    && (if x.inTried then x.lastSuccess != 0 && x.refCount == 0 else 0 < x.refCount <= NEW_BUCKETS_PER_ADDRESS)
    && x.service in addrs && addrs[x.service] == id && x.randomPos < |random| && random[x.randomPos] == id
    && x.lastTry >= 0 && x.lastSuccess >= 0
  }

  /** The error of the first test that an entry fails, or 0. */
  function EntryCode(m: Infos, addrs: map<nat, nat>, random: seq<nat>, id: nat): (code: int)
    requires id in m
    ensures code == 0 <==> EntryOk(m, addrs, random, id)
  {
    var x := m[id];
    if x.inTried && x.lastSuccess == 0 then -1
    else if x.inTried && x.refCount != 0 then -2
    else if !x.inTried && x.refCount > NEW_BUCKETS_PER_ADDRESS then -3
    else if !x.inTried && x.refCount == 0 then -4
    else if x.service !in addrs || addrs[x.service] != id then -5
    else if x.randomPos >= |random| || random[x.randomPos] != id then -14
    else if x.lastTry < 0 then -6
    else if x.lastSuccess < 0 then -8
    else 0
  }

  /** The error of some entry that is not in order. */
  ghost predicate EntryError(m: Infos, addrs: map<nat, nat>, random: seq<nat>, code: int) {
    code != 0 && exists id :: id in m && EntryCode(m, addrs, random, id) == code
  }

  ghost predicate EntriesOk(m: Infos, addrs: map<nat, nat>, random: seq<nat>) {
    forall id :: id in m ==> EntryOk(m, addrs, random, id)
  }

  /** The networks that have an entry. */
  ghost function Nets(p: Params, m: Infos): set<nat> {
    set id | id in m :: p.network(m[id].service)
  }

  ghost predicate NetsOk(p: Params, m: Infos, counts: Counts) {
    |Nets(p, m)| <= |counts| && forall net :: net in counts ==> NetCounted(p, m, counts, net)
  }

  /** What the check finds out. */
  ghost predicate Consistent(p: Params, m: Infos, addrs: map<nat, nat>, random: seq<nat>, nNew: nat, nTried: nat,
      news: Table, tried: Table, counts: Counts) {
    && |random| == nTried + nNew && EntriesOk(m, addrs, random)
    && nNew == |Members(p, m, false, None)| && nTried == |Members(p, m, true, None)|
    && TriedOk(p, m, tried) && NewOk(p, m, news) && NetsOk(p, m, counts)
  }

  // ---------------------------------------------------------------------------------------
  // The entries

  /** The entries that the first loop has met, by table. */
  ghost predicate Listed(p: Params, m: Infos, tried: set<nat>, news: map<nat, nat>) {
    && tried == Members(p, m, true, None) && news.Keys == Members(p, m, false, None)
    && forall id :: id in news ==> news[id] == m[id].refCount
  }

  /** The counters per network that the first loop has made. */
  ghost predicate Tallied(p: Params, m: Infos, local: Counts) {
    local.Keys == Nets(p, m) && forall net :: NetCounted(p, m, local, net)
  }

  lemma {:induction false} ListTried(p: Params, m: Infos, tried: set<nat>, news: map<nat, nat>, id: nat, x: AddrInfo)
    requires Listed(p, m, tried, news) && id !in m && x.inTried
    ensures Listed(p, m[id := x], tried + {id}, news)
  {
    MembersMore(p, m, id, x);
  }

  lemma {:induction false} ListNew(p: Params, m: Infos, tried: set<nat>, news: map<nat, nat>, id: nat, x: AddrInfo)
    requires Listed(p, m, tried, news) && id !in m && !x.inTried
    ensures Listed(p, m[id := x], tried, news[id := x.refCount])
  {
    MembersMore(p, m, id, x);
    assert news[id := x.refCount].Keys == news.Keys + {id};
  }

  lemma {:induction false} Tally(p: Params, m: Infos, local: Counts, id: nat, x: AddrInfo)
    requires Tallied(p, m, local) && id !in m
    ensures Tallied(p, m[id := x], Raise(local, p.network(x.service), x.inTried))
  {
    hide Nets, Members, Raise;
    CountedAdd(p, m, id, x, |Members(p, m, false, None)|, |Members(p, m, true, None)|, local);
    NetsMore(p, m, id, x);
    RaiseKeys(local, p.network(x.service), x.inTried);
  }

  lemma {:induction false} MembersMore(p: Params, m: Infos, id: nat, x: AddrInfo)
    requires id !in m
    ensures Members(p, m[id := x], x.inTried, None) == Members(p, m, x.inTried, None) + {id}
    ensures Members(p, m[id := x], !x.inTried, None) == Members(p, m, !x.inTried, None)
  {
  }

  lemma {:induction false} NetsMore(p: Params, m: Infos, id: nat, x: AddrInfo)
    requires id !in m
    ensures Nets(p, m[id := x]) == Nets(p, m) + {p.network(x.service)}
  {
    var m2 := m[id := x];
    forall net
      ensures net in Nets(p, m2) <==> net in Nets(p, m) || net == p.network(x.service)
    {
      if net in Nets(p, m) {
        var q :| q in m && p.network(m[q].service) == net;
        assert q in m2 && p.network(m2[q].service) == net;
      }
      if net == p.network(x.service) {
        assert id in m2 && p.network(m2[id].service) == net;
      }
    }
  }

  lemma RaiseKeys(counts: Counts, net: nat, tried: bool)
    ensures Raise(counts, net, tried).Keys == counts.Keys + {net}
  {
  }

  method CheckEntries(a: AddrMan) returns (code: int, tried: set<nat>, news: map<nat, nat>, local: Counts)
    ensures code == 0 <==> EntriesOk(a.mapInfo, a.mapAddr, a.vRandom)
    ensures code != 0 ==> EntryError(a.mapInfo, a.mapAddr, a.vRandom, code)
    ensures code == 0 ==> Listed(a.p, a.mapInfo, tried, news) && Tallied(a.p, a.mapInfo, local)
  {
    hide Listed, Tallied, Raise, EntryOk, EntryCode;
    tried, news, local := {}, map[], map[];
    var todo := a.mapInfo.Keys;
    NothingMet(a.p);
    assert a.mapInfo - todo == map[];
    while todo != {}
      invariant todo <= a.mapInfo.Keys && Listed(a.p, a.mapInfo - todo, tried, news)
      invariant Tallied(a.p, a.mapInfo - todo, local)
      invariant forall id :: id in a.mapInfo && id !in todo ==> EntryOk(a.mapInfo, a.mapAddr, a.vRandom, id)
      decreases |todo|
    {
      var id :| id in todo;
      var x := a.mapInfo[id];
      OneLess(a.mapInfo, todo, id);
      Tally(a.p, a.mapInfo - todo, local, id, x);
      code := CheckEntry(a, id);
      if code != 0 {
        return;
      }
      if x.inTried {
        ListTried(a.p, a.mapInfo - todo, tried, news, id, x);
        tried, local := tried + {id}, Raise(local, a.p.network(x.service), true);
      } else {
        ListNew(a.p, a.mapInfo - todo, tried, news, id, x);
        news, local := news[id := x.refCount], Raise(local, a.p.network(x.service), false);
      }
      todo := todo - {id};
    }
    assert a.mapInfo - todo == a.mapInfo;
    code := 0;
  }

  lemma OneLess(m: Infos, todo: set<nat>, id: nat)
    requires id in todo && id in m
    ensures (m - todo)[id := m[id]] == m - (todo - {id})
  {
  }

  lemma NothingMet(p: Params)
    ensures Listed(p, map[], {}, map[]) && Tallied(p, map[], map[])
  {
    NothingCounted(p);
  }

  method CheckEntry(a: AddrMan, id: nat) returns (code: int)
    requires id in a.mapInfo
    ensures code == EntryCode(a.mapInfo, a.mapAddr, a.vRandom, id)
  {
    var x := a.mapInfo[id];
    if x.inTried {
      if x.lastSuccess == 0 {
        return -1;
      }
      if x.refCount != 0 {
        return -2;
      }
    } else {
      if x.refCount > NEW_BUCKETS_PER_ADDRESS {
        return -3;
      }
      if x.refCount == 0 {
        return -4;
      }
    }
    if x.service !in a.mapAddr || a.mapAddr[x.service] != id {
      return -5;
    }
    if x.randomPos >= |a.vRandom| || a.vRandom[x.randomPos] != id {
      return -14;
    }
    if x.lastTry < 0 {
      return -6;
    }
    if x.lastSuccess < 0 {
      return -8;
    }
    code := 0;
  }

  // ---------------------------------------------------------------------------------------
  // Going through a table

  /** The cells before a place, bucket by bucket. */
  ghost predicate Before(c: Cell, bucket: nat, position: nat) {
    c.bucket < bucket || (c.bucket == bucket && c.position < position)
  }

  ghost predicate TriedSeen(p: Params, m: Infos, tried: Table, bucket: nat, position: nat) {
    forall c :: c in tried && Before(c, bucket, position) ==>
        tried[c] in m && m[tried[c]].inTried && c == TriedCell(p, m[tried[c]].service)
  }

  /** The tried entries that were not met yet. */
  ghost function Unmet(p: Params, m: Infos, tried: Table, bucket: nat, position: nat): set<nat> {
    set id | id in m && m[id].inTried &&
             !(TriedCell(p, m[id].service) in tried && tried[TriedCell(p, m[id].service)] == id
                 && Before(TriedCell(p, m[id].service), bucket, position))
  }

  method CheckTried(a: AddrMan, setTried: set<nat>) returns (code: int, left: set<nat>)
    requires setTried == Members(a.p, a.mapInfo, true, None) && Bounded(a.vvTried, TRIED_BUCKET_COUNT)
    ensures code == 0 && left == {} <==> TriedOk(a.p, a.mapInfo, a.vvTried)
    ensures code != 0 ==> !TriedOk(a.p, a.mapInfo, a.vvTried)
  {
    hide TriedOk, Bounded, Unmet, TriedSeen, TriedCell;
    left := setTried;
    var p, m := a.p, a.mapInfo;
    NothingSeen(p, m, a.vvTried);
    for n := 0 to TRIED_BUCKET_COUNT
      invariant TriedSeen(p, m, a.vvTried, n, 0) && left == Unmet(p, m, a.vvTried, n, 0)
    {
      for i := 0 to BUCKET_SIZE
        invariant TriedSeen(p, m, a.vvTried, n, i) && left == Unmet(p, m, a.vvTried, n, i)
      {
        var c := Cell(n, i);
        if c in a.vvTried {
          TriedMust(p, m, a.vvTried, n, i);
          var id := a.vvTried[c];
          if id !in left {
            return -11, left;
          }
          UnmetIs(p, m, a.vvTried, n, i, id);
          var home := TriedCell(p, m[id].service);
          if home.bucket != n {
            return -17, left;
          }
          if home.position != i {
            return -18, left;
          }
          left := left - {id};
        }
        TriedStep(p, m, a.vvTried, n, i);
      }
      NextBucket(p, m, a.vvTried, n);
    }
    AllSeen(p, m, a.vvTried);
    code := 0;
  }

  lemma NothingSeen(p: Params, m: Infos, tried: Table)
    ensures TriedSeen(p, m, tried, 0, 0) && Unmet(p, m, tried, 0, 0) == Members(p, m, true, None)
  {
  }

  lemma TriedMust(p: Params, m: Infos, tried: Table, n: nat, i: nat)
    requires Cell(n, i) in tried
    ensures TriedOk(p, m, tried) ==>
              tried[Cell(n, i)] in Unmet(p, m, tried, n, i) && tried[Cell(n, i)] in m
                  && TriedCell(p, m[tried[Cell(n, i)]].service) == Cell(n, i)
  {
    hide TriedCell;
  }

  lemma UnmetIs(p: Params, m: Infos, tried: Table, n: nat, i: nat, id: nat)
    requires id in Unmet(p, m, tried, n, i)
    ensures id in m && m[id].inTried
  {
  }

  lemma {:induction false} TriedStep(p: Params, m: Infos, tried: Table, n: nat, i: nat)
    requires TriedSeen(p, m, tried, n, i)
    requires var c := Cell(n, i);
        c in tried ==> tried[c] in m && m[tried[c]].inTried && TriedCell(p, m[tried[c]].service) == c
    ensures TriedSeen(p, m, tried, n, i + 1)
    ensures var c := Cell(n, i);
        Unmet(p, m, tried, n, i + 1) == Unmet(p, m, tried, n, i) - (if c in tried then {tried[c]} else {})
  {
    hide TriedCell;
    var c := Cell(n, i);
    forall d: Cell
      ensures Before(d, n, i + 1) <==> Before(d, n, i) || d == c
    {
    }
    hide Before;
  }

  lemma {:induction false} NextBucket(p: Params, m: Infos, tried: Table, n: nat)
    requires TriedSeen(p, m, tried, n, BUCKET_SIZE) && Bounded(tried, TRIED_BUCKET_COUNT)
    ensures TriedSeen(p, m, tried, n + 1, 0) && Unmet(p, m, tried, n + 1, 0) == Unmet(p, m, tried, n, BUCKET_SIZE)
  {
  }

  lemma {:induction false} AllSeen(p: Params, m: Infos, tried: Table)
    requires TriedSeen(p, m, tried, TRIED_BUCKET_COUNT, 0) && Bounded(tried, TRIED_BUCKET_COUNT)
    ensures Unmet(p, m, tried, TRIED_BUCKET_COUNT, 0) == {} <==> TriedOk(p, m, tried)
  {
    hide TriedCell;
    if Unmet(p, m, tried, TRIED_BUCKET_COUNT, 0) == {} {
      forall id | id in m && m[id].inTried
        ensures TriedCell(p, m[id].service) in tried && tried[TriedCell(p, m[id].service)] == id
      {
        assert id !in Unmet(p, m, tried, TRIED_BUCKET_COUNT, 0);
      }
      assert TriedOk(p, m, tried);
    }
  }

  // ---------------------------------------------------------------------------------------
  // The new table

  ghost predicate NewSeen(p: Params, m: Infos, news: Table, bucket: nat, position: nat) {
    forall c :: c in news && Before(c, bucket, position) ==> NewAt(p, m, news, c)
  }

  ghost function RefsBefore(news: Table, id: nat, bucket: nat, position: nat): set<Cell> {
    set c | c in news && news[c] == id && Before(c, bucket, position)
  }

  /** The references that are still to be met: none of them is left out, none is counted twice. */
  ghost predicate LeftAt(p: Params, m: Infos, news: Table, left: map<nat, nat>, bucket: nat, position: nat, id: nat)
    requires id in m
  {
    && m[id].refCount >= |RefsBefore(news, id, bucket, position)|
    && (id in left <==> m[id].refCount > |RefsBefore(news, id, bucket, position)|)
    && (id in left ==> left[id] == m[id].refCount - |RefsBefore(news, id, bucket, position)|)
  }

  ghost predicate Left(p: Params, m: Infos, news: Table, left: map<nat, nat>, bucket: nat, position: nat) {
    && (forall id :: id in left ==> id in m && !m[id].inTried)
    && (forall id :: id in m && !m[id].inTried ==> LeftAt(p, m, news, left, bucket, position, id))
  }

  /** All new entries have a reference. */
  ghost predicate Referring(m: Infos) {
    forall id :: id in m ==> (m[id].inTried <==> m[id].refCount == 0)
  }

  method CheckNew(a: AddrMan, mapNew: map<nat, nat>, ghost tried: set<nat>) returns (code: int, left: map<nat, nat>)
    requires Listed(a.p, a.mapInfo, tried, mapNew) && Referring(a.mapInfo) && Bounded(a.vvNew, NEW_BUCKET_COUNT)
    ensures code == 0 && left == map[] <==> NewOk(a.p, a.mapInfo, a.vvNew)
    ensures code != 0 ==> !NewOk(a.p, a.mapInfo, a.vvNew)
  {
    hide NewOk, Bounded, NewSeen, Left, Listed, Referring, Position, NewAt;
    left := mapNew;
    var p, m := a.p, a.mapInfo;
    NoRefSeen(p, m, a.vvNew, tried, mapNew);
    for n := 0 to NEW_BUCKET_COUNT
      invariant NewSeen(p, m, a.vvNew, n, 0) && Left(p, m, a.vvNew, left, n, 0)
    {
      for i := 0 to BUCKET_SIZE
        invariant NewSeen(p, m, a.vvNew, n, i) && Left(p, m, a.vvNew, left, n, i)
      {
        var c := Cell(n, i);
        if c in a.vvNew {
          NewMust(p, m, a.vvNew, left, n, i);
          var id := a.vvNew[c];
          if id !in left {
            return -12, left;
          }
          if id !in m || Position(p, true, n, m[id].service) != i {
            return -19, left;
          }
          RefStep(p, m, a.vvNew, left, n, i);
          left := if left[id] == 1 then left - {id} else left[id := left[id] - 1];
        } else {
          NoRefStep(p, m, a.vvNew, left, n, i);
        }
      }
      NextNewBucket(p, m, a.vvNew, left, n);
    }
    AllRefsSeen(p, m, a.vvNew, left);
    code := 0;
  }

  lemma {:induction false} NoRefSeen(p: Params, m: Infos, news: Table, tried: set<nat>, mapNew: map<nat, nat>)
    requires Listed(p, m, tried, mapNew) && Referring(m)
    ensures NewSeen(p, m, news, 0, 0) && Left(p, m, news, mapNew, 0, 0)
  {
    forall id | id in m && !m[id].inTried
      ensures LeftAt(p, m, news, mapNew, 0, 0, id)
    {
      assert RefsBefore(news, id, 0, 0) == {};
      assert id in Members(p, m, false, None);
    }
  }

  lemma {:induction false} NewMust(p: Params, m: Infos, news: Table, left: map<nat, nat>, n: nat, i: nat)
    requires Cell(n, i) in news && Left(p, m, news, left, n, i)
    ensures NewOk(p, m, news) ==>
        news[Cell(n, i)] in left && news[Cell(n, i)] in m && Position(p, true, n, m[news[Cell(n, i)]].service) == i
  {
    hide Position;
    if NewOk(p, m, news) {
      var c := Cell(n, i);
      var id := news[c];
      assert NewAt(p, m, news, c);
      assert LeftAt(p, m, news, left, n, i, id);
      Fewer(RefsBefore(news, id, n, i) + {c}, Refs(news, id));
    }
  }

  lemma {:induction false} Fewer<T>(a: set<T>, b: set<T>)
    requires a <= b
    ensures |a| <= |b|
  {
    assert b == a + (b - a);
  }

  lemma {:induction false} RefStep(p: Params, m: Infos, news: Table, left: map<nat, nat>, n: nat, i: nat)
    requires NewSeen(p, m, news, n, i) && Left(p, m, news, left, n, i) && Cell(n, i) in news && n < NEW_BUCKET_COUNT
    requires var id := news[Cell(n, i)]; id in left && id in m && Position(p, true, n, m[id].service) == i
    ensures var id := news[Cell(n, i)];
            left[id] > 0 && NewSeen(p, m, news, n, i + 1)
                && Left(p, m, news, if left[id] == 1 then left - {id} else left[id := left[id] - 1], n, i + 1)
  {
    hide Position;
    var c := Cell(n, i);
    var id := news[c];
    BeforeNext(n, i);
    assert NewAt(p, m, news, c);
    hide Before, LeftAt;
    LeftPositive(p, m, news, left, n, i);
    var left2 := if left[id] == 1 then left - {id} else left[id := left[id] - 1];
    forall q | q in m && !m[q].inTried
      ensures LeftAt(p, m, news, left2, n, i + 1, q)
    {
      RefStepAt(p, m, news, left, n, i, q);
    }
  }

  lemma LeftPositive(p: Params, m: Infos, news: Table, left: map<nat, nat>, n: nat, i: nat)
    requires Left(p, m, news, left, n, i)
    ensures forall id :: id in left ==> left[id] > 0
  {
    assert forall id :: id in left ==> LeftAt(p, m, news, left, n, i, id);
  }

  lemma {:induction false} RefStepAt(p: Params, m: Infos, news: Table, left: map<nat, nat>, n: nat, i: nat, q: nat)
    requires Cell(n, i) in news && q in m && LeftAt(p, m, news, left, n, i, q)
    requires news[Cell(n, i)] in left && left[news[Cell(n, i)]] > 0
    ensures var id := news[Cell(n, i)];
            LeftAt(p, m, news, if left[id] == 1 then left - {id} else left[id := left[id] - 1], n, i + 1, q)
  {
    var c := Cell(n, i);
    BeforeNext(n, i);
    hide Before;
    if q == news[c] {
      assert RefsBefore(news, q, n, i + 1) == RefsBefore(news, q, n, i) + {c};
      assert c !in RefsBefore(news, q, n, i);
    } else {
      assert RefsBefore(news, q, n, i + 1) == RefsBefore(news, q, n, i);
    }
  }

  lemma BeforeNext(n: nat, i: nat)
    ensures forall d: Cell :: Before(d, n, i + 1) <==> Before(d, n, i) || d == Cell(n, i)
    ensures !Before(Cell(n, i), n, i)
  {
  }

  lemma {:induction false} NoRefStep(p: Params, m: Infos, news: Table, left: map<nat, nat>, n: nat, i: nat)
    requires NewSeen(p, m, news, n, i) && Left(p, m, news, left, n, i) && Cell(n, i) !in news
    ensures NewSeen(p, m, news, n, i + 1) && Left(p, m, news, left, n, i + 1)
  {
    BeforeNext(n, i);
    hide Before;
    forall q | q in m && !m[q].inTried
      ensures LeftAt(p, m, news, left, n, i + 1, q)
    {
      assert LeftAt(p, m, news, left, n, i, q);
      assert RefsBefore(news, q, n, i + 1) == RefsBefore(news, q, n, i);
    }
  }

  lemma {:induction false} NextNewBucket(p: Params, m: Infos, news: Table, left: map<nat, nat>, n: nat)
    requires NewSeen(p, m, news, n, BUCKET_SIZE) && Left(p, m, news, left, n, BUCKET_SIZE)
    requires Bounded(news, NEW_BUCKET_COUNT)
    ensures NewSeen(p, m, news, n + 1, 0) && Left(p, m, news, left, n + 1, 0)
  {
    forall q | q in m && !m[q].inTried
      ensures LeftAt(p, m, news, left, n + 1, 0, q)
    {
      assert LeftAt(p, m, news, left, n, BUCKET_SIZE, q);
      assert RefsBefore(news, q, n + 1, 0) == RefsBefore(news, q, n, BUCKET_SIZE);
    }
  }

  lemma {:induction false} AllRefsSeen(p: Params, m: Infos, news: Table, left: map<nat, nat>)
    requires NewSeen(p, m, news, NEW_BUCKET_COUNT, 0) && Left(p, m, news, left, NEW_BUCKET_COUNT, 0)
    requires Bounded(news, NEW_BUCKET_COUNT) && Referring(m)
    ensures left == map[] <==> NewOk(p, m, news)
  {
    forall id | id in m
      ensures m[id].refCount == |Refs(news, id)| <==> id !in left
    {
      if m[id].inTried {
        forall c | c in news
          ensures news[c] != id
        {
          assert NewAt(p, m, news, c);
        }
        assert Refs(news, id) == {};
      } else {
        assert LeftAt(p, m, news, left, NEW_BUCKET_COUNT, 0, id);
        assert RefsBefore(news, id, NEW_BUCKET_COUNT, 0) == Refs(news, id);
      }
    }
    if NewOk(p, m, news) {
      assert forall id :: id !in left;
      assert left == map[];
    }
    assert left == map[] ==> NewOk(p, m, news);
  }

  // ---------------------------------------------------------------------------------------
  // The counters and the whole

  method CheckCounts(a: AddrMan, local: Counts) returns (code: int)
    requires Tallied(a.p, a.mapInfo, local)
    ensures code == 0 <==> NetsOk(a.p, a.mapInfo, a.networkCounts)
  {
    hide Nets, Members;
    assert |local.Keys| == |local|;
    if |a.networkCounts| < |local| {
      return -20;
    }
    var todo := a.networkCounts.Keys;
    while todo != {}
      invariant todo <= a.networkCounts.Keys
      invariant forall net :: net in a.networkCounts && net !in todo ==>
          NetCounted(a.p, a.mapInfo, a.networkCounts, net)
      decreases |todo|
    {
      var net :| net in todo;
      assert NetCounted(a.p, a.mapInfo, local, net);
      if CountOf(local, net) != a.networkCounts[net] {
        assert !NetCounted(a.p, a.mapInfo, a.networkCounts, net);
        return -21;
      }
      todo := todo - {net};
    }
    code := 0;
  }

  /** The check returns 0 exactly if it has found the manager consistent. */
  method CheckAddrman(a: AddrMan) returns (code: int)
    requires Bounded(a.vvTried, TRIED_BUCKET_COUNT) && Bounded(a.vvNew, NEW_BUCKET_COUNT)
    ensures code == 0 <==>
        Consistent(a.p, a.mapInfo, a.mapAddr, a.vRandom, a.nNew, a.nTried, a.vvNew, a.vvTried, a.networkCounts)
    ensures |a.vRandom| == a.nTried + a.nNew && !EntriesOk(a.mapInfo, a.mapAddr, a.vRandom) ==>
        EntryError(a.mapInfo, a.mapAddr, a.vRandom, code)
  {
    hide EntryError, EntriesOk, TriedOk, NewOk, NetsOk, Members, Tallied, Bounded, Referring;
    if |a.vRandom| != a.nTried + a.nNew {
      return -7;
    }
    var tried, news, local;
    code, tried, news, local := CheckEntries(a);
    if code != 0 {
      return;
    }
    EntriesRefer(a.mapInfo, a.mapAddr, a.vRandom);
    assert |news.Keys| == |news|;
    if |tried| != a.nTried {
      return -9;
    }
    if |news| != a.nNew {
      return -10;
    }
    var leftTried, leftNew;
    code, leftTried := CheckTried(a, tried);
    if code != 0 {
      return;
    }
    code, leftNew := CheckNew(a, news, tried);
    if code != 0 {
      return;
    }
    if leftTried != {} {
      return -13;
    }
    if leftNew != map[] {
      return -15;
    }
    code := CheckCounts(a, local);
  }

  lemma EntriesRefer(m: Infos, addrs: map<nat, nat>, random: seq<nat>)
    requires EntriesOk(m, addrs, random)
    ensures Referring(m)
  {
    assert forall id :: id in m ==> EntryOk(m, addrs, random, id);
  }

  /** Where everything agrees, the periodic check fails exactly if times are out of order. */
  method Check(a: AddrMan) returns (code: int)
    requires a.Agree()
    ensures code == 0 <==> a.Valid()
  {
    hide Indexed, NewOk, TriedOk, Counted, Sane, PendingOk, EntriesOk, Consistent, Timed, EntryError, Closed;
    TablesBounded(a.p, a.mapInfo, a.vvNew, a.vvTried);
    assert a.mapInfo - {} == a.mapInfo;
    if a.Valid() {
      InvConsistent(a.p, a.mapInfo, a.mapAddr, a.vRandom, a.nIdCount, a.nNew, a.nTried, a.vvNew, a.vvTried,
          a.networkCounts);
    }
    code := CheckAddrman(a);
    if code == 0 {
      ConsistentTimed(a.p, a.mapInfo, a.mapAddr, a.vRandom, a.nNew, a.nTried, a.vvNew, a.vvTried, a.networkCounts);
    }
  }

  lemma ConsistentTimed(p: Params, m: Infos, addrs: map<nat, nat>, random: seq<nat>, nNew: nat, nTried: nat,
      news: Table, tried: Table, counts: Counts)
    requires Consistent(p, m, addrs, random, nNew, nTried, news, tried, counts)
    ensures Timed(m)
  {
    forall id | id in m
      ensures TimedAt(m[id])
    {
      assert EntryOk(m, addrs, random, id);
    }
  }

  // ---------------------------------------------------------------------------------------
  // A success at a time that is not after the epoch

  /** What the check says after a success: 0 exactly if the address is unknown, or the time is after
      the epoch, or it is the epoch and the entry stays in the new table for a test. Otherwise a tried
      entry seems never to have succeeded, or the time of its try is negative. */
  method GoodThenCheck(a: AddrMan, service: nat, testBeforeEvict: bool, time: int) returns (code: int)
    requires a.Valid()
    modifies a
    ensures var known := service in old(a.mapAddr);
            var waits := known && !old(a.mapInfo)[old(a.mapAddr)[service]].inTried && testBeforeEvict
                && TriedCell(a.p, service) in old(a.vvTried);
            code == if !known || time > 0 || (time == 0 && waits) then 0 else if time == 0 then -1 else -6
  {
    hide Indexed, NewOk, TriedOk, Counted, Sane, PendingOk, TriedCell, EntriesOk, Consistent, Timed, EntryError;
    ghost var known := service in a.mapAddr;
    ghost var id := if known then a.mapAddr[service] else 0;
    var moved := a.Good(service, testBeforeEvict, time);
    TablesBounded(a.p, a.mapInfo, a.vvNew, a.vvTried);
    assert a.mapInfo - {} == a.mapInfo;
    if a.Valid() {
      InvConsistent(a.p, a.mapInfo, a.mapAddr, a.vRandom, a.nIdCount, a.nNew, a.nTried, a.vvNew, a.vvTried,
          a.networkCounts);
    } else {
      AgreeSize(a.p, a.mapInfo, a.mapAddr, a.vRandom, a.nIdCount, a.nNew, a.nTried, a.networkCounts);
      OneBad(a.p, a.mapInfo, a.mapAddr, a.vRandom, a.nIdCount, a.vvNew, id, time);
    }
    code := CheckAddrman(a);
  }

  lemma AgreeSize(p: Params, m: Infos, addrs: map<nat, nat>, random: seq<nat>, idCount: nat, nNew: nat, nTried: nat,
      counts: Counts)
    requires Indexed(m, addrs, random, idCount) && Counted(p, m, nNew, nTried, counts)
    ensures |random| == nTried + nNew
  {
    hide Indexed, Members;
    IndexedSize(m, addrs, random, idCount);
    SplitSize(p, m);
  }

  /** If all entries but one are in order, the error is that of the one. */
  lemma {:induction false} OneBad(p: Params, m: Infos, addrs: map<nat, nat>, random: seq<nat>, idCount: nat,
      news: Table, id: nat, time: int)
    requires Indexed(m, addrs, random, idCount) && NewOk(p, m, news) && Sane(p, m, {}) && Timed(m - {id})
    requires id in m && m[id].lastTry == m[id].lastSuccess == time && (time < 0 || (time == 0 && m[id].inTried))
    ensures !EntriesOk(m, addrs, random)
    ensures forall code :: EntryError(m, addrs, random, code) ==> code == if time == 0 then -1 else -6
  {
    hide NewOk;
    forall q | q in m
      ensures EntryCode(m, addrs, random, q) == if q != id then 0 else if time == 0 then -1 else -6
    {
      assert SaneAt(p, m[q]) && IndexedAt(m, addrs, random, idCount, q);
      if m[q].inTried {
        TriedHasNoRefs(p, m, news, q);
      }
      if q != id {
        assert q in m - {id};
        assert TimedAt((m - {id})[q]);
      }
    }
    assert !EntryOk(m, addrs, random, id);
  }

  lemma {:induction false} TablesBounded(p: Params, m: Infos, news: Table, tried: Table)
    requires NewOk(p, m, news) && TriedOk(p, m, tried)
    ensures Bounded(tried, TRIED_BUCKET_COUNT) && Bounded(news, NEW_BUCKET_COUNT)
  {
    forall c | c in news
      ensures c.bucket < NEW_BUCKET_COUNT && c.position < BUCKET_SIZE
    {
      assert NewAt(p, m, news, c);
    }
  }

  // ---------------------------------------------------------------------------------------
  // What the check leaves open

  /** What must hold besides for a manager that passes the check to be in order: no address without
      an entry, ids below the next one, routable addresses, and counters for all networks. */
  ghost predicate Closed(p: Params, m: Infos, addrs: map<nat, nat>, idCount: nat, counts: Counts) {
    && (forall s :: s in addrs ==> addrs[s] in m && m[addrs[s]].service == s)
    && (forall id :: id in m ==> id < idCount && p.routable(m[id].service))
    && Nets(p, m) <= counts.Keys
  }

  /** Everything that the operations keep. */
  ghost predicate InOrder(p: Params, m: Infos, addrs: map<nat, nat>, random: seq<nat>, idCount: nat, nNew: nat,
      nTried: nat, news: Table, tried: Table, counts: Counts) {
    && Indexed(m, addrs, random, idCount) && NewOk(p, m, news) && TriedOk(p, m, tried)
    && Counted(p, m, nNew, nTried, counts) && Sane(p, m, {}) && Timed(m)
  }

  lemma {:induction false} InvConsistent(p: Params, m: Infos, addrs: map<nat, nat>, random: seq<nat>, idCount: nat,
      nNew: nat, nTried: nat, news: Table, tried: Table, counts: Counts)
    requires InOrder(p, m, addrs, random, idCount, nNew, nTried, news, tried, counts)
    ensures Consistent(p, m, addrs, random, nNew, nTried, news, tried, counts) && Closed(p, m, addrs, idCount, counts)
  {
    hide NewOk, TriedOk, Counted, Members, Nets;
    IndexedSize(m, addrs, random, idCount);
    SplitSize(p, m);
    AllNets(p, m, nNew, nTried, counts);
    forall id | id in m
      ensures EntryOk(m, addrs, random, id)
    {
      assert SaneAt(p, m[id]) && IndexedAt(m, addrs, random, idCount, id) && TimedAt(m[id]);
      if m[id].inTried {
        TriedHasNoRefs(p, m, news, id);
      }
    }
  }

  /** The random order lists every entry once. */
  lemma {:induction false} IndexedSize(m: Infos, addrs: map<nat, nat>, random: seq<nat>, idCount: nat)
    requires Indexed(m, addrs, random, idCount)
    ensures |random| == |m.Keys|
  {
    assert forall id :: id in m ==> IndexedAt(m, addrs, random, idCount, id);
    ListSize(m, random, |random|);
    assert (set i: nat | i < |random| :: random[i]) == m.Keys;
  }

  lemma {:induction false} ListSize(m: Infos, random: seq<nat>, n: nat)
    requires n <= |random| && forall i :: 0 <= i < |random| ==> random[i] in m && m[random[i]].randomPos == i
    ensures |set i: nat | i < n :: random[i]| == n
  {
    if n > 0 {
      ListSize(m, random, n - 1);
      var s, t := set i: nat | i < n - 1 :: random[i], set i: nat | i < n :: random[i];
      assert t == s + {random[n - 1]};
      assert random[n - 1] !in s;
    }
  }

  lemma SplitSize(p: Params, m: Infos)
    ensures |m.Keys| == |Members(p, m, false, None)| + |Members(p, m, true, None)|
  {
    assert m.Keys == Members(p, m, false, None) + Members(p, m, true, None);
    assert Members(p, m, false, None) !! Members(p, m, true, None);
  }

  lemma {:induction false} AllNets(p: Params, m: Infos, nNew: nat, nTried: nat, counts: Counts)
    requires Counted(p, m, nNew, nTried, counts)
    ensures Nets(p, m) <= counts.Keys && NetsOk(p, m, counts)
    ensures nNew == |Members(p, m, false, None)| && nTried == |Members(p, m, true, None)|
  {
    forall net | net in Nets(p, m)
      ensures net in counts
    {
      var id :| id in m && p.network(m[id].service) == net;
      assert NetCounted(p, m, counts, net);
      assert id in Members(p, m, m[id].inTried, Some(net));
    }
    Fewer(Nets(p, m), counts.Keys);
  }

  /** The converse: nothing else is left open. */
  lemma {:induction false} ConsistentInv(p: Params, m: Infos, addrs: map<nat, nat>, random: seq<nat>, idCount: nat,
      nNew: nat, nTried: nat, news: Table, tried: Table, counts: Counts)
    requires Consistent(p, m, addrs, random, nNew, nTried, news, tried, counts) && Closed(p, m, addrs, idCount, counts)
    ensures InOrder(p, m, addrs, random, idCount, nNew, nTried, news, tried, counts)
  {
    hide NewOk, TriedOk, Members, Nets;
    assert forall id :: id in m ==> EntryOk(m, addrs, random, id);
    AllCounted(p, m, counts);
    SplitSize(p, m);
    Permuted(m, random);
  }

  lemma {:induction false} AllCounted(p: Params, m: Infos, counts: Counts)
    requires NetsOk(p, m, counts) && Nets(p, m) <= counts.Keys
    ensures forall net :: NetCounted(p, m, counts, net)
  {
    forall net
      ensures NetCounted(p, m, counts, net)
    {
      if net !in counts {
        NoMembers(p, m, net);
      }
    }
  }

  lemma NoMembers(p: Params, m: Infos, net: nat)
    requires net !in Nets(p, m)
    ensures Members(p, m, false, Some(net)) == {} && Members(p, m, true, Some(net)) == {}
  {
    forall id | id in m
      ensures p.network(m[id].service) != net
    {
      assert p.network(m[id].service) in Nets(p, m);
    }
  }

  /** If every entry has its place and there are no more places than entries, every place has its entry. */
  lemma {:induction false} Permuted(m: Infos, random: seq<nat>)
    requires |random| == |m.Keys| && forall id :: id in m ==>
        m[id].randomPos < |random| && random[m[id].randomPos] == id
    ensures forall i :: 0 <= i < |random| ==> random[i] in m && m[random[i]].randomPos == i
  {
    var places := set id | id in m :: m[id].randomPos;
    var all := Below(|random|);
    PlacesSize(m, m.Keys, random);
    BelowSize(|random|);
    assert places <= all;
    SameSize(places, all);
    forall i | 0 <= i < |random|
      ensures random[i] in m && m[random[i]].randomPos == i
    {
      assert i in all;
      assert i in places;
    }
  }

  lemma {:induction false} PlacesSize(m: Infos, ids: set<nat>, random: seq<nat>)
    requires ids <= m.Keys && forall id :: id in m ==> m[id].randomPos < |random| && random[m[id].randomPos] == id
    ensures |set id | id in ids :: m[id].randomPos| == |ids|
    decreases |ids|
  {
    var s := set id | id in ids :: m[id].randomPos;
    if ids == {} {
      assert s == {};
    } else {
      var id :| id in ids;
      PlacesSize(m, ids - {id}, random);
      var t := set q | q in ids - {id} :: m[q].randomPos;
      assert s == t + {m[id].randomPos};
      assert m[id].randomPos !in t;
    }
  }

  ghost function Below(n: nat): set<nat> {
    if n == 0 then {} else Below(n - 1) + {n - 1}
  }

  lemma {:induction false} BelowSize(n: nat)
    ensures |Below(n)| == n && forall i: nat :: i in Below(n) <==> i < n
  {
    if n > 0 {
      BelowSize(n - 1);
    }
  }

  lemma SameSize<T>(a: set<T>, b: set<T>)
    requires a <= b && |a| == |b|
    ensures a == b
  {
    assert b == a + (b - a);
  }

  /** Without counters for all networks the check can pass although a counter is missing: a counter
      of a network without entries stands in for it. */
  lemma {:induction false} MissedNetwork(p: Params, service: nat, source: nat)
    ensures var m, addrs, news := map[0 := AddrInfo(service, source, 0, {}, 0, 0, 0, 0, 1, false, 0)],
        map[service := 0], map[NewCell(p, service, source) := 0];
            var counts := map[p.network(service) + 1 := NewTriedCount(0, 0)];
            Consistent(p, m, addrs, [0], 1, 0, news, map[], counts) && !Counted(p, m, 1, 0, counts)
  {
    hide NewOk, Counted, NetsOk, NewCell, Members;
    var x := AddrInfo(service, source, 0, {}, 0, 0, 0, 0, 1, false, 0);
    LoneCounts(p, x);
    LoneCell(p, x);
    assert EntryOk(map[0 := x], map[service := 0], [0], 0);
  }

  lemma {:induction false} LoneCounts(p: Params, x: AddrInfo)
    requires !x.inTried
    ensures var m, counts := map[0 := x], map[p.network(x.service) + 1 := NewTriedCount(0, 0)];
            && NetsOk(p, m, counts) && !Counted(p, m, 1, 0, counts)
            && |Members(p, m, false, None)| == 1 && |Members(p, m, true, None)| == 0
  {
    hide Members, Nets;
    var m, net := map[0 := x], p.network(x.service);
    var counts := map[net + 1 := NewTriedCount(0, 0)];
    LoneMember(p, x);
    NoMembers(p, m, net + 1);
    assert !NetCounted(p, m, counts, net);
  }

  lemma LoneMember(p: Params, x: AddrInfo)
    requires !x.inTried
    ensures var m, net := map[0 := x], p.network(x.service);
            && Members(p, m, false, None) == {0} && Members(p, m, true, None) == {}
            && Members(p, m, false, Some(net)) == {0} && Nets(p, m) == {net}
  {
  }

  lemma {:induction false} LoneCell(p: Params, x: AddrInfo)
    requires !x.inTried && x.refCount == 1
    ensures NewOk(p, map[0 := x], map[NewCell(p, x.service, x.source) := 0])
  {
    var m, c := map[0 := x], NewCell(p, x.service, x.source);
    var news := map[c := 0];
    CellIs(p, x.service, x.source);
    assert Refs(news, 0) == {c};
    assert NewAt(p, m, news, c);
  }
}
