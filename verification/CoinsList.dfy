/** Cached coins and the circular doubly linked list of flagged ones (src/coins.h:28-214). The
    pointers of the list are modelled as the sentinel or the key of an entry. */
module CoinsList {
  import opened Sequences

  datatype OutPoint = OutPoint(hash: nat, n: nat)

  /** value, script and the rest of an output with its origin; a value of -1 marks a spent coin. */
  datatype Coin = Coin(value: int, script: seq<nat>, coinbase: bool, height: nat) {
    predicate IsSpent() { value == -1 }

    /** The heap memory of the script: none up to 36 bytes, else the size of the allocation. */
    function DynamicMemoryUsage(): nat {
      if |script| <= 36 then 0 else (|script| + 31) / 16 * 16
    }

    predicate IsUnspendable() {
      (|script| > 0 && script[0] == OP_RETURN) || |script| > MAX_SCRIPT_SIZE
    }
  }

  const OP_RETURN := 0x6a
  const MAX_SCRIPT_SIZE := 10000
  const NULL_COIN := Coin(-1, [], false, 0)

  datatype Node = Null | Sentinel | At(key: OutPoint)

  datatype Links = Links(prev: Node, next: Node)

  datatype CacheEntry = CacheEntry(coin: Coin, isDirty: bool, isFresh: bool, links: Links) {
    predicate Flagged() { isDirty || isFresh }
  }

  const NO_LINKS := Links(Null, Null)

  /** An entry without its place in the list. */
  datatype Bare = Bare(coin: Coin, isDirty: bool, isFresh: bool)

  function Stripped(e: CacheEntry): Bare {
    Bare(e.coin, e.isDirty, e.isFresh)
  }

  ghost function Contents(m: map<OutPoint, CacheEntry>): map<OutPoint, Bare> {
    map k | k in m :: Stripped(m[k])
  }

  // ---------------------------------------------------------------------------------------
  // The list

  ghost function NodeAt(order: seq<OutPoint>, i: int): Node {
    if 0 <= i < |order| then At(order[i]) else Sentinel
  }

  ghost predicate LinkedAt(m: map<OutPoint, CacheEntry>, order: seq<OutPoint>, i: int) {
    0 <= i < |order| && order[i] in m && m[order[i]].links == Links(NodeAt(order, i - 1), NodeAt(order, i + 1))
  }

  /** From the sentinel, next links visit order and come back, prev links visit it backwards; it
      holds exactly the flagged entries. */
  ghost predicate Listed(m: map<OutPoint, CacheEntry>, s: Links, order: seq<OutPoint>) {
    && Distinct(order)
    && (forall i :: 0 <= i < |order| ==> LinkedAt(m, order, i))
    && s == Links(NodeAt(order, |order| - 1), NodeAt(order, 0))
    && (forall k :: k in m ==> (k in order <==> m[k].Flagged()))
    && (forall k :: k in m && k !in order ==> m[k].links == NO_LINKS)
  }

  /** node->m_prev = target */
  function PointPrev(m: map<OutPoint, CacheEntry>, s: Links, node: Node, target: Node): (map<OutPoint, CacheEntry>,
      Links) {
    if node == Sentinel then (m, s.(prev := target))
    else if node.At? && node.key in m then (m[node.key := m[node.key].(links := m[node.key].links.(prev := target))], s)
    else (m, s)
  }

  /** node->m_next = target */
  function PointNext(m: map<OutPoint, CacheEntry>, s: Links, node: Node, target: Node): (map<OutPoint, CacheEntry>,
      Links) {
    if node == Sentinel then (m, s.(next := target))
    else if node.At? && node.key in m then (m[node.key := m[node.key].(links := m[node.key].links.(next := target))], s)
    else (m, s)
  }

  /** Puts k, which is not flagged, before the sentinel. */
  function LinkLast(m: map<OutPoint, CacheEntry>, s: Links, k: OutPoint): (map<OutPoint, CacheEntry>, Links)
    requires k in m
  {
    var m1 := m[k := m[k].(links := Links(s.prev, Sentinel))];
    PointNext(m1, s.(prev := At(k)), s.prev, At(k))
  }

  /** Takes k, which is flagged, out of the list. */
  function Unlink(m: map<OutPoint, CacheEntry>, s: Links, k: OutPoint): (map<OutPoint, CacheEntry>, Links)
    requires k in m
  {
    var l := m[k].links;
    var (m1, s1) := PointPrev(m, s, l.next, l.prev);
    var (m2, s2) := PointNext(m1, s1, l.prev, l.next);
    if k in m2 then (m2[k := m2[k].(isDirty := false, isFresh := false, links := NO_LINKS)], s2) else (m2, s2)
  }

  lemma {:induction false} LinkedLast(m: map<OutPoint, CacheEntry>, s: Links, order: seq<OutPoint>, k: OutPoint,
      isDirty: bool, isFresh: bool)
    requires Listed(m, s, order) && k in m && !m[k].Flagged() && (isDirty || isFresh)
    ensures var (m2, s2) := LinkLast(m, s, k);
            && k in m2
            && Listed(m2[k := m2[k].(isDirty := isDirty, isFresh := isFresh)], s2, order + [k])
            && Contents(m2) == Contents(m)
  {
    var (m2, s2) := LinkLast(m, s, k);
    var r, n := order + [k], |order|;
    assert k !in order;
    assert n > 0 ==> LinkedAt(m, order, n - 1);
    var m3 := m2[k := m2[k].(isDirty := isDirty, isFresh := isFresh)];
    forall i | 0 <= i < |r|
      ensures LinkedAt(m3, r, i)
    {
      if i < n {
        assert LinkedAt(m, order, i);
        assert r[i] == order[i] && (i == n - 1 <==> order[i] == order[n - 1]);
      }
    }
    assert s2 == Links(NodeAt(r, n), NodeAt(r, 0));
    forall q | q in m3 && q !in r
      ensures m3[q].links == NO_LINKS && !m3[q].Flagged()
    {
      assert q != k && q !in order;
    }
  }

  /** Where a flagged entry is in the list. */
  lemma {:induction false} FindInList(order: seq<OutPoint>, k: OutPoint) returns (i: nat)
    requires k in order
    ensures i < |order| && order[i] == k
  {
    i :| i < |order| && order[i] == k;
  }

  function Dropped(order: seq<OutPoint>, i: nat): seq<OutPoint>
    requires i < |order|
  {
    order[..i] + order[i + 1..]
  }

  lemma {:induction false} Unlinked(m: map<OutPoint, CacheEntry>, s: Links, order: seq<OutPoint>, i: nat)
    requires Listed(m, s, order) && i < |order| && order[i] in m
    ensures var (m2, s2) := Unlink(m, s, order[i]);
            && Listed(m2, s2, Dropped(order, i))
            && m2.Keys == m.Keys && Contents(m2) == Contents(m)[order[i] := Bare(m[order[i]].coin, false, false)]
  {
    hide Listed;
    UnlinkedEntries(m, s, order, i);
    UnlinkedSentinel(m, s, order, i);
    var (m2, s2) := Unlink(m, s, order[i]);
    var r, k := Dropped(order, i), order[i];
    ListedIs(m, s, order);
    DroppedElems(order, i);
    forall j | 0 <= j < |r|
      ensures LinkedAt(m2, r, j)
    {
      UnlinkedAt(m, s, order, i, j);
    }
    forall q | q in m2
      ensures q in r <==> m2[q].Flagged()
      ensures q !in r ==> m2[q].links == NO_LINKS
    {
      assert m2[q].Flagged() <==> (q != k && m[q].Flagged());
      assert q != k && q !in order ==> m2[q] == m[q];
    }
    MakeListed(m2, s2, r);
  }

  lemma ListedIs(m: map<OutPoint, CacheEntry>, s: Links, order: seq<OutPoint>)
    requires Listed(m, s, order)
    ensures Distinct(order) && s == Links(NodeAt(order, |order| - 1), NodeAt(order, 0))
    ensures forall i :: 0 <= i < |order| ==> LinkedAt(m, order, i)
    ensures forall k :: k in m ==> (k in order <==> m[k].Flagged())
    ensures forall k :: k in m && k !in order ==> m[k].links == NO_LINKS
  {
  }

  lemma MakeListed(m: map<OutPoint, CacheEntry>, s: Links, order: seq<OutPoint>)
    requires Distinct(order) && s == Links(NodeAt(order, |order| - 1), NodeAt(order, 0))
    requires forall i :: 0 <= i < |order| ==> LinkedAt(m, order, i)
    requires forall k :: k in m ==> (k in order <==> m[k].Flagged()) && (k !in order ==> m[k].links == NO_LINKS)
    ensures Listed(m, s, order)
  {
  }

  lemma {:induction false} DroppedElems(order: seq<OutPoint>, i: nat)
    requires Distinct(order) && i < |order|
    ensures Distinct(Dropped(order, i)) && order[i] !in Dropped(order, i)
    ensures forall q :: q in Dropped(order, i) <==> q in order && q != order[i]
  {
    var r := Dropped(order, i);
    forall q | q in order && q != order[i]
      ensures q in r
    {
      var j := FindInList(order, q);
      assert q == r[if j < i then j else j - 1];
    }
  }

  /** The neighbours of entry i point at each other afterwards, and nothing else changes. */
  lemma {:induction false} UnlinkedEntries(m: map<OutPoint, CacheEntry>, s: Links, order: seq<OutPoint>, i: nat)
    requires Listed(m, s, order) && i < |order| && order[i] in m
    ensures var m2 := Unlink(m, s, order[i]).0;
            && m2.Keys == m.Keys && Contents(m2) == Contents(m)[order[i] := Bare(m[order[i]].coin, false, false)]
            && m2[order[i]].links == NO_LINKS
            && forall q :: q in m && q != order[i] ==>
                 m2[q] == m[q].(links :=
                     Links(if At(q) == NodeAt(order, i + 1) then NodeAt(order, i - 1) else m[q].links.prev,
                                               if At(q) == NodeAt(order, i - 1) then NodeAt(order, i + 1)
                                                   else m[q].links.next))
  {
    assert LinkedAt(m, order, i);
    assert i > 0 ==> LinkedAt(m, order, i - 1);
    assert i + 1 < |order| ==> LinkedAt(m, order, i + 1);
  }

  lemma {:induction false} UnlinkedSentinel(m: map<OutPoint, CacheEntry>, s: Links, order: seq<OutPoint>, i: nat)
    requires Listed(m, s, order) && i < |order| && order[i] in m
    ensures Unlink(m, s, order[i]).1 == Links(NodeAt(Dropped(order, i), |order| - 2), NodeAt(Dropped(order, i), 0))
  {
    assert LinkedAt(m, order, i);
    assert i > 0 ==> LinkedAt(m, order, i - 1);
    assert i + 1 < |order| ==> LinkedAt(m, order, i + 1);
  }

  lemma {:induction false} UnlinkedAt(m: map<OutPoint, CacheEntry>, s: Links, order: seq<OutPoint>, i: nat, j: nat)
    requires Listed(m, s, order) && i < |order| && order[i] in m && j < |order| - 1
    ensures LinkedAt(Unlink(m, s, order[i]).0, Dropped(order, i), j)
  {
    hide Unlink, Contents;
    UnlinkedEntries(m, s, order, i);
    var k := if j < i then j else j + 1;
    assert LinkedAt(m, order, k) && Dropped(order, i)[j] == order[k];
    assert At(order[k]) == NodeAt(order, i + 1) <==> k == i + 1;
    assert At(order[k]) == NodeAt(order, i - 1) <==> k == i - 1;
  }
}
