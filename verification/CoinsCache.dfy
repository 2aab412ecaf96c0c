/** A tower of coin caches over a database (src/coins.cpp:38-150, 183-346; src/txdb.cpp:69-156). */
module CoinsCache {
  import opened Options
  import opened Sequences
  import opened CoinsList
  import opened CoinsViews

  class CoinsDB {
    var coins: View
    var bestBlock: nat

    constructor ()
      ensures coins == map[]
    {
      coins, bestBlock := map[], 0;
    }

    method GetCoin(outpoint: OutPoint) returns (r: Option<Coin>)
      ensures r == if outpoint in coins then Some(coins[outpoint]) else None
    {
      r := if outpoint in coins then Some(coins[outpoint]) else None;
    }

    /** Writes the dirty entries of a cache into the database. */
    method BatchWrite(child: CoinsViewCache, willErase: bool, hashBlockIn: nat)
      requires Unspent(coins) && child.Own() && Coherent(child.Entries(), coins) && hashBlockIn != 0
      modifies this, child`cacheCoins, child`sentinel, child`order, child`cachedCoinsUsage
      ensures Unspent(coins) && bestBlock == hashBlockIn
      ensures coins == old(Visible(child.Entries(), coins))
      ensures child.Passed(willErase, old(child.cacheCoins), old(child.order), |old(child.order)|)
    {
      hide Listed, Contents, Visible, Coherent, TotalUsage, Overlay, Cleaned, Unspent, Flagging;
      ghost var m, c, o, v := child.cacheCoins, child.Entries(), child.order, coins;
      child.WalkStart(willErase);
      OverlayNone(v, c);
      assert o[..0] == [] && Elems(o[..0]) == {};
      var it := child.sentinel.next;
      ghost var i := 0;
      while it != Sentinel
        invariant 0 <= i <= |o| && it == NodeAt(o, i) && child.Passed(willErase, m, o, i)
        invariant coins == Overlay(v, c, Elems(o[..i]))
        decreases |o| - i
      {
        child.WalkAt(willErase, m, o, i);
        var entry := Stripped(child.cacheCoins[it.key]);
        ElemsTake(o, i);
        OverlayOne(v, c, Elems(o[..i]), o[i]);
        if entry.isDirty {
          if entry.coin.IsSpent() {
            coins := coins - {it.key};
          } else {
            coins := coins[it.key := entry.coin];
          }
        }
        it := child.NextAndMaybeErase(it.key, willErase, m, o, i);
        i := i + 1;
      }
      bestBlock := hashBlockIn;
      WalkEnd(m, o, v);
      assert o[..|o|] == o;
      VisibleUnspent(c, v);
    }
  }

  class CoinsViewCache {
    /** The cache below, or null if this one stands on the database. */
    const base: CoinsViewCache?
    const db: CoinsDB
    ghost const level: nat
    ghost const Repr: set<object>

    var cacheCoins: map<OutPoint, CacheEntry>
    var sentinel: Links
    var cachedCoinsUsage: nat
    var hashBlock: nat
    /** The flagged entries, in list order. */
    ghost var order: seq<OutPoint>

    // -------------------------------------------------------------------------------------
    // State

    /** Every cache has one below it, down to the database. */
    ghost predicate Shape()
      decreases level
    {
      && this in Repr && db in Repr
      && (base == null ==> Repr == {this, db})
      && (base != null ==>
          base.level < level && base.db == db && base in base.Repr && Repr == base.Repr + {this} && this !in base.Repr
          && base.Shape())
    }

    ghost predicate Linked()
      reads this
    {
      Listed(cacheCoins, sentinel, order)
    }

    ghost function Entries(): map<OutPoint, Bare>
      reads this
    {
      Contents(cacheCoins)
    }

    /** The list and the memory count are right. */
    ghost predicate Own()
      reads this
    {
      Linked() && cachedCoinsUsage == TotalUsage(Entries())
    }

    ghost function BaseView(): View
      requires Shape()
      reads Repr
      decreases level, 0
    {
      if base == null then db.coins else base.View()
    }

    /** The coins that are visible through this cache. */
    ghost function View(): View
      requires Shape()
      reads Repr
      decreases level, 1
    {
      Visible(Entries(), BaseView())
    }

    ghost predicate Valid()
      reads this, Repr
      decreases level, 2
    {
      && Shape() && Own() && Unspent(BaseView()) && Coherent(Entries(), BaseView())
      && (base != null ==> base.Valid())
    }

    /** The best blocks of this cache and those below it, down to the database; 0 is none. */
    ghost function Bests(): (r: seq<nat>)
      requires Shape()
      reads Repr
      ensures |r| >= 2
      decreases level
    {
      [hashBlock] + if base == null then [db.bestBlock] else base.Bests()
    }

    constructor (base: CoinsViewCache?, db: CoinsDB)
      requires base != null ==> base.Valid() && base.db == db
      requires base == null ==> Unspent(db.coins)
      ensures Valid() && this.base == base && this.db == db && fresh(Repr - (if base == null then {db} else base.Repr))
      ensures View() == BaseView() && Bests() == [0] + if base == null then [db.bestBlock] else base.Bests()
    {
      this.base, this.db := base, db;
      level := if base == null then 0 else base.level + 1;
      Repr := (if base == null then {db} else base.Repr) + {this};
      cacheCoins, sentinel, cachedCoinsUsage, hashBlock, order := map[], Links(Sentinel, Sentinel), 0, 0, [];
      new;
      assert Entries() == map[];
      if base != null {
        base.ViewUnspent();
      }
    }

    lemma {:induction false} ViewUnspent()
      requires Valid()
      ensures Unspent(View())
    {
    }

    // -------------------------------------------------------------------------------------
    // Entries and their flags

    /** Creates a default entry. */
    method Emplace(k: OutPoint)
      requires Linked() && k !in cacheCoins
      modifies this`cacheCoins
      ensures Linked() && Entries() == old(Entries())[k := Bare(NULL_COIN, false, false)]
      ensures k in cacheCoins && Stripped(cacheCoins[k]) == Bare(NULL_COIN, false, false)
    {
      hide Listed;
      ListedIs(cacheCoins, sentinel, order);
      ghost var m := cacheCoins;
      cacheCoins := cacheCoins[k := CacheEntry(NULL_COIN, false, false, NO_LINKS)];
      Emplaced(m, sentinel, order, k);
    }

    method SetCoin(k: OutPoint, coin: Coin)
      requires Linked() && k in cacheCoins
      modifies this`cacheCoins
      ensures k in cacheCoins
      ensures Stripped(cacheCoins[k]) == Bare(coin, old(cacheCoins[k].isDirty), old(cacheCoins[k].isFresh))
      ensures Linked() && Entries() == old(Entries())[k := Stripped(cacheCoins[k])]
    {
      hide Listed;
      ghost var m := cacheCoins;
      cacheCoins := cacheCoins[k := cacheCoins[k].(coin := coin)];
      Recoined(m, sentinel, order, k, coin);
    }

    /** Adds flags; an entry without any joins the end of the list. */
    method AddFlags(k: OutPoint, dirty: bool, isFresh: bool)
      requires Linked() && k in cacheCoins && (dirty || isFresh)
      modifies this`cacheCoins, this`sentinel, this`order
      ensures k in cacheCoins
      ensures Stripped(cacheCoins[k]) ==
          Bare(old(cacheCoins[k].coin), old(cacheCoins[k].isDirty) || dirty, old(cacheCoins[k].isFresh) || isFresh)
      ensures Linked() && Entries() == old(Entries())[k := Stripped(cacheCoins[k])]
      ensures order == if old(cacheCoins[k].Flagged()) then old(order) else old(order) + [k]
    {
      hide Listed, Contents;
      ghost var m, s := cacheCoins, sentinel;
      if !cacheCoins[k].isDirty && !cacheCoins[k].isFresh {
        LinkedLast(m, s, order, k, dirty, isFresh);
        cacheCoins := cacheCoins[k := cacheCoins[k].(links := Links(sentinel.prev, Sentinel))];
        sentinel := sentinel.(prev := At(k));
        var last := cacheCoins[k].links.prev;
        var moved := PointNext(cacheCoins, sentinel, last, At(k));
        cacheCoins, sentinel := moved.0, moved.1;
        order := order + [k];
        assert (cacheCoins, sentinel) == LinkLast(m, s, k);
        ghost var m2 := cacheCoins;
        cacheCoins :=
            cacheCoins[k :=
            cacheCoins[k].(isDirty := cacheCoins[k].isDirty || dirty, isFresh := cacheCoins[k].isFresh || isFresh)];
        ContentsStore(m2, k, cacheCoins[k]);
        ContentsAt(m, m2, k);
      } else {
        cacheCoins :=
            cacheCoins[k :=
            cacheCoins[k].(isDirty := cacheCoins[k].isDirty || dirty, isFresh := cacheCoins[k].isFresh || isFresh)];
        Reflagged(m, s, order, k, dirty, isFresh);
      }
    }

    /** Clears the flags; a flagged entry leaves the list. */
    method SetClean(k: OutPoint)
      requires Linked() && k in cacheCoins
      modifies this`cacheCoins, this`sentinel, this`order
      ensures k in cacheCoins && Stripped(cacheCoins[k]) == Bare(old(cacheCoins[k].coin), false, false)
      ensures Linked() && Entries() == old(Entries())[k := Stripped(cacheCoins[k])]
      ensures forall i :: 0 <= i < |old(order)| && old(order)[i] == k ==> order == Dropped(old(order), i)
      ensures k !in order && (k !in old(order) ==> order == old(order))
    {
      hide Listed, Contents, PointPrev, PointNext, Unlink;
      ghost var m, s, o := cacheCoins, sentinel, order;
      ListedIs(m, s, o);
      if !cacheCoins[k].isDirty && !cacheCoins[k].isFresh {
        ContentsSame(m, k);
        return;
      }
      ghost var i := FindInList(o, k);
      Unlinked(m, s, o, i);
      UnlinkKeys(m, s, k);
      var links := cacheCoins[k].links;
      var moved := PointPrev(cacheCoins, sentinel, links.next, links.prev);
      cacheCoins, sentinel := moved.0, moved.1;
      moved := PointNext(cacheCoins, sentinel, links.prev, links.next);
      cacheCoins, sentinel := moved.0, moved.1;
      cacheCoins := cacheCoins[k := cacheCoins[k].(isDirty := false, isFresh := false, links := NO_LINKS)];
      order := Dropped(order, i);
      DroppedElems(o, i);
      NoOther(o, i);
    }

    /** Destroys an entry, which leaves the list first. */
    method Erase(k: OutPoint)
      requires Linked() && k in cacheCoins
      modifies this`cacheCoins, this`sentinel, this`order
      ensures Linked() && Entries() == old(Entries()) - {k}
      ensures forall i :: 0 <= i < |old(order)| && old(order)[i] == k ==> order == Dropped(old(order), i)
    {
      hide Listed, Contents;
      SetClean(k);
      ghost var m := cacheCoins;
      cacheCoins := cacheCoins - {k};
      Erased(m, sentinel, order, k);
      ContentsErase(m, k);
    }

    // -------------------------------------------------------------------------------------
    // Reading

    /** The coin that the view below shows. */
    method GetBelow(outpoint: OutPoint) returns (coin: Option<Coin>)
      requires Shape() && (base != null ==> base.Valid())
      modifies Repr - {this}
      ensures (base != null ==> base.Valid()) && BaseView() == old(BaseView()) && Bests() == old(Bests())
      ensures unchanged(this)
      ensures coin == if outpoint in BaseView() then Some(BaseView()[outpoint]) else None
      decreases level, 0
    {
      hide Own, Visible, Coherent, Unspent;
      if base != null {
        coin := base.GetCoin(outpoint);
      } else {
        coin := db.GetCoin(outpoint);
      }
    }

    /** Brings a coin into this cache if there is one. */
    method FetchCoin(outpoint: OutPoint) returns (found: bool)
      requires Valid()
      modifies Repr
      ensures Valid() && View() == old(View()) && BaseView() == old(BaseView()) && Bests() == old(Bests())
      ensures found <==> outpoint in cacheCoins
      ensures found <==> old(outpoint in cacheCoins) || outpoint in View()
      ensures outpoint in View() <==> found && !cacheCoins[outpoint].coin.IsSpent()
      ensures outpoint in View() ==> View()[outpoint] == cacheCoins[outpoint].coin
      decreases level, 1
    {
      hide Listed, Contents, Visible, Coherent, TotalUsage, Unspent;
      ghost var below := BaseView();
      EntryAt(cacheCoins, below, outpoint);
      if outpoint in cacheCoins {
        return true;
      }
      var coin := GetBelow(outpoint);
      found := Keep(outpoint, coin, below);
      EntryAt(cacheCoins, below, outpoint);
    }

    /** Caches a coin of the view below; the entry that was made for it goes if there is none. */
    method Keep(outpoint: OutPoint, coin: Option<Coin>, ghost below: View) returns (found: bool)
      requires Own() && Unspent(below) && Coherent(Entries(), below) && outpoint !in cacheCoins
      requires coin == if outpoint in below then Some(below[outpoint]) else None
      modifies this`cacheCoins, this`sentinel, this`order, this`cachedCoinsUsage
      ensures Own() && Coherent(Entries(), below) && Visible(Entries(), below) == old(Visible(Entries(), below))
      ensures found <==> outpoint in cacheCoins
      ensures found <==> outpoint in below
    {
      hide Listed, Contents, Visible, Coherent, TotalUsage, Unspent;
      ghost var e := Entries();
      EntryAt(cacheCoins, below, outpoint);
      Emplace(outpoint);
      if coin.Some? {
        SetCoin(outpoint, coin.value);
        Overwrite(e, outpoint, Bare(NULL_COIN, false, false), Bare(coin.value, false, false));
        Fetched(e, below, outpoint, coin.value);
        cachedCoinsUsage := cachedCoinsUsage + cacheCoins[outpoint].coin.DynamicMemoryUsage();
        found := true;
      } else {
        Erase(outpoint);
        BackAgain(e, outpoint, Bare(NULL_COIN, false, false));
        EntryAt(cacheCoins, below, outpoint);
        found := false;
      }
    }

    method GetCoin(outpoint: OutPoint) returns (r: Option<Coin>)
      requires Valid()
      modifies Repr
      ensures Valid() && View() == old(View()) && BaseView() == old(BaseView()) && Bests() == old(Bests())
      ensures r == if outpoint in View() then Some(View()[outpoint]) else None
      decreases level, 2
    {
      hide View, BaseView, Valid, Bests;
      var found := FetchCoin(outpoint);
      if found && !cacheCoins[outpoint].coin.IsSpent() {
        r := Some(cacheCoins[outpoint].coin);
      } else {
        r := None;
      }
    }

    // -------------------------------------------------------------------------------------
    // Writing

    /** Adds a coin. Throws, after the memory of the old one was taken off the count, if an unspent
        coin of this cache may not be overwritten; a coin below is not looked for. The cache is valid
        afterwards exactly if nothing unspent was overwritten without permission, or what was there
        took no memory. */
    method AddCoin(outpoint: OutPoint, coin: Coin, possibleOverwrite: bool) returns (thrown: bool)
      requires Valid() && !coin.IsSpent()
      modifies this
      ensures Shape() && BaseView() == old(BaseView()) && Bests() == old(Bests())
      ensures thrown <==>
          !coin.IsUnspendable() && !possibleOverwrite
          && old(outpoint in cacheCoins && !cacheCoins[outpoint].coin.IsSpent())
      ensures View() == if thrown || coin.IsUnspendable() then old(View()) else old(View())[outpoint := coin]
      ensures thrown ==> outpoint in old(View())
      ensures Valid() <==> || coin.IsUnspendable() || possibleOverwrite || outpoint !in old(View())
                           || (thrown && old(View())[outpoint].DynamicMemoryUsage() == 0)
    {
      hide Listed, Contents, Visible, Coherent, TotalUsage, Unspent;
      if coin.IsUnspendable() {
        return false;
      }
      thrown := AddEntry(outpoint, coin, possibleOverwrite, BaseView());
    }

    method AddEntry(outpoint: OutPoint, coin: Coin, possibleOverwrite: bool, ghost below: View) returns (thrown: bool)
      requires Own() && Coherent(Entries(), below) && !coin.IsSpent()
      modifies this`cacheCoins, this`sentinel, this`order, this`cachedCoinsUsage
      ensures thrown <==> !possibleOverwrite && old(outpoint in cacheCoins && !cacheCoins[outpoint].coin.IsSpent())
      ensures Visible(Entries(), below) == if thrown then old(Visible(Entries(), below))
          else old(Visible(Entries(), below))[outpoint := coin]
      ensures thrown ==> outpoint in old(Visible(Entries(), below))
      ensures Own() && Coherent(Entries(), below) <==>
                || possibleOverwrite || outpoint !in old(Visible(Entries(), below))
                || (thrown && old(Visible(Entries(), below))[outpoint].DynamicMemoryUsage() == 0)
    {
      hide Listed, Contents, Visible, Coherent, TotalUsage;
      ghost var e := Entries();
      EntryAt(cacheCoins, below, outpoint);
      Usages(e, outpoint);
      var inserted := outpoint !in cacheCoins;
      if inserted {
        Emplace(outpoint);
      }
      var isFresh := false;
      if !inserted {
        cachedCoinsUsage := cachedCoinsUsage - cacheCoins[outpoint].coin.DynamicMemoryUsage();
      }
      if !possibleOverwrite {
        if !cacheCoins[outpoint].coin.IsSpent() {
          return true;
        }
        isFresh := !cacheCoins[outpoint].isDirty;
      }
      ghost var b := Bare(coin, true, cacheCoins[outpoint].isFresh || isFresh);
      StoreAt(e, below, outpoint, b);
      Added(outpoint, coin, isFresh, e);
      thrown := false;
    }

    method Added(outpoint: OutPoint, coin: Coin, isFresh: bool, ghost e: map<OutPoint, Bare>)
      requires Linked() && outpoint in cacheCoins && cachedCoinsUsage == TotalUsage(e - {outpoint})
      requires Entries() == e || Entries() == e[outpoint := Bare(NULL_COIN, false, false)]
      modifies this`cacheCoins, this`sentinel, this`order, this`cachedCoinsUsage
      ensures Own() && Entries() == e[outpoint := Bare(coin, true, old(cacheCoins[outpoint].isFresh) || isFresh)]
    {
      hide Listed, Contents, TotalUsage;
      UsageStore(e, outpoint, Bare(coin, true, cacheCoins[outpoint].isFresh || isFresh));
      cachedCoinsUsage := cachedCoinsUsage + coin.DynamicMemoryUsage();
      ghost var a := Stripped(cacheCoins[outpoint]);
      SetCoin(outpoint, coin);
      ghost var b := Stripped(cacheCoins[outpoint]);
      Overwrite(e, outpoint, Bare(NULL_COIN, false, false), b);
      AddFlags(outpoint, true, false);
      ghost var c := Stripped(cacheCoins[outpoint]);
      Overwrite(e, outpoint, b, c);
      if isFresh {
        AddFlags(outpoint, false, true);
        Overwrite(e, outpoint, c, Stripped(cacheCoins[outpoint]));
      }
    }

    /** Spends a coin. Also true, with a null coin, for one that is cached as spent. */
    method SpendCoin(outpoint: OutPoint) returns (ok: bool, moveout: Coin)
      requires Valid()
      modifies Repr
      ensures Valid() && BaseView() == old(BaseView()) && Bests() == old(Bests()) && View() == old(View()) - {outpoint}
      ensures ok <==> outpoint in old(View()) || old(outpoint in cacheCoins)
      ensures outpoint in old(View()) ==> moveout == old(View())[outpoint]
    {
      hide Listed, Contents, Visible, Coherent, TotalUsage, Unspent;
      ok := FetchCoin(outpoint);
      ghost var e, below := Entries(), BaseView();
      EntryAt(cacheCoins, below, outpoint);
      moveout := NULL_COIN;
      if !ok {
        NotThere(View(), outpoint);
        return;
      }
      moveout := SpendEntry(outpoint, below);
    }

    /** Spends a cached coin: a fresh one is forgotten, any other one stays as spent. */
    method SpendEntry(outpoint: OutPoint, ghost below: View) returns (moveout: Coin)
      requires Own() && Coherent(Entries(), below) && outpoint in cacheCoins
      modifies this`cacheCoins, this`sentinel, this`order, this`cachedCoinsUsage
      ensures Own() && Coherent(Entries(), below)
      ensures Visible(Entries(), below) == old(Visible(Entries(), below)) - {outpoint}
      ensures moveout == old(cacheCoins[outpoint].coin)
    {
      hide Listed, Contents, Visible, Coherent, TotalUsage, Unspent;
      ghost var e := Entries();
      EntryAt(cacheCoins, below, outpoint);
      Usages(e, outpoint);
      cachedCoinsUsage := cachedCoinsUsage - cacheCoins[outpoint].coin.DynamicMemoryUsage();
      moveout := cacheCoins[outpoint].coin;
      if cacheCoins[outpoint].isFresh {
        EraseSound(e, below, outpoint);
        Erase(outpoint);
      } else {
        StoreSound(e, below, outpoint, Bare(NULL_COIN, true, false));
        UsageStore(e, outpoint, Bare(NULL_COIN, true, false));
        AddFlags(outpoint, true, false);
        ghost var b := Stripped(cacheCoins[outpoint]);
        SetCoin(outpoint, NULL_COIN);
        Overwrite(e, outpoint, b, Bare(NULL_COIN, true, false));
      }
    }

    /** Drops an entry that is the same below. */
    method Uncache(outpoint: OutPoint)
      requires Valid()
      modifies this
      ensures Valid() && BaseView() == old(BaseView()) && Bests() == old(Bests()) && View() == old(View())
      ensures outpoint in cacheCoins ==> old(outpoint in cacheCoins && cacheCoins[outpoint].Flagged())
    {
      hide Listed, Contents, Visible, Coherent, TotalUsage, Unspent;
      ghost var e, below := Entries(), BaseView();
      EntryAt(cacheCoins, below, outpoint);
      if outpoint in cacheCoins && !cacheCoins[outpoint].isDirty && !cacheCoins[outpoint].isFresh {
        Usages(e, outpoint);
        EraseSound(e, below, outpoint);
        SameThere(View(), outpoint);
        cachedCoinsUsage := cachedCoinsUsage - cacheCoins[outpoint].coin.DynamicMemoryUsage();
        Erase(outpoint);
        GoneAt(cacheCoins, e, outpoint);
      }
    }

    // -------------------------------------------------------------------------------------
    // Flushing

    /** One entry of the child, written into this cache. */
    method BatchEntry(outpoint: OutPoint, entry: Bare)
      requires Own()
      requires (entry.isDirty && entry.isFresh && outpoint in cacheCoins ==> cacheCoins[outpoint].coin.IsSpent())
      modifies this`cacheCoins, this`sentinel, this`order, this`cachedCoinsUsage
      ensures Own() && Entries() == BatchOne(old(Entries()), outpoint, entry)
    {
      hide Listed, Contents, TotalUsage;
      if !entry.isDirty {
        return;
      }
      ghost var e := Entries();
      ContentsIs(cacheCoins, outpoint);
      Usages(e, outpoint);
      if outpoint !in cacheCoins {
        if !(entry.isFresh && entry.coin.IsSpent()) {
          Emplace(outpoint);
          SetCoin(outpoint, entry.coin);
          ghost var b := Stripped(cacheCoins[outpoint]);
          Overwrite(e, outpoint, Bare(NULL_COIN, false, false), b);
          cachedCoinsUsage := cachedCoinsUsage + cacheCoins[outpoint].coin.DynamicMemoryUsage();
          AddFlags(outpoint, true, false);
          ghost var c := Stripped(cacheCoins[outpoint]);
          Overwrite(e, outpoint, b, c);
          UsageStore(e, outpoint, c);
          if entry.isFresh {
            AddFlags(outpoint, false, true);
            Overwrite(e, outpoint, c, Stripped(cacheCoins[outpoint]));
            UsageStore(e, outpoint, Stripped(cacheCoins[outpoint]));
          }
        }
      } else {
        // Where the child's entry is fresh and this one is unspent, the program throws.
        assert !(entry.isFresh && !cacheCoins[outpoint].coin.IsSpent());
        cachedCoinsUsage := cachedCoinsUsage - cacheCoins[outpoint].coin.DynamicMemoryUsage();
        if cacheCoins[outpoint].isFresh && entry.coin.IsSpent() {
          Erase(outpoint);
        } else {
          SetCoin(outpoint, entry.coin);
          ghost var b := Stripped(cacheCoins[outpoint]);
          cachedCoinsUsage := cachedCoinsUsage + cacheCoins[outpoint].coin.DynamicMemoryUsage();
          AddFlags(outpoint, true, false);
          Overwrite(e, outpoint, b, Stripped(cacheCoins[outpoint]));
          UsageStore(e, outpoint, Stripped(cacheCoins[outpoint]));
        }
      }
    }

    /** What a walk over the list has left of this cache after i entries. */
    ghost predicate Passed(willErase: bool, m: map<OutPoint, CacheEntry>, o: seq<OutPoint>, i: nat)
      reads this
    {
      && Own() && i <= |o| && Flagging(m, o)
      && (if willErase then cacheCoins == m && order == o
          else order == o[i..] && Entries() == Cleaned(Contents(m), Elems(o[..i])))
    }

    lemma {:induction false} WalkStart(willErase: bool)
      requires Own()
      ensures Passed(willErase, cacheCoins, order, 0) && sentinel.next == NodeAt(order, 0)
    {
      hide TotalUsage, Contents, Cleaned;
      ListedIs(cacheCoins, sentinel, order);
      AllInMap(cacheCoins, order);
      assert order[..0] == [] && order[0..] == order && Elems(order[..0]) == {};
      CleanedNone(Contents(cacheCoins));
    }

    lemma {:induction false} WalkAt(willErase: bool, m: map<OutPoint, CacheEntry>, o: seq<OutPoint>, i: nat)
      requires Passed(willErase, m, o, i) && i < |o|
      ensures o[i] in cacheCoins && o[i] in m && o[i] in Contents(m) && Stripped(cacheCoins[o[i]]) == Contents(m)[o[i]]
      ensures if willErase then order == o else order == o[i..]
    {
      hide TotalUsage, Contents, Cleaned, Listed;
      assert o[i] in o;
      ContentsIs(m, o[i]);
      ElemsTake(o, i);
      if !willErase {
        CleanedOne(Contents(m), Elems(o[..i]), o[i]);
      }
      ContentsIs(cacheCoins, o[i]);
    }

    /** The entry after current in the list; current is erased or cleaned, unless all will be
        erased in the end. */
    method NextAndMaybeErase(current: OutPoint, willErase: bool, ghost m: map<OutPoint, CacheEntry>,
        ghost o: seq<OutPoint>, ghost i: nat) returns (next: Node)
      requires Passed(willErase, m, o, i) && i < |o| && current == o[i] && current in cacheCoins
      modifies this`cacheCoins, this`sentinel, this`order, this`cachedCoinsUsage
      ensures Passed(willErase, m, o, i + 1) && next == NodeAt(o, i + 1)
    {
      hide Listed, Contents, TotalUsage, Cleaned, Flagging;
      WalkAt(willErase, m, o, i);
      ghost var e, j := Entries(), if willErase then i else 0;
      ListedIs(cacheCoins, sentinel, order);
      assert LinkedAt(cacheCoins, order, j);
      next := cacheCoins[current].links.next;
      if !willErase {
        ContentsIs(cacheCoins, current);
        Usages(e, current);
        UsageStore(e, current, Bare(cacheCoins[current].coin, false, false));
        ElemsTake(o, i);
        FlaggingIs(m, o);
        CleanedOne(Contents(m), Elems(o[..i]), current);
        assert Dropped(o[i..], 0) == o[i + 1..];
        if cacheCoins[current].coin.IsSpent() {
          cachedCoinsUsage := cachedCoinsUsage - cacheCoins[current].coin.DynamicMemoryUsage();
          Erase(current);
        } else {
          SetClean(current);
        }
      }
    }

    /** Writes the dirty entries of the child, the cache above, into this one. */
    method BatchWrite(child: CoinsViewCache, willErase: bool, hashBlockIn: nat)
      requires Valid() && child !in Repr && child.Own() && Coherent(child.Entries(), View())
      modifies this, child`cacheCoins, child`sentinel, child`order, child`cachedCoinsUsage
      ensures Valid() && BaseView() == old(BaseView()) && Bests() == [hashBlockIn] + old(Bests())[1..]
      ensures View() == old(Visible(child.Entries(), View()))
      ensures child.Passed(willErase, old(child.cacheCoins), old(child.order), |old(child.order)|)
    {
      hide Listed, Contents, Visible, Coherent, TotalUsage, Unspent, Passed;
      WriteAll(child, willErase, BaseView());
      hashBlock := hashBlockIn;
    }

    /** The loop over the flagged entries of the child. */
    method WriteAll(child: CoinsViewCache, willErase: bool, ghost below: View)
      requires child != this && Own() && Coherent(Entries(), below) && child.Own()
      requires Coherent(child.Entries(), Visible(Entries(), below))
      modifies this`cacheCoins, this`sentinel, this`order, this`cachedCoinsUsage
      modifies child`cacheCoins, child`sentinel, child`order, child`cachedCoinsUsage
      ensures Own() && Coherent(Entries(), below)
      ensures Visible(Entries(), below) == old(Visible(child.Entries(), Visible(Entries(), below)))
      ensures child.Passed(willErase, old(child.cacheCoins), old(child.order), |old(child.order)|)
    {
      hide Listed, Contents, Visible, Coherent, TotalUsage, Overlay, Cleaned, Unspent, BatchOne, Flagging;
      ghost var m, c, o, v := child.cacheCoins, child.Entries(), child.order, Visible(Entries(), below);
      child.WalkStart(willErase);
      OverlayNone(v, c);
      assert o[..0] == [] && Elems(o[..0]) == {};
      var it := child.sentinel.next;
      ghost var i := 0;
      while it != Sentinel
        invariant 0 <= i <= |o| && it == NodeAt(o, i) && child.Passed(willErase, m, o, i)
        invariant Own() && Coherent(Entries(), below) && Visible(Entries(), below) == Overlay(v, c, Elems(o[..i]))
        decreases |o| - i
      {
        child.WalkAt(willErase, m, o, i);
        FlaggingIs(m, o);
        BatchStep(Entries(), below, v, c, o, i);
        ContentsIs(cacheCoins, it.key);
        BatchEntry(it.key, Stripped(child.cacheCoins[it.key]));
        it := child.NextAndMaybeErase(it.key, willErase, m, o, i);
        i := i + 1;
      }
      WalkEnd(m, o, v);
      assert o[..|o|] == o;
    }

    /** Destroys all entries. */
    method Clear()
      requires Linked()
      modifies this`cacheCoins, this`sentinel, this`order
      ensures Linked() && cacheCoins == map[] && order == [] && Entries() == map[]
    {
      hide Listed, Contents;
      while cacheCoins != map[]
        invariant Linked()
        decreases |cacheCoins|
      {
        ghost var m := cacheCoins;
        var k :| k in cacheCoins;
        Erase(k);
        Shrunk(m, cacheCoins, k);
      }
      NothingListed(cacheCoins, sentinel, order);
    }

    /** Writes the flagged entries into what is below. */
    method WriteDown(willErase: bool)
      requires Valid() && (|Bests()| == 2 ==> Bests()[0] != 0)
      modifies Repr
      ensures Shape() && (base != null ==> base.Valid()) && Unspent(BaseView()) && BaseView() == old(View())
      ensures Bests() == old(Bests())[1 := old(Bests())[0]]
      ensures Passed(willErase, old(cacheCoins), old(order), |old(order)|)
    {
      hide Listed, Contents, Visible, Coherent, TotalUsage, Unspent, Passed;
      VisibleUnspent(Entries(), BaseView());
      if base != null {
        HandedDown(hashBlock, base.Bests());
        base.BatchWrite(this, willErase, hashBlock);
      } else {
        HandedDown(hashBlock, [db.bestBlock]);
        db.BatchWrite(this, willErase, hashBlock);
      }
    }

    method Flush()
      requires Valid() && (|Bests()| == 2 ==> Bests()[0] != 0)
      modifies Repr
      ensures Valid() && View() == old(View()) && BaseView() == old(View()) && cacheCoins == map[]
      ensures Bests() == old(Bests())[1 := old(Bests())[0]]
    {
      hide Listed, Contents, Visible, Coherent, TotalUsage, Unspent, Cleaned, Flagging;
      WriteDown(true);
      Clear();
      cachedCoinsUsage := 0;
      EmptySound(BaseView());
    }

    method Sync()
      requires Valid() && (|Bests()| == 2 ==> Bests()[0] != 0)
      modifies Repr
      ensures Valid() && View() == old(View()) && BaseView() == old(View())
      ensures order == [] && forall k :: k in cacheCoins ==> !cacheCoins[k].Flagged()
      ensures Bests() == old(Bests())[1 := old(Bests())[0]]
    {
      hide Listed, Contents, Visible, Coherent, TotalUsage, Unspent, Cleaned, Flagging;
      ghost var o := order;
      SyncedSound(cacheCoins, sentinel, o, BaseView());
      WriteDown(false);
      assert o[..|o|] == o;
      ListedIs(cacheCoins, sentinel, order);
      // Where the list is not empty, the program throws.
      assert sentinel.next == Sentinel;
    }

    /** Flushes the cache that is n levels below this one. */
    method FlushAt(n: nat)
      requires Valid() && MayWrite(Bests(), n)
      modifies Repr
      ensures Valid() && View() == old(View()) && Bests() == WrittenAt(old(Bests()), n)
      decreases level
    {
      hide Own, Visible, Coherent, Unspent, PlaceOf, MayWrite, WrittenAt;
      if n == 0 || base == null {
        PlaceTop(Bests(), n);
        Flush();
      } else {
        PlaceBelow(hashBlock, base.Bests(), n, 0);
        base.FlushAt(n - 1);
      }
    }

    method SyncAt(n: nat)
      requires Valid() && MayWrite(Bests(), n)
      modifies Repr
      ensures Valid() && View() == old(View()) && Bests() == WrittenAt(old(Bests()), n)
      decreases level
    {
      hide Own, Visible, Coherent, Unspent, PlaceOf, MayWrite, WrittenAt;
      if n == 0 || base == null {
        PlaceTop(Bests(), n);
        Sync();
      } else {
        PlaceBelow(hashBlock, base.Bests(), n, 0);
        base.SyncAt(n - 1);
      }
    }

    method UncacheAt(n: nat, outpoint: OutPoint)
      requires Valid()
      modifies Repr
      ensures Valid() && View() == old(View()) && Bests() == old(Bests())
      decreases level
    {
      hide Own, Visible, Coherent, Unspent;
      if n == 0 || base == null {
        Uncache(outpoint);
      } else {
        base.UncacheAt(n - 1, outpoint);
      }
    }

    // -------------------------------------------------------------------------------------
    // Best blocks

    /** Sets the best block of the cache that is n levels below this one. */
    method SetBestBlockAt(n: nat, hashBlockIn: nat)
      requires Valid()
      modifies Repr
      ensures Valid() && View() == old(View()) && Bests() == old(Bests())[PlaceOf(old(Bests()), n) := hashBlockIn]
      decreases level
    {
      hide Listed, Contents, Visible, Coherent, TotalUsage, Unspent;
      if n == 0 || base == null {
        PlaceTop(Bests(), n);
        hashBlock := hashBlockIn;
      } else {
        PlaceBelow(hashBlock, base.Bests(), n, hashBlockIn);
        base.SetBestBlockAt(n - 1, hashBlockIn);
      }
    }

    /** The best block, which a cache without one takes over from the one below. */
    method GetBestBlock() returns (hash: nat)
      requires Valid()
      modifies Repr
      ensures Valid() && View() == old(View()) && BaseView() == old(BaseView())
      ensures Bests() == Filled(old(Bests())) && hash == Bests()[0]
      decreases level
    {
      hide Listed, Contents, Visible, Coherent, TotalUsage, Unspent;
      if hashBlock == 0 {
        if base != null {
          hashBlock := base.GetBestBlock();
        } else {
          hashBlock := db.bestBlock;
        }
      }
      hash := hashBlock;
    }

    // -------------------------------------------------------------------------------------
    // Self-check

    /** Whether every assertion of the program's self-check holds. */
    method SanityCheck() returns (ok: bool)
      requires Valid()
      ensures ok
    {
      hide Listed, Contents, Visible, Coherent, TotalUsage, Unspent, BaseView;
      ok := true;
      var recomputedUsage, countFlagged := 0, 0;
      var keys := cacheCoins.Keys;
      ghost var e := Entries();
      ghost var m := cacheCoins;
      EntriesKeys(m);
      OnlyAll(e);
      AllCounted(m);
      while keys != {}
        invariant keys <= m.Keys && e.Keys == m.Keys && ok
        invariant recomputedUsage + TotalUsage(Only(e, keys)) == TotalUsage(e)
        invariant countFlagged + |FlaggedIn(m, keys)| == |FlaggedIn(m, m.Keys)|
        decreases |keys|
      {
        var k :| k in keys;
        EntryAt(m, BaseView(), k);
        var attr := (if cacheCoins[k].isDirty then 1 else 0) + (if cacheCoins[k].isFresh then 2 else 0)
                    + (if cacheCoins[k].coin.IsSpent() then 4 else 0);
        ok := ok && attr != 2 && attr != 4 && attr != 7;
        recomputedUsage := recomputedUsage + cacheCoins[k].coin.DynamicMemoryUsage();
        if cacheCoins[k].Flagged() {
          countFlagged := countFlagged + 1;
        }
        OnlyMinus(e, keys, k);
        CountedMinus(m, keys, k);
        keys := keys - {k};
      }
      OnlyNone(e, m);
      ListedIs(m, sentinel, order);
      CountedList(m, sentinel, order);
      var countLinked := 0;
      var it := sentinel.next;
      while it != Sentinel
        invariant 0 <= countLinked <= |order| && it == NodeAt(order, countLinked) && ok
        decreases |order| - countLinked
      {
        assert LinkedAt(m, order, countLinked);
        assert countLinked > 0 ==> LinkedAt(m, order, countLinked - 1);
        assert countLinked + 1 < |order| ==> LinkedAt(m, order, countLinked + 1);
        var links := cacheCoins[it.key].links;
        var nextPrev := if links.next == Sentinel then sentinel.prev else cacheCoins[links.next.key].links.prev;
        var prevNext := if links.prev == Sentinel then sentinel.next else cacheCoins[links.prev.key].links.next;
        ok := ok && nextPrev == it && prevNext == it && cacheCoins[it.key].Flagged();
        it := links.next;
        countLinked := countLinked + 1;
      }
      ok := ok && countLinked == countFlagged && recomputedUsage == cachedCoinsUsage;
    }
  }

  // ---------------------------------------------------------------------------------------
  // Small steps on the map

  lemma {:induction false} Emplaced(m: map<OutPoint, CacheEntry>, s: Links, order: seq<OutPoint>, k: OutPoint)
    requires Listed(m, s, order) && k !in m
    ensures Listed(m[k := CacheEntry(NULL_COIN, false, false, NO_LINKS)], s, order)
    ensures Contents(m[k := CacheEntry(NULL_COIN, false, false, NO_LINKS)]) ==
        Contents(m)[k := Bare(NULL_COIN, false, false)]
  {
    var e := CacheEntry(NULL_COIN, false, false, NO_LINKS);
    ListedIs(m, s, order);
    ContentsStore(m, k, e);
    hide Listed, Contents;
    var m2 := m[k := e];
    forall i | 0 <= i < |order|
      ensures LinkedAt(m2, order, i) && order[i] != k
    {
      assert LinkedAt(m, order, i);
    }
    MakeListed(m2, s, order);
  }

  lemma {:induction false} Recoined(m: map<OutPoint, CacheEntry>, s: Links, order: seq<OutPoint>, k: OutPoint,
      coin: Coin)
    requires Listed(m, s, order) && k in m
    ensures Listed(m[k := m[k].(coin := coin)], s, order)
    ensures Contents(m[k := m[k].(coin := coin)]) == Contents(m)[k := Bare(coin, m[k].isDirty, m[k].isFresh)]
  {
    var m2 := m[k := m[k].(coin := coin)];
    forall i | 0 <= i < |order|
      ensures LinkedAt(m2, order, i)
    {
      assert LinkedAt(m, order, i);
    }
  }

  lemma {:induction false} Reflagged(m: map<OutPoint, CacheEntry>, s: Links, order: seq<OutPoint>, k: OutPoint,
      dirty: bool, isFresh: bool)
    requires Listed(m, s, order) && k in m && m[k].Flagged()
    ensures var e := m[k].(isDirty := m[k].isDirty || dirty, isFresh := m[k].isFresh || isFresh);
            && Listed(m[k := e], s, order)
            && Contents(m[k := e]) == Contents(m)[k := Stripped(e)]
  {
    var e := m[k].(isDirty := m[k].isDirty || dirty, isFresh := m[k].isFresh || isFresh);
    var m2 := m[k := e];
    forall i | 0 <= i < |order|
      ensures LinkedAt(m2, order, i)
    {
      assert LinkedAt(m, order, i);
    }
  }

  lemma ContentsStore(m: map<OutPoint, CacheEntry>, k: OutPoint, e: CacheEntry)
    ensures Contents(m[k := e]) == Contents(m)[k := Stripped(e)]
  {
  }

  lemma ContentsAt(m: map<OutPoint, CacheEntry>, m2: map<OutPoint, CacheEntry>, k: OutPoint)
    requires Contents(m) == Contents(m2) && k in m
    ensures k in m2 && Stripped(m2[k]) == Stripped(m[k])
  {
    assert k in Contents(m);
    assert Contents(m)[k] == Contents(m2)[k];
  }

  lemma ContentsSame(m: map<OutPoint, CacheEntry>, k: OutPoint)
    requires k in m
    ensures Contents(m) == Contents(m)[k := Stripped(m[k])]
  {
  }

  /** Unlinking, step by step. */
  lemma UnlinkKeys(m: map<OutPoint, CacheEntry>, s: Links, k: OutPoint)
    requires k in m
    ensures var (m1, s1) := PointPrev(m, s, m[k].links.next, m[k].links.prev);
            var (m2, s2) := PointNext(m1, s1, m[k].links.prev, m[k].links.next);
            k in m2 && Unlink(m, s, k) == (m2[k := m2[k].(isDirty := false, isFresh := false, links := NO_LINKS)], s2)
                && m2[k].coin == m[k].coin
  {
  }

  lemma NoOther(order: seq<OutPoint>, i: nat)
    requires Distinct(order) && i < |order|
    ensures forall j :: 0 <= j < |order| && order[j] == order[i] ==> j == i
  {
  }

  lemma Overwrite(e: map<OutPoint, Bare>, k: OutPoint, a: Bare, b: Bare)
    ensures e[k := a][k := b] == e[k := b]
  {
  }

  lemma {:induction false} Erased(m: map<OutPoint, CacheEntry>, s: Links, order: seq<OutPoint>, k: OutPoint)
    requires Listed(m, s, order) && k !in order
    ensures Listed(m - {k}, s, order)
  {
    forall i | 0 <= i < |order|
      ensures LinkedAt(m - {k}, order, i)
    {
      assert LinkedAt(m, order, i);
    }
  }

  lemma ContentsErase(m: map<OutPoint, CacheEntry>, k: OutPoint)
    ensures Contents(m - {k}) == Contents(m) - {k}
  {
  }

  lemma {:induction false} EntryAt(m: map<OutPoint, CacheEntry>, below: View, k: OutPoint)
    requires Coherent(Contents(m), below)
    ensures k in m <==> k in Contents(m)
    ensures k in m ==> Contents(m)[k] == Stripped(m[k]) && Sound(k, Stripped(m[k]), below)
    ensures k in Visible(Contents(m), below) <==> if k in m then !m[k].coin.IsSpent() else k in below
    ensures k in Visible(Contents(m), below) ==> Visible(Contents(m), below)[k] == if k in m then m[k].coin
        else below[k]
  {
  }

  lemma {:induction false} Fetched(e: map<OutPoint, Bare>, below: View, k: OutPoint, coin: Coin)
    requires Coherent(e, below) && k !in e && k in below && below[k] == coin && Unspent(below)
    ensures Coherent(e[k := Bare(coin, false, false)], below)
    ensures Visible(e[k := Bare(coin, false, false)], below) == Visible(e, below)
    ensures TotalUsage(e[k := Bare(coin, false, false)]) == TotalUsage(e) + coin.DynamicMemoryUsage()
  {
    StoreSound(e, below, k, Bare(coin, false, false));
    UsageStore(e, k, Bare(coin, false, false));
  }

  lemma BackAgain(e: map<OutPoint, Bare>, k: OutPoint, b: Bare)
    requires k !in e
    ensures e[k := b] - {k} == e
  {
  }

  /** The place among the best blocks of the cache n levels below, or of the lowest one. */
  function PlaceOf(bests: seq<nat>, n: nat): (d: nat)
    requires |bests| >= 2
    ensures d + 1 < |bests|
  {
    if n + 2 <= |bests| then n else |bests| - 2
  }

  /** What is written to the database must have a best block. */
  predicate MayWrite(bests: seq<nat>, n: nat)
    requires |bests| >= 2
  {
    PlaceOf(bests, n) + 2 == |bests| ==> bests[PlaceOf(bests, n)] != 0
  }

  /** Writing hands the best block down. */
  function WrittenAt(bests: seq<nat>, n: nat): seq<nat>
    requires |bests| >= 2
  {
    bests[PlaceOf(bests, n) + 1 := bests[PlaceOf(bests, n)]]
  }

  lemma HandedDown(h: nat, rest: seq<nat>)
    requires rest != []
    ensures ([h] + rest)[1 := h] == [h] + ([h] + rest[1..])
  {
  }

  lemma PlaceTop(bests: seq<nat>, n: nat)
    requires |bests| >= 2 && (n == 0 || |bests| == 2)
    ensures PlaceOf(bests, n) == 0 && WrittenAt(bests, n) == bests[1 := bests[0]]
    ensures (MayWrite(bests, n) ==> (|bests| == 2 ==> bests[0] != 0))
  {
  }

  lemma PlaceBelow(h: nat, rest: seq<nat>, n: nat, x: nat)
    requires |rest| >= 2 && n > 0
    ensures MayWrite([h] + rest, n) <==> MayWrite(rest, n - 1)
    ensures WrittenAt([h] + rest, n) == [h] + WrittenAt(rest, n - 1)
    ensures ([h] + rest)[PlaceOf([h] + rest, n) := x] == [h] + rest[PlaceOf(rest, n - 1) := x]
  {
  }

  /** A cache without a best block takes over that of the one below. */
  ghost function Filled(bests: seq<nat>): (r: seq<nat>)
    requires bests != []
    ensures |r| == |bests|
  {
    if bests[0] != 0 || |bests| == 1 then bests else
      var rest := Filled(bests[1..]);
      [rest[0]] + rest
  }

  lemma Usages(e: map<OutPoint, Bare>, k: OutPoint)
    ensures k in e ==> TotalUsage(e) == e[k].coin.DynamicMemoryUsage() + TotalUsage(e - {k})
    ensures k !in e ==> e - {k} == e
  {
    if k in e {
      UsageWithout(e, k);
    }
  }

  lemma NotThere(v: View, k: OutPoint)
    requires k !in v
    ensures v - {k} == v
  {
  }

  lemma SameThere(v: View, k: OutPoint)
    requires k in v
    ensures v[k := v[k]] == v
  {
  }

  lemma ContentsIs(m: map<OutPoint, CacheEntry>, k: OutPoint)
    ensures k in Contents(m) <==> k in m
    ensures k in m ==> Contents(m)[k] == Stripped(m[k])
  {
  }

  lemma GoneAt(m: map<OutPoint, CacheEntry>, e: map<OutPoint, Bare>, k: OutPoint)
    requires Contents(m) == e - {k}
    ensures k !in m
  {
    ContentsIs(m, k);
  }

  // ---------------------------------------------------------------------------------------
  // Walking over the list

  /** o lists the flagged entries of m. */
  ghost predicate Flagging(m: map<OutPoint, CacheEntry>, o: seq<OutPoint>) {
    && Distinct(o) && (forall k :: k in o ==> k in m)
    && forall k :: k in m ==> (k in o <==> m[k].Flagged())
  }

  lemma FlaggingIs(m: map<OutPoint, CacheEntry>, o: seq<OutPoint>)
    requires Flagging(m, o)
    ensures Distinct(o)
  {
  }

  lemma {:induction false} AllInMap(m: map<OutPoint, CacheEntry>, o: seq<OutPoint>)
    requires forall i :: 0 <= i < |o| ==> LinkedAt(m, o, i)
    ensures forall k :: k in o ==> k in m
  {
    forall k | k in o
      ensures k in m
    {
      var i := FindInList(o, k);
      assert LinkedAt(m, o, i);
    }
  }

  lemma {:induction false} WalkEnd(m: map<OutPoint, CacheEntry>, o: seq<OutPoint>, v: View)
    requires Flagging(m, o) && Coherent(Contents(m), v)
    ensures Overlay(v, Contents(m), Elems(o)) == Visible(Contents(m), v)
  {
    OverlayAll(v, Contents(m), Elems(o));
  }

  lemma VisibleUnspent(c: map<OutPoint, Bare>, v: View)
    requires Unspent(v)
    ensures Unspent(Visible(c, v))
  {
  }

  lemma {:induction false} Shrunk(m: map<OutPoint, CacheEntry>, r: map<OutPoint, CacheEntry>, k: OutPoint)
    requires k in m && Contents(r) == Contents(m) - {k}
    ensures |r| < |m|
  {
    assert Contents(r).Keys == r.Keys && Contents(m).Keys == m.Keys;
    assert (Contents(m) - {k}).Keys == m.Keys - {k};
    assert r.Keys == m.Keys - {k};
  }

  lemma NothingListed(m: map<OutPoint, CacheEntry>, s: Links, o: seq<OutPoint>)
    requires Listed(m, s, o) && m == map[]
    ensures o == [] && Contents(m) == map[]
  {
    assert |o| > 0 ==> LinkedAt(m, o, 0);
  }

  lemma EmptySound(v: View)
    ensures Coherent(map[], v) && Visible(map[], v) == v && TotalUsage(map[]) == 0
  {
  }

  lemma {:induction false} SyncedSound(m: map<OutPoint, CacheEntry>, s: Links, o: seq<OutPoint>, v: View)
    requires Listed(m, s, o) && Coherent(Contents(m), v)
    ensures Coherent(Cleaned(Contents(m), Elems(o)), Visible(Contents(m), v))
    ensures Visible(Cleaned(Contents(m), Elems(o)), Visible(Contents(m), v)) == Visible(Contents(m), v)
  {
    CleanedAll(Contents(m), v, Elems(o));
  }

  // ---------------------------------------------------------------------------------------
  // Counting

  ghost function Only(e: map<OutPoint, Bare>, keys: set<OutPoint>): map<OutPoint, Bare> {
    map k | k in e && k in keys :: e[k]
  }

  ghost function FlaggedIn(m: map<OutPoint, CacheEntry>, keys: set<OutPoint>): set<OutPoint> {
    set k | k in m && k in keys && m[k].Flagged()
  }

  lemma EntriesKeys(m: map<OutPoint, CacheEntry>)
    ensures Contents(m).Keys == m.Keys
  {
  }

  lemma OnlyAll(e: map<OutPoint, Bare>)
    ensures Only(e, e.Keys) == e
  {
  }

  lemma AllCounted(m: map<OutPoint, CacheEntry>)
    ensures FlaggedIn(m, {}) == {}
  {
  }

  lemma {:induction false} OnlyMinus(e: map<OutPoint, Bare>, keys: set<OutPoint>, k: OutPoint)
    requires k in e && k in keys
    ensures TotalUsage(Only(e, keys)) == e[k].coin.DynamicMemoryUsage() + TotalUsage(Only(e, keys - {k}))
  {
    UsageWithout(Only(e, keys), k);
    assert Only(e, keys) - {k} == Only(e, keys - {k});
  }

  lemma {:induction false} CountedMinus(m: map<OutPoint, CacheEntry>, keys: set<OutPoint>, k: OutPoint)
    requires k in m && k in keys
    ensures |FlaggedIn(m, keys)| == |FlaggedIn(m, keys - {k})| + if m[k].Flagged() then 1 else 0
  {
    if m[k].Flagged() {
      assert FlaggedIn(m, keys) == FlaggedIn(m, keys - {k}) + {k};
    } else {
      assert FlaggedIn(m, keys) == FlaggedIn(m, keys - {k});
    }
  }

  lemma OnlyNone(e: map<OutPoint, Bare>, m: map<OutPoint, CacheEntry>)
    ensures TotalUsage(Only(e, {})) == 0 && |FlaggedIn(m, {})| == 0
  {
    assert Only(e, {}) == map[];
    AllCounted(m);
  }

  lemma {:induction false} CountedList(m: map<OutPoint, CacheEntry>, s: Links, o: seq<OutPoint>)
    requires Listed(m, s, o)
    ensures |FlaggedIn(m, m.Keys)| == |o|
  {
    ListedIs(m, s, o);
    AllInMap(m, o);
    assert FlaggedIn(m, m.Keys) == Elems(o);
    DistinctSize(o);
  }
}
