/** What happens to items: unlinking, replacing, bumping and finding them. */
module Lifecycle {
  import opened Common
  import opened Items
  import opened LruSpec
  import opened Recency
  import opened Assoc
  import opened LruLists
  import opened Slabs
  import opened CacheSpec
  import opened Cache
  import opened ItemLaws

  lemma BindsAreOK(c: Cache)
    requires c.Valid()
    ensures BindsOK(c.View())
  {
    hide Cache.Valid, Cache.View, State.Linked;
    forall k | k in c.View().bindings ensures c.View().Linked(c.View().bindings[k]) && c.View().At(c.View().bindings[k]).key == k {
      c.TableIs(k);
      c.LinkedIs(c.View().bindings[k]);
      c.Fields(c.View().bindings[k]);
    }
    forall z | z in c.View().heads && c.View().heads[z].flags.linked
      ensures c.View().heads[z].key in c.View().bindings && c.View().bindings[c.View().heads[z].key] == z
    {
      c.Fields(z);
      c.LinkedIs(z);
    }
  }

  lemma ListsAreInOrder(c: Cache)
    requires c.Valid()
    ensures ListsInOrder(c.View(), c.Account())
  {
    hide HashTab.Valid, Slabs.Valid;
    c.lru.Open();
  }

  lemma FreesAreInOrder(c: Cache)
    requires c.Valid()
    ensures FreesInOrder(c.View(), c.Account())
  {
    hide HashTab.Valid, LruLists.Valid, Slabs.FreeListsOK, Slabs.TagsOK, Placed, Distinct;
    c.slabs.FreesAre();
  }

  /** A valid cache is in order, so the laws of the operations hold of it. */
  lemma CacheInOrder(c: Cache)
    requires c.Valid()
    ensures InOrder(c.View(), c.Account())
  {
    hide *;
    BindsAreOK(c);
    ListsAreInOrder(c);
    FreesAreInOrder(c);
    c.OpenAll();
    IsInOrder(c.View(), c.Account());
  }

  lemma IsInOrder(st: State<Item>, ls: Links<Item>)
    requires Consistent(st.heads, ls, st.holders) && BindsOK(st) && ListsInOrder(st, ls) && FreesInOrder(st, ls)
    ensures InOrder(st, ls)
  {
  }

  /** The state of a linked item once it is out of table and list. */
  lemma OutIsHeld(st: State<Item>, it: Item)
    requires st.Linked(it)
    ensures st.Out(it).Holds(it) && st.Unlink(it) == st.Out(it).Drop(it)
  {
  }

  lemma UnlinkedStays(st: State<Item>, it: Item)
    requires !st.Linked(it)
    ensures st.Unlink(it) == st
  {
  }

  /** Unlinks the item, if it is linked. */
  method DoItemUnlink(c: Cache, it: Item, hv: nat)
    requires c.Valid() && it in c.View().heads && hv == c.tab.hash(it.key)
    modifies c`holders, c.tab`t, c.tab`hashItems, c.tab`startedExpanding, c.tab`bindings, c.tab`nodes, c.tab.primary, c.tab.former
    modifies c.lru`where, c.lru.ls, c.slabs`freeAt, c.slabs.cs`slots, c.slabs.cs`slCurr, c.slabs.cs`free
    modifies c.slabs.home.Keys`flags, c.slabs.home.Keys`refcount, c.slabs.home.Keys`time, c.slabs.home.Keys`clsid
    modifies c.slabs.home.Keys`hNext, (c.slabs.home.Keys + c.guests)`next, (c.slabs.home.Keys + c.guests)`prev
    ensures c.Valid() && c.View() == old(c.View()).Unlink(it)
  {
    hide *;
    c.Fields(it);
    if it.flags.linked {
      OutIsHeld(c.View(), it);
      c.UnlinkOut(it, hv);
      c.DoItemRemove(it);
    } else {
      UnlinkedStays(c.View(), it);
    }
  }

  /** Puts newIt in the place of the linked item `it` of the same key. */
  method DoItemReplace(c: Cache, it: Item, newIt: Item, hv: nat)
    requires c.Valid() && c.View().Linked(it) && c.View().Loose(newIt) && newIt.nbytes >= 2
    requires newIt.key == it.key && hv == c.tab.hash(it.key)
    modifies c`holders, c.tab`t, c.tab`hashItems, c.tab`startedExpanding, c.tab`bindings, c.tab`nodes, c.tab.primary, c.tab.former
    modifies c.lru`where, c.lru.ls, c.slabs`freeAt, c.slabs.cs`slots, c.slabs.cs`slCurr, c.slabs.cs`free
    modifies c.slabs.home.Keys`flags, c.slabs.home.Keys`refcount, c.slabs.home.Keys`time, c.slabs.home.Keys`clsid
    modifies c.slabs.home.Keys`hNext, (c.slabs.home.Keys + c.guests)`next, (c.slabs.home.Keys + c.guests)`prev
    ensures c.Valid() && c.View() == old(c.View()).Replace(it, newIt, c.now)
  {
    hide *;
    c.LinkedIs(it);
    c.Fields(it);
    c.LooseIs(newIt);
    ReplaceIs(c.View(), it, newIt, c.now);
    DoItemUnlink(c, it, hv);
    c.DoItemLink(newIt, hv);
  }

  lemma ReplaceIs(st: State<Item>, it: Item, newIt: Item, now: nat)
    requires st.Linked(it) && st.Loose(newIt)
    ensures st.Unlink(it).Loose(newIt) && st.At(it).key !in st.Unlink(it).bindings
    ensures st.Replace(it, newIt, now) == st.Unlink(it).Link(newIt, now)
  {
  }

  /** Moves the item to the head of its list, unless it was touched within the last minute. */
  method DoItemUpdateNolock(c: Cache, it: Item)
    requires c.Valid() && c.View().Holds(it)
    modifies c`holders, c.tab`t, c.tab`hashItems, c.tab`startedExpanding, c.tab`bindings, c.tab`nodes, c.tab.primary, c.tab.former
    modifies c.lru`where, c.lru.ls, c.slabs`freeAt, c.slabs.cs`slots, c.slabs.cs`slCurr, c.slabs.cs`free
    modifies c.slabs.home.Keys`flags, c.slabs.home.Keys`refcount, c.slabs.home.Keys`time, c.slabs.home.Keys`clsid
    modifies c.slabs.home.Keys`hNext, (c.slabs.home.Keys + c.guests)`next, (c.slabs.home.Keys + c.guests)`prev
    ensures c.Valid() && c.View() == old(c.View()).UpdateNolock(it, c.now)
  {
    hide *;
    c.HoldsIs(it);
    c.Fields(it);
    c.InRange(it);
    UpdateIs(c.View(), it, c.now);
    if Stale(it.time, c.now) && it.flags.linked {
      c.Stamp(it);
      c.Relist(it, it.clsid);
    }
  }

  lemma UpdateIs(st: State<Item>, it: Item, now: nat)
    requires it in st.heads
    ensures !(Stale(st.At(it).time, now) && st.Linked(it)) ==> st.UpdateNolock(it, now) == st
    ensures st.Linked(it) ==> st.Stamp(it, now).Linked(it)
    ensures st.Linked(it) && Stale(st.At(it).time, now) ==> st.UpdateNolock(it, now) == st.Stamp(it, now).Relist(it, st.At(it).clsid)
    ensures st.Update(it, now, false) == st.UpdateNolock(it, now)
  {
  }

  lemma UpdateSegmented(st: State<Item>, it: Item, now: nat)
    requires it in st.heads
    ensures var h := st.At(it);
      if st.Linked(it) && LruOf(h.clsid) == COLD_LRU && h.flags.active then
        var f, id := h.flags.(active := false), ClassOf(h.clsid) + WARM_LRU;
        && st.Update(it, now, true) == st.Stamp(it, now).Flag(it, f).Relist(it, id)
        && 0 <= id < LIST_COUNT && ClassOf(id) == ClassOf(h.clsid) && !f.slabbed == !h.flags.slabbed && f.linked
      else if st.Linked(it) && Stale(h.time, now) then st.Update(it, now, true) == st.Stamp(it, now)
      else st.Update(it, now, true) == st
  {
  }

  /** An edit of flags or time leaves the rest of the header. */
  lemma EditIs(st: State<Item>, it: Item, f: Flags, now: nat)
    requires it in st.heads
    ensures st.Stamp(it, now).At(it) == st.At(it).(time := now) && it in st.Stamp(it, now).heads
    ensures st.Flag(it, f).At(it) == st.At(it).(flags := f) && it in st.Flag(it, f).heads
    ensures st.Holds(it) ==> st.Stamp(it, now).Holds(it) && st.Flag(it, f).Holds(it)
    ensures st.Linked(it) == st.Stamp(it, now).Linked(it) && st.Flag(it, f).Linked(it) == f.linked
  {
  }

  /** A hit on a linked item in segmented mode: from COLD to WARM if it is active, else a new time. */
  method UpdateLinked(c: Cache, it: Item)
    requires c.Valid() && c.View().Holds(it) && c.View().Linked(it) && c.settings.segmented
    modifies c`holders, c.tab`t, c.tab`hashItems, c.tab`startedExpanding, c.tab`bindings, c.tab`nodes, c.tab.primary, c.tab.former
    modifies c.lru`where, c.lru.ls, c.slabs`freeAt, c.slabs.cs`slots, c.slabs.cs`slCurr, c.slabs.cs`free
    modifies c.slabs.home.Keys`flags, c.slabs.home.Keys`refcount, c.slabs.home.Keys`time, c.slabs.home.Keys`clsid
    modifies c.slabs.home.Keys`hNext, (c.slabs.home.Keys + c.guests)`next, (c.slabs.home.Keys + c.guests)`prev
    ensures c.Valid() && c.View() == old(c.View()).Update(it, c.now, true)
  {
    hide *;
    c.HoldsIs(it);
    c.Fields(it);
    ghost var st := c.View();
    UpdateSegmented(st, it, c.now);
    EditIs(st, it, it.flags.(active := false), c.now);
    EditIs(st.Stamp(it, c.now), it, it.flags.(active := false), c.now);
    if LruOf(it.clsid) == COLD_LRU && it.flags.active {
      c.Stamp(it);
      c.SetFlags(it, it.flags.(active := false));
      c.Relist(it, ClassOf(it.clsid) + WARM_LRU);
    } else if Stale(it.time, c.now) {
      c.Stamp(it);
    }
  }

  /** A hit moves the item to the head of its list, or, in segmented mode, from COLD to WARM. */
  method DoItemUpdate(c: Cache, it: Item)
    requires c.Valid() && c.View().Holds(it)
    modifies c`holders, c.tab`t, c.tab`hashItems, c.tab`startedExpanding, c.tab`bindings, c.tab`nodes, c.tab.primary, c.tab.former
    modifies c.lru`where, c.lru.ls, c.slabs`freeAt, c.slabs.cs`slots, c.slabs.cs`slCurr, c.slabs.cs`free
    modifies c.slabs.home.Keys`flags, c.slabs.home.Keys`refcount, c.slabs.home.Keys`time, c.slabs.home.Keys`clsid
    modifies c.slabs.home.Keys`hNext, (c.slabs.home.Keys + c.guests)`next, (c.slabs.home.Keys + c.guests)`prev
    ensures c.Valid() && c.View() == old(c.View()).Update(it, c.now, c.settings.segmented)
  {
    hide *;
    c.HoldsIs(it);
    c.Fields(it);
    UpdateIs(c.View(), it, c.now);
    if c.settings.segmented {
      UpdateSegmented(c.View(), it, c.now);
      if it.flags.linked {
        UpdateLinked(c, it);
      }
    } else {
      DoItemUpdateNolock(c, it);
    }
  }

  lemma RetireIs(st: State<Item>, it: Item)
    requires st.Linked(it)
    ensures it in st.Hold(it).heads && st.Hold(it).Unlink(it).Holds(it)
    ensures st.Retire(it) == st.Hold(it).Unlink(it).Drop(it)
  {
  }

  lemma GetIs(st: State<Item>, key: Key, now: nat, settings: Settings, update: bool, room: bool)
    ensures key !in st.bindings ==> st.Get(key, now, settings, update, room) == st
    ensures key in st.bindings ==>
              var it := st.bindings[key];
              st.Get(key, now, settings, update, room) ==
              if st.At(it).Gone(settings.oldestLive, now) then st.Retire(it)
              else if update then st.Hold(it).Hit(it, now, settings.segmented, room)
              else st.Hold(it)
  {
  }

  lemma HitIs(st: State<Item>, it: Item, now: nat, segmented: bool, room: bool)
    requires it in st.heads
    ensures st.Hit(it, now, segmented, room) ==
            var f := st.At(it).flags;
            if !segmented then st.Flag(it, f.(fetched := true)).Update(it, now, false)
            else if f.active then st
            else if !f.fetched then st.Flag(it, f.(fetched := true))
            else if LruOf(st.At(it).clsid) != COLD_LRU then st.Flag(it, f.(active := true)).Update(it, now, true)
            else if room then st.Flag(it, f.(active := true)).Hold(it)
            else st.Flag(it, f.(active := true)).Flag(it, f)
    ensures var f := st.At(it).flags; f.(active := true).(active := false) == f || f.active
  {
  }

  /** A hit.  `room` says whether the bump buffer takes one more entry; `queued` tells that it did,
      and that the entry holds a reference of its own. */
  method Touch(c: Cache, it: Item, room: bool) returns (queued: bool)
    requires c.Valid() && c.View().Holds(it)
    modifies c`holders, c.tab`t, c.tab`hashItems, c.tab`startedExpanding, c.tab`bindings, c.tab`nodes, c.tab.primary, c.tab.former
    modifies c.lru`where, c.lru.ls, c.slabs`freeAt, c.slabs.cs`slots, c.slabs.cs`slCurr, c.slabs.cs`free
    modifies c.slabs.home.Keys`flags, c.slabs.home.Keys`refcount, c.slabs.home.Keys`time, c.slabs.home.Keys`clsid
    modifies c.slabs.home.Keys`hNext, (c.slabs.home.Keys + c.guests)`next, (c.slabs.home.Keys + c.guests)`prev
    ensures c.Valid() && c.View() == old(c.View()).Hit(it, c.now, c.settings.segmented, room)
    ensures queued == (room && c.settings.segmented && !old(it.flags).active && old(it.flags).fetched && LruOf(old(it.clsid)) == COLD_LRU)
  {
    hide *;
    c.HoldsIs(it);
    c.Fields(it);
    ghost var st := c.View();
    HitIs(st, it, c.now, c.settings.segmented, room);
    EditIs(st, it, it.flags.(active := true), c.now);
    EditIs(st, it, it.flags.(fetched := true), c.now);
    queued := false;
    if c.settings.segmented {
      if !it.flags.active {
        if !it.flags.fetched {
          c.SetFlags(it, it.flags.(fetched := true));
        } else {
          c.SetFlags(it, it.flags.(active := true));
          if LruOf(it.clsid) != COLD_LRU {
            DoItemUpdate(c, it);
          } else if room {
            c.Hold(it);
            queued := true;
          } else {
            c.SetFlags(it, it.flags.(active := false));
          }
        }
      }
    } else {
      c.SetFlags(it, it.flags.(fetched := true));
      DoItemUpdate(c, it);
    }
  }

  lemma GoneIs(h: Head, flush: nat, now: nat)
    ensures !h.Gone(flush, now) <==> (h.exptime == 0 || now < h.exptime) && (flush == 0 || now < flush || flush < h.time)
  {
  }

  /** Finds the item of a key and takes a reference to it; an expired or flushed one is retired. */
  method DoItemGet(c: Cache, key: Key, hv: nat, update: bool, room: bool) returns (it: Item?, queued: bool)
    requires c.Valid() && hv == c.tab.hash(key)
    modifies c`holders, c.tab`t, c.tab`hashItems, c.tab`startedExpanding, c.tab`bindings, c.tab`nodes, c.tab.primary, c.tab.former
    modifies c.lru`where, c.lru.ls, c.slabs`freeAt, c.slabs.cs`slots, c.slabs.cs`slCurr, c.slabs.cs`free
    modifies c.slabs.home.Keys`flags, c.slabs.home.Keys`refcount, c.slabs.home.Keys`time, c.slabs.home.Keys`clsid
    modifies c.slabs.home.Keys`hNext, (c.slabs.home.Keys + c.guests)`next, (c.slabs.home.Keys + c.guests)`prev
    ensures c.Valid() && c.View() == old(c.View()).Get(key, c.now, c.settings, update, room)
    ensures it == if key in old(c.View()).bindings && !old(c.View()).At(old(c.View()).bindings[key]).Gone(c.settings.oldestLive, c.now)
                  then old(c.View()).bindings[key] else null
    ensures key in old(c.View()).bindings ==>
              var h, flush := old(c.View()).At(old(c.View()).bindings[key]), c.settings.oldestLive;
              it != null <==> (h.exptime == 0 || c.now < h.exptime) && (flush == 0 || c.now < flush || flush < h.time)
    ensures queued ==> it != null && room
  {
    hide *;
    ghost var st := c.View();
    GetIs(st, key, c.now, c.settings, update, room);
    c.TableIs(key);
    it := c.tab.Find(key, hv);
    queued := false;
    if it != null {
      RetireIs(st, it);
      HoldKeeps(st, it);
      c.Fields(it);
      var gone := c.IsGone(it);
      GoneIs(st.At(it), c.settings.oldestLive, c.now);
      c.Hold(it);
      if gone {
        DoItemUnlink(c, it, hv);
        c.DoItemRemove(it);
        it := null;
      } else if update {
        queued := Touch(c, it, room);
      }
    }
  }

  lemma HoldKeeps(st: State<Item>, it: Item)
    requires st.Linked(it)
    ensures it in st.heads && st.Hold(it).Holds(it) && it in st.Hold(it).heads
  {
  }

  // ---------------------------------------------------------------- asynchronous bumps

  /** sizeof(lru_bump_entry) */
  const ENTRY_SIZE := 16

  datatype Bump = Bump(it: Item, hv: nat)

  /** Each entry is one of the references held. */
  ghost predicate Queued(st: State<Item>, bumps: seq<Bump>) {
    forall i :: 0 <= i < |bumps| ==> bumps[i].it in st.heads && Entries(bumps, bumps[i].it) <= Held(st.holders, bumps[i].it)
  }

  /** The number of entries of an item. */
  ghost function Entries(bumps: seq<Bump>, x: Item): nat {
    if bumps == [] then 0 else (if bumps[0].it == x then 1 else 0) + Entries(bumps[1..], x)
  }

  ghost function Bumped(st: State<Item>, bumps: seq<Bump>, now: nat, segmented: bool): State<Item>
    decreases |bumps|
  {
    if bumps == [] then st
    else Bumped(st.Update(bumps[0].it, now, segmented).Drop(bumps[0].it), bumps[1..], now, segmented)
  }

  lemma BumpOne(st: State<Item>, bumps: seq<Bump>, now: nat, segmented: bool)
    requires Queued(st, bumps) && bumps != []
    ensures var it := bumps[0].it;
            && st.Holds(it) && st.Update(it, now, segmented).Holds(it)
            && Queued(st.Update(it, now, segmented).Drop(it), bumps[1..])
            && Bumped(st, bumps, now, segmented) == Bumped(st.Update(it, now, segmented).Drop(it), bumps[1..], now, segmented)
            && forall x :: Held(st.Update(it, now, segmented).Drop(it).holders, x) == Held(st.holders, x) - (if x == it then 1 else 0)
  {
    var it := bumps[0].it;
    assert Entries(bumps, it) > 0;
    UpdateKeepsHolders(st, it, now, segmented);
    var st' := st.Update(it, now, segmented).Drop(it);
    forall i | 0 <= i < |bumps[1..]| ensures bumps[1..][i].it in st'.heads && Entries(bumps[1..], bumps[1..][i].it) <= Held(st'.holders, bumps[1..][i].it) {
      assert bumps[1..][i] == bumps[i + 1];
    }
  }

  lemma UpdateKeepsHolders(st: State<Item>, it: Item, now: nat, segmented: bool)
    requires it in st.heads
    ensures st.Update(it, now, segmented).holders == st.holders && st.Update(it, now, segmented).heads.Keys == st.heads.Keys
  {
  }

  /** Every entry lets go of exactly the reference it held. */
  lemma {:induction false} BumpsRelease(st: State<Item>, bumps: seq<Bump>, now: nat, segmented: bool, x: Item)
    requires Queued(st, bumps)
    ensures Held(Bumped(st, bumps, now, segmented).holders, x) == Held(st.holders, x) - Entries(bumps, x)
    decreases |bumps|
  {
    if bumps != [] {
      BumpOne(st, bumps, now, segmented);
      var it := bumps[0].it;
      BumpsRelease(st.Update(it, now, segmented).Drop(it), bumps[1..], now, segmented, x);
    }
  }

  lemma Rest(bumps: seq<Bump>, i: nat)
    requires i <= |bumps|
    ensures bumps[0..] == bumps && ENTRY_SIZE == 16
    ensures i < |bumps| ==> bumps[i..] != [] && bumps[i..][0] == bumps[i] && bumps[i..][1..] == bumps[i + 1..]
  {
  }

  lemma NoBumps(st: State<Item>, bumps: seq<Bump>, now: nat, segmented: bool)
    requires bumps == []
    ensures Bumped(st, bumps, now, segmented) == st
  {
  }

  /** Works off the entries peeked from a bump buffer; `size` is the number of bytes they take. */
  method LruMaintainerBumps(c: Cache, bumps: seq<Bump>, size: nat)
    requires c.Valid() && Queued(c.View(), bumps) && size == |bumps| * ENTRY_SIZE
    modifies c`holders, c.tab`t, c.tab`hashItems, c.tab`startedExpanding, c.tab`bindings, c.tab`nodes, c.tab.primary, c.tab.former
    modifies c.lru`where, c.lru.ls, c.slabs`freeAt, c.slabs.cs`slots, c.slabs.cs`slCurr, c.slabs.cs`free
    modifies c.slabs.home.Keys`flags, c.slabs.home.Keys`refcount, c.slabs.home.Keys`time, c.slabs.home.Keys`clsid
    modifies c.slabs.home.Keys`hNext, (c.slabs.home.Keys + c.guests)`next, (c.slabs.home.Keys + c.guests)`prev
    ensures c.Valid() && c.View() == Bumped(old(c.View()), bumps, c.now, c.settings.segmented)
  {
    hide *;
    var todo, i := size, 0;
    Rest(bumps, 0);
    while todo != 0
      invariant i <= |bumps| && todo == (|bumps| - i) * 16
      invariant c.Valid() && Queued(c.View(), bumps[i..])
      invariant Bumped(c.View(), bumps[i..], c.now, c.settings.segmented) == Bumped(old(c.View()), bumps, c.now, c.settings.segmented)
      decreases todo
    {
      BumpOne(c.View(), bumps[i..], c.now, c.settings.segmented);
      Rest(bumps, i);
      DoItemUpdate(c, bumps[i].it);
      c.DoItemRemove(bumps[i].it);
      i, todo := i + 1, todo - 16;
    }
    NoBumps(c.View(), bumps[i..], c.now, c.settings.segmented);
  }
}
