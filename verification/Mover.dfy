/** The slab page mover: clears the first page of a class and hands it to another class. */
module Mover {
  import opened Common
  import opened Items
  import opened LruSpec
  import opened Assoc
  import opened SlabClass
  import opened Slabs
  import opened LruLists
  import opened CacheSpec
  import opened Cache
  import opened Lifecycle
  import opened Allocation
  import opened MoverSpec

  /** A cache in order presents the mover with nothing it is not prepared for. */
  lemma FreesAreOK(c: Cache, s: nat)
    requires c.Valid() && s < |c.slabs.cs|
    ensures FreesOK(c.View(), s)
  {
    hide HashTab.Valid;
    c.slabs.OpenFree();
    c.slabs.FreeIsTagged();
    forall x | x in c.View().frees[s] ensures x in c.View().heads && c.View().heads[x].flags == FREE && x !in c.View().holders {
      assert x in c.slabs.freeAt;
      assert Told(x, c.Heads()[x], c.Account(), c.holders);
    }
  }

  lemma ChunkIsMovable(c: Cache, x: Item, s: nat)
    requires c.Valid() && x in c.slabs.home && s < |c.slabs.cs|
    ensures Movable(c.View(), x, s)
  {
    hide HashTab.Valid, LruLists.Valid, Slabs.Valid, BindsOK, FreesOK;
    FreesAreOK(c, s);
    BindsAreOK(c);
    assert Told(x, c.Heads()[x], c.Account(), c.holders);
  }

  // ---------------------------------------------------------------- rescuing

  lemma GrabIs(st: State<Item>, page: seq<Item>, s: nat, tries: nat)
    ensures tries == 0 || s >= |st.frees| || st.frees[s] == [] ==> Grab(st, page, s, tries) == (st, None)
    ensures tries > 0 && s < |st.frees| && st.frees[s] != [] ==>
              var x := st.frees[s][0];
              && Grab(st, page, s, tries) == (if x in page then Grab(st.Take(s, x).Clear(x), page, s, tries - 1) else (st.Take(s, x), Some(x)))
  {
  }

  /** What a chunk just taken looks like. */
  lemma TakenLoose(st: State<Item>, s: nat, x: Item)
    requires st.At(x).flags == FREE && x !in st.holders
    ensures x in st.Take(s, x).heads && Held(st.Take(s, x).holders, x) == 0
    ensures !st.Take(s, x).At(x).flags.linked && !st.Take(s, x).At(x).flags.slabbed
  {
  }

  /** slab_rebalance_alloc: a free chunk outside the page, without taking a new page for it. */
  method SlabRebalanceAlloc(c: Cache, page: seq<Item>, s: nat) returns (y: Item?)
    requires c.Valid() && s < |c.slabs.cs|
    modifies c`raw, c`holders, c.slabs`freeAt, c.slabs.cs`slots, c.slabs.cs`slCurr, c.slabs.cs`free
    modifies c.slabs.home.Keys`prev, c.slabs.home.Keys`flags, c.slabs.home.Keys`refcount
    ensures c.Valid() && Grab(old(c.View()), page, s, |page|) == (c.View(), if y == null then None else Some(y))
    ensures y == null ==> c.raw == old(c.raw)
    ensures y != null ==> c.raw == old(c.raw) + {y} && y !in old(c.raw) && y in c.slabs.home && c.slabs.home[y] == s
  {
    hide *;
    y := null;
    for x := 0 to |page|
      invariant c.Valid() && c.raw == old(c.raw) && y == null
      invariant Grab(c.View(), page, s, |page| - x) == Grab(old(c.View()), page, s, |page|)
    {
      ghost var st := c.View();
      GrabIs(st, page, s, |page| - x);
      c.ViewHolds();
      y := TakeFree(c, s);
      if y == null {
        return;
      }
      if y !in page {
        return;
      }
      TakenLoose(st, s, y);
      Unraw(old(c.raw), y);
      c.Fields(y);
      c.Clear(y);
      y := null;
    }
    GrabIs(c.View(), page, s, 0);
  }

  // ---------------------------------------------------------------- rescuing and giving up

  /** The steps of a rescue, in order. */
  lemma RescueSteps(st: State<Item>, x: Item, y: Item, now: nat)
    requires st.Linked(x) && st.At(x).refcount == 2 && Held(st.holders, x) == 1 && y != x && y !in st.holders
    ensures var a := st.Own(y, Copied(st.At(x)));
            && Rescue(st, x, y, now) == a.Replace(x, y, now).Clear(x)
            && a.Linked(x) && a.Loose(y)
            && x in a.Replace(x, y, now).heads && Held(a.Replace(x, y, now).holders, x) == 1
            && !a.Replace(x, y, now).At(x).flags.linked && !a.Replace(x, y, now).At(x).flags.slabbed == !st.At(x).flags.slabbed
            && !Copied(st.At(x)).flags.linked && Copied(st.At(x)).flags.slabbed == st.At(x).flags.slabbed
            && Copied(st.At(x)) == st.At(x).(flags := st.At(x).flags.(linked := false), refcount := 0)
  {
    var a := st.Own(y, Copied(st.At(x)));
    UnlinkHeld(a, x);
    LinkCopy(a.Unlink(x), y, st.At(x), now);
  }

  /** Copies the item to y, puts y in its place, and marks its chunk as cleared. */
  method RescueTo(c: Cache, x: Item, y: Item, hv: nat)
    requires c.Valid() && c.View().Linked(x) && c.View().At(x).refcount == 2 && Held(c.View().holders, x) == 1 && hv == c.tab.hash(x.key)
    requires y in c.raw && y in c.slabs.home && x in c.slabs.home && c.slabs.home[y] == c.slabs.home[x]
    modifies c`holders, c.tab`t, c.tab`hashItems, c.tab`startedExpanding, c.tab`bindings, c.tab`nodes, c.tab.primary, c.tab.former
    modifies c.lru`where, c.lru.ls, c.slabs`freeAt, c.slabs.cs`slots, c.slabs.cs`slCurr, c.slabs.cs`free
    modifies c.slabs.home.Keys`flags, c.slabs.home.Keys`refcount, c.slabs.home.Keys`time, c.slabs.home.Keys`clsid
    modifies c.slabs.home.Keys`hNext, (c.slabs.home.Keys + c.guests)`next, (c.slabs.home.Keys + c.guests)`prev
    modifies c`raw, y`exptime, y`nbytes, y`key, y`value
    ensures c.Valid() && c.View() == Rescue(old(c.View()), x, y, c.now) && c.raw == old(c.raw) - {y}
  {
    hide *;
    c.LinkedIs(x);
    c.Fields(x);
    c.RawApart(x, y);
    RescueSteps(c.View(), x, y, c.now);
    c.WriteHeader(y, Head(x.flags.(linked := false), 0, x.time, x.exptime, x.nbytes, x.clsid, x.key, x.value));
    DoItemReplace(c, x, y, hv);
    c.Fields(x);
    c.Clear(x);
  }

  lemma WipeSteps(st: State<Item>, x: Item, s: nat)
    requires st.Linked(x) && st.At(x).refcount == 2 && Held(st.holders, x) == 1
    ensures var a := st.Unlink(x);
            && Wipe(st, x, s) == a.Free(x, s) && x in a.heads && x in a.holders && Held(a.holders, x) <= 1
            && a.At(x) == st.At(x).(flags := st.At(x).flags.(linked := false), refcount := 1)
  {
    UnlinkHeld(st, x);
  }

  /** Unlinks the item and frees its chunk. */
  method WipeOut(c: Cache, x: Item, s: nat, hv: nat)
    requires c.Valid() && c.View().Linked(x) && c.View().At(x).refcount == 2 && Held(c.View().holders, x) == 1 && hv == c.tab.hash(x.key)
    requires x in c.slabs.home && c.slabs.home[x] == s
    modifies c`holders, c.tab`t, c.tab`hashItems, c.tab`startedExpanding, c.tab`bindings, c.tab`nodes, c.tab.primary, c.tab.former
    modifies c.lru`where, c.lru.ls, c.slabs`freeAt, c.slabs.cs`slots, c.slabs.cs`slCurr, c.slabs.cs`free
    modifies c.slabs.home.Keys`flags, c.slabs.home.Keys`refcount, c.slabs.home.Keys`time, c.slabs.home.Keys`clsid
    modifies c.slabs.home.Keys`hNext, (c.slabs.home.Keys + c.guests)`next, (c.slabs.home.Keys + c.guests)`prev
    ensures c.Valid() && c.View() == Wipe(old(c.View()), x, s)
  {
    hide *;
    c.LinkedIs(x);
    c.Fields(x);
    c.NotRaw(x);
    WipeSteps(c.View(), x, s);
    DoItemUnlink(c, x, hv);
    c.Fields(x);
    c.SlabsFree(x, s);
  }

  /** A linked item that only the mover holds.  The result says that the chunk is not cleared yet. */
  method MoveFromLru(c: Cache, x: Item, page: seq<Item>, s: nat, hv: nat) returns (busy: bool)
    requires c.Valid() && c.View().Linked(x) && c.View().At(x).refcount == 2 && Held(c.View().holders, x) == 1 && hv == c.tab.hash(x.key)
    requires x in c.slabs.home && c.slabs.home[x] == s < |c.slabs.cs|
    modifies c`holders, c.tab`t, c.tab`hashItems, c.tab`startedExpanding, c.tab`bindings, c.tab`nodes, c.tab.primary, c.tab.former
    modifies c.lru`where, c.lru.ls, c.slabs`freeAt, c.slabs.cs`slots, c.slabs.cs`slCurr, c.slabs.cs`free
    modifies c.slabs.home.Keys`flags, c.slabs.home.Keys`refcount, c.slabs.home.Keys`time, c.slabs.home.Keys`clsid
    modifies c.slabs.home.Keys`hNext, (c.slabs.home.Keys + c.guests)`next, (c.slabs.home.Keys + c.guests)`prev
    modifies c`raw, c.slabs.home.Keys`exptime, c.slabs.home.Keys`nbytes, c.slabs.home.Keys`key, c.slabs.home.Keys`value
    ensures c.Valid() && (c.View(), busy) == FromLru(old(c.View()), x, page, s, c.now, c.settings) && c.raw == old(c.raw)
  {
    hide *;
    c.LinkedIs(x);
    c.Fields(x);
    FromLruIs(c.View(), x, page, s, c.now, c.settings);
    GrabbedReady(c, x, page, s);
    busy := true;
    var dead := c.IsDead(x);
    if dead {
      WipeOut(c, x, s, hv);
    } else {
      var y := SlabRebalanceAlloc(c, page, s);
      if y == null {
        WipeOut(c, x, s, hv);
      } else {
        Unraw(old(c.raw), y);
        RescueTo(c, x, y, hv);
        busy := false;
      }
    }
  }

  lemma FromLruIs(st: State<Item>, x: Item, page: seq<Item>, s: nat, now: nat, cfg: Settings)
    ensures FromLru(st, x, page, s, now, cfg) ==
            if st.At(x).Dead(cfg.oldestLive, now) then (Wipe(st, x, s), true)
            else
              var (grabbed, y) := Grab(st, page, s, |page|);
              if y.None? then (Wipe(grabbed, x, s), true) else (Rescue(grabbed, x, y.value, now), false)
  {
  }

  /** Grabbing leaves the item as it is. */
  lemma GrabbedReady(c: Cache, x: Item, page: seq<Item>, s: nat)
    requires c.Valid() && s < |c.slabs.cs| && c.View().Linked(x)
    ensures var st := c.View(); var g := Grab(st, page, s, |page|).0;
            g.Linked(x) && g.At(x) == st.At(x) && g.holders == st.holders
  {
    hide HashTab.Valid, LruLists.Valid, Slabs.Valid, BindsOK;
    FreesAreOK(c, s);
    assert Told(x, c.Heads()[x], c.Account(), c.holders);
    GrabFacts(c.View(), page, s, |page|);
  }

  // ---------------------------------------------------------------- one chunk

  lemma MoveOneIs(st: State<Item>, x: Item, page: seq<Item>, s: nat, locked: bool, now: nat, cfg: Settings)
    requires Movable(st, x, s) && (st.At(x).flags.linked ==> st.At(x).refcount > 0 && (x in st.holders ==> st.holders[x] > 0))
    ensures var h := st.At(x);
            && MoveOne(st, x, page, s, locked, now, cfg) == (
              if h.flags == CLEARED then (st, false)
              else if h.flags.slabbed then (st.CutFree(x, s), false)
              else if h.flags.linked && !locked && h.refcount == 1 then FromLru(st.Hold(x), x, page, s, now, cfg)
              else (st, true))
            && (h.flags.slabbed && h.flags != CLEARED ==> h.flags == FREE)
            && (h.flags.linked && !h.flags.slabbed ==>
                  && st.Hold(x).Linked(x) && st.Hold(x).At(x) == h.(refcount := h.refcount + 1) && st.Hold(x).Holds(x)
                  && st.Hold(x).Drop(x) == st && (h.refcount == 1 ==> Held(st.Hold(x).holders, x) == 1))
  {
    var h := st.At(x);
    if h.flags.linked && !h.flags.slabbed {
      assert Taken(Given(st.holders, x), x) == st.holders;
      assert st.Hold(x).Drop(x).heads == st.heads;
    }
  }

  lemma LinkedCount(c: Cache, x: Item)
    requires c.Valid() && x in c.View().heads
    ensures var st := c.View(); st.At(x).flags.linked ==> st.At(x).refcount > 0 && (x in st.holders ==> st.holders[x] > 0)
  {
    hide HashTab.Valid, LruLists.Valid, Slabs.Valid;
    assert Told(x, c.Heads()[x], c.Account(), c.holders);
  }

  /** One turn at one chunk of the page.  `locked` says that another thread holds its stripe.  The
      result says that it is not cleared yet. */
  method MoveChunk(c: Cache, x: Item, page: seq<Item>, s: nat, locked: bool) returns (busy: bool)
    requires c.Valid() && x in c.slabs.home && c.slabs.home[x] == s < |c.slabs.cs|
    modifies c`holders, c.tab`t, c.tab`hashItems, c.tab`startedExpanding, c.tab`bindings, c.tab`nodes, c.tab.primary, c.tab.former
    modifies c.lru`where, c.lru.ls, c.slabs`freeAt, c.slabs.cs`slots, c.slabs.cs`slCurr, c.slabs.cs`free
    modifies c.slabs.home.Keys`flags, c.slabs.home.Keys`refcount, c.slabs.home.Keys`time, c.slabs.home.Keys`clsid
    modifies c.slabs.home.Keys`hNext, (c.slabs.home.Keys + c.guests)`next, (c.slabs.home.Keys + c.guests)`prev
    modifies c`raw, c.slabs.home.Keys`exptime, c.slabs.home.Keys`nbytes, c.slabs.home.Keys`key, c.slabs.home.Keys`value
    ensures c.Valid() && (c.View(), busy) == MoveOne(old(c.View()), x, page, s, locked, c.now, c.settings) && c.raw == old(c.raw)
  {
    hide *;
    ChunkIsMovable(c, x, s);
    c.InView(x);
    c.Fields(x);
    LinkedCount(c, x);
    ghost var st := c.View();
    MoveOneIs(st, x, page, s, locked, c.now, c.settings);
    busy := false;
    if x.flags != CLEARED {
      if x.flags.slabbed {
        c.CutFree(x, s);
      } else if x.flags.linked && !locked {
        c.Hold(x);
        HeldFields(c, x);
        if x.refcount == 2 {
          busy := MoveFromLru(c, x, page, s, c.tab.hash(x.key));
        } else {
          c.DoItemRemove(x);
          busy := true;
        }
      } else {
        busy := true;
      }
    }
  }

  lemma HeldFields(c: Cache, x: Item)
    requires c.Valid() && c.View().Holds(x)
    ensures c.View().At(x).refcount == x.refcount
  {
    hide Cache.Valid, Cache.View;
    c.HoldsIs(x);
    c.Fields(x);
  }

  // ---------------------------------------------------------------- the page

  /** Which page is being cleared, and how far: slab_rebal. */
  class Rebalance {
    const c: Cache
    /** power_largest */
    const largest: nat
    var sClsid: nat
    var dClsid: nat
    var page: Page?
    var pos: nat
    var busyItems: nat
    var done: bool
    var signal: nat

    constructor (c: Cache, largest: nat, s: nat, d: nat)
      ensures this.c == c && this.largest == largest && sClsid == s && dClsid == d && page == null && signal == 1 && busyItems == 0
    {
      this.c, this.largest, sClsid, dClsid := c, largest, s, d;
      page, pos, busyItems, done, signal := null, 0, 0, false, 1;
    }

    ghost function Progress(): Sweep<Item>
      reads this, page
    {
      Sweep(if page == null then [] else page.chunks, pos, busyItems, done)
    }

    /** The page under way is the first of its class, which has another one. */
    ghost predicate UnderWay()
      reads `sClsid, `dClsid, `page, c.slabs.cs`slabList
    {
      && POOL < sClsid <= largest < |c.slabs.cs| && dClsid <= largest && sClsid != dClsid
      && |c.slabs.cs[sClsid].slabList| >= 2 && page == c.slabs.cs[sClsid].slabList[0]
    }

    /** Begins with a page, or says why not. */
    method SlabRebalanceStart() returns (noGo: int)
      requires c.Valid() && sClsid < |c.slabs.cs| && dClsid < |c.slabs.cs| && largest < |c.slabs.cs|
      modifies this, c.slabs`home, c.slabs`freeAt, c.slabs`pageAt, {c.slabs.cs[dClsid]}`listSize
      ensures c.Valid() && c.View() == old(c.View()) && sClsid == old(sClsid) && dClsid == old(dClsid)
      ensures noGo == (if |c.slabs.cs[sClsid].slabList| < 2 then -3
                       else if sClsid < 1 || sClsid > largest || dClsid > largest || sClsid == dClsid then -2 else 0)
      ensures noGo == 0 ==> UnderWay() && pos == 0 && !done && signal == 2 && Progress().Safe(c.View())
                            && |c.slabs.cs[dClsid].slabList| < c.slabs.cs[dClsid].listSize
      ensures noGo != 0 ==> page == old(page) && signal == old(signal)
    {
      hide Cache.Valid, Cache.View;
      noGo := 0;
      if sClsid < 1 || sClsid > largest || dClsid > largest || sClsid == dClsid {
        noGo := -2;
      }
      c.GrowList(dClsid);
      if |c.slabs.cs[sClsid].slabList| < 2 {
        noGo := -3;
      }
      if noGo == 0 {
        page := c.slabs.cs[sClsid].slabList[0];
        pos, done := 0, false;
        signal := 2;
      }
    }

    lemma ChunkAt(i: nat)
      requires c.Valid() && UnderWay() && page != null && i < |page.chunks|
      ensures page.chunks[i] in c.slabs.home && c.slabs.home[page.chunks[i]] == sClsid < |c.slabs.cs|
      ensures page.chunks[i] in page.chunks && Movable(c.View(), page.chunks[i], sClsid)
    {
      hide HashTab.Valid, LruLists.Valid, Slabs.Valid, Movable;
      c.slabs.PageHomes(sClsid);
      ChunkIsMovable(c, page.chunks[i], sClsid);
    }

    /** One chunk, and on to the next one. */
    method TakeTurn(locked: bool) returns (busy: bool)
      requires c.Valid() && UnderWay() && page != null && pos < |page.chunks| && !done && Progress().Safe(c.View())
      modifies `pos, `busyItems
      modifies c`holders, c.tab`t, c.tab`hashItems, c.tab`startedExpanding, c.tab`bindings, c.tab`nodes, c.tab.primary, c.tab.former
      modifies c.lru`where, c.lru.ls, c.slabs`freeAt, c.slabs.cs`slots, c.slabs.cs`slCurr, c.slabs.cs`free
      modifies c.slabs.home.Keys`flags, c.slabs.home.Keys`refcount, c.slabs.home.Keys`time, c.slabs.home.Keys`clsid
      modifies c.slabs.home.Keys`hNext, (c.slabs.home.Keys + c.guests)`next, (c.slabs.home.Keys + c.guests)`prev
      modifies c`raw, c.slabs.home.Keys`exptime, c.slabs.home.Keys`nbytes, c.slabs.home.Keys`key, c.slabs.home.Keys`value
      ensures c.Valid() && UnderWay() && Progress().Safe(c.View()) && Stays(old(c.View()), c.View())
      ensures (c.View(), busy) == MoveOne(old(c.View()), page.chunks[old(pos)], page.chunks, sClsid, locked, c.now, c.settings)
      ensures Progress() == old(Progress()).Passed(busy) && !done && pos == old(pos) + 1
      ensures busyItems == old(busyItems) + (if busy then 1 else 0)
    {
      hide *;
      ChunkAt(pos);
      ghost var st, sw := c.View(), Progress();
      MoveOneFacts(st, page.chunks[pos], page.chunks, sClsid, locked, c.now, c.settings);
      ProgressIs();
      busy := MoveChunk(c, page.chunks[pos], page.chunks, sClsid, locked);
      StepKeepsSafe(st, c.View(), sw, busy);
      if busy {
        busyItems := busyItems + 1;
      }
      pos := pos + 1;
      ProgressIs();
    }

    lemma ProgressIs()
      requires page != null
      ensures Progress() == Sweep(page.chunks, pos, busyItems, done)
    {
    }

    /** The end of a pass: from the top again, or done. */
    method EndPass()
      requires c.Valid() && page != null && Progress().Safe(c.View()) && pos <= |page.chunks|
      modifies `pos, `busyItems, `done
      ensures c.Valid() && Progress().Safe(c.View()) && Progress() == old(Progress()).AtEnd()
    {
      hide Cache.Valid, Cache.View;
      if pos >= |page.chunks| {
        if busyItems > 0 {
          pos, busyItems := 0, 0;
        } else {
          done := true;
        }
      }
    }

    /** Halfway through a call: what is left is what the specification still has to do. */
    ghost predicate Midway(st: State<Item>, r: (State<Item>, Sweep<Item>), x: nat, bulk: nat, locked: nat -> bool, now: nat)
      reads this, page, c.slabs.cs`slabList
      reads c`holders, c.tab`bindings, c.lru.ls, c.slabs.cs`free, c.slabs`home
      reads c.slabs.home.Keys`flags, c.slabs.home.Keys`refcount, c.slabs.home.Keys`time, c.slabs.home.Keys`exptime
      reads c.slabs.home.Keys`nbytes, c.slabs.home.Keys`clsid, c.slabs.home.Keys`key, c.slabs.home.Keys`value
    {
      && UnderWay() && Progress().Safe(c.View()) && Stays(st, c.View()) && !done && page != null && pos <= |page.chunks|
      && Turns(c.View(), Progress(), x, bulk, locked, sClsid, now, c.settings) == r
    }

    method NextTurn(x: nat, bulk: nat, locked: nat -> bool, ghost st: State<Item>, ghost r: (State<Item>, Sweep<Item>)) returns (busy: bool)
      requires c.Valid() && Midway(st, r, x, bulk, locked, c.now) && page != null && x < bulk && pos < |page.chunks|
      modifies `pos, `busyItems
      modifies c`holders, c.tab`t, c.tab`hashItems, c.tab`startedExpanding, c.tab`bindings, c.tab`nodes, c.tab.primary, c.tab.former
      modifies c.lru`where, c.lru.ls, c.slabs`freeAt, c.slabs.cs`slots, c.slabs.cs`slCurr, c.slabs.cs`free
      modifies c.slabs.home.Keys`flags, c.slabs.home.Keys`refcount, c.slabs.home.Keys`time, c.slabs.home.Keys`clsid
      modifies c.slabs.home.Keys`hNext, (c.slabs.home.Keys + c.guests)`next, (c.slabs.home.Keys + c.guests)`prev
      modifies c`raw, c.slabs.home.Keys`exptime, c.slabs.home.Keys`nbytes, c.slabs.home.Keys`key, c.slabs.home.Keys`value
      ensures c.Valid() && Midway(st, r, x + 1, bulk, locked, c.now)
      ensures busyItems == old(busyItems) + (if busy then 1 else 0)
    {
      hide *;
      MidwayIs(st, r, x, bulk, locked);
      ghost var at := c.View();
      ProgressIs();
      TurnIs(at, Progress(), x, bulk, locked, sClsid, c.now, c.settings);
      busy := TakeTurn(locked(x));
      StaysOn(st, at, c.View());
      ToMidway(st, r, x + 1, bulk, locked);
    }

    lemma MidwayIs(st: State<Item>, r: (State<Item>, Sweep<Item>), x: nat, bulk: nat, locked: nat -> bool)
      requires Midway(st, r, x, bulk, locked, c.now)
      ensures UnderWay() && Progress().Safe(c.View()) && Stays(st, c.View()) && !done && page != null && pos <= |page.chunks|
      ensures Turns(c.View(), Progress(), x, bulk, locked, sClsid, c.now, c.settings) == r
    {
    }

    lemma ToMidway(st: State<Item>, r: (State<Item>, Sweep<Item>), x: nat, bulk: nat, locked: nat -> bool)
      requires UnderWay() && Progress().Safe(c.View()) && Stays(st, c.View()) && !done && page != null && pos <= |page.chunks|
      requires Turns(c.View(), Progress(), x, bulk, locked, sClsid, c.now, c.settings) == r
      ensures Midway(st, r, x, bulk, locked, c.now)
    {
    }

    /** The chunks of one call, and the end of the pass. */
    method MoveTurns(bulk: nat, locked: nat -> bool) returns (wasBusy: nat)
      requires c.Valid() && UnderWay() && page != null && pos < |page.chunks| && !done && Progress().Safe(c.View())
      modifies `pos, `busyItems, `done
      modifies c`holders, c.tab`t, c.tab`hashItems, c.tab`startedExpanding, c.tab`bindings, c.tab`nodes, c.tab.primary, c.tab.former
      modifies c.lru`where, c.lru.ls, c.slabs`freeAt, c.slabs.cs`slots, c.slabs.cs`slCurr, c.slabs.cs`free
      modifies c.slabs.home.Keys`flags, c.slabs.home.Keys`refcount, c.slabs.home.Keys`time, c.slabs.home.Keys`clsid
      modifies c.slabs.home.Keys`hNext, (c.slabs.home.Keys + c.guests)`next, (c.slabs.home.Keys + c.guests)`prev
      modifies c`raw, c.slabs.home.Keys`exptime, c.slabs.home.Keys`nbytes, c.slabs.home.Keys`key, c.slabs.home.Keys`value
      ensures c.Valid() && UnderWay() && Progress().Safe(c.View()) && Stays(old(c.View()), c.View())
      ensures var (st, sw) := Turns(old(c.View()), old(Progress()), 0, bulk, locked, sClsid, c.now, c.settings);
              c.View() == st && Progress() == sw.AtEnd() && wasBusy == sw.busy - old(busyItems)
    {
      hide *;
      ghost var st := c.View();
      ghost var r := Turns(st, Progress(), 0, bulk, locked, sClsid, c.now, c.settings);
      StaysSelf(st);
      wasBusy := 0;
      var x := 0;
      ToMidway(st, r, 0, bulk, locked);
      while x < bulk && pos < |page.chunks|
        invariant c.Valid() && Midway(st, r, x, bulk, locked, c.now) && wasBusy == busyItems - old(busyItems)
        decreases bulk - x
      {
        var busy := NextTurn(x, bulk, locked, st, r);
        if busy {
          wasBusy := wasBusy + 1;
        }
        x := x + 1;
      }
      MidwayIs(st, r, x, bulk, locked);
      ProgressIs();
      TurnIs(c.View(), Progress(), x, bulk, locked, sClsid, c.now, c.settings);
      EndPass();
    }

    /** Up to `bulk` chunks of the page; `locked` says at which turn another thread holds the chunk's
        stripe.  The result is the number of busy chunks. */
    method SlabRebalanceMove(bulk: nat, locked: nat -> bool) returns (wasBusy: nat)
      requires c.Valid() && UnderWay() && page != null && pos < |page.chunks| && !done && Progress().Safe(c.View())
      modifies `pos, `busyItems, `done
      modifies c`holders, c.tab`t, c.tab`hashItems, c.tab`startedExpanding, c.tab`bindings, c.tab`nodes, c.tab.primary, c.tab.former
      modifies c.lru`where, c.lru.ls, c.slabs`freeAt, c.slabs.cs`slots, c.slabs.cs`slCurr, c.slabs.cs`free
      modifies c.slabs.home.Keys`flags, c.slabs.home.Keys`refcount, c.slabs.home.Keys`time, c.slabs.home.Keys`clsid
      modifies c.slabs.home.Keys`hNext, (c.slabs.home.Keys + c.guests)`next, (c.slabs.home.Keys + c.guests)`prev
      modifies c`raw, c.slabs.home.Keys`exptime, c.slabs.home.Keys`nbytes, c.slabs.home.Keys`key, c.slabs.home.Keys`value
      ensures c.Valid() && UnderWay() && Progress().Safe(c.View()) && Stays(old(c.View()), c.View())
      ensures var (st, sw) := Turns(old(c.View()), old(Progress()), 0, bulk, locked, sClsid, c.now, c.settings);
              c.View() == st && Progress() == sw.AtEnd() && wasBusy == sw.busy - old(busyItems)
      ensures if old(pos) + bulk < |page.chunks| then pos == old(pos) + bulk && busyItems == old(busyItems) + wasBusy && !done
              else if old(busyItems) + wasBusy > 0 then pos == 0 && busyItems == 0 && !done
              else pos == |page.chunks| && done
    {
      hide *;
      ProgressIs();
      CallEnds(c.View(), Progress(), bulk, locked, sClsid, c.now, c.settings);
      wasBusy := MoveTurns(bulk, locked);
      ProgressIs();
    }

    lemma AllCleared()
      requires page != null && done && Progress().Safe(c.View())
      ensures forall x :: x in page.chunks ==> Cleared(c.View(), x)
    {
    }

    lemma PageIs()
      requires UnderWay()
      ensures 0 <= sClsid < |c.slabs.cs| && dClsid < |c.slabs.cs| && sClsid != dClsid && c.slabs.cs[sClsid].slabList != []
      ensures page == c.slabs.cs[sClsid].slabList[0] && |c.slabs.cs[sClsid].slabList[1..]| >= 1
    {
    }

    /** Hands the cleared page over.  There must be room in the page list of its new class. */
    method SlabRebalanceFinish() returns (ghost p: Page)
      requires c.Valid() && UnderWay() && page != null && done && Progress().Safe(c.View())
      requires |c.slabs.cs[dClsid].slabList| < c.slabs.cs[dClsid].listSize
      modifies this, c.slabs`home, c.slabs`freeAt, c.slabs`pageAt, c.slabs.home.Keys`prev, page`chunks
      modifies c.slabs.cs`slots, c.slabs.cs`slCurr, c.slabs.cs`free, c.slabs.cs`owned, c.slabs.cs`slabList
      ensures c.Valid() && p == old(page) && page == null && !done && signal == 0
      ensures Recut(old(c.View()), c.View(), old(ItemSet(page.chunks)))
      ensures |c.slabs.PageLists()| == |c.slabs.cs| && |old(c.slabs.cs[sClsid].slabList)[1..]| >= 1
      ensures c.slabs.PageLists() == old(c.slabs.PageLists())[old(sClsid) := old(c.slabs.cs[sClsid].slabList)[1..]]
                                                             [old(dClsid) := old(c.slabs.cs[dClsid].slabList) + [p]]
    {
      hide *;
      AllCleared();
      PageIs();
      var moved := c.MovePage(sClsid, dClsid);
      p := moved;
      Reset();
    }

    /** Nothing is under way. */
    method Reset()
      requires c.Valid()
      modifies this
      ensures c.Valid() && page == null && !done && signal == 0 && c.View() == old(c.View()) && c.slabs.PageLists() == old(c.slabs.PageLists())
    {
      hide *;
      done, sClsid, dClsid, page, pos, signal := false, 0, 0, null, 0, 0;
    }
  }

  lemma StaysSelf(st: State<Item>)
    ensures Stays(st, st)
  {
  }

  lemma StaysOn(st: State<Item>, a: State<Item>, b: State<Item>)
    requires Stays(st, a) && Stays(a, b)
    ensures Stays(st, b)
  {
  }

  lemma TurnIs(st: State<Item>, sw: Sweep<Item>, x: nat, bulk: nat, locked: nat -> bool, s: nat, now: nat, cfg: Settings)
    ensures Turns(st, sw, x, bulk, locked, s, now, cfg) ==
            if x >= bulk || sw.pos >= |sw.page| then (st, sw)
            else Turns(MoveOne(st, sw.page[sw.pos], sw.page, s, locked(x), now, cfg).0,
                       sw.Passed(MoveOne(st, sw.page[sw.pos], sw.page, s, locked(x), now, cfg).1), x + 1, bulk, locked, s, now, cfg)
  {
  }

  /** A turn that has not been counted as the end of a pass yet. */
  lemma StepKeepsSafe(st: State<Item>, r: State<Item>, sw: Sweep<Item>, busy: bool)
    requires sw.Safe(st) && sw.pos < |sw.page| && !sw.done && Stays(st, r) && (!busy ==> Cleared(r, sw.page[sw.pos]))
    ensures sw.Passed(busy).Safe(r) && sw.Passed(busy) == Sweep(sw.page, sw.pos + 1, if busy then sw.busy + 1 else sw.busy, false)
  {
  }
}
