/** Pulling items off the tail of an LRU list: reclaiming, evicting, and moving them on. */
module Eviction {
  import opened Common
  import opened Items
  import opened LruSpec
  import LruList
  import opened Recency
  import opened CacheSpec
  import opened Cache
  import opened Lifecycle

  /** What a pull wants: whether to evict from a COLD list, whether to give up at a crawler, the
      bytes of the slab class, and how old an item may get in HOT and WARM. */
  datatype Pull = Pull(evict: bool, crawlBlocks: bool, totalBytes: nat, maxAge: nat)

  /** The outcome for one item: items that left the list, and whether the pull ends with it. */
  datatype Pulled<T(==)> = Pulled(st: State<T>, removed: nat, stop: bool)

  /** The size at which HOT and WARM lists begin to drain. */
  function Limit(lru: nat, p: Pull, cfg: Settings): nat {
    var hot := p.totalBytes * cfg.hotPct / 100;
    if lru == HOT_LRU && hot != 0 then hot else p.totalBytes * cfg.warmPct / 100
  }

  /** To the WARM or the COLD list of its slab class. */
  function ToWarm<T(==)>(st: State<T>, x: T): State<T> {
    st.Flag(x, st.At(x).flags.(active := false)).Relist(x, ClassOf(st.At(x).clsid) + WARM_LRU).Drop(x)
  }

  function ToCold<T(==)>(st: State<T>, x: T): State<T> {
    st.Relist(x, ClassOf(st.At(x).clsid) + COLD_LRU).Drop(x)
  }

  /** An item of a HOT or WARM list, already held; `drain` says that the list is over its limit, or
      the item too old. */
  function PullYoung<T(==)>(st: State<T>, x: T, lru: nat, drain: bool, now: nat): Pulled<T> {
    if st.At(x).flags.active then
      if lru == WARM_LRU then Pulled(st.Flag(x, st.At(x).flags.(active := false)).UpdateNolock(x, now).Drop(x), 0, false)
      else Pulled(ToWarm(st, x), 1, true)
    else if drain then Pulled(ToCold(st, x), 1, true)
    else Pulled(st.Drop(x), 0, true)
  }

  /** An item of a COLD list, already held. */
  function PullOld<T(==)>(st: State<T>, x: T, evict: bool, cfg: Settings): Pulled<T> {
    if evict then
      if cfg.evictToFree then Pulled(st.Unlink(x).Drop(x), 1, true) else Pulled(st.Drop(x), 0, true)
    else if st.At(x).flags.active && cfg.segmented then Pulled(ToWarm(st, x), 1, true)
    else Pulled(st.Drop(x), 0, true)
  }

  /** What a pull on a list of segment lru does with an item it could lock; `over` says that the
      list is over its limit. */
  function PullOne<T(==)>(st: State<T>, x: T, lru: nat, p: Pull, over: bool, now: nat, cfg: Settings): Pulled<T> {
    if st.At(x).Dead(cfg.oldestLive, now) then Pulled(st.Hold(x).Unlink(x).Drop(x), 1, false)
    else if lru == HOT_LRU || lru == WARM_LRU then
      PullYoung(st.Hold(x), x, lru, over || (now - st.At(x).time) % UINT_SPAN > p.maxAge, now)
    else if lru == COLD_LRU then PullOld(st.Hold(x), x, p.evict, cfg)
    else Pulled(st.Hold(x).Drop(x), 0, true)
  }

  lemma MoveIs(st: State<Item>, x: Item)
    requires st.Linked(x) && st.Holds(x)
    ensures var h := st.At(x);
            var calm, warm, cold := h.flags.(active := false), ClassOf(h.clsid) + WARM_LRU, ClassOf(h.clsid) + COLD_LRU;
            && 0 <= warm < LIST_COUNT && 0 <= cold < LIST_COUNT && ClassOf(warm) == ClassOf(cold) == ClassOf(h.clsid)
            && ToWarm(st, x) == st.Flag(x, calm).Relist(x, warm).Drop(x) && ToCold(st, x) == st.Relist(x, cold).Drop(x)
            && st.Flag(x, calm).Linked(x) && st.Flag(x, calm).Holds(x) && st.Flag(x, calm).Relist(x, warm).Holds(x)
            && st.Relist(x, cold).Holds(x)
  {
  }

  method MoveToWarm(c: Cache, x: Item)
    requires c.Valid() && c.View().Linked(x) && c.View().Holds(x)
    modifies c`holders, c.tab`t, c.tab`hashItems, c.tab`startedExpanding, c.tab`bindings, c.tab`nodes, c.tab.primary, c.tab.former
    modifies c.lru`where, c.lru.ls, c.slabs`freeAt, c.slabs.cs`slots, c.slabs.cs`slCurr, c.slabs.cs`free
    modifies c.slabs.home.Keys`flags, c.slabs.home.Keys`refcount, c.slabs.home.Keys`time, c.slabs.home.Keys`clsid
    modifies c.slabs.home.Keys`hNext, (c.slabs.home.Keys + c.guests)`next, (c.slabs.home.Keys + c.guests)`prev
    ensures c.Valid() && c.View() == ToWarm(old(c.View()), x)
  {
    hide *;
    c.HoldsIs(x);
    c.Fields(x);
    MoveIs(c.View(), x);
    c.SetFlags(x, x.flags.(active := false));
    c.Relist(x, ClassOf(x.clsid) + WARM_LRU);
    c.DoItemRemove(x);
  }

  method MoveToCold(c: Cache, x: Item)
    requires c.Valid() && c.View().Linked(x) && c.View().Holds(x)
    modifies c`holders, c.tab`t, c.tab`hashItems, c.tab`startedExpanding, c.tab`bindings, c.tab`nodes, c.tab.primary, c.tab.former
    modifies c.lru`where, c.lru.ls, c.slabs`freeAt, c.slabs.cs`slots, c.slabs.cs`slCurr, c.slabs.cs`free
    modifies c.slabs.home.Keys`flags, c.slabs.home.Keys`refcount, c.slabs.home.Keys`time, c.slabs.home.Keys`clsid
    modifies c.slabs.home.Keys`hNext, (c.slabs.home.Keys + c.guests)`next, (c.slabs.home.Keys + c.guests)`prev
    ensures c.Valid() && c.View() == ToCold(old(c.View()), x)
  {
    hide *;
    c.HoldsIs(x);
    c.Fields(x);
    MoveIs(c.View(), x);
    c.Relist(x, ClassOf(x.clsid) + COLD_LRU);
    c.DoItemRemove(x);
  }

  lemma YoungIs(st: State<Item>, x: Item, now: nat)
    requires st.Linked(x) && st.Holds(x)
    ensures var calm := st.At(x).flags.(active := false);
            && st.Flag(x, calm).Holds(x) && st.Flag(x, calm).UpdateNolock(x, now).Holds(x) && st.Unlink(x).Holds(x) == (Held(st.holders, x) > 0)
  {
  }

  method PullYoungItem(c: Cache, x: Item, lru: nat, drain: bool) returns (removed: nat, stop: bool)
    requires c.Valid() && c.View().Linked(x) && c.View().Holds(x)
    modifies c`holders, c.tab`t, c.tab`hashItems, c.tab`startedExpanding, c.tab`bindings, c.tab`nodes, c.tab.primary, c.tab.former
    modifies c.lru`where, c.lru.ls, c.slabs`freeAt, c.slabs.cs`slots, c.slabs.cs`slCurr, c.slabs.cs`free
    modifies c.slabs.home.Keys`flags, c.slabs.home.Keys`refcount, c.slabs.home.Keys`time, c.slabs.home.Keys`clsid
    modifies c.slabs.home.Keys`hNext, (c.slabs.home.Keys + c.guests)`next, (c.slabs.home.Keys + c.guests)`prev
    ensures c.Valid() && Pulled(c.View(), removed, stop) == PullYoung(old(c.View()), x, lru, drain, c.now)
  {
    hide Cache.Valid, Cache.View, State.Drop, State.Unlink, State.Flag, State.UpdateNolock, State.Holds, State.Linked, State.At, ToWarm, ToCold;
    c.HoldsIs(x);
    c.Fields(x);
    YoungIs(c.View(), x, c.now);
    if x.flags.active {
      if lru == WARM_LRU {
        c.SetFlags(x, x.flags.(active := false));
        DoItemUpdateNolock(c, x);
        c.DoItemRemove(x);
        return 0, false;
      }
      MoveToWarm(c, x);
      return 1, true;
    } else if drain {
      MoveToCold(c, x);
      return 1, true;
    }
    c.DoItemRemove(x);
    return 0, true;
  }

  method PullOldItem(c: Cache, x: Item, hv: nat, evict: bool) returns (removed: nat, stop: bool)
    requires c.Valid() && c.View().Linked(x) && c.View().Holds(x) && hv == c.tab.hash(x.key)
    modifies c`holders, c.tab`t, c.tab`hashItems, c.tab`startedExpanding, c.tab`bindings, c.tab`nodes, c.tab.primary, c.tab.former
    modifies c.lru`where, c.lru.ls, c.slabs`freeAt, c.slabs.cs`slots, c.slabs.cs`slCurr, c.slabs.cs`free
    modifies c.slabs.home.Keys`flags, c.slabs.home.Keys`refcount, c.slabs.home.Keys`time, c.slabs.home.Keys`clsid
    modifies c.slabs.home.Keys`hNext, (c.slabs.home.Keys + c.guests)`next, (c.slabs.home.Keys + c.guests)`prev
    ensures c.Valid() && Pulled(c.View(), removed, stop) == PullOld(old(c.View()), x, evict, c.settings)
  {
    hide Cache.Valid, Cache.View, State.Drop, State.Unlink, State.Flag, State.Holds, State.Linked, State.At, ToWarm, ToCold;
    c.HoldsIs(x);
    c.Fields(x);
    if evict {
      UnlinkHolds(c.View(), x);
      removed := if c.settings.evictToFree then 1 else 0;
      if c.settings.evictToFree {
        DoItemUnlink(c, x, hv);
      }
    } else if x.flags.active && c.settings.segmented {
      MoveToWarm(c, x);
      return 1, true;
    } else {
      removed := 0;
    }
    c.DoItemRemove(x);
    stop := true;
  }

  lemma UnlinkHolds(st: State<Item>, x: Item)
    requires st.Linked(x) && st.Holds(x)
    ensures st.Unlink(x).Holds(x)
  {
  }

  /** What a pull does with one item of a list of segment lru. */
  method PullItem(c: Cache, x: Item, hv: nat, lru: nat, p: Pull, over: bool) returns (removed: nat, stop: bool)
    requires c.Valid() && c.View().Linked(x) && hv == c.tab.hash(x.key)
    modifies c`holders, c.tab`t, c.tab`hashItems, c.tab`startedExpanding, c.tab`bindings, c.tab`nodes, c.tab.primary, c.tab.former
    modifies c.lru`where, c.lru.ls, c.slabs`freeAt, c.slabs.cs`slots, c.slabs.cs`slCurr, c.slabs.cs`free
    modifies c.slabs.home.Keys`flags, c.slabs.home.Keys`refcount, c.slabs.home.Keys`time, c.slabs.home.Keys`clsid
    modifies c.slabs.home.Keys`hNext, (c.slabs.home.Keys + c.guests)`next, (c.slabs.home.Keys + c.guests)`prev
    ensures c.Valid() && Pulled(c.View(), removed, stop) == PullOne(old(c.View()), x, lru, p, over, c.now, c.settings)
  {
    hide Cache.Valid, Cache.View, State.Drop, State.Hold, State.Unlink, State.Holds, State.Linked, State.At, PullYoung, PullOld, Head.Dead;
    c.LinkedIs(x);
    c.Fields(x);
    RetireIs(c.View(), x);
    HeldLinked(c.View(), x);
    var dead := c.IsDead(x);
    c.Hold(x);
    if dead {
      DoItemUnlink(c, x, hv);
      c.DoItemRemove(x);
      removed, stop := 1, false;
    } else if lru == HOT_LRU || lru == WARM_LRU {
      removed, stop := PullYoungItem(c, x, lru, over || (c.now - x.time) % UINT_SPAN > p.maxAge);
    } else if lru == COLD_LRU {
      removed, stop := PullOldItem(c, x, hv, p.evict);
    } else {
      c.DoItemRemove(x);
      removed, stop := 0, true;
    }
  }

  lemma HeldLinked(st: State<Item>, x: Item)
    requires st.Linked(x)
    ensures st.Hold(x).Linked(x) && st.Hold(x).Holds(x)
  {
  }

  // ---------------------------------------------------------------- the walk from the tail

  /** What is free stays free. */
  ghost predicate FreesStay<T>(st: State<T>, st': State<T>) {
    |st'.frees| == |st.frees| && forall i, y :: 0 <= i < |st.frees| && y in st.frees[i] ==> y in st'.frees[i]
  }

  /** A change that concerns x alone: its references change by d, and nothing gets bound, nor taken
      off a freelist. */
  ghost predicate Only<T>(st: State<T>, st': State<T>, x: T, d: int) {
    && st'.heads.Keys == st.heads.Keys && |st'.lists| == |st.lists| && FreesStay(st, st')
    && Elsewhere(st, st', x)
    && (forall y :: y in st.heads ==> Held(st'.holders, y) == Held(st.holders, y) + (if y == x then d else 0))
    && (forall k :: k in st'.bindings ==> k in st.bindings && st'.bindings[k] == st.bindings[k])
    && (forall i, y :: 0 <= i < |st.lists| && y in st.lists[i] && y != x ==> y in st'.lists[i])
  }

  lemma CountsOnly<T>(st: State<T>, x: T, f: Flags, now: nat)
    requires x in st.heads
    ensures Only(st, st.Hold(x), x, 1) && Only(st, st.Flag(x, f), x, 0) && Only(st, st.Stamp(x, now), x, 0)
    ensures Held(st.holders, x) > 0 ==> Only(st, st.Drop(x), x, -1)
  {
  }

  lemma ListsOnly<T>(st: State<T>, x: T, id: nat)
    requires x in st.heads
    ensures Only(st, st.Out(x), x, 1) && Only(st, st.Relist(x, id), x, 0)
  {
    forall i, y | 0 <= i < |st.lists| && y in st.lists[i] && y != x ensures y in Removed(st.lists[i], x) {
      StaysIn(st.lists[i], x, y);
    }
  }

  lemma OnlyTwice<T>(a: State<T>, b: State<T>, c: State<T>, x: T, d: int, e: int)
    requires Only(a, b, x, d) && Only(b, c, x, e)
    ensures Only(a, c, x, d + e)
  {
  }

  lemma OnlySelf<T>(st: State<T>, x: T)
    ensures Only(st, st, x, 0)
  {
  }

  lemma OnlyIn<T>(st: State<T>, a: State<T>, x: T, d: nat)
    requires x in st.heads && Only(st, a, x, d)
    ensures x in a.heads && Held(a.holders, x) >= d
  {
  }

  /** Steps that follow a change of x alone are changes of x alone. */
  lemma Then<T>(st: State<T>, a: State<T>, x: T, d: nat, f: Flags, id: nat, now: nat)
    requires x in st.heads && Only(st, a, x, d)
    ensures Only(st, a.Hold(x), x, d + 1) && Only(st, a.Flag(x, f), x, d) && Only(st, a.Stamp(x, now), x, d)
    ensures Only(st, a.Out(x), x, d + 1) && Only(st, a.Relist(x, id), x, d)
    ensures d > 0 ==> Only(st, a.Drop(x), x, d - 1)
  {
    hide *;
    OnlyIn(st, a, x, d);
    CountsOnly(a, x, f, now);
    ListsOnly(a, x, id);
    OnlyTwice(st, a, a.Hold(x), x, d, 1);
    OnlyTwice(st, a, a.Flag(x, f), x, d, 0);
    OnlyTwice(st, a, a.Stamp(x, now), x, d, 0);
    OnlyTwice(st, a, a.Out(x), x, d, 1);
    OnlyTwice(st, a, a.Relist(x, id), x, d, 0);
    if d > 0 {
      OnlyTwice(st, a, a.Drop(x), x, d, -1);
    }
  }

  lemma ThenUnlink<T>(st: State<T>, a: State<T>, x: T, d: nat, now: nat)
    requires x in st.heads && Only(st, a, x, d)
    ensures Only(st, a.Unlink(x), x, d) && Only(st, a.UpdateNolock(x, now), x, d)
  {
    hide Only, State.Out, State.Drop, State.Stamp, State.Relist;
    Then(st, a, x, d, FREE, a.At(x).clsid, now);
    Then(st, a.Out(x), x, d + 1, FREE, 0, now);
    Then(st, a.Stamp(x, now), x, d, FREE, a.At(x).clsid, now);
  }

  lemma ThenMove<T>(st: State<T>, a: State<T>, x: T, now: nat)
    requires x in st.heads && Only(st, a, x, 1)
    ensures Only(st, ToWarm(a, x), x, 0) && Only(st, ToCold(a, x), x, 0)
  {
    var calm, warm, cold := a.At(x).flags.(active := false), ClassOf(a.At(x).clsid) + WARM_LRU, ClassOf(a.At(x).clsid) + COLD_LRU;
    hide Only, State.Flag, State.Drop, State.Relist;
    Then(st, a, x, 1, calm, cold, now);
    Then(st, a.Flag(x, calm), x, 1, calm, warm, now);
    Then(st, a.Flag(x, calm).Relist(x, warm), x, 1, calm, 0, now);
    Then(st, a.Relist(x, cold), x, 1, calm, 0, now);
  }

  /** One item pulled concerns that item alone, and no reference is lost or left over. */
  lemma PullOneOnly<T>(st: State<T>, x: T, lru: nat, p: Pull, over: bool, now: nat, cfg: Settings)
    requires st.Linked(x)
    ensures Only(st, PullOne(st, x, lru, p, over, now, cfg).st, x, 0)
  {
    hide Only, State.Hold, State.Flag, State.Drop, State.Unlink, State.UpdateNolock, ToWarm, ToCold, Head.Dead;
    OnlySelf(st, x);
    Then(st, st, x, 0, FREE, 0, now);
    var held := st.Hold(x);
    var calm := held.At(x).flags.(active := false);
    Then(st, held, x, 1, calm, 0, now);
    ThenUnlink(st, held, x, 1, now);
    Then(st, held.Unlink(x), x, 1, calm, 0, now);
    ThenMove(st, held, x, now);
    ThenUnlink(st, held.Flag(x, calm), x, 1, now);
    Then(st, held.Flag(x, calm).UpdateNolock(x, now), x, 1, calm, 0, now);
  }

  lemma {:induction false} StaysIn<T>(s: seq<T>, x: T, y: T)
    requires y in s && y != x
    ensures y in Removed(s, x)
  {
    if s[0] != x && s[0] != y {
      StaysIn(s[1..], x, y);
    }
  }

  /** The walk up a COLD list, whose part still to be seen is s. */
  function PullCold<T(==)>(st: State<T>, s: seq<T>, crawler: T, busy: set<T>, tries: nat, removed: nat,
                           p: Pull, now: nat, cfg: Settings): (State<T>, nat)
    decreases |s|
  {
    if s == [] || tries == 0 then (st, removed)
    else
      var x, rest := s[|s| - 1], s[..|s| - 1];
      if x == crawler then
        if p.crawlBlocks then (st, 0) else PullCold(st, rest, crawler, busy, tries, removed, p, now, cfg)
      else if x in busy then PullCold(st, rest, crawler, busy, tries - 1, removed, p, now, cfg)
      else
        var r := PullOne(st, x, COLD_LRU, p, false, now, cfg);
        if r.stop then (r.st, removed + r.removed)
        else PullCold(r.st, rest, crawler, busy, tries - 1, removed + r.removed, p, now, cfg)
  }

  /** A pull keeps all references, binds nothing, and leaves free and cleared chunks alone. */
  ghost predicate Kept<T>(st: State<T>, st': State<T>) {
    && st'.heads.Keys == st.heads.Keys && |st'.lists| == |st.lists| && Stays(st, st') && FreesStay(st, st')
    && (forall y :: y in st.heads ==> Held(st'.holders, y) == Held(st.holders, y))
    && (forall k :: k in st'.bindings ==> k in st.bindings && st'.bindings[k] == st.bindings[k])
  }

  lemma KeptBy<T>(st: State<T>, a: State<T>, b: State<T>, x: T)
    requires Kept(st, a) && Only(a, b, x, 0) && a.Linked(x)
    ensures Kept(st, b)
  {
  }

  lemma NextStays<T>(a: State<T>, b: State<T>, i: nat, k: nat)
    requires i < |a.lists| && Distinct(a.lists[i]) && 0 < k <= |a.lists[i]| && Only(a, b, a.lists[i][k - 1], 0)
    ensures k > 1 ==> a.lists[i][k - 2] in b.lists[i]
  {
  }

  /** Where the walk goes on after one item: in a COLD list, ahead of it. */
  lemma ColdGoesOn<T>(st: State<T>, i: nat, k: nat, p: Pull, now: nat, cfg: Settings)
    requires i < |st.lists| && Distinct(st.lists[i]) && 0 < k <= |st.lists[i]|
    requires st.Linked(st.lists[i][k - 1]) && st.At(st.lists[i][k - 1]).clsid == i
    requires !PullOne(st, st.lists[i][k - 1], COLD_LRU, p, false, now, cfg).stop
    ensures var l := PullOne(st, st.lists[i][k - 1], COLD_LRU, p, false, now, cfg).st.lists[i];
            |l| >= k - 1 && l[..k - 1] == st.lists[i][..k - 1] && Distinct(l)
  {
    var x, l := st.lists[i][k - 1], st.lists[i];
    RemovedAt(l, x, k - 1);
    RemovedOnce(l, x);
  }

  /** What stays the same during a walk. */
  datatype Scan<T(==)> = Scan(crawler: T, busy: set<T>, p: Pull, now: nat, cfg: Settings)

  /** The bytes of the items of s. */
  function ListBytes<T(==)>(st: State<T>, s: seq<T>, crawler: T): nat {
    if s == [] then 0
    else (if s[0] == crawler then 0 else LruList.HEADER_SIZE + |st.At(s[0]).key| + 1 + st.At(s[0]).nbytes) + ListBytes(st, s[1..], crawler)
  }

  function ListAt<T>(st: State<T>, i: nat): seq<T> {
    if i < |st.lists| then st.lists[i] else []
  }

  /** How many nodes there are up to the one before the k-th of s, by their places in s'. */
  function PlaceBefore<T(==)>(s: seq<T>, k: nat, s': seq<T>): nat
    requires 0 < k <= |s|
  {
    if k > 1 && s[k - 2] in s' then IndexOf(s', s[k - 2]) + 1 else 0
  }

  /** One item of the walk up list i, which stands at the k-th node. */
  function PullAt<T(==)>(st: State<T>, i: nat, k: nat, lru: nat, w: Scan<T>): Pulled<T>
    requires 0 < k <= |ListAt(st, i)|
  {
    PullOne(st, ListAt(st, i)[k - 1], lru, w.p, ListBytes(st, ListAt(st, i), w.crawler) > Limit(lru, w.p, w.cfg), w.now, w.cfg)
  }

  /** The walk up list i, from its k-th node: what comes next is what was before the item when the
      walk came to it, wherever the list has it now. */
  function PullWalk<T(==)>(st: State<T>, i: nat, k: nat, lru: nat, w: Scan<T>, tries: nat, removed: nat): (State<T>, nat)
    decreases tries, k
  {
    if tries == 0 || k == 0 || k > |ListAt(st, i)| then (st, removed)
    else
      var x := ListAt(st, i)[k - 1];
      if x == w.crawler then
        if w.p.crawlBlocks then (st, 0) else PullWalk(st, i, k - 1, lru, w, tries, removed)
      else if x in w.busy then PullWalk(st, i, k - 1, lru, w, tries - 1, removed)
      else
        var r := PullAt(st, i, k, lru, w);
        if r.stop then (r.st, removed + r.removed)
        else PullWalk(r.st, i, PlaceBefore(ListAt(st, i), k, ListAt(r.st, i)), lru, w, tries - 1, removed + r.removed)
  }

  lemma PlaceInPrefix<T>(s: seq<T>, k: nat, s': seq<T>)
    requires Distinct(s) && 0 < k <= |s| && |s'| >= k - 1 && s'[..k - 1] == s[..k - 1] && Distinct(s')
    ensures PlaceBefore(s, k, s') == k - 1
  {
    if k > 1 {
      assert s'[..k - 1][k - 2] == s[k - 2] && s'[k - 2] == s[k - 2];
    }
  }

  /** The first k nodes of COLD list i are what they should be. */
  ghost predicate ColdPrefix<T>(st: State<T>, i: nat, k: nat, crawler: T) {
    && i < |st.lists| && k <= |st.lists[i]| && Distinct(st.lists[i])
    && forall j :: 0 <= j < k && st.lists[i][j] != crawler ==> st.Linked(st.lists[i][j]) && st.At(st.lists[i][j]).clsid == i
  }

  lemma ColdOne<T>(st: State<T>, i: nat, k: nat, w: Scan<T>)
    requires ColdPrefix(st, i, k, w.crawler) && k > 0 && st.lists[i][k - 1] != w.crawler
    ensures st.Linked(st.lists[i][k - 1])
    ensures var r := PullAt(st, i, k, COLD_LRU, w);
            && r == PullOne(st, st.lists[i][k - 1], COLD_LRU, w.p, false, w.now, w.cfg)
            && (!r.stop ==>
                  && ColdPrefix(r.st, i, k - 1, w.crawler) && r.st.lists[i][..k - 1] == st.lists[i][..k - 1]
                  && PlaceBefore(st.lists[i], k, r.st.lists[i]) == k - 1)
  {
    var s := st.lists[i];
    var r := PullOne(st, s[k - 1], COLD_LRU, w.p, false, w.now, w.cfg);
    PullOneOnly(st, s[k - 1], COLD_LRU, w.p, false, w.now, w.cfg);
    if !r.stop {
      ColdGoesOn(st, i, k, w.p, w.now, w.cfg);
      hide PullOne;
      PlaceInPrefix(s, k, r.st.lists[i]);
      forall j | 0 <= j < k - 1 ensures r.st.lists[i][j] == s[j] && s[j] != s[k - 1] {
        assert r.st.lists[i][..k - 1][j] == s[..k - 1][j];
      }
    }
  }

  /** Up a COLD list the walk takes the nodes as they stood at its start. */
  lemma {:induction false} WalkIsCold<T>(st: State<T>, i: nat, k: nat, w: Scan<T>, tries: nat, removed: nat)
    requires ColdPrefix(st, i, k, w.crawler)
    ensures PullWalk(st, i, k, COLD_LRU, w, tries, removed)
         == PullCold(st, st.lists[i][..k], w.crawler, w.busy, tries, removed, w.p, w.now, w.cfg)
    decreases k
  {
    hide PullOne, Distinct, State.Linked;
    if k > 0 && tries > 0 {
      var x := st.lists[i][k - 1];
      Peel(st.lists[i], k);
      if x == w.crawler {
        WalkIsCold(st, i, k - 1, w, tries, removed);
      } else if x in w.busy {
        WalkIsCold(st, i, k - 1, w, tries - 1, removed);
      } else {
        ColdOne(st, i, k, w);
        var r := PullAt(st, i, k, COLD_LRU, w);
        if !r.stop {
          WalkIsCold(r.st, i, k - 1, w, tries - 1, removed + r.removed);
        }
      }
    }
  }

  /** The walk so far: it stands at the k-th node of list i, and what is left to be done is what is
      left of the walk that is specified. */
  ghost predicate Walking<T>(st0: State<T>, st: State<T>, i: nat, k: nat, lru: nat, w: Scan<T>, tries: nat, removed: nat) {
    && Kept(st0, st) && i < |st.lists| == |st0.lists| && k <= |st.lists[i]|
    && PullWalk(st, i, k, lru, w, tries, removed) == PullWalk(st0, i, |st0.lists[i]|, lru, w, 5, 0)
  }

  ghost predicate WalkDone<T>(st0: State<T>, st: State<T>, i: nat, lru: nat, w: Scan<T>, removed: nat) {
    Kept(st0, st) && i < |st0.lists| && (st, removed) == PullWalk(st0, i, |st0.lists[i]|, lru, w, 5, 0)
  }

  /** On a COLD list: what the walk as it stood at the start comes to. */
  ghost predicate ColdDone<T>(st0: State<T>, st: State<T>, i: nat, w: Scan<T>, removed: nat) {
    i < |st0.lists| && (st, removed) == PullCold(st0, st0.lists[i], w.crawler, w.busy, 5, 0, w.p, w.now, w.cfg)
  }

  lemma DoneIsCold<T>(st0: State<T>, st: State<T>, i: nat, w: Scan<T>, removed: nat)
    requires WalkDone(st0, st, i, COLD_LRU, w, removed) && ColdPrefix(st0, i, |st0.lists[i]|, w.crawler)
    ensures ColdDone(st0, st, i, w, removed)
  {
    WalkIsCold(st0, i, |st0.lists[i]|, w, 5, 0);
    assert st0.lists[i][..|st0.lists[i]|] == st0.lists[i];
  }

  lemma WalkStart<T>(st: State<T>, i: nat, lru: nat, w: Scan<T>)
    requires i < |st.lists|
    ensures Walking(st, st, i, |st.lists[i]|, lru, w, 5, 0)
  {
  }

  lemma Peel<T>(s: seq<T>, k: nat)
    requires 0 < k <= |s|
    ensures s[..k] != [] && s[..k][|s[..k]| - 1] == s[k - 1] && s[..k][..|s[..k]| - 1] == s[..k - 1]
  {
  }

  /** Past the crawler, or a busy item. */
  lemma WalkPast<T>(st0: State<T>, st: State<T>, i: nat, k: nat, lru: nat, w: Scan<T>, tries: nat, removed: nat)
    requires Walking(st0, st, i, k, lru, w, tries, removed) && 0 < k && tries > 0
    ensures var x := st.lists[i][k - 1];
            && (x == w.crawler && !w.p.crawlBlocks ==> Walking(st0, st, i, k - 1, lru, w, tries, removed))
            && (x == w.crawler && w.p.crawlBlocks ==> WalkDone(st0, st, i, lru, w, 0))
            && (x != w.crawler && x in w.busy ==> Walking(st0, st, i, k - 1, lru, w, tries - 1, removed))
  {
    hide Kept, PullOne;
  }

  /** Through an item, whatever comes of it. */
  lemma WalkThrough<T>(st0: State<T>, st: State<T>, i: nat, k: nat, lru: nat, w: Scan<T>, tries: nat, removed: nat) returns (k': nat)
    requires Walking(st0, st, i, k, lru, w, tries, removed) && 0 < k && tries > 0 && Distinct(st.lists[i])
    requires var x := st.lists[i][k - 1]; st.Linked(x) && x != w.crawler && x !in w.busy
    ensures var r := PullAt(st, i, k, lru, w);
            && (r.stop ==> WalkDone(st0, r.st, i, lru, w, removed + r.removed))
            && (!r.stop ==> Walking(st0, r.st, i, k', lru, w, tries - 1, removed + r.removed)
                            && (k > 1 ==> 0 < k' && r.st.lists[i][k' - 1] == st.lists[i][k - 2])
                            && (k == 1 ==> k' == 0))
  {
    var x, over := st.lists[i][k - 1], ListBytes(st, st.lists[i], w.crawler) > Limit(lru, w.p, w.cfg);
    var r := PullAt(st, i, k, lru, w);
    hide PullOne, Only;
    PullOneOnly(st, x, lru, w.p, over, w.now, w.cfg);
    KeptBy(st0, st, r.st, x);
    NextStays(st, r.st, i, k);
    k' := PlaceBefore(st.lists[i], k, ListAt(r.st, i));
    hide Kept;
  }

  lemma WalkEnd<T>(st0: State<T>, st: State<T>, i: nat, k: nat, lru: nat, w: Scan<T>, tries: nat, removed: nat)
    requires Walking(st0, st, i, k, lru, w, tries, removed) && (tries == 0 || k == 0)
    ensures WalkDone(st0, st, i, lru, w, removed)
  {
  }

  lemma KeptSelf(st: State<Item>, id: nat, lru: nat)
    requires id < CLASS_COUNT && (lru == HOT_LRU || lru == WARM_LRU || lru == COLD_LRU || lru == TEMP_LRU)
    ensures Kept(st, st) && id + lru < 256
  {
  }

  lemma DoneKept(st0: State<Item>, st: State<Item>, i: nat, lru: nat, w: Scan<Item>, removed: nat)
    requires WalkDone(st0, st, i, lru, w, removed) && i < |st0.lists| && ColdPrefix(st0, i, |st0.lists[i]|, w.crawler)
    ensures Kept(st0, st) && (lru == COLD_LRU ==> ColdDone(st0, st, i, w, removed))
  {
    if lru == COLD_LRU {
      DoneIsCold(st0, st, i, w, removed);
    }
  }

  /** The item before the k-th of list i, from its end, and what is known of it. */
  method Seek(c: Cache, i: nat, x: Item, ghost k: nat) returns (next: Item?, isCrawler: bool)
    requires c.Valid() && i < |c.View().lists| && 0 < k <= |c.View().lists[i]| && x == c.View().lists[i][k - 1]
    ensures i < |c.lru.ls| && Distinct(c.View().lists[i])
    ensures next == if k == 1 then null else c.View().lists[i][k - 2]
    ensures isCrawler == (x == c.lru.ls[i].crawler)
    ensures !isCrawler ==> c.View().Linked(x) && c.View().At(x).clsid == i
  {
    hide *;
    c.NodeIs(i, k - 1);
    next := x.prev;
    isCrawler := x.nbytes == 0 && x.key == [] && x.flags == Flags(true, false, false, false);
  }

  lemma {:induction false} SumIs(st: State<Item>, s: seq<Item>, crawler: Item)
    requires forall x :: x in s && x != crawler ==> st.At(x).key == x.key && st.At(x).nbytes == x.nbytes
    ensures ListBytes(st, s, crawler) == LruList.Bytes(s, crawler)
  {
    if s != [] {
      SumIs(st, s[1..], crawler);
    }
  }

  /** The counter of a list is the sum over its items. */
  lemma BytesAre(c: Cache, i: nat, k: nat, lru: nat, w: Scan<Item>)
    requires c.Valid() && i < |c.View().lists| && 0 < k <= |c.View().lists[i]| && i < |c.lru.ls| && w.crawler == c.lru.ls[i].crawler
    ensures PullAt(c.View(), i, k, lru, w)
         == PullOne(c.View(), c.View().lists[i][k - 1], lru, w.p, c.lru.ls[i].sizeBytes > Limit(lru, w.p, w.cfg), w.now, w.cfg)
  {
    hide PullOne, Limit;
    c.BytesOf(i);
    SumIs(c.View(), c.View().lists[i], w.crawler);
  }

  /** What a walk knows when it stands at an item; with null it is at its end. */
  ghost predicate At(st0: State<Item>, st: State<Item>, i: nat, k: nat, search: Item?, lru: nat, w: Scan<Item>, tries: nat, removed: nat) {
    && Walking(st0, st, i, k, lru, w, tries, removed)
    && search == if k == 0 then null else st.lists[i][k - 1]
  }

  lemma AtItem(st0: State<Item>, st: State<Item>, i: nat, k: nat, search: Item?, lru: nat, w: Scan<Item>, tries: nat, removed: nat)
    requires At(st0, st, i, k, search, lru, w, tries, removed)
    ensures Walking(st0, st, i, k, lru, w, tries, removed) && i < |st.lists| && k <= |st.lists[i]|
    ensures search != null ==> k > 0 && search == st.lists[i][k - 1]
    ensures search == null ==> k == 0
  {
  }

  lemma ListIsCold(c: Cache, i: nat)
    requires c.Valid() && i < |c.View().lists| && i < |c.lru.ls|
    ensures ColdPrefix(c.View(), i, |c.View().lists[i]|, c.lru.ls[i].crawler)
  {
    hide Cache.Valid, Cache.View;
    c.ListDistinct(i);
    forall j | 0 <= j < |c.View().lists[i]| && c.View().lists[i][j] != c.lru.ls[i].crawler
      ensures c.View().Linked(c.View().lists[i][j]) && c.View().At(c.View().lists[i][j]).clsid == i
    {
      c.NodeIs(i, j);
    }
  }

  /** One turn of the walk: on towards the head, or the end of the pull. */
  method PullTurn(c: Cache, search: Item, i: nat, lru: nat, p: Pull, busy: set<Item>, tries: nat, removed: nat,
                  ghost st: State<Item>, ghost w: Scan<Item>, ghost k: nat)
    returns (next: Item?, tries': nat, removed': nat, stop: bool, ghost k': nat)
    requires c.Valid() && At(st, c.View(), i, k, search, lru, w, tries, removed) && tries > 0
    requires i < |c.lru.ls| && w == Scan(c.lru.ls[i].crawler, busy, p, c.now, c.settings)
    modifies c`holders, c.tab`t, c.tab`hashItems, c.tab`startedExpanding, c.tab`bindings, c.tab`nodes, c.tab.primary, c.tab.former
    modifies c.lru`where, c.lru.ls, c.slabs`freeAt, c.slabs.cs`slots, c.slabs.cs`slCurr, c.slabs.cs`free
    modifies c.slabs.home.Keys`flags, c.slabs.home.Keys`refcount, c.slabs.home.Keys`time, c.slabs.home.Keys`clsid
    modifies c.slabs.home.Keys`hNext, (c.slabs.home.Keys + c.guests)`next, (c.slabs.home.Keys + c.guests)`prev
    ensures c.Valid()
    ensures !stop ==> At(st, c.View(), i, k', next, lru, w, tries', removed') && (tries' < tries || (tries' == tries && k' < k))
    ensures stop ==> WalkDone(st, c.View(), i, lru, w, removed')
  {
    hide *;
    AtItem(st, c.View(), i, k, search, lru, w, tries, removed);
    var isCrawler;
    next, isCrawler := Seek(c, i, search, k);
    WalkPast(st, c.View(), i, k, lru, w, tries, removed);
    k', tries', removed', stop := k - 1, tries, removed, false;
    if isCrawler {
      if p.crawlBlocks {
        removed', stop := 0, true;
      } else {
        AtNext(st, c.View(), i, k', next, lru, w, tries', removed');
      }
    } else {
      tries' := tries - 1;
      if search in busy {
        AtNext(st, c.View(), i, k', next, lru, w, tries', removed');
      } else {
        BytesAre(c, i, k, lru, w);
        var over := c.lru.ls[i].sizeBytes > Limit(lru, p, c.settings);
        k' := WalkThrough(st, c.View(), i, k, lru, w, tries, removed);
        var gone;
        gone, stop := PullItem(c, search, c.tab.hash(search.key), lru, p, over);
        removed' := removed + gone;
        if !stop {
          AtNext(st, c.View(), i, k', next, lru, w, tries', removed');
        }
      }
    }
  }

  lemma AtNext(st0: State<Item>, st: State<Item>, i: nat, k: nat, search: Item?, lru: nat, w: Scan<Item>, tries: nat, removed: nat)
    requires Walking(st0, st, i, k, lru, w, tries, removed)
    requires i < |st.lists| && k <= |st.lists[i]| ==> search == if k == 0 then null else st.lists[i][k - 1]
    ensures At(st0, st, i, k, search, lru, w, tries, removed)
  {
  }

  /** Walks up the list of segment lru of class id: at most five items, not counting crawlers.
      `busy` are the items whose stripe another thread holds.  The result is the number of items
      that left the list. */
  method LruPullTail(c: Cache, id: nat, lru: nat, p: Pull, busy: set<Item>) returns (removed: nat)
    requires c.Valid() && id < CLASS_COUNT && (lru == HOT_LRU || lru == WARM_LRU || lru == COLD_LRU || lru == TEMP_LRU)
    modifies c`holders, c.tab`t, c.tab`hashItems, c.tab`startedExpanding, c.tab`bindings, c.tab`nodes, c.tab.primary, c.tab.former
    modifies c.lru`where, c.lru.ls, c.slabs`freeAt, c.slabs.cs`slots, c.slabs.cs`slCurr, c.slabs.cs`free
    modifies c.slabs.home.Keys`flags, c.slabs.home.Keys`refcount, c.slabs.home.Keys`time, c.slabs.home.Keys`clsid
    modifies c.slabs.home.Keys`hNext, (c.slabs.home.Keys + c.guests)`next, (c.slabs.home.Keys + c.guests)`prev
    ensures c.Valid() && Kept(old(c.View()), c.View()) && id + lru < |c.lru.ls|
    ensures id == 0 ==> c.View() == old(c.View()) && removed == 0
    ensures id != 0 ==> WalkDone(old(c.View()), c.View(), id + lru, lru, Scan(c.lru.ls[id + lru].crawler, busy, p, c.now, c.settings), removed)
    ensures id != 0 && lru == COLD_LRU ==> ColdDone(old(c.View()), c.View(), id + lru, Scan(c.lru.ls[id + lru].crawler, busy, p, c.now, c.settings), removed)
  {
    hide *;
    ghost var st := c.View();
    KeptSelf(st, id, lru);
    c.ListCount();
    if id == 0 {
      return 0;
    }
    removed := 0;
    var i := id + lru;
    c.TailIs(i);
    ListIsCold(c, i);
    ghost var w := Scan(c.lru.ls[i].crawler, busy, p, c.now, c.settings);
    WalkStart(st, i, lru, w);
    var tries: nat, search := 5, c.lru.ls[i].tail;
    ghost var k: nat := |st.lists[i]|;
    AtNext(st, st, i, k, search, lru, w, tries, removed);
    while tries > 0 && search != null
      invariant c.Valid() && At(st, c.View(), i, k, search, lru, w, tries, removed)
      decreases tries, k
    {
      var stop;
      search, tries, removed, stop, k := PullTurn(c, search, i, lru, p, busy, tries, removed, st, w, k);
      if stop {
        DoneKept(st, c.View(), i, lru, w, removed);
        return;
      }
    }
    AtItem(st, c.View(), i, k, search, lru, w, tries, removed);
    WalkEnd(st, c.View(), i, k, lru, w, tries, removed);
    DoneKept(st, c.View(), i, lru, w, removed);
  }

  // ---------------------------------------------------------------- whom an eviction takes

  ghost function DeadOf<T>(st: State<T>, s: seq<T>, now: nat, cfg: Settings): set<T> {
    set x | x in s && st.At(x).Dead(cfg.oldestLive, now)
  }

  /** The victim is unlinked, and no other item that is alive has changed. */
  ghost predicate Evicts<T>(st: State<T>, r: State<T>, v: Option<T>, dead: set<T>) {
    && (v.Some? ==> !r.Linked(v.value))
    && (forall y :: y in st.heads && y !in dead && v != Some(y) ==> r.At(y) == st.At(y))
  }

  /** A dead item on the way is retired, which leaves the others as they were. */
  lemma EvictsOn<T>(st: State<T>, a: State<T>, r: State<T>, v: Option<T>, x: T, s: seq<T>, now: nat, cfg: Settings)
    requires Only(st, a, x, 0) && x !in s && x in st.heads && st.At(x).Dead(cfg.oldestLive, now)
    requires Evicts(a, r, v, DeadOf(a, s, now, cfg))
    ensures Evicts(st, r, v, DeadOf(st, s + [x], now, cfg))
  {
    EvictsKeep(st, a, x, s, now, cfg);
  }

  lemma EvictsOne<T>(st: State<T>, r: State<T>, x: T, dead: set<T>)
    requires Only(st, r, x, 0) && !r.Linked(x)
    ensures Evicts(st, r, Some(x), dead)
  {
  }

  lemma EvictsKeep<T>(st: State<T>, a: State<T>, x: T, s: seq<T>, now: nat, cfg: Settings)
    requires Only(st, a, x, 0) && x !in s
    ensures forall y :: y in s ==> (y in DeadOf(a, s, now, cfg) <==> y in DeadOf(st, s + [x], now, cfg))
    ensures forall y :: y in s && st.Linked(y) ==> a.Linked(y)
  {
    forall y | y in s ensures y in DeadOf(a, s, now, cfg) <==> y in DeadOf(st, s + [x], now, cfg) {
      assert y in s + [x] && st.At(y) == a.At(y);
    }
  }

  lemma EvictsPast<T>(st: State<T>, r: State<T>, v: Option<T>, x: T, s: seq<T>, now: nat, cfg: Settings)
    requires x !in s
    ensures Evicts(st, r, v, DeadOf(st, s, now, cfg)) ==> Evicts(st, r, v, DeadOf(st, s + [x], now, cfg))
    ensures forall y :: y in s ==> (y in DeadOf(st, s, now, cfg) <==> y in DeadOf(st, s + [x], now, cfg))
  {
  }

  /** An eviction from a COLD list retires the victim, and touches no other item that is alive. */
  lemma {:induction false} PullColdEvicts<T>(st: State<T>, s: seq<T>, crawler: T, busy: set<T>, tries: nat, removed: nat,
                                             p: Pull, now: nat, cfg: Settings)
    requires p.evict && !p.crawlBlocks && cfg.evictToFree && Distinct(s)
    requires forall x :: x in s && x != crawler ==> st.Linked(x)
    ensures var dead := DeadOf(st, s, now, cfg);
            Evicts(st, PullCold(st, s, crawler, busy, tries, removed, p, now, cfg).0, Victim(s, crawler, busy + dead, tries), dead)
    decreases |s|
  {
    hide Distinct, PullOne, Only, State.Linked, State.At, State.Retire, Head.Dead;
    if s != [] && tries > 0 {
      var x, rest := s[|s| - 1], s[..|s| - 1];
      var dead, v := DeadOf(st, s, now, cfg), Victim(s, crawler, busy + DeadOf(st, s, now, cfg), tries);
      LastApart(s);
      if x == crawler || x in busy {
        var left := if x == crawler then tries else tries - 1;
        EvictsPast(st, PullCold(st, rest, crawler, busy, left, removed, p, now, cfg).0, v, x, rest, now, cfg);
        SameVictim(rest, crawler, busy + dead, busy + DeadOf(st, rest, now, cfg), left);
        PullColdEvicts(st, rest, crawler, busy, left, removed, p, now, cfg);
      } else {
        PullOneOnly(st, x, COLD_LRU, p, false, now, cfg);
        RetireUnlinks(st, x, p, now, cfg);
        var r := PullOne(st, x, COLD_LRU, p, false, now, cfg);
        if r.stop {
          EvictsOne(st, r.st, x, dead);
        } else {
          LinkedIn(st, x);
          EvictsKeep(st, r.st, x, rest, now, cfg);
          PullColdEvicts(r.st, rest, crawler, busy, tries - 1, removed + r.removed, p, now, cfg);
          SameVictim(rest, crawler, busy + dead, busy + DeadOf(r.st, rest, now, cfg), tries - 1);
          EvictsOn(st, r.st, PullCold(r.st, rest, crawler, busy, tries - 1, removed + r.removed, p, now, cfg).0, v, x, rest, now, cfg);
        }
      }
    }
  }

  lemma LastApart<T>(s: seq<T>)
    requires Distinct(s) && s != []
    ensures var x, rest := s[|s| - 1], s[..|s| - 1]; s == rest + [x] && Distinct(rest) && x !in rest
  {
  }

  lemma LinkedIn<T>(st: State<T>, x: T)
    requires st.Linked(x)
    ensures x in st.heads
  {
  }

  lemma RetireUnlinks<T>(st: State<T>, x: T, p: Pull, now: nat, cfg: Settings)
    requires st.Linked(x) && p.evict && cfg.evictToFree
    ensures var r := PullOne(st, x, COLD_LRU, p, false, now, cfg);
            r.stop == !st.At(x).Dead(cfg.oldestLive, now) && r.st == st.Retire(x) && !r.st.Linked(x)
  {
  }

  /** In a list sorted by last link or hit, an eviction retires the least recently used of the items
      that are alive and not busy. */
  lemma EvictionTakesOldest<T>(st: State<T>, s: seq<T>, crawler: T, busy: set<T>, p: Pull, now: nat, cfg: Settings, touched: map<T, nat>)
    requires p.evict && !p.crawlBlocks && cfg.evictToFree && Distinct(s) && ByRecency(Removed(s, crawler), touched)
    requires forall x :: x in s && x != crawler ==> st.Linked(x)
    ensures var r, dead := PullCold(st, s, crawler, busy, 5, 0, p, now, cfg).0, DeadOf(st, s, now, cfg);
            var v := Victim(s, crawler, busy + dead, 5);
            && (forall y :: y in st.heads && y !in dead && v != Some(y) ==> r.At(y) == st.At(y))
            && (v.Some? ==>
                  && v.value in s && v.value !in busy + dead && !r.Linked(v.value) && v.value in touched
                  && forall y :: y in s && y != crawler && y !in busy + dead ==> y in touched && touched[v.value] <= touched[y])
  {
    var dead := DeadOf(st, s, now, cfg);
    PullColdEvicts(st, s, crawler, busy, 5, 0, p, now, cfg);
    if Victim(s, crawler, busy + dead, 5).Some? {
      VictimIsOldest(s, crawler, busy + dead, 5, touched);
    }
  }

  /** What leaves the list is counted, so the count never goes down. */
  lemma {:induction false} PullColdCounts<T>(st: State<T>, s: seq<T>, crawler: T, busy: set<T>, tries: nat, removed: nat,
                                             p: Pull, now: nat, cfg: Settings)
    requires !p.crawlBlocks
    ensures PullCold(st, s, crawler, busy, tries, removed, p, now, cfg).1 >= removed
    decreases |s|
  {
    if s != [] && tries > 0 {
      var x, rest := s[|s| - 1], s[..|s| - 1];
      hide PullOne;
      if x == crawler {
        PullColdCounts(st, rest, crawler, busy, tries, removed, p, now, cfg);
      } else if x in busy {
        PullColdCounts(st, rest, crawler, busy, tries - 1, removed, p, now, cfg);
      } else {
        var r := PullOne(st, x, COLD_LRU, p, false, now, cfg);
        PullColdCounts(r.st, rest, crawler, busy, tries - 1, removed + r.removed, p, now, cfg);
      }
    }
  }

  /** An eviction that removes nobody has met only the crawler and busy items; with fewer busy items
      than tries the list holds no others. */
  lemma {:induction false} VainPull<T>(st: State<T>, s: seq<T>, crawler: T, busy: set<T>, tries: nat, p: Pull, now: nat, cfg: Settings)
    requires p.evict && !p.crawlBlocks && cfg.evictToFree && Distinct(s)
    requires PullCold(st, s, crawler, busy, tries, 0, p, now, cfg).1 == 0
    ensures Victim(s, crawler, busy, tries).None?
    ensures |busy| < tries ==> forall y :: y in s ==> y == crawler || y in busy
    decreases |s|
  {
    if s != [] && tries > 0 {
      var x, rest := s[|s| - 1], s[..|s| - 1];
      assert Distinct(rest);
      if x == crawler {
        VainPull(st, rest, crawler, busy, tries, p, now, cfg);
      } else if x in busy {
        VainPull(st, rest, crawler, busy, tries - 1, p, now, cfg);
      } else {
        var r := PullOne(st, x, COLD_LRU, p, false, now, cfg);
        assert r.removed == 1;
        PullColdCounts(r.st, rest, crawler, busy, tries - 1, r.removed, p, now, cfg);
        assert false;
      }
    }
    if |busy| < tries {
      NoVictim(s, crawler, busy, tries);
    }
  }
}
