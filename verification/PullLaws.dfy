/** What a pull may do to an item: which ones it takes from the table, where the others go. */
module PullLaws {
  import opened Common
  import opened Items
  import opened LruSpec
  import opened Recency
  import opened CacheSpec
  import opened ItemLaws
  import opened ItemOwners
  import opened Operations
  import opened Eviction

  /** x is linked, and its count is that of the references there are. */
  ghost predicate Counted<T>(st: State<T>, x: T) {
    st.Linked(x) && st.At(x).refcount == Held(st.holders, x) + 1
  }

  /** Retired: out of the table, and free if nobody holds it. */
  ghost predicate Retired<T>(st: State<T>, r: State<T>, x: T) {
    var h, n := st.At(x), Held(st.holders, x);
    && !r.Linked(x) && r.bindings == st.bindings - {h.key} && r.lists == Left(st.lists, h.clsid, x) && x in r.heads
    && (n == 0 ==> r.frees == Headed(st.frees, ClassOf(h.clsid), x) && r.At(x).flags == FREE)
    && (n > 0 ==> r.frees == st.frees && r.At(x) == h.(flags := h.flags.(linked := false), refcount := n))
  }

  /** Still there: at most its list, its time and its active mark have changed. */
  ghost predicate There<T>(st: State<T>, r: State<T>, x: T) {
    var h, g := st.At(x), r.At(x);
    && r.Linked(x) && r.bindings == st.bindings && r.frees == st.frees
    && g == h.(flags := g.flags, time := g.time, clsid := g.clsid) && h.flags.(active := false) == g.flags.(active := false)
  }

  lemma RetireGoes<T>(st: State<T>, x: T)
    requires Counted(st, x)
    ensures Retired(st, st.Retire(x), x) && st.Hold(x).Unlink(x).Drop(x) == st.Retire(x)
  {
    var a := st.Hold(x);
    UnlinkHeld(a, x);
  }

  lemma HeldIs<T>(st: State<T>, x: T)
    requires Counted(st, x)
    ensures var a := st.Hold(x);
            && a.At(x) == st.At(x).(refcount := st.At(x).refcount + 1) && a.Linked(x) && Held(a.holders, x) == Held(st.holders, x) + 1
            && a.bindings == st.bindings && a.frees == st.frees && a.lists == st.lists
  {
  }

  /** Let go of again. */
  lemma DroppedIs<T>(a: State<T>, x: T)
    requires a.Linked(x) && a.At(x).refcount >= 2
    ensures var r := a.Drop(x);
            && r.At(x) == a.At(x).(refcount := a.At(x).refcount - 1) && r.Linked(x)
            && r.bindings == a.bindings && r.frees == a.frees && r.lists == a.lists
  {
  }

  lemma EditedIs<T>(a: State<T>, x: T, f: Flags, id: nat, now: nat)
    requires a.Linked(x) && f.linked
    ensures a.Flag(x, f).Linked(x) && a.Flag(x, f).At(x) == a.At(x).(flags := f)
    ensures a.Flag(x, f).bindings == a.bindings && a.Flag(x, f).frees == a.frees && a.Flag(x, f).lists == a.lists
    ensures a.Relist(x, id).Linked(x) && a.Relist(x, id).At(x) == a.At(x).(clsid := id)
    ensures a.Relist(x, id).bindings == a.bindings && a.Relist(x, id).frees == a.frees
    ensures a.Relist(x, id).lists == Headed(Left(a.lists, a.At(x).clsid, x), id, x)
  {
  }

  /** A bump: to the head of its own list, with a new time, or nothing. */
  lemma BumpedIs<T>(a: State<T>, x: T, now: nat)
    requires a.Linked(x)
    ensures var r, h := a.UpdateNolock(x, now), a.At(x);
            && r.Linked(x) && r.bindings == a.bindings && r.frees == a.frees
            && r.At(x) == (if Stale(h.time, now) then h.(time := now) else h)
            && r.lists == (if Stale(h.time, now) then Headed(Left(a.lists, h.clsid, x), h.clsid, x) else a.lists)
  {
  }

  /** The numbers of the lists of a class. */
  lemma ListNumbers(clsid: nat)
    requires clsid < LIST_COUNT
    ensures LruOf(clsid) == HOT_LRU || LruOf(clsid) == WARM_LRU || LruOf(clsid) == COLD_LRU || LruOf(clsid) == TEMP_LRU
    ensures clsid == ClassOf(clsid) + LruOf(clsid) && ClassOf(clsid) < 64
  {
  }

  /** Where an item that stays is after the pull. */
  function Target(h: Head, lru: nat, p: Pull, over: bool, now: nat, cfg: Settings): nat {
    if h.flags.active && (lru == HOT_LRU || (lru == COLD_LRU && !p.evict && cfg.segmented)) then ClassOf(h.clsid) + WARM_LRU
    else if !h.flags.active && (lru == HOT_LRU || lru == WARM_LRU) && (over || (now - h.time) % UINT_SPAN > p.maxAge) then ClassOf(h.clsid) + COLD_LRU
    else h.clsid
  }

  /** It stays on its list, or heads the new one; on its way it loses the active mark. */
  ghost predicate Moved<T>(st: State<T>, r: State<T>, x: T, id: nat, now: nat) {
    var h, g := st.At(x), r.At(x);
    && There(st, r, x) && g.clsid == id
    && (if id != h.clsid then g.time == h.time && !g.flags.active && r.lists == Headed(Left(st.lists, h.clsid, x), id, x)
        else if LruOf(id) == WARM_LRU && h.flags.active then
          && !g.flags.active && g.time == (if Stale(h.time, now) then now else h.time)
          && r.lists == (if Stale(h.time, now) then Headed(Left(st.lists, id, x), id, x) else st.lists)
        else g == h && r.lists == st.lists)
  }

  /** The moves, from when x is held until it is let go of. */
  lemma MovesAre<T>(st: State<T>, x: T, now: nat)
    requires Counted(st, x) && st.At(x).clsid < LIST_COUNT
    ensures var h, a := st.At(x), st.Hold(x);
            var calm := h.flags.(active := false);
            && a.At(x).flags == h.flags && a.At(x).clsid == h.clsid && a.At(x).time == h.time
            && (LruOf(h.clsid) != WARM_LRU && h.flags.active ==> Moved(st, ToWarm(a, x), x, ClassOf(h.clsid) + WARM_LRU, now))
            && (LruOf(h.clsid) != COLD_LRU && !h.flags.active ==> Moved(st, ToCold(a, x), x, ClassOf(h.clsid) + COLD_LRU, now))
            && (!(LruOf(h.clsid) == WARM_LRU && h.flags.active) ==> Moved(st, a.Drop(x), x, h.clsid, now))
            && (LruOf(h.clsid) == WARM_LRU && h.flags.active ==> Moved(st, a.Flag(x, calm).UpdateNolock(x, now).Drop(x), x, h.clsid, now))
  {
    hide State.Hold, State.Drop, State.Flag, State.Relist, State.UpdateNolock, Left, Headed;
    var h, a := st.At(x), st.Hold(x);
    ListNumbers(h.clsid);
    HeldIs(st, x);
    var calm := h.flags.(active := false);
    var warm, cold := ClassOf(h.clsid) + WARM_LRU, ClassOf(h.clsid) + COLD_LRU;
    EditedIs(a, x, calm, cold, now);
    EditedIs(a.Flag(x, calm), x, calm, warm, now);
    BumpedIs(a.Flag(x, calm), x, now);
    DroppedIs(a, x);
    DroppedIs(a.Relist(x, cold), x);
    DroppedIs(a.Flag(x, calm).Relist(x, warm), x);
    DroppedIs(a.Flag(x, calm).UpdateNolock(x, now), x);
  }

  /** Whom a pull takes out: the dead, in any list; and in a COLD list, if it may and is to evict, the
      item it meets.  Nobody else: they stay bound, with their content, on the list where they belong. */
  lemma PullOutcome<T>(st: State<T>, x: T, lru: nat, p: Pull, over: bool, now: nat, cfg: Settings)
    requires Counted(st, x) && st.At(x).clsid < LIST_COUNT && LruOf(st.At(x).clsid) == lru
    ensures var h, r := st.At(x), PullOne(st, x, lru, p, over, now, cfg);
            var dead := (h.exptime != 0 && h.exptime < now) || (cfg.oldestLive != 0 && cfg.oldestLive <= now && h.time <= cfg.oldestLive);
            var evicted := lru == COLD_LRU && p.evict && cfg.evictToFree;
            && (if dead || evicted then Retired(st, r.st, x) else Moved(st, r.st, x, Target(h, lru, p, over, now, cfg), now))
            && r.removed == (if r.st.Linked(x) && r.st.At(x).clsid == h.clsid then 0 else 1)
            && (r.stop <==> !dead && !(lru == WARM_LRU && h.flags.active))
  {
    hide State.Hold, State.Drop, State.Unlink, State.Flag, State.UpdateNolock, State.Retire, ToWarm, ToCold, Moved, Retired;
    RetireGoes(st, x);
    MovesAre(st, x, now);
    ListNumbers(st.At(x).clsid);
    OutIs(st, PullOne(st, x, lru, p, over, now, cfg).st, x, Target(st.At(x), lru, p, over, now, cfg), now);
  }

  lemma OutIs<T>(st: State<T>, r: State<T>, x: T, id: nat, now: nat)
    ensures Retired(st, r, x) ==> !r.Linked(x)
    ensures Moved(st, r, x, id, now) ==> r.Linked(x) && r.At(x).clsid == id
  {
  }

  /** When HOT and WARM drain: an item that is not active leaves for COLD exactly if its list holds more
      than the share set for it, in percent of the bytes of the class, or if the item is too old.  A HOT
      share that comes to less than a byte counts as the one of WARM. */
  lemma DrainsIff<T>(st: State<T>, i: nat, k: nat, lru: nat, w: Scan<T>)
    requires 0 < k <= |ListAt(st, i)| && i < LIST_COUNT && LruOf(i) == lru && (lru == HOT_LRU || lru == WARM_LRU)
    requires var x := ListAt(st, i)[k - 1];
             Counted(st, x) && st.At(x).clsid == i && !st.At(x).flags.active && !st.At(x).Dead(w.cfg.oldestLive, w.now)
    ensures var x, r := ListAt(st, i)[k - 1], PullAt(st, i, k, lru, w).st;
            var share := if lru == HOT_LRU && w.p.totalBytes * w.cfg.hotPct >= 100 then w.cfg.hotPct else w.cfg.warmPct;
            var drains := 100 * ListBytes(st, ListAt(st, i), w.crawler) > w.p.totalBytes * share || (w.now - st.At(x).time) % UINT_SPAN > w.p.maxAge;
            r.Linked(x) && r.At(x).clsid == if drains then ClassOf(i) + COLD_LRU else i
  {
    hide PullOne, Counted, There;
    var x := ListAt(st, i)[k - 1];
    var bytes := ListBytes(st, ListAt(st, i), w.crawler);
    ListNumbers(i);
    PullOutcome(st, x, lru, w.p, bytes > Limit(lru, w.p, w.cfg), w.now, w.cfg);
    OutIs(st, PullAt(st, i, k, lru, w).st, x, Target(st.At(x), lru, w.p, bytes > Limit(lru, w.p, w.cfg), w.now, w.cfg), w.now);
    Percent(bytes, w.p.totalBytes * w.cfg.hotPct);
    Percent(bytes, w.p.totalBytes * w.cfg.warmPct);
  }

  lemma Percent(bytes: nat, share: nat)
    ensures bytes > share / 100 <==> 100 * bytes > share
    ensures share / 100 != 0 <==> share >= 100
  {
  }

  // ---------------------------------------------------------------- whole pulls

  /** The items of list i of a cache in order. */
  lemma ListCounted<T>(w: World<T>, i: nat)
    requires Sound(w) && i < LIST_COUNT
    ensures |w.st.lists| == |w.ls.crawlers| == LIST_COUNT && Distinct(w.st.lists[i])
    ensures forall x :: x in w.st.lists[i] && x != w.ls.crawlers[i] ==> Counted(w.st, x) && w.st.At(x).clsid == i
  {
    ListIsLinked(w, i);
    forall x | x in w.st.lists[i] && x != w.ls.crawlers[i] ensures Counted(w.st, x) && w.st.At(x).clsid == i {
      assert Told(x, w.st.heads[x], w.ls, w.st.holders);
    }
  }

  /** Whoever is bound and alive stays bound and alive, with the content it has. */
  ghost predicate SparesLive<T>(st: State<T>, r: State<T>, now: nat, cfg: Settings) {
    forall k :: k in st.bindings && !st.At(st.bindings[k]).Dead(cfg.oldestLive, now) ==>
      && k in r.bindings && r.bindings[k] == st.bindings[k] && r.Linked(r.bindings[k])
      && var h, g := st.At(st.bindings[k]), r.At(st.bindings[k]);
         !g.Dead(cfg.oldestLive, now) && g == h.(flags := g.flags, time := g.time, clsid := g.clsid, refcount := g.refcount)
  }

  /** No item was touched later than now. */
  ghost predicate InPast<T>(st: State<T>, now: nat) {
    forall x :: x in st.heads && st.heads[x].flags.linked ==> st.heads[x].time <= now
  }

  /** One item of a walk: a run of a thread, from a cache in order to another. */
  lemma StepRun<T>(w: World<T>, x: T, lru: nat, p: Pull, over: bool, now: nat, cfg: Settings) returns (r: World<T>)
    requires Sound(w) && w.st.Linked(x)
    ensures Sound(r) && r.st == PullOne(w.st, x, lru, p, over, now, cfg).st && r.ls.crawlers == w.ls.crawlers
  {
    hide Done, Sound, PullOne, RefsOf;
    var acts, b := [], Bounds({0}, None);
    acts, r := Begin(w, b);
    acts, r := DoPull(w, acts, b, r, 0, x, lru, p, over, now, cfg);
    DoneSound(w, acts, b, r);
    DoneCrawlers(w, acts, b, r);
  }

  /** Only x is gone, or moved. */
  lemma GoneSpares<T>(st: State<T>, r: State<T>, x: T, now: nat, cfg: Settings)
    requires BindsOK(st) && Eviction.Only(st, r, x, 0) && Retired(st, r, x) && st.Linked(x)
    ensures st.At(x).Dead(cfg.oldestLive, now) ==> SparesLive(st, r, now, cfg)
    ensures InPast(st, now) ==> InPast(r, now)
  {
    hide Left, Headed, Head.Dead;
    assert r.heads.Keys == st.heads.Keys && Elsewhere(st, r, x);
    assert forall k :: k in st.bindings && st.bindings[k] == x ==> k == st.At(x).key;
  }

  lemma MovedSpares<T>(st: State<T>, r: State<T>, x: T, id: nat, now: nat, cfg: Settings)
    requires BindsOK(st) && Eviction.Only(st, r, x, 0) && Moved(st, r, x, id, now) && st.Linked(x)
    requires r.At(x).time == st.At(x).time || st.At(x).time <= now
    ensures SparesLive(st, r, now, cfg)
    ensures InPast(st, now) ==> InPast(r, now)
  {
    hide Left, Headed;
    assert r.heads.Keys == st.heads.Keys && Elsewhere(st, r, x);
    assert forall k :: k in st.bindings ==> st.bindings[k] in st.heads;
    var h, g := st.At(x), r.At(x);
    assert g == h.(flags := g.flags, time := g.time, clsid := g.clsid) && (g.time == h.time || (g.time == now && h.time <= now));
    assert !h.Dead(cfg.oldestLive, now) ==> !g.Dead(cfg.oldestLive, now);
    hide Moved, There;
  }

  /** One pull without eviction spares all that are alive. */
  lemma OneSpares<T>(w: World<T>, x: T, lru: nat, p: Pull, over: bool, now: nat, cfg: Settings)
    requires Sound(w) && Counted(w.st, x) && w.st.At(x).clsid < LIST_COUNT && LruOf(w.st.At(x).clsid) == lru
    requires lru == COLD_LRU ==> !p.evict || !cfg.evictToFree
    requires lru == WARM_LRU ==> InPast(w.st, now)
    ensures var r := PullOne(w.st, x, lru, p, over, now, cfg).st; SparesLive(w.st, r, now, cfg) && (lru == WARM_LRU ==> InPast(r, now))
  {
    hide Sound, PullOne, Eviction.Only, Retired, Moved, InPast, SparesLive, BindsOK, Target;
    var st, r := w.st, PullOne(w.st, x, lru, p, over, now, cfg).st;
    PullOutcome(st, x, lru, p, over, now, cfg);
    PullOneOnly(st, x, lru, p, over, now, cfg);
    BoundOnce(w);
    if lru == WARM_LRU {
      TimeIs(st, x, now);
    }
    if st.At(x).Dead(cfg.oldestLive, now) {
      GoneSpares(st, r, x, now, cfg);
    } else {
      MovedTime(st, r, x, lru, Target(st.At(x), lru, p, over, now, cfg), now);
      MovedSpares(st, r, x, Target(st.At(x), lru, p, over, now, cfg), now, cfg);
    }
  }

  lemma TimeIs<T>(st: State<T>, x: T, now: nat)
    requires st.Linked(x) && InPast(st, now)
    ensures st.At(x).time <= now
  {
  }

  /** Only in a WARM list a pull changes the time of an item. */
  lemma MovedTime<T>(st: State<T>, r: State<T>, x: T, lru: nat, id: nat, now: nat)
    requires Moved(st, r, x, id, now) && LruOf(st.At(x).clsid) == lru
    ensures lru != WARM_LRU ==> r.At(x).time == st.At(x).time
  {
  }

  lemma BoundOnce<T>(w: World<T>)
    requires Sound(w)
    ensures BindsOK(w.st)
  {
  }

  lemma SparesTwice<T>(a: State<T>, b: State<T>, c: State<T>, now: nat, cfg: Settings)
    requires SparesLive(a, b, now, cfg) && SparesLive(b, c, now, cfg)
    ensures SparesLive(a, c, now, cfg)
  {
    hide Head.Dead, State.Linked;
  }

  /** Without eviction, a pull from any list takes only dead items from the table. */
  lemma {:induction false} WalkSpares<T>(w: World<T>, i: nat, k: nat, lru: nat, scan: Scan<T>, tries: nat, removed: nat)
    requires Sound(w) && i < LIST_COUNT == |w.ls.crawlers| && scan.crawler == w.ls.crawlers[i] && LruOf(i) == lru
    requires lru == COLD_LRU ==> !scan.p.evict || !scan.cfg.evictToFree
    requires lru == WARM_LRU ==> InPast(w.st, scan.now)
    ensures SparesLive(w.st, PullWalk(w.st, i, k, lru, scan, tries, removed).0, scan.now, scan.cfg)
    decreases tries, k
  {
    hide Sound, Distinct, PullOne, Counted, SparesLive, InPast;
    SparesSelf(w, scan.now, scan.cfg);
    if tries > 0 && 0 < k <= |ListAt(w.st, i)| {
      ListCounted(w, i);
      var x := ListAt(w.st, i)[k - 1];
      if x == scan.crawler {
        if !scan.p.crawlBlocks {
          WalkSpares(w, i, k - 1, lru, scan, tries, removed);
        }
      } else if x in scan.busy {
        WalkSpares(w, i, k - 1, lru, scan, tries - 1, removed);
      } else {
        var over := ListBytes(w.st, ListAt(w.st, i), scan.crawler) > Limit(lru, scan.p, scan.cfg);
        CountedIs(w.st, x);
        OneSpares(w, x, lru, scan.p, over, scan.now, scan.cfg);
        var r := StepRun(w, x, lru, scan.p, over, scan.now, scan.cfg);
        var one := PullAt(w.st, i, k, lru, scan);
        if !one.stop {
          var k' := PlaceBefore(ListAt(w.st, i), k, ListAt(one.st, i));
          WalkSpares(r, i, k', lru, scan, tries - 1, removed + one.removed);
          SparesTwice(w.st, r.st, PullWalk(r.st, i, k', lru, scan, tries - 1, removed + one.removed).0, scan.now, scan.cfg);
        }
      }
    }
  }

  lemma CountedIs<T>(st: State<T>, x: T)
    requires Counted(st, x)
    ensures st.Linked(x)
  {
  }

  lemma SparesSelf<T>(w: World<T>, now: nat, cfg: Settings)
    requires Sound(w)
    ensures SparesLive(w.st, w.st, now, cfg)
  {
  }

  lemma KeptTwice<T>(a: State<T>, b: State<T>, c: State<T>)
    requires Eviction.Kept(a, b) && Eviction.Kept(b, c)
    ensures Eviction.Kept(a, c)
  {
  }

  lemma KeptFirst<T>(st: State<T>)
    ensures Eviction.Kept(st, st)
  {
  }

  /** No pull binds anything, nor takes anything off a freelist; all references stay. */
  lemma {:induction false} WalkKeeps<T>(w: World<T>, i: nat, k: nat, lru: nat, scan: Scan<T>, tries: nat, removed: nat)
    requires Sound(w) && i < LIST_COUNT == |w.ls.crawlers| && scan.crawler == w.ls.crawlers[i]
    ensures Eviction.Kept(w.st, PullWalk(w.st, i, k, lru, scan, tries, removed).0)
    decreases tries, k
  {
    hide Sound, Distinct, PullOne, Counted, Eviction.Kept, Eviction.Only;
    KeptFirst(w.st);
    if tries > 0 && 0 < k <= |ListAt(w.st, i)| {
      ListCounted(w, i);
      var x := ListAt(w.st, i)[k - 1];
      if x == scan.crawler {
        if !scan.p.crawlBlocks {
          WalkKeeps(w, i, k - 1, lru, scan, tries, removed);
        }
      } else if x in scan.busy {
        WalkKeeps(w, i, k - 1, lru, scan, tries - 1, removed);
      } else {
        var over := ListBytes(w.st, ListAt(w.st, i), scan.crawler) > Limit(lru, scan.p, scan.cfg);
        CountedIs(w.st, x);
        PullOneOnly(w.st, x, lru, scan.p, over, scan.now, scan.cfg);
        var r := StepRun(w, x, lru, scan.p, over, scan.now, scan.cfg);
        KeptBy(w.st, w.st, r.st, x);
        var one := PullAt(w.st, i, k, lru, scan);
        if !one.stop {
          var k' := PlaceBefore(ListAt(w.st, i), k, ListAt(one.st, i));
          WalkKeeps(r, i, k', lru, scan, tries - 1, removed + one.removed);
          KeptTwice(w.st, r.st, PullWalk(r.st, i, k', lru, scan, tries - 1, removed + one.removed).0);
        }
      }
    }
  }

  // ---------------------------------------------------------------- whom an eviction meets

  /** The items an eviction takes in hand: from the tail, crawler and busy items passed, up to the first
      one alive. */
  ghost function Met<T>(s: seq<T>, crawler: T, busy: set<T>, dead: set<T>, tries: nat): set<T> {
    if s == [] || tries == 0 then {}
    else
      var x, rest := s[|s| - 1], s[..|s| - 1];
      if x == crawler then Met(rest, crawler, busy, dead, tries)
      else if x in busy then Met(rest, crawler, busy, dead, tries - 1)
      else {x} + if x in dead then Met(rest, crawler, busy, dead, tries - 1) else {}
  }

  lemma {:induction false} MetIn<T>(s: seq<T>, crawler: T, busy: set<T>, dead: set<T>, tries: nat)
    ensures forall x :: x in Met(s, crawler, busy, dead, tries) ==> x in s && x != crawler && x !in busy
    ensures Victim(s, crawler, busy + dead, tries).Some? ==> Victim(s, crawler, busy + dead, tries).value in Met(s, crawler, busy, dead, tries)
  {
    if s != [] && tries > 0 {
      var x, rest := s[|s| - 1], s[..|s| - 1];
      MetIn(rest, crawler, busy, dead, if x == crawler then tries else tries - 1);
    }
  }

  lemma {:induction false} SameMet<T>(s: seq<T>, crawler: T, busy: set<T>, dead: set<T>, dead': set<T>, tries: nat)
    requires forall x :: x in s && x != crawler ==> (x in dead <==> x in dead')
    ensures Met(s, crawler, busy, dead, tries) == Met(s, crawler, busy, dead', tries)
  {
    if s != [] && tries > 0 {
      var x, rest := s[|s| - 1], s[..|s| - 1];
      SameMet(rest, crawler, busy, dead, dead', if x == crawler then tries else tries - 1);
    }
  }

  /** The items of s are on the COLD list of class id, and counted. */
  ghost predicate ColdItems<T>(st: State<T>, s: seq<T>, id: nat, crawler: T) {
    id < CLASS_COUNT && Distinct(s) && forall x :: x in s && x != crawler ==> Counted(st, x) && st.At(x).clsid == id + COLD_LRU
  }

  /** What an eviction does to the items it meets: none stays linked, and those that nobody holds are on
      the freelist of the class. */
  ghost predicate TakenOut<T>(st: State<T>, r: State<T>, met: set<T>, id: nat) {
    forall x :: x in met ==> !r.Linked(x) && (Held(st.holders, x) == 0 ==> id < |r.frees| && x in r.frees[id])
  }

  ghost predicate Untouched<T>(st: State<T>, r: State<T>, s: seq<T>) {
    FreesStay(st, r) && forall z :: z in st.heads && z !in s ==> z in r.heads && r.heads[z] == st.heads[z]
  }

  lemma StillCold<T>(st: State<T>, r: State<T>, x: T, rest: seq<T>, id: nat, crawler: T)
    requires ColdItems(st, rest + [x], id, crawler) && x != crawler && Eviction.Only(st, r, x, 0)
    ensures x !in rest && Counted(st, x) && st.At(x).clsid == id + COLD_LRU
    ensures ColdItems(r, rest, id, crawler) && Untouched(st, r, [x]) && |r.frees| == |st.frees| && x in r.heads
    ensures forall y :: y in rest && y != crawler ==> Held(r.holders, y) == Held(st.holders, y) && r.At(y) == st.At(y)
  {
    var s := rest + [x];
    assert s[|rest|] == x;
    assert forall i :: 0 <= i < |rest| ==> rest[i] == s[i];
    assert forall y :: y in rest ==> y in s;
  }

  lemma RetiredTaken<T>(st: State<T>, r: State<T>, x: T, id: nat)
    requires Retired(st, r, x) && st.At(x).clsid == id + COLD_LRU && id < |st.frees| && id < CLASS_COUNT
    ensures TakenOut(st, r, {x}, id)
  {
  }

  /** One item met. */
  lemma MeetsOne<T>(st: State<T>, x: T, rest: seq<T>, id: nat, crawler: T, p: Pull, now: nat, cfg: Settings)
    requires ColdItems(st, rest + [x], id, crawler) && x != crawler && p.evict && cfg.evictToFree && id < |st.frees|
    ensures var r := PullOne(st, x, COLD_LRU, p, false, now, cfg);
            && r.removed == 1 && (r.stop <==> !st.At(x).Dead(cfg.oldestLive, now)) && x !in rest && x in st.heads && x in r.st.heads
            && ColdItems(r.st, rest, id, crawler) && TakenOut(st, r.st, {x}, id) && Untouched(st, r.st, [x]) && |r.st.frees| == |st.frees|
            && (forall y :: y in rest && y != crawler ==> Held(r.st.holders, y) == Held(st.holders, y) && r.st.At(y) == st.At(y))
  {
    hide PullOne, ColdItems, Retired, TakenOut, Untouched, Eviction.Only, Moved;
    var r := PullOne(st, x, COLD_LRU, p, false, now, cfg).st;
    LinkedCold(st, x, rest, id, crawler);
    PullOneOnly(st, x, COLD_LRU, p, false, now, cfg);
    StillCold(st, r, x, rest, id, crawler);
    PullOutcome(st, x, COLD_LRU, p, false, now, cfg);
    OutIs(st, r, x, Target(st.At(x), COLD_LRU, p, false, now, cfg), now);
    RetiredTaken(st, r, x, id);
  }

  lemma LinkedCold<T>(st: State<T>, x: T, rest: seq<T>, id: nat, crawler: T)
    requires ColdItems(st, rest + [x], id, crawler) && x != crawler
    ensures Counted(st, x) && st.Linked(x) && x in st.heads && id < CLASS_COUNT && LruOf(id + COLD_LRU) == COLD_LRU
    ensures st.At(x).clsid == id + COLD_LRU < LIST_COUNT
  {
    assert x in rest + [x];
  }

  /** An eviction takes exactly the items it meets: it returns their number, unlinks them, and those
      that nobody holds are then on the freelist.  It touches no item outside its list. */
  lemma {:induction false} EvictTakesMet<T>(st: State<T>, s: seq<T>, id: nat, crawler: T, busy: set<T>, tries: nat, removed: nat,
                                            p: Pull, now: nat, cfg: Settings)
    requires ColdItems(st, s, id, crawler) && p.evict && !p.crawlBlocks && cfg.evictToFree && id < |st.frees|
    ensures var (r, n) := PullCold(st, s, crawler, busy, tries, removed, p, now, cfg);
            var met := Met(s, crawler, busy, DeadOf(st, s, now, cfg), tries);
            TakenOut(st, r, met, id) && Untouched(st, r, s) && (n > removed <==> met != {}) && n >= removed
    decreases |s|
  {
    hide PullOne, ColdItems, TakenOut, Untouched, Head.Dead, Distinct;
    var dead := DeadOf(st, s, now, cfg);
    TakenNone(st, s, id);
    if s != [] && tries > 0 {
      var x, rest := s[|s| - 1], s[..|s| - 1];
      assert s == rest + [x];
      FewerCold(st, rest, x, id, crawler);
      SameMet(rest, crawler, busy, dead, DeadOf(st, rest, now, cfg), if x == crawler then tries else tries - 1);
      if x == crawler || x in busy {
        var left := if x == crawler then tries else tries - 1;
        EvictTakesMet(st, rest, id, crawler, busy, left, removed, p, now, cfg);
        UntouchedMore(st, PullCold(st, rest, crawler, busy, left, removed, p, now, cfg).0, rest, x);
      } else {
        MeetsOne(st, x, rest, id, crawler, p, now, cfg);
        var one := PullOne(st, x, COLD_LRU, p, false, now, cfg);
        if one.stop {
          assert x !in dead && {x} + {} == {x};
          UntouchedList(st, one.st, rest, x);
        } else {
          EvictTakesMet(one.st, rest, id, crawler, busy, tries - 1, removed + 1, p, now, cfg);
          MetIn(rest, crawler, busy, DeadOf(one.st, rest, now, cfg), tries - 1);
          SameMet(rest, crawler, busy, dead, DeadOf(one.st, rest, now, cfg), tries - 1);
          var r := PullCold(one.st, rest, crawler, busy, tries - 1, removed + 1, p, now, cfg).0;
          TakenOn(st, one.st, r, x, rest, Met(rest, crawler, busy, DeadOf(one.st, rest, now, cfg), tries - 1), id, crawler);
        }
      }
    }
  }

  lemma DeadGoes<T>(st: State<T>, x: T, rest: seq<T>, id: nat, crawler: T, p: Pull, now: nat, cfg: Settings)
    requires ColdItems(st, rest + [x], id, crawler) && x != crawler && id < |st.frees|
    ensures var r := PullOne(st, x, COLD_LRU, p, false, now, cfg);
            && (r.stop <==> !st.At(x).Dead(cfg.oldestLive, now)) && x !in rest && x in st.heads && x in r.st.heads
            && ColdItems(r.st, rest, id, crawler) && Untouched(st, r.st, [x]) && |r.st.frees| == |st.frees|
            && (!r.stop ==> TakenOut(st, r.st, {x}, id))
            && (forall y :: y in rest && y != crawler ==> Held(r.st.holders, y) == Held(st.holders, y) && r.st.At(y) == st.At(y))
  {
    hide PullOne, ColdItems, Retired, TakenOut, Untouched, Eviction.Only, Moved;
    var r := PullOne(st, x, COLD_LRU, p, false, now, cfg).st;
    LinkedCold(st, x, rest, id, crawler);
    PullOneOnly(st, x, COLD_LRU, p, false, now, cfg);
    StillCold(st, r, x, rest, id, crawler);
    PullOutcome(st, x, COLD_LRU, p, false, now, cfg);
    if st.At(x).Dead(cfg.oldestLive, now) {
      RetiredTaken(st, r, x, id);
    }
  }

  /** Any pull from a COLD list takes the dead items it meets, and frees those that nobody holds. */
  lemma {:induction false} PullTakesDead<T>(st: State<T>, s: seq<T>, id: nat, crawler: T, busy: set<T>, tries: nat, removed: nat,
                                            p: Pull, now: nat, cfg: Settings)
    requires ColdItems(st, s, id, crawler) && !p.crawlBlocks && id < |st.frees|
    ensures var r, dead := PullCold(st, s, crawler, busy, tries, removed, p, now, cfg).0, DeadOf(st, s, now, cfg);
            TakenOut(st, r, Met(s, crawler, busy, dead, tries) * dead, id) && Untouched(st, r, s)
    decreases |s|
  {
    hide PullOne, ColdItems, TakenOut, Untouched, Head.Dead, Distinct;
    var dead := DeadOf(st, s, now, cfg);
    TakenNone(st, s, id);
    if s == [] || tries == 0 {
      assert {} * dead == {};
    } else {
      var x, rest := s[|s| - 1], s[..|s| - 1];
      assert s == rest + [x];
      FewerCold(st, rest, x, id, crawler);
      var rd := DeadOf(st, rest, now, cfg);
      SameMet(rest, crawler, busy, dead, rd, if x == crawler then tries else tries - 1);
      MetIn(rest, crawler, busy, dead, if x == crawler then tries else tries - 1);
      if x == crawler || x in busy {
        var left := if x == crawler then tries else tries - 1;
        PullTakesDead(st, rest, id, crawler, busy, left, removed, p, now, cfg);
        assert Met(rest, crawler, busy, dead, left) * dead == Met(rest, crawler, busy, rd, left) * rd;
        UntouchedMore(st, PullCold(st, rest, crawler, busy, left, removed, p, now, cfg).0, rest, x);
      } else {
        DeadGoes(st, x, rest, id, crawler, p, now, cfg);
        var one := PullOne(st, x, COLD_LRU, p, false, now, cfg);
        if one.stop {
          assert x !in dead && {x} + {} == {x} && {x} * dead == {};
          TakenNone(one.st, rest, id);
          NoneTaken(st, one.st, id);
          UntouchedList(st, one.st, rest, x);
        } else {
          PullTakesDead(one.st, rest, id, crawler, busy, tries - 1, removed + one.removed, p, now, cfg);
          var od := DeadOf(one.st, rest, now, cfg);
          SameMet(rest, crawler, busy, dead, od, tries - 1);
          var met := Met(rest, crawler, busy, od, tries - 1);
          assert x in dead;
          assert Met(s, crawler, busy, dead, tries) * dead == {x} + met * od;
          var r := PullCold(one.st, rest, crawler, busy, tries - 1, removed + one.removed, p, now, cfg).0;
          TakenOn(st, one.st, r, x, rest, met * od, id, crawler);
        }
      }
    }
  }

  lemma NoneTaken<T>(st: State<T>, r: State<T>, id: nat)
    ensures TakenOut(st, r, {}, id)
  {
  }

  lemma TakenNone<T>(st: State<T>, s: seq<T>, id: nat)
    ensures TakenOut(st, st, {}, id) && Untouched(st, st, s)
  {
  }

  lemma FewerCold<T>(st: State<T>, rest: seq<T>, x: T, id: nat, crawler: T)
    requires ColdItems(st, rest + [x], id, crawler)
    ensures ColdItems(st, rest, id, crawler) && x !in rest
  {
    var s := rest + [x];
    assert s[|rest|] == x;
    assert forall i :: 0 <= i < |rest| ==> rest[i] == s[i];
    assert forall y :: y in rest ==> y in s;
  }

  lemma UntouchedMore<T>(st: State<T>, r: State<T>, rest: seq<T>, x: T)
    requires Untouched(st, r, rest)
    ensures Untouched(st, r, rest + [x])
  {
  }

  lemma UntouchedList<T>(st: State<T>, r: State<T>, rest: seq<T>, x: T)
    requires Untouched(st, r, [x])
    ensures Untouched(st, r, rest + [x])
  {
  }

  /** Through a dead item, and on. */
  lemma TakenOn<T>(st: State<T>, a: State<T>, r: State<T>, x: T, rest: seq<T>, met: set<T>, id: nat, crawler: T)
    requires TakenOut(st, a, {x}, id) && TakenOut(a, r, met, id) && Untouched(st, a, [x]) && Untouched(a, r, rest) && x !in rest
    requires x in st.heads && x in a.heads && |a.frees| == |st.frees| && forall y :: y in met ==> y in rest && y != crawler
    requires forall y :: y in rest && y != crawler ==> Held(a.holders, y) == Held(st.holders, y)
    ensures TakenOut(st, r, {x} + met, id) && Untouched(st, r, rest + [x])
  {
  }

  // ---------------------------------------------------------------- the count a pull returns

  /** How the list of x is when x has been pulled. */
  lemma OneLeaves<T>(st: State<T>, x: T, i: nat, crawler: T, p: Pull, over: bool, now: nat, cfg: Settings)
    requires Counted(st, x) && st.At(x).clsid == i < |st.lists| == LIST_COUNT && Distinct(st.lists[i]) && x in st.lists[i] && x != crawler
    ensures var r := PullOne(st, x, LruOf(i), p, over, now, cfg);
            && |r.st.lists| == |st.lists| && |r.st.lists[i]| + r.removed == |st.lists[i]|
            && (crawler in r.st.lists[i] ==> crawler in st.lists[i])
  {
    hide PullOne, Counted, Head.Dead;
    var r := PullOne(st, x, LruOf(i), p, over, now, cfg);
    PullOutcome(st, x, LruOf(i), p, over, now, cfg);
    OutIs(st, r.st, x, Target(st.At(x), LruOf(i), p, over, now, cfg), now);
    RemovedOnce(st.lists[i], x);
    RemovedShorter(st.lists[i], x);
  }

  lemma {:induction false} RemovedShorter<T>(s: seq<T>, x: T)
    requires x in s
    ensures |Removed(s, x)| == |s| - 1
  {
    if s[0] != x {
      RemovedShorter(s[1..], x);
    }
  }

  /** A pull returns how many items left the list.  Only if it is to give up at the crawler, and the
      crawler is on the list, it may return 0 instead. */
  lemma {:induction false} WalkCounts<T>(w: World<T>, i: nat, k: nat, lru: nat, scan: Scan<T>, tries: nat, removed: nat)
    requires Sound(w) && i < LIST_COUNT == |w.ls.crawlers| && scan.crawler == w.ls.crawlers[i] && LruOf(i) == lru
    ensures |w.st.lists| == LIST_COUNT
    ensures var (r, n) := PullWalk(w.st, i, k, lru, scan, tries, removed);
            && |r.lists| == LIST_COUNT
            && (n + |r.lists[i]| == removed + |w.st.lists[i]| || (n == 0 && scan.p.crawlBlocks && scan.crawler in w.st.lists[i]))
    decreases tries, k
  {
    hide Sound, Distinct, PullOne, Counted;
    ListCounted(w, i);
    if tries > 0 && 0 < k <= |ListAt(w.st, i)| {
      var x := ListAt(w.st, i)[k - 1];
      if x == scan.crawler {
        if !scan.p.crawlBlocks {
          WalkCounts(w, i, k - 1, lru, scan, tries, removed);
        }
      } else if x in scan.busy {
        WalkCounts(w, i, k - 1, lru, scan, tries - 1, removed);
      } else {
        var over := ListBytes(w.st, ListAt(w.st, i), scan.crawler) > Limit(lru, scan.p, scan.cfg);
        CountedIs(w.st, x);
        OneLeaves(w.st, x, i, scan.crawler, scan.p, over, scan.now, scan.cfg);
        var r := StepRun(w, x, lru, scan.p, over, scan.now, scan.cfg);
        var one := PullAt(w.st, i, k, lru, scan);
        if !one.stop {
          WalkCounts(r, i, PlaceBefore(ListAt(w.st, i), k, ListAt(one.st, i)), lru, scan, tries - 1, removed + one.removed);
        }
      }
    }
  }

  /** And so it does: of a list with a dead item at its tail and the crawler before it, one item
      leaves, and 0 is returned. */
  lemma CountIsLost()
    ensures var cfg := Settings(false, true, 0, 0, 0, false, 0);
            var h := Head(Flags(true, false, false, false), 1, 0, 1, 2, COLD_LRU + 1, [], []);
            var st := State(map[[] := 1], seq(LIST_COUNT, i => if i == COLD_LRU + 1 then [0, 1] else []), seq(CLASS_COUNT, i => []), map[1 := h], map[]);
            var (r, n) := PullWalk(st, COLD_LRU + 1, 2, COLD_LRU, Scan(0, {}, Pull(false, true, 0, 0), 2, cfg), 5, 0);
            n == 0 && r.lists[COLD_LRU + 1] == [0] && !r.Linked(1)
  {
    var cfg := Settings(false, true, 0, 0, 0, false, 0);
    var h := Head(Flags(true, false, false, false), 1, 0, 1, 2, COLD_LRU + 1, [], []);
    var lists: seq<seq<int>> := seq(LIST_COUNT, i => if i == COLD_LRU + 1 then [0, 1] else []);
    var st := State(map[[] := 1], lists, seq(CLASS_COUNT, i => []), map[1 := h], map[]);
    var scan := Scan(0, {}, Pull(false, true, 0, 0), 2, cfg);
    var one := PullAt(st, COLD_LRU + 1, 2, COLD_LRU, scan);
    RetireGoes(st, 1);
    assert [0, 1][0] == 0 && [0, 1][1..] == [1] && Removed([1], 1) == [];
    assert one.st == st.Retire(1) && !one.stop && one.removed == 1;
    assert one.st.lists[COLD_LRU + 1] == [0];
    assert PlaceBefore([0, 1], 2, [0]) == 1;
  }
}
