/** Getting memory for a new item: from the freelist, a new page, or an eviction. */
module Allocation {
  import opened Common
  import opened Items
  import opened LruSpec
  import opened SlabClass
  import opened Slabs
  import opened CacheSpec
  import opened Cache
  import opened Lifecycle
  import opened Eviction
  import opened AllocSpec
  import PullLaws
  import ItemOwners

  /** do_slabs_alloc without leave to take a new page: the first chunk of the freelist, if any. */
  method TakeFree(c: Cache, id: nat) returns (it: Item?)
    requires c.Valid() && id < |c.slabs.cs|
    modifies c`raw, c.slabs`freeAt, c.slabs.cs`slots, c.slabs.cs`slCurr, c.slabs.cs`free
    modifies c.slabs.home.Keys`prev, c.slabs.home.Keys`flags, c.slabs.home.Keys`refcount
    ensures c.Valid() && id < |old(c.View()).frees|
    ensures (it == null) == (old(c.View()).frees[id] == [])
    ensures it == null ==> c.View() == old(c.View()) && c.raw == old(c.raw)
    ensures it != null ==>
              && it == old(c.View()).frees[id][0] && c.View() == old(c.View()).Take(id, it)
              && c.raw == old(c.raw) + {it} && it !in old(c.raw) && it !in c.holders
              && it in c.slabs.home && c.slabs.home[it] == id && old(c.View()).At(it).flags == FREE
  {
    hide *;
    c.FreeIs(id);
    if c.slabs.cs[id].slCurr != 0 {
      it := c.Take(id);
    } else {
      it := null;
    }
  }

  /** There is neither a free chunk of the class nor a page for it. */
  ghost predicate NoChunk(c: Cache, id: nat, st: State<Item>)
    reads c.slabs`mem, c.slabs.cs`slabList
  {
    (id < |st.frees| ==> st.frees[id] == []) && !c.slabs.PageToBeHad(id)
  }

  lemma NoChunkIs(c: Cache, id: nat, st: State<Item>)
    requires (id < |st.frees| ==> st.frees[id] == []) && !c.slabs.PageToBeHad(id)
    ensures NoChunk(c, id, st)
  {
  }

  /** The chunk was free, and is now in nobody's hands but the caller's, its header to be written. */
  ghost predicate Handed(c: Cache, it: Item, raw: set<Item>, grown: State<Item>, id: nat)
    reads c`raw, c`holders, c.slabs`home
  {
    && c.raw == raw + {it} && it !in raw && it !in c.holders
    && it in c.slabs.home && c.slabs.home[it] == id && grown.At(it).flags == FREE
  }

  lemma HandedIs(c: Cache, it: Item, raw: set<Item>, grown: State<Item>, id: nat)
    ensures Handed(c, it, raw, grown, id) <==>
              && c.raw == raw + {it} && it !in raw && it !in c.holders
              && it in c.slabs.home && c.slabs.home[it] == id && grown.At(it).flags == FREE
  {
  }

  /** do_slabs_alloc: a chunk of the class, cut from a new page if there is none.  `grown` is the
      state with the new page. */
  method SlabsAlloc(c: Cache, id: nat) returns (it: Item?, ghost grown: State<Item>)
    requires c.Valid() && POOL < id < |c.slabs.cs|
    modifies c`raw, c.slabs`freeAt, c.slabs`home, c.slabs`pageAt, c.slabs`mem, c.slabs`memLimitReached
    modifies c.slabs.cs`slots, c.slabs.cs`slCurr, c.slabs.cs`free, c.slabs.cs`owned, c.slabs.cs`slabList, c.slabs.cs`listSize
    modifies c.slabs.home.Keys`prev, c.slabs.home.Keys`flags, c.slabs.home.Keys`refcount, c.slabs.pageAt.Keys`chunks
    ensures c.Valid() && Grown(old(c.View()), grown)
    ensures c.View() == if it == null then grown else grown.Take(id, it)
    ensures it == null ==> c.raw == old(c.raw) && grown == old(c.View())
    ensures it == null ==> NoChunk(c, id, c.View())
    ensures it == null <==> (id < |old(c.View()).frees| ==> old(c.View()).frees[id] == []) && !old(c.slabs.PageToBeHad(id))
    ensures it == null ==> c.slabs.home == old(c.slabs.home) && c.slabs.pageAt == old(c.slabs.pageAt)
    ensures it != null ==> Handed(c, it, old(c.raw), grown, id)
    ensures FreesAt(old(c.View()), id) != [] ==> grown == old(c.View())
    ensures it != null ==> FreesAt(grown, id) != [] && it == FreesAt(grown, id)[0]
    ensures fresh(c.slabs.home.Keys - old(c.slabs.home.Keys))
  {
    hide *;
    c.FreeIs(id);
    GrownSelf(c.View());
    FreesAre(c.View(), id);
    if c.slabs.cs[id].slCurr == 0 {
      var ok := c.Grow(id);
      c.FreeIs(id);
    }
    grown := c.View();
    FreesAre(grown, id);
    it := TakeFree(c, id);
    if it == null {
      NoChunkIs(c, id, grown);
    } else {
      HandedIs(c, it, old(c.raw), grown, id);
    }
  }

  lemma FreesAre(st: State<Item>, id: nat)
    ensures id < |st.frees| ==> FreesAt(st, id) == st.frees[id]
    ensures id >= |st.frees| ==> FreesAt(st, id) == []
  {
  }

  /** What stays the same while the cache allocates. */
  ghost function FrameOf(c: Cache, id: nat): Frame<Item>
    reads c`now
  {
    Frame(c.CrawlerSeq(), id, c.now, c.settings)
  }

  lemma GrownSelf(st: State<Item>)
    ensures Grown(st, st)
  {
  }

  /** Nothing is bound anew, no reference comes or goes, every chunk is still there, and cleared ones
      are as they were. */
  ghost predicate Shrunk<T>(st: State<T>, st': State<T>) {
    && Stays(st, st')
    && (forall x :: x in st.heads ==> x in st'.heads && Held(st'.holders, x) == Held(st.holders, x))
    && (forall k :: k in st'.bindings ==> k in st.bindings && st'.bindings[k] == st.bindings[k])
  }

  lemma ShrunkBy(st: State<Item>, a: State<Item>, b: State<Item>)
    requires Shrunk(st, a) && (Kept(a, b) || Grown(a, b))
    ensures Shrunk(st, b)
  {
  }

  method PullShrinks(c: Cache, id: nat, lru: nat, p: Pull, busy: set<Item>, ghost st: State<Item>) returns (removed: nat)
    requires c.Valid() && 0 < id < CLASS_COUNT && (lru == HOT_LRU || lru == WARM_LRU || lru == COLD_LRU || lru == TEMP_LRU) && Shrunk(st, c.View())
    modifies c`holders, c.tab`t, c.tab`hashItems, c.tab`startedExpanding, c.tab`bindings, c.tab`nodes, c.tab.primary, c.tab.former
    modifies c.lru`where, c.lru.ls, c.slabs`freeAt, c.slabs.cs`slots, c.slabs.cs`slCurr, c.slabs.cs`free
    modifies c.slabs.home.Keys`flags, c.slabs.home.Keys`refcount, c.slabs.home.Keys`time, c.slabs.home.Keys`clsid
    modifies c.slabs.home.Keys`hNext, (c.slabs.home.Keys + c.guests)`next, (c.slabs.home.Keys + c.guests)`prev
    ensures c.Valid() && Shrunk(st, c.View()) && id + lru < |c.lru.ls|
    ensures lru == COLD_LRU ==> ColdDone(old(c.View()), c.View(), id + lru, Scan(c.lru.ls[id + lru].crawler, busy, p, c.now, c.settings), removed)
    ensures (c.View(), removed) == PullList(old(c.View()), FrameOf(c, id), lru, p, busy)
  {
    hide *;
    ghost var at := c.View();
    removed := LruPullTail(c, id, lru, p, busy);
    ShrunkBy(st, at, c.View());
    WalkIsPull(c, at, c.View(), id, lru, p, busy, removed);
  }

  lemma WalkIsPull(c: Cache, st: State<Item>, st': State<Item>, id: nat, lru: nat, p: Pull, busy: set<Item>, removed: nat)
    requires id + lru < |c.lru.ls|
    requires WalkDone(st, st', id + lru, lru, Scan(c.lru.ls[id + lru].crawler, busy, p, c.now, c.settings), removed)
    ensures (st', removed) == PullList(st, FrameOf(c, id), lru, p, busy)
  {
    hide PullWalk, Kept;
  }

  /** A pull of the COLD list of a class took nobody: nobody there could be evicted. */
  ghost predicate NobodyToEvict(c: Cache, st: State<Item>, st': State<Item>, id: nat, busy: set<Item>, total: nat)
    reads c`now
  {
    && id + COLD_LRU < |c.lru.ls|
    && ColdDone(st, st', id + COLD_LRU, Scan(c.lru.ls[id + COLD_LRU].crawler, busy, Pull(true, false, total, 0), c.now, c.settings), 0)
  }

  /** Evicts; in segmented mode, if nothing could be evicted, moves items on from HOT. */
  method MakeRoom(c: Cache, id: nat, w: Weather<Item>, round: nat, ghost st: State<Item>) returns (goOn: bool)
    requires c.Valid() && 0 < id < CLASS_COUNT && Shrunk(st, c.View())
    modifies c`holders, c.tab`t, c.tab`hashItems, c.tab`startedExpanding, c.tab`bindings, c.tab`nodes, c.tab.primary, c.tab.former
    modifies c.lru`where, c.lru.ls, c.slabs`freeAt, c.slabs.cs`slots, c.slabs.cs`slCurr, c.slabs.cs`free
    modifies c.slabs.home.Keys`flags, c.slabs.home.Keys`refcount, c.slabs.home.Keys`time, c.slabs.home.Keys`clsid
    modifies c.slabs.home.Keys`hNext, (c.slabs.home.Keys + c.guests)`next, (c.slabs.home.Keys + c.guests)`prev
    ensures c.Valid() && Shrunk(st, c.View())
    ensures !goOn ==> !c.settings.segmented && NobodyToEvict(c, old(c.View()), c.View(), id, w.busy(3 * round + 1), w.totalBytes(round))
    ensures (c.View(), goOn) == MakeRoomFor(old(c.View()), FrameOf(c, id), w, round)
  {
    hide *;
    ClassIs(c, id);
    MakeRoomIs(c, c.View(), id, w, round);
    ghost var at := c.View();
    var total := w.totalBytes(round);
    var pulled := PullShrinks(c, id, COLD_LRU, Pull(true, false, total, 0), w.busy(3 * round + 1), st);
    goOn := true;
    if pulled == 0 {
      if c.settings.segmented {
        pulled := PullShrinks(c, id, HOT_LRU, Pull(false, false, total, 0), w.busy(3 * round + 2), st);
      } else {
        goOn := false;
        NobodyIs(c, at, c.View(), id, w.busy(3 * round + 1), total);
      }
    }
  }

  lemma MakeRoomIs(c: Cache, st: State<Item>, id: nat, w: Weather<Item>, round: nat)
    ensures var f, total := FrameOf(c, id), w.totalBytes(round);
            var (a, n) := PullList(st, f, COLD_LRU, Pull(true, false, total, 0), w.busy(3 * round + 1));
            MakeRoomFor(st, f, w, round) ==
            if n > 0 then (a, true)
            else if c.settings.segmented then (PullList(a, f, HOT_LRU, Pull(false, false, total, 0), w.busy(3 * round + 2)).0, true)
            else (a, false)
  {
    hide PullList;
  }

  lemma NobodyIs(c: Cache, st: State<Item>, st': State<Item>, id: nat, busy: set<Item>, total: nat)
    requires id + COLD_LRU < |c.lru.ls|
    requires ColdDone(st, st', id + COLD_LRU, Scan(c.lru.ls[id + COLD_LRU].crawler, busy, Pull(true, false, total, 0), c.now, c.settings), 0)
    ensures NobodyToEvict(c, st, st', id, busy, total)
  {
  }

  /** Chunks, pages, and what is just being handed out are as they were. */
  ghost predicate Steady(c: Cache, raw: set<Item>, home: map<Item, nat>, pageAt: map<Page, nat>)
    reads c`raw, c.slabs`home, c.slabs`pageAt
  {
    c.raw == raw && c.slabs.home == home && c.slabs.pageAt == pageAt
  }

  lemma SteadyIs(c: Cache, raw: set<Item>, home: map<Item, nat>, pageAt: map<Page, nat>)
    ensures Steady(c, raw, home, pageAt) <==> c.raw == raw && c.slabs.home == home && c.slabs.pageAt == pageAt
    ensures Steady(c, raw, home, pageAt) ==> c.slabs.home.Keys - home.Keys == {}
  {
  }

  /** In flat mode, a look at the tail for something to reclaim. */
  method LookAtTail(c: Cache, id: nat, busy: set<Item>, ghost st: State<Item>)
    requires c.Valid() && 0 < id < CLASS_COUNT && Shrunk(st, c.View())
    modifies c`holders, c.tab`t, c.tab`hashItems, c.tab`startedExpanding, c.tab`bindings, c.tab`nodes, c.tab.primary, c.tab.former
    modifies c.lru`where, c.lru.ls, c.slabs`freeAt, c.slabs.cs`slots, c.slabs.cs`slCurr, c.slabs.cs`free
    modifies c.slabs.home.Keys`flags, c.slabs.home.Keys`refcount, c.slabs.home.Keys`time, c.slabs.home.Keys`clsid
    modifies c.slabs.home.Keys`hNext, (c.slabs.home.Keys + c.guests)`next, (c.slabs.home.Keys + c.guests)`prev
    ensures c.Valid() && Shrunk(st, c.View()) && c.View() == Reclaim(old(c.View()), FrameOf(c, id), busy)
  {
    hide *;
    ClassIs(c, id);
    ReclaimIs(c, c.View(), id, busy);
    if !c.settings.segmented {
      var reclaimed := PullShrinks(c, id, COLD_LRU, Pull(false, false, 0, 0), busy, st);
    }
  }

  /** Takes a chunk, after a look at the tail for something to reclaim. */
  method TryAlloc(c: Cache, id: nat, busy: set<Item>, ghost st: State<Item>, ghost page: bool) returns (it: Item?, ghost grown: State<Item>)
    requires c.Valid() && 0 < id < CLASS_COUNT && Shrunk(st, c.View()) && page == c.slabs.PageToBeHad(id)
    modifies c`holders, c.tab`t, c.tab`hashItems, c.tab`startedExpanding, c.tab`bindings, c.tab`nodes, c.tab.primary, c.tab.former
    modifies c.lru`where, c.lru.ls, c.slabs`freeAt, c.slabs.cs`slots, c.slabs.cs`slCurr, c.slabs.cs`free
    modifies c.slabs.home.Keys`flags, c.slabs.home.Keys`refcount, c.slabs.home.Keys`time, c.slabs.home.Keys`clsid
    modifies c.slabs.home.Keys`hNext, (c.slabs.home.Keys + c.guests)`next, (c.slabs.home.Keys + c.guests)`prev
    modifies c`raw, c.slabs`home, c.slabs`pageAt, c.slabs`mem, c.slabs`memLimitReached
    modifies c.slabs.cs`owned, c.slabs.cs`slabList, c.slabs.cs`listSize, c.slabs.pageAt.Keys`chunks
    ensures c.Valid() && Shrunk(st, grown)
    ensures c.View() == if it == null then grown else grown.Take(id, it)
    ensures it == null ==> Steady(c, old(c.raw), old(c.slabs.home), old(c.slabs.pageAt))
    ensures it == null ==> NoChunk(c, id, grown)
    ensures it != null ==> Handed(c, it, old(c.raw), grown, id)
    ensures fresh(c.slabs.home.Keys - old(c.slabs.home.Keys))
    ensures Tried(Reclaim(old(c.View()), FrameOf(c, id), busy), grown, it, id, page)
  {
    hide *;
    ClassIs(c, id);
    LookAtTail(c, id, busy, st);
    ghost var at := c.View();
    FreesAre(at, id);
    it, grown := SlabsAlloc(c, id);
    SteadyIs(c, old(c.raw), old(c.slabs.home), old(c.slabs.pageAt));
    ShrunkBy(st, at, grown);
    TriedIs(at, grown, it, id, page);
  }

  lemma ReclaimIs(c: Cache, st: State<Item>, id: nat, busy: set<Item>)
    ensures Reclaim(st, FrameOf(c, id), busy) ==
            if c.settings.segmented then st else PullList(st, FrameOf(c, id), COLD_LRU, Pull(false, false, 0, 0), busy).0
  {
    hide PullList;
  }

  /** A try from state a: the first free chunk; else one of a new page, if there is one to be had. */
  ghost predicate Tried(a: State<Item>, grown: State<Item>, it: Item?, id: nat, page: bool) {
    && (it == null <==> FreesAt(a, id) == [] && !page)
    && (FreesAt(a, id) != [] || !page ==> grown == a)
    && (FreesAt(a, id) != [] ==> it == FreesAt(a, id)[0])
    && (it != null ==> FreesAt(grown, id) != [])
    && Grown(a, grown)
  }

  lemma TriedIs(a: State<Item>, grown: State<Item>, it: Item?, id: nat, page: bool)
    requires it == null <==> FreesAt(a, id) == [] && !page
    requires (FreesAt(a, id) != [] ==> grown == a) && (it == null ==> grown == a) && Grown(a, grown)
    requires it != null ==> FreesAt(grown, id) != [] && it == FreesAt(grown, id)[0]
    ensures Tried(a, grown, it, id, page)
  {
    hide Grown;
  }

  lemma ClassIs(c: Cache, id: nat)
    requires c.Valid() && 0 < id < CLASS_COUNT
    ensures 0 <= POOL < id < |c.slabs.cs|
    ensures 0 <= COLD_LRU && 0 <= HOT_LRU
  {
    c.OpenAll();
    c.OpenParts();
  }

  /** The end of trying: no chunk, no page, and, in flat mode, nobody to evict. */
  ghost predicate GaveUp(c: Cache, vain: State<Item>, st: State<Item>, id: nat, w: Weather<Item>, round: nat)
    reads c`now, c.slabs`mem, c.slabs.cs`slabList
  {
    !c.settings.segmented && NoChunk(c, id, vain) && NobodyToEvict(c, vain, st, id, w.busy(3 * round + 1), w.totalBytes(round))
  }

  lemma GaveUpIs(c: Cache, vain: State<Item>, st: State<Item>, id: nat, w: Weather<Item>, round: nat)
    requires !c.settings.segmented && NoChunk(c, id, vain)
    requires NobodyToEvict(c, vain, st, id, w.busy(3 * round + 1), w.totalBytes(round))
    ensures GaveUp(c, vain, st, id, w, round)
  {
  }

  /** What a round does when there is no chunk. */
  method VainRound(c: Cache, id: nat, w: Weather<Item>, round: nat, ghost st: State<Item>) returns (goOn: bool)
    requires c.Valid() && 0 < id < CLASS_COUNT && Shrunk(st, c.View()) && NoChunk(c, id, c.View())
    modifies c`holders, c.tab`t, c.tab`hashItems, c.tab`startedExpanding, c.tab`bindings, c.tab`nodes, c.tab.primary, c.tab.former
    modifies c.lru`where, c.lru.ls, c.slabs`freeAt, c.slabs.cs`slots, c.slabs.cs`slCurr, c.slabs.cs`free
    modifies c.slabs.home.Keys`flags, c.slabs.home.Keys`refcount, c.slabs.home.Keys`time, c.slabs.home.Keys`clsid
    modifies c.slabs.home.Keys`hNext, (c.slabs.home.Keys + c.guests)`next, (c.slabs.home.Keys + c.guests)`prev
    ensures c.Valid() && Shrunk(st, c.View())
    ensures !goOn ==> GaveUp(c, old(c.View()), c.View(), id, w, round)
    ensures (c.View(), goOn) == MakeRoomFor(old(c.View()), FrameOf(c, id), w, round) && !c.slabs.PageToBeHad(id)
  {
    hide *;
    ghost var vain := c.View();
    NoPage(c, id, vain);
    goOn := MakeRoom(c, id, w, round, st);
    if !goOn {
      GaveUpIs(c, vain, c.View(), id, w, round);
    }
  }

  /** One round of do_item_alloc_pull: try to get a chunk; in vain, make room. */
  method AllocRound(c: Cache, id: nat, w: Weather<Item>, round: nat, ghost st: State<Item>, ghost page: bool) returns (it: Item?, goOn: bool, ghost grown: State<Item>, ghost vain: State<Item>)
    requires c.Valid() && 0 < id < CLASS_COUNT && Shrunk(st, c.View()) && page == c.slabs.PageToBeHad(id)
    modifies c`holders, c.tab`t, c.tab`hashItems, c.tab`startedExpanding, c.tab`bindings, c.tab`nodes, c.tab.primary, c.tab.former
    modifies c.lru`where, c.lru.ls, c.slabs`freeAt, c.slabs.cs`slots, c.slabs.cs`slCurr, c.slabs.cs`free
    modifies c.slabs.home.Keys`flags, c.slabs.home.Keys`refcount, c.slabs.home.Keys`time, c.slabs.home.Keys`clsid
    modifies c.slabs.home.Keys`hNext, (c.slabs.home.Keys + c.guests)`next, (c.slabs.home.Keys + c.guests)`prev
    modifies c`raw, c.slabs`home, c.slabs`pageAt, c.slabs`mem, c.slabs`memLimitReached
    modifies c.slabs.cs`owned, c.slabs.cs`slabList, c.slabs.cs`listSize, c.slabs.pageAt.Keys`chunks
    ensures c.Valid() && Shrunk(st, grown)
    ensures c.View() == if it == null then grown else grown.Take(id, it)
    ensures it == null ==> Steady(c, old(c.raw), old(c.slabs.home), old(c.slabs.pageAt))
    ensures it != null ==> Handed(c, it, old(c.raw), grown, id)
    ensures it != null ==> fresh(c.slabs.home.Keys - old(c.slabs.home.Keys))
    ensures it == null && !goOn ==> GaveUp(c, vain, grown, id, w, round)
    ensures Rounded(old(c.View()), vain, grown, it, goOn, FrameOf(c, id), w, round, page)
    ensures it == null ==> !c.slabs.PageToBeHad(id)
  {
    hide *;
    goOn := false;
    ghost var st0 := c.View();
    FrameIs(c, id);
    it, grown := TryAlloc(c, id, w.busy(3 * round), st, page);
    vain := grown;
    if it == null {
      SteadyIs(c, old(c.raw), old(c.slabs.home), old(c.slabs.pageAt));
      goOn := VainRound(c, id, w, round, st);
      grown := c.View();
    }
    RoundedIs(st0, vain, grown, it, goOn, FrameOf(c, id), w, round, page);
  }

  /** One round: a try, and in vain, making room. */
  ghost predicate Rounded(st: State<Item>, tried: State<Item>, grown: State<Item>, it: Item?, goOn: bool, f: Frame<Item>, w: Weather<Item>, round: nat, page: bool) {
    && Tried(Reclaim(st, f, w.busy(3 * round)), tried, it, f.id, page)
    && if it == null then (grown, goOn) == MakeRoomFor(tried, f, w, round) else grown == tried
  }

  lemma RoundedIs(st: State<Item>, tried: State<Item>, grown: State<Item>, it: Item?, goOn: bool, f: Frame<Item>, w: Weather<Item>, round: nat, page: bool)
    requires Tried(Reclaim(st, f, w.busy(3 * round)), tried, it, f.id, page)
    requires if it == null then (grown, goOn) == MakeRoomFor(tried, f, w, round) else grown == tried
    ensures Rounded(st, tried, grown, it, goOn, f, w, round, page)
  {
    hide Reclaim, MakeRoomFor, Tried;
  }

  lemma FrameIs(c: Cache, id: nat)
    ensures FrameOf(c, id).id == id
  {
  }

  lemma NoPage(c: Cache, id: nat, st: State<Item>)
    requires NoChunk(c, id, st)
    ensures !c.slabs.PageToBeHad(id)
  {
  }

  lemma StartGoing(st: State<Item>, f: Frame<Item>, w: Weather<Item>, page: bool)
    ensures Going(st, st, f, w, 0, page) && Opt(null) == None && ROUNDS == 10
  {
  }

  lemma HandedFree(c: Cache, it: Item?, raw: set<Item>, grown: State<Item>, id: nat)
    ensures it != null && Handed(c, it, raw, grown, id) ==> grown.At(it).flags == FREE
  {
  }

  /** The rounds so far: none, or all in vain, and the rest is as specified. */
  ghost predicate Going(st0: State<Item>, st: State<Item>, f: Frame<Item>, w: Weather<Item>, round: nat, page: bool) {
    if round == 0 then st == st0
    else !page && !ChunkAtOnce(st0, f, w) && AllocRounds(st, f, w, round) == AllocRounds(st0, f, w, 0)
  }

  lemma GoingOn(st0: State<Item>, st: State<Item>, tried: State<Item>, grown: State<Item>, goOn: bool, f: Frame<Item>, w: Weather<Item>, round: nat, page: bool)
    requires Going(st0, st, f, w, round, page) && round < ROUNDS
    requires Rounded(st, tried, grown, null, goOn, f, w, round, page)
    ensures !page && !ChunkAtOnce(st0, f, w)
    ensures if goOn then Going(st0, grown, f, w, round + 1, page) else AllocRounds(st0, f, w, 0) == (grown, None, round)
  {
    hide Reclaim, MakeRoomFor, AllocRounds, Grown;
    RoundsAre(st, f, w, round);
  }

  function Opt(it: Item?): Option<Item> {
    if it == null then None else Some(it)
  }

  /** The end of the rounds. */
  ghost predicate Ended(st0: State<Item>, grown: State<Item>, it: Item?, n: nat, f: Frame<Item>, w: Weather<Item>, page: bool) {
    if page then it != null && n == 0 && Tried(Reclaim(st0, f, w.busy(0)), grown, it, f.id, page)
    else AllocRounds(st0, f, w, 0) == (if it == null then grown else grown.Take(f.id, it), Opt(it), n)
  }

  lemma EndedIn(st0: State<Item>, st: State<Item>, tried: State<Item>, grown: State<Item>, it: Item?, goOn: bool, f: Frame<Item>, w: Weather<Item>, round: nat, page: bool)
    requires Going(st0, st, f, w, round, page) && round < ROUNDS && Rounded(st, tried, grown, it, goOn, f, w, round, page)
    requires it == null ==> !goOn
    ensures Ended(st0, grown, it, round, f, w, page)
  {
    hide Reclaim, MakeRoomFor, AllocRounds, Grown, State.Take;
    RoundsAre(st, f, w, round);
  }

  lemma EndedInVain(st0: State<Item>, st: State<Item>, f: Frame<Item>, w: Weather<Item>, page: bool)
    requires Going(st0, st, f, w, ROUNDS, page)
    ensures Ended(st0, st, null, ROUNDS, f, w, page)
  {
    hide AllocRounds;
    NoMoreRounds(st, f, w);
  }

  /** What the rounds came to is what an allocation promises. */
  lemma EndedPromises(w0: ItemOwners.World<Item>, grown: State<Item>, it: Item?, n: nat, f: Frame<Item>, w: Weather<Item>, page: bool)
    requires Fits(w0, f) && Ended(w0.st, grown, it, n, f, w, page)
    requires it != null ==> grown.At(it).flags == FREE
    ensures Outcome(w0.st, if it == null then grown else grown.Take(f.id, it), Opt(it), n, f, w, page)
  {
    hide Reclaim, AllocRounds, Grown, State.Take, PullLaws.SparesLive, SparesBut, MetAt, VictimAt, AtEviction, Fits, AllHeld;
    if page {
      PagePromises(w0, f, w, grown, it);
    } else {
      RoundsPromise(w0, f, w);
    }
  }

  /** A valid cache is one from which the rounds can start. */
  lemma CacheFits(c: Cache, id: nat) returns (w0: ItemOwners.World<Item>)
    requires c.Valid() && 0 < id < CLASS_COUNT
    ensures w0.st == c.View() && Fits(w0, FrameOf(c, id))
  {
    hide Cache.Valid, Cache.View;
    CacheInOrder(c);
    ItemOwners.StartIsSound(c.View(), c.Account(), 0);
    c.AccountIs();
    w0 := ItemOwners.World(c.View(), c.Account(), ItemOwners.Lent(c.View().holders, 0));
  }

  /** The rounds. */
  method AllocLoop(c: Cache, id: nat, w: Weather<Item>, ghost page: bool) returns (it: Item?, ghost grown: State<Item>, ghost rounds: nat, ghost vain: State<Item>)
    requires c.Valid() && 0 < id < CLASS_COUNT && page == c.slabs.PageToBeHad(id)
    modifies c`holders, c.tab`t, c.tab`hashItems, c.tab`startedExpanding, c.tab`bindings, c.tab`nodes, c.tab.primary, c.tab.former
    modifies c.lru`where, c.lru.ls, c.slabs`freeAt, c.slabs.cs`slots, c.slabs.cs`slCurr, c.slabs.cs`free
    modifies c.slabs.home.Keys`flags, c.slabs.home.Keys`refcount, c.slabs.home.Keys`time, c.slabs.home.Keys`clsid
    modifies c.slabs.home.Keys`hNext, (c.slabs.home.Keys + c.guests)`next, (c.slabs.home.Keys + c.guests)`prev
    modifies c`raw, c.slabs`home, c.slabs`pageAt, c.slabs`mem, c.slabs`memLimitReached
    modifies c.slabs.cs`owned, c.slabs.cs`slabList, c.slabs.cs`listSize, c.slabs.pageAt.Keys`chunks
    ensures c.Valid() && Shrunk(old(c.View()), grown)
    ensures c.View() == if it == null then grown else grown.Take(id, it)
    ensures it == null ==> c.raw == old(c.raw) && c.slabs.home == old(c.slabs.home) && c.slabs.pageAt == old(c.slabs.pageAt)
    ensures it != null ==> Handed(c, it, old(c.raw), grown, id)
    ensures fresh(c.slabs.home.Keys - old(c.slabs.home.Keys))
    ensures it == null ==> rounds == 10 || (rounds < 10 && GaveUp(c, vain, grown, id, w, rounds))
    ensures Ended(old(c.View()), grown, it, rounds, old(FrameOf(c, id)), w, page)
  {
    hide *;
    ghost var st := c.View();
    FrameIs(c, id);
    ghost var f := FrameOf(c, id);
    StartGoing(st, f, w, page);
    ShrunkSelf(st);
    it, grown, vain, rounds := null, st, st, 0;
    var round := 0;
    while round < 10
      invariant c.Valid() && Shrunk(st, c.View()) && it == null && grown == c.View()
      invariant 0 <= rounds == round <= 10
      invariant c.raw == old(c.raw) && c.slabs.home == old(c.slabs.home) && c.slabs.pageAt == old(c.slabs.pageAt)
      invariant Going(st, c.View(), f, w, round, page) && c.slabs.PageToBeHad(id) == page
    {
      var goOn;
      ghost var at := c.View();
      it, goOn, grown, vain := AllocRound(c, id, w, round, st, page);
      SteadyIs(c, old(c.raw), old(c.slabs.home), old(c.slabs.pageAt));
      if it != null || !goOn {
        EndedIn(st, at, vain, grown, it, goOn, f, w, round, page);
        return;
      }
      GoingOn(st, at, vain, grown, goOn, f, w, round, page);
      round := round + 1;
      rounds := round;
    }
    EndedInVain(st, c.View(), f, w, page);
  }

  /** Up to ten rounds of trying to get a chunk and, in vain, making room. */
  method DoItemAllocPull(c: Cache, id: nat, w: Weather<Item>) returns (it: Item?, ghost grown: State<Item>, ghost rounds: nat, ghost vain: State<Item>)
    requires c.Valid() && 0 < id < CLASS_COUNT
    modifies c`holders, c.tab`t, c.tab`hashItems, c.tab`startedExpanding, c.tab`bindings, c.tab`nodes, c.tab.primary, c.tab.former
    modifies c.lru`where, c.lru.ls, c.slabs`freeAt, c.slabs.cs`slots, c.slabs.cs`slCurr, c.slabs.cs`free
    modifies c.slabs.home.Keys`flags, c.slabs.home.Keys`refcount, c.slabs.home.Keys`time, c.slabs.home.Keys`clsid
    modifies c.slabs.home.Keys`hNext, (c.slabs.home.Keys + c.guests)`next, (c.slabs.home.Keys + c.guests)`prev
    modifies c`raw, c.slabs`home, c.slabs`pageAt, c.slabs`mem, c.slabs`memLimitReached
    modifies c.slabs.cs`owned, c.slabs.cs`slabList, c.slabs.cs`listSize, c.slabs.pageAt.Keys`chunks
    ensures c.Valid() && Shrunk(old(c.View()), grown)
    ensures c.View() == if it == null then grown else grown.Take(id, it)
    ensures it == null ==> c.raw == old(c.raw) && c.slabs.home == old(c.slabs.home) && c.slabs.pageAt == old(c.slabs.pageAt)
    ensures it != null ==> Handed(c, it, old(c.raw), grown, id)
    ensures fresh(c.slabs.home.Keys - old(c.slabs.home.Keys))
    ensures it == null ==> rounds == 10 || (rounds < 10 && GaveUp(c, vain, grown, id, w, rounds))
    ensures Outcome(old(c.View()), c.View(), Opt(it), rounds, FrameOf(c, id), w, old(c.slabs.PageToBeHad(id)))
    ensures Ended(old(c.View()), grown, it, rounds, FrameOf(c, id), w, old(c.slabs.PageToBeHad(id)))
  {
    hide *;
    ghost var st, page, f := c.View(), c.slabs.PageToBeHad(id), FrameOf(c, id);
    ghost var w0 := CacheFits(c, id);
    FrameIs(c, id);
    it, grown, rounds, vain := AllocLoop(c, id, w, page);
    HandedFree(c, it, old(c.raw), grown, id);
    EndedPromises(w0, grown, it, rounds, f, w, page);
  }

  lemma ShrunkSelf(st: State<Item>)
    ensures Shrunk(st, st)
  {
  }

  /** The list a new item starts on. */
  function FirstList(id: nat, exptime: nat, now: nat, cfg: Settings): nat {
    if cfg.tempLru && (exptime - now) % UINT_SPAN <= cfg.temporaryTtl then id + TEMP_LRU
    else if cfg.segmented then id + HOT_LRU
    else id + COLD_LRU
  }

  /** In flat mode a new item starts on the COLD list of its class, in segmented mode on HOT; but if
      there is a list of temporary items, those that expire soon go there.  An item that never expires
      counts as one of them only with the clock at 0, or that close to the end of its 32 bits. */
  lemma FirstListIs(id: nat, exptime: nat, now: nat, cfg: Settings)
    requires 0 < id < CLASS_COUNT && now < UINT_SPAN && exptime < UINT_SPAN
    ensures var l := FirstList(id, exptime, now, cfg);
            var near := if exptime >= now then exptime - now <= cfg.temporaryTtl else UINT_SPAN - (now - exptime) <= cfg.temporaryTtl;
            && ClassOf(l) == id && LruOf(l) == if cfg.tempLru && near then TEMP_LRU else if cfg.segmented then HOT_LRU else COLD_LRU
  {
    if exptime < now {
      assert (exptime - now) % UINT_SPAN == exptime - now + UINT_SPAN;
    }
  }

  /** The header of a new item; time and value are what the chunk held before. */
  ghost function NewHead(old_: Head, key: Key, exptime: nat, nbytes: nat, clsid: nat): Head {
    Head(Flags(false, false, false, false), 1, old_.time, exptime, nbytes, clsid, key, old_.value)
  }

  /** A new item of slab class id, in the hands of the caller alone; null if the size is not valid or
      there is no memory. */
  method DoItemAlloc(c: Cache, key: Key, exptime: nat, nbytes: int, id: nat, w: Weather<Item>) returns (it: Item?, ghost grown: State<Item>, ghost rounds: nat, ghost vain: State<Item>)
    requires c.Valid() && id < CLASS_COUNT
    modifies c`holders, c.tab`t, c.tab`hashItems, c.tab`startedExpanding, c.tab`bindings, c.tab`nodes, c.tab.primary, c.tab.former
    modifies c.lru`where, c.lru.ls, c.slabs`freeAt, c.slabs.cs`slots, c.slabs.cs`slCurr, c.slabs.cs`free
    modifies c.slabs.home.Keys`flags, c.slabs.home.Keys`refcount, c.slabs.home.Keys`time, c.slabs.home.Keys`clsid
    modifies c.slabs.home.Keys`hNext, (c.slabs.home.Keys + c.guests)`next, (c.slabs.home.Keys + c.guests)`prev
    modifies c`raw, c.slabs`home, c.slabs`pageAt, c.slabs`mem, c.slabs`memLimitReached
    modifies c.slabs.cs`owned, c.slabs.cs`slabList, c.slabs.cs`listSize, c.slabs.pageAt.Keys`chunks
    modifies c.slabs.home.Keys`exptime, c.slabs.home.Keys`nbytes, c.slabs.home.Keys`key, c.slabs.home.Keys`value
    ensures c.Valid() && Shrunk(old(c.View()), grown) && c.raw == old(c.raw)
    ensures nbytes < 2 || id == 0 ==> it == null
    ensures it == null ==> nbytes < 2 || id == 0 || rounds == 10 || (rounds < 10 && GaveUp(c, vain, grown, id, w, rounds))
    ensures it == null ==> c.View() == grown
    ensures nbytes >= 2 && id > 0 ==>
              Outcome(old(c.View()), if it == null then grown else grown.Take(id, it), Opt(it), rounds, FrameOf(c, id), w, old(c.slabs.PageToBeHad(id)))
    ensures it != null ==>
              && grown.At(it).flags == FREE
              && c.View() == grown.Take(id, it).Own(it, NewHead(grown.At(it), key, exptime, nbytes, FirstList(id, exptime, c.now, c.settings)))
  {
    hide *;
    ghost var st := c.View();
    ShrunkSelf(st);
    it, grown, rounds, vain := null, st, 0, st;
    if nbytes < 2 || id == 0 {
      return;
    }
    it, grown, rounds, vain := DoItemAllocPull(c, id, w);
    if it != null {
      HandedIs(c, it, old(c.raw), grown, id);
      TakenIs(grown, id, it);
      Listed(id, exptime, c.now, c.settings);
      c.Fields(it);
      ghost var h := grown.At(it);
      NewHeadIs(h, key, exptime, nbytes, FirstList(id, exptime, c.now, c.settings));
      c.WriteHeader(it, Head(Flags(false, false, false, false), 1, it.time, exptime, nbytes, FirstList(id, exptime, c.now, c.settings), key, it.value));
      Unraw(old(c.raw), it);
    }
  }

  lemma TakenIs(st: State<Item>, id: nat, it: Item)
    ensures it in st.Take(id, it).heads && st.Take(id, it).At(it) == st.At(it).(flags := st.At(it).flags.(slabbed := false), refcount := 1)
  {
  }

  lemma Listed(id: nat, exptime: nat, now: nat, cfg: Settings)
    requires id < CLASS_COUNT
    ensures 0 <= FirstList(id, exptime, now, cfg) < LIST_COUNT && ClassOf(FirstList(id, exptime, now, cfg)) == id
  {
  }

  lemma NewHeadIs(h: Head, key: Key, exptime: nat, nbytes: nat, clsid: nat)
    ensures NewHead(h, key, exptime, nbytes, clsid) == Head(Flags(false, false, false, false), 1, h.time, exptime, nbytes, clsid, key, h.value)
  {
  }

  lemma Unraw(raw: set<Item>, it: Item)
    requires it !in raw
    ensures raw + {it} - {it} == raw
  {
  }
}
