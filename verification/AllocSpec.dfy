/** Getting memory for a new item when no page is to be had: reclaiming, evicting, and trying again. */
module AllocSpec {
  import opened Common
  import opened Items
  import opened LruSpec
  import opened Recency
  import opened CacheSpec
  import opened ItemLaws
  import opened ItemOwners
  import opened Operations
  import opened Eviction
  import opened PullLaws

  const ROUNDS := 10

  /** What the threads around an allocation do: which stripes they hold at each pull, and how many
      bytes the slab class had requested. */
  datatype Weather<!T(==)> = Weather(busy: nat -> set<T>, totalBytes: nat -> nat)

  /** What stays the same: the crawlers of the lists, the slab class, the clock and the settings. */
  datatype Frame<T> = Frame(crawlers: seq<T>, id: nat, now: nat, cfg: Settings)

  /** A pull from the tail of the list of segment lru. */
  function PullList<T(==)>(st: State<T>, f: Frame<T>, lru: nat, p: Pull, busy: set<T>): (State<T>, nat) {
    if f.id + lru < |f.crawlers| then
      PullWalk(st, f.id + lru, |ListAt(st, f.id + lru)|, lru, Scan(f.crawlers[f.id + lru], busy, p, f.now, f.cfg), 5, 0)
    else (st, 0)
  }

  /** In flat mode, a look at the tail for something dead. */
  function Reclaim<T(==)>(st: State<T>, f: Frame<T>, busy: set<T>): State<T> {
    if f.cfg.segmented then st else PullList(st, f, COLD_LRU, Pull(false, false, 0, 0), busy).0
  }

  /** An eviction; if it is in vain, then in segmented mode a pull from HOT, and in flat mode the end. */
  function MakeRoomFor<T(==)>(st: State<T>, f: Frame<T>, w: Weather<T>, round: nat): (State<T>, bool) {
    var (a, n) := PullList(st, f, COLD_LRU, Pull(true, false, w.totalBytes(round), 0), w.busy(3 * round + 1));
    if n > 0 then (a, true)
    else if f.cfg.segmented then (PullList(a, f, HOT_LRU, Pull(false, false, w.totalBytes(round), 0), w.busy(3 * round + 2)).0, true)
    else (a, false)
  }

  function FreesAt<T>(st: State<T>, id: nat): seq<T> {
    if id < |st.frees| then st.frees[id] else []
  }

  /** One round: the state, the chunk if there was one, and whether to go on. */
  function OneRound<T(==)>(st: State<T>, f: Frame<T>, w: Weather<T>, round: nat): (State<T>, Option<T>, bool) {
    var a := Reclaim(st, f, w.busy(3 * round));
    if FreesAt(a, f.id) != [] then (a.Take(f.id, FreesAt(a, f.id)[0]), Some(FreesAt(a, f.id)[0]), false)
    else
      var (b, goOn) := MakeRoomFor(a, f, w, round);
      (b, None, goOn)
  }

  /** The rounds from one on: the state, the chunk if there was one, and how many rounds it took. */
  function AllocRounds<T(==)>(st: State<T>, f: Frame<T>, w: Weather<T>, round: nat): (State<T>, Option<T>, nat)
    decreases ROUNDS - round
  {
    if round >= ROUNDS then (st, None, ROUNDS)
    else
      var (a, it, goOn) := OneRound(st, f, w, round);
      if goOn then AllocRounds(a, f, w, round + 1) else (a, it, round)
  }

  lemma RoundsAre<T>(st: State<T>, f: Frame<T>, w: Weather<T>, round: nat)
    requires round < ROUNDS
    ensures var a := Reclaim(st, f, w.busy(3 * round));
            if FreesAt(a, f.id) != [] then AllocRounds(st, f, w, round) == (a.Take(f.id, FreesAt(a, f.id)[0]), Some(FreesAt(a, f.id)[0]), round)
            else
              var (b, goOn) := MakeRoomFor(a, f, w, round);
              AllocRounds(st, f, w, round) == if goOn then AllocRounds(b, f, w, round + 1) else (b, None, round)
  {
    hide Reclaim, MakeRoomFor, State.Take;
  }

  lemma NoMoreRounds<T>(st: State<T>, f: Frame<T>, w: Weather<T>)
    ensures AllocRounds(st, f, w, ROUNDS) == (st, None, ROUNDS) && 1 < ROUNDS
  {
  }

  // ---------------------------------------------------------------- what a pull leaves

  /** The frame of a cache in order. */
  ghost predicate Fits<T>(w: World<T>, f: Frame<T>) {
    Sound(w) && f.crawlers == w.ls.crawlers && 0 < f.id < CLASS_COUNT
  }

  lemma ListOf<T>(w: World<T>, f: Frame<T>, lru: nat)
    requires Fits(w, f) && (lru == HOT_LRU || lru == COLD_LRU)
    ensures f.id + lru < LIST_COUNT == |f.crawlers| == |w.st.lists| && LruOf(f.id + lru) == lru && ClassOf(f.id + lru) == f.id
    ensures Sound(w) && f.crawlers == w.ls.crawlers && |w.st.frees| == CLASS_COUNT
  {
    ListIsLinked(w, f.id);
  }

  /** A pull leaves a cache in order; without eviction it spares all that are alive. */
  lemma PullIsRun<T>(w: World<T>, f: Frame<T>, lru: nat, p: Pull, busy: set<T>) returns (r: World<T>)
    requires Fits(w, f) && (lru == HOT_LRU || lru == COLD_LRU)
    ensures Fits(r, f) && r.st == PullList(w.st, f, lru, p, busy).0
    ensures Eviction.Kept(w.st, r.st)
    ensures (lru == COLD_LRU && p.evict && f.cfg.evictToFree) || SparesLive(w.st, r.st, f.now, f.cfg)
  {
    hide Sound, Done, PullWalk, SparesLive, Eviction.Kept;
    ListOf(w, f, lru);
    var i, scan := f.id + lru, Scan(f.crawlers[f.id + lru], busy, p, f.now, f.cfg);
    var acts, b := [], Bounds({0}, None);
    acts, r := Begin(w, b);
    acts, r := DoPullWalk(w, acts, b, r, 0, i, |ListAt(w.st, i)|, lru, scan, 5, 0);
    DoneSound(w, acts, b, r);
    DoneCrawlers(w, acts, b, r);
    WalkKeeps(w, i, |ListAt(w.st, i)|, lru, scan, 5, 0);
    if !(lru == COLD_LRU && p.evict && f.cfg.evictToFree) {
      WalkSpares(w, i, |ListAt(w.st, i)|, lru, scan, 5, 0);
    }
  }

  lemma TakeSpares<T>(w: World<T>, f: Frame<T>)
    requires Fits(w, f) && FreesAt(w.st, f.id) != []
    ensures SparesLive(w.st, w.st.Take(f.id, FreesAt(w.st, f.id)[0]), f.now, f.cfg)
    ensures w.st.Take(f.id, FreesAt(w.st, f.id)[0]).bindings == w.st.bindings
  {
    hide Sound, Head.Dead;
    FirstIsFree(w, f);
    BoundOnce(w);
  }

  lemma FirstIsFree<T>(w: World<T>, f: Frame<T>)
    requires Fits(w, f) && FreesAt(w.st, f.id) != []
    ensures var y := FreesAt(w.st, f.id)[0]; y in w.st.heads && w.st.At(y).flags == FREE && Sound(w)
  {
    assert FreesAt(w.st, f.id)[0] in w.st.frees[f.id];
    hide ListsInOrder, Consistent, Backed, BindsOK;
  }

  lemma StillThere<T>(st: State<T>, r: State<T>, id: nat)
    requires FreesStay(st, r) && FreesAt(st, id) != []
    ensures FreesAt(r, id) != []
  {
    assert st.frees[id][0] in st.frees[id];
  }

  /** In flat mode, what the look at the tail leaves. */
  lemma ReclaimIsRun<T>(w: World<T>, f: Frame<T>, busy: set<T>) returns (a: World<T>)
    requires Fits(w, f)
    ensures Fits(a, f) && a.st == Reclaim(w.st, f, busy) && Eviction.Kept(w.st, a.st) && SparesLive(w.st, a.st, f.now, f.cfg)
  {
    hide PullList, SparesLive, Eviction.Kept, Sound;
    FitsIs(w, f);
    KeptFirst(w.st);
    SparesSelf(w, f.now, f.cfg);
    a := w;
    if !f.cfg.segmented {
      a := PullIsRun(w, f, COLD_LRU, Pull(false, false, 0, 0), busy);
    }
  }

  lemma FitsIs<T>(w: World<T>, f: Frame<T>)
    requires Fits(w, f)
    ensures Sound(w)
  {
  }

  /** While there is a free chunk, an allocation takes one at once, and takes nobody alive from the
      table. */
  lemma ChunkIsTaken<T>(w: World<T>, f: Frame<T>, weather: Weather<T>, round: nat)
    requires Fits(w, f) && round < ROUNDS && FreesAt(w.st, f.id) != []
    ensures var (r, it, n) := AllocRounds(w.st, f, weather, round); it.Some? && n == round && SparesLive(w.st, r, f.now, f.cfg)
    ensures AllocRounds(w.st, f, weather, round).0.bindings.Keys <= w.st.bindings.Keys
  {
    hide SparesLive, Fits, Reclaim, MakeRoomFor, State.Take, AllocRounds;
    RoundsAre(w.st, f, weather, round);
    var a := ReclaimIsRun(w, f, weather.busy(3 * round));
    StillThere(w.st, a.st, f.id);
    TakeSpares(a, f);
    SparesTwice(w.st, a.st, a.st.Take(f.id, FreesAt(a.st, f.id)[0]), f.now, f.cfg);
  }

  // ---------------------------------------------------------------- what an eviction gives

  /** The items that the eviction of a round takes in hand, from the tail of the COLD list on: at most
      five nodes, crawler not counted, up to the first item alive that is not busy. */
  ghost function MetAt<T>(st: State<T>, f: Frame<T>, busy: set<T>): set<T> {
    var i := f.id + COLD_LRU;
    if i < |f.crawlers| then Met(ListAt(st, i), f.crawlers[i], busy, DeadOf(st, ListAt(st, i), f.now, f.cfg), 5) else {}
  }

  /** The item alive among them, if there is one. */
  ghost function VictimAt<T>(st: State<T>, f: Frame<T>, busy: set<T>): Option<T> {
    var i := f.id + COLD_LRU;
    if i < |f.crawlers| then Victim(ListAt(st, i), f.crawlers[i], busy + DeadOf(st, ListAt(st, i), f.now, f.cfg), 5) else None
  }

  ghost function Evicted<T>(st: State<T>, f: Frame<T>, w: Weather<T>, round: nat): (State<T>, nat) {
    PullList(st, f, COLD_LRU, Pull(true, false, w.totalBytes(round), 0), w.busy(3 * round + 1))
  }

  lemma ColdList<T>(w: World<T>, f: Frame<T>)
    requires Fits(w, f)
    ensures f.id + COLD_LRU < LIST_COUNT == |f.crawlers| == |w.st.lists| && |w.st.frees| == CLASS_COUNT
    ensures var i := f.id + COLD_LRU; ColdItems(w.st, w.st.lists[i], f.id, f.crawlers[i])
    ensures var i := f.id + COLD_LRU; forall x :: x in w.st.lists[i] && x != f.crawlers[i] ==> w.st.Linked(x)
  {
    ListOf(w, f, COLD_LRU);
    ListCounted(w, f.id + COLD_LRU);
  }

  /** Of those it meets none stays linked; whom nobody holds is on the freelist then.  It returns more
      than 0 exactly if it met somebody.  All others that are alive are untouched. */
  lemma EvictionTakes<T>(w: World<T>, f: Frame<T>, weather: Weather<T>, round: nat)
    requires Fits(w, f) && f.cfg.evictToFree
    ensures var ((r, n), met) := (Evicted(w.st, f, weather, round), MetAt(w.st, f, weather.busy(3 * round + 1)));
            TakenOut(w.st, r, met, f.id) && (n > 0 <==> met != {})
    ensures Evicts(w.st, Evicted(w.st, f, weather, round).0, VictimAt(w.st, f, weather.busy(3 * round + 1)),
                   DeadOf(w.st, ListAt(w.st, f.id + COLD_LRU), f.now, f.cfg))
    ensures VictimAt(w.st, f, weather.busy(3 * round + 1)).Some? ==>
              VictimAt(w.st, f, weather.busy(3 * round + 1)).value in MetAt(w.st, f, weather.busy(3 * round + 1))
  {
    hide Fits, ColdItems, TakenOut, Untouched, Evicts, PullWalk, PullCold, Distinct;
    ColdList(w, f);
    FitsIs(w, f);
    CrawlersOf(w, f);
    var i := f.id + COLD_LRU;
    var s, c, busy, p := w.st.lists[i], f.crawlers[i], weather.busy(3 * round + 1), Pull(true, false, weather.totalBytes(round), 0);
    var dead := DeadOf(w.st, s, f.now, f.cfg);
    OrderIsCold(w, i, Scan(c, busy, p, f.now, f.cfg));
    EvictTakesMet(w.st, s, f.id, c, busy, 5, 0, p, f.now, f.cfg);
    ListDistinct(w, i);
    PullColdEvicts(w.st, s, c, busy, 5, 0, p, f.now, f.cfg);
    MetIn(s, c, busy, dead, 5);
  }

  lemma ListDistinct<T>(w: World<T>, i: nat)
    requires Sound(w) && i < LIST_COUNT == |w.st.lists|
    ensures Distinct(w.st.lists[i])
  {
  }

  lemma CrawlersOf<T>(w: World<T>, f: Frame<T>)
    requires Fits(w, f)
    ensures f.crawlers == w.ls.crawlers && 0 < f.id < CLASS_COUNT
  {
  }

  /** In flat mode a dead item that nobody holds, met at the tail, gives its chunk before anything is
      evicted. */
  lemma DeadServes<T>(w: World<T>, f: Frame<T>, busy: set<T>, x: T)
    requires Fits(w, f) && !f.cfg.segmented && x in MetAt(w.st, f, busy) && w.st.At(x).Dead(f.cfg.oldestLive, f.now) && Held(w.st.holders, x) == 0
    ensures FreesAt(Reclaim(w.st, f, busy), f.id) != []
  {
    hide Fits, ColdItems, Untouched, PullWalk, PullCold, Distinct, Head.Dead;
    ColdList(w, f);
    FitsIs(w, f);
    CrawlersOf(w, f);
    var i := f.id + COLD_LRU;
    var s, c, p := w.st.lists[i], f.crawlers[i], Pull(false, false, 0, 0);
    OrderIsCold(w, i, Scan(c, busy, p, f.now, f.cfg));
    PullTakesDead(w.st, s, f.id, c, busy, 5, 0, p, f.now, f.cfg);
    MetIn(s, c, busy, DeadOf(w.st, s, f.now, f.cfg), 5);
    assert x in MetAt(w.st, f, busy) * DeadOf(w.st, s, f.now, f.cfg);
  }

  /** Making room is a run. */
  lemma RoomIsRun<T>(w: World<T>, f: Frame<T>, weather: Weather<T>, round: nat) returns (a: World<T>, b: World<T>)
    requires Fits(w, f)
    ensures Fits(a, f) && a.st == Evicted(w.st, f, weather, round).0 && Eviction.Kept(w.st, a.st)
    ensures Fits(b, f) && b.st == MakeRoomFor(w.st, f, weather, round).0 && Eviction.Kept(a.st, b.st) && SparesLive(a.st, b.st, f.now, f.cfg)
  {
    hide PullList, SparesLive, Eviction.Kept, Sound, Fits;
    a := PullIsRun(w, f, COLD_LRU, Pull(true, false, weather.totalBytes(round), 0), weather.busy(3 * round + 1));
    KeptFirst(a.st);
    FitsIs(a, f);
    SparesSelf(a, f.now, f.cfg);
    b := a;
    if Evicted(w.st, f, weather, round).1 == 0 && f.cfg.segmented {
      b := PullIsRun(a, f, HOT_LRU, Pull(false, false, weather.totalBytes(round), 0), weather.busy(3 * round + 2));
    }
  }

  /** Once a round has met an item that nobody holds, the next one gets a chunk. */
  lemma MetUnheld<T>(w: World<T>, f: Frame<T>, weather: Weather<T>, round: nat, x: T)
    requires Fits(w, f) && f.cfg.evictToFree && x in MetAt(w.st, f, weather.busy(3 * round + 1)) && Held(w.st.holders, x) == 0
    ensures MakeRoomFor(w.st, f, weather, round).1 && FreesAt(MakeRoomFor(w.st, f, weather, round).0, f.id) != []
  {
    hide PullList, SparesLive, Sound, Fits, MetAt, VictimAt, Evicts;
    EvictionTakes(w, f, weather, round);
    var a, b := RoomIsRun(w, f, weather, round);
    StillThere(a.st, b.st, f.id);
  }

  /** The cache at the eviction of round j. */
  ghost function AtEviction<T>(st: State<T>, f: Frame<T>, w: Weather<T>, round: nat, j: nat): State<T>
    decreases j - round
  {
    var a := Reclaim(st, f, w.busy(3 * round));
    if j <= round then a else AtEviction(MakeRoomFor(a, f, w, round).0, f, w, round + 1, j)
  }

  lemma AtEvictionIs<T>(st: State<T>, f: Frame<T>, w: Weather<T>, round: nat, j: nat)
    ensures var a := Reclaim(st, f, w.busy(3 * round));
            AtEviction(st, f, w, round, j) == if j <= round then a else AtEviction(MakeRoomFor(a, f, w, round).0, f, w, round + 1, j)
  {
    hide Reclaim, MakeRoomFor;
  }

  /** An allocation that fails has met in each of its rounds but the tenth only busy and held items,
      and crawlers. */
  lemma {:induction false} FailureMeansHeld<T>(w: World<T>, f: Frame<T>, weather: Weather<T>, round: nat, j: nat)
    requires Fits(w, f) && f.cfg.evictToFree && round <= j < ROUNDS - 1
    requires var (r, it, n) := AllocRounds(w.st, f, weather, round); it.None? && j <= n
    ensures var a := AtEviction(w.st, f, weather, round, j);
            forall x :: x in MetAt(a, f, weather.busy(3 * j + 1)) ==> Held(a.holders, x) > 0
    decreases ROUNDS - round
  {
    hide SparesLive, Fits, Reclaim, MakeRoomFor, MetAt, Eviction.Kept, AllocRounds, AtEviction, State.Take;
    var a := ReclaimIsRun(w, f, weather.busy(3 * round));
    var e, b := RoomIsRun(a, f, weather, round);
    RoundsAre(w.st, f, weather, round);
    AtEvictionIs(w.st, f, weather, round, j);
    if j == round {
      forall x | x in MetAt(a.st, f, weather.busy(3 * j + 1)) ensures Held(a.st.holders, x) > 0 {
        HeldOrServed(a, b, f, weather, round, x);
      }
    } else {
      FailureMeansHeld(b, f, weather, round + 1, j);
    }
  }

  lemma HeldOrServed<T>(a: World<T>, b: World<T>, f: Frame<T>, weather: Weather<T>, round: nat, x: T)
    requires Fits(a, f) && f.cfg.evictToFree && x in MetAt(a.st, f, weather.busy(3 * round + 1)) && round < ROUNDS - 1
    requires Fits(b, f) && b.st == MakeRoomFor(a.st, f, weather, round).0
    ensures Held(a.st.holders, x) > 0 || (MakeRoomFor(a.st, f, weather, round).1 && AllocRounds(b.st, f, weather, round + 1).1.Some?)
  {
    hide SparesLive, Fits, Reclaim, MakeRoomFor, MetAt, AllocRounds;
    if Held(a.st.holders, x) == 0 {
      MetUnheld(a, f, weather, round, x);
      ChunkIsTaken(b, f, weather, round + 1);
    }
  }

  /** It gives up before the tenth round only in flat mode, and having met nobody. */
  lemma {:induction false} GivesUpOnNobody<T>(w: World<T>, f: Frame<T>, weather: Weather<T>, round: nat)
    requires Fits(w, f) && f.cfg.evictToFree && round < ROUNDS
    requires AllocRounds(w.st, f, weather, round).1.None?
    ensures var n := AllocRounds(w.st, f, weather, round).2;
            round <= n <= ROUNDS && (n < ROUNDS ==> !f.cfg.segmented && MetAt(AtEviction(w.st, f, weather, round, n), f, weather.busy(3 * n + 1)) == {})
    decreases ROUNDS - round
  {
    hide SparesLive, Fits, Reclaim, MetAt, Eviction.Kept, PullList, VictimAt, Evicts, TakenOut, AllocRounds, AtEviction, State.Take;
    var a := ReclaimIsRun(w, f, weather.busy(3 * round));
    var e, b := RoomIsRun(a, f, weather, round);
    RoundsAre(w.st, f, weather, round);
    NoMoreRounds(b.st, f, weather);
    AtEvictionIs(w.st, f, weather, round, AllocRounds(w.st, f, weather, round).2);
    EvictionTakes(a, f, weather, round);
    if MakeRoomFor(a.st, f, weather, round).1 && round + 1 < ROUNDS {
      GivesUpOnNobody(b, f, weather, round + 1);
    }
  }

  /** And then it does so at once. */
  lemma NobodyMetEndsIt<T>(w: World<T>, f: Frame<T>, weather: Weather<T>, round: nat)
    requires Fits(w, f) && f.cfg.evictToFree && round < ROUNDS && !f.cfg.segmented
    requires var a := Reclaim(w.st, f, weather.busy(3 * round)); FreesAt(a, f.id) == [] && MetAt(a, f, weather.busy(3 * round + 1)) == {}
    ensures AllocRounds(w.st, f, weather, round).1.None? && AllocRounds(w.st, f, weather, round).2 == round
  {
    hide SparesLive, Fits, Reclaim, MetAt, Eviction.Kept, PullList, VictimAt, Evicts, TakenOut, AllocRounds, State.Take;
    var a := ReclaimIsRun(w, f, weather.busy(3 * round));
    RoundsAre(w.st, f, weather, round);
    EvictionTakes(a, f, weather, round);
  }

  /** v is bound no more; everyone else who is bound and alive stays so. */
  ghost predicate SparesBut<T>(st: State<T>, r: State<T>, v: T, now: nat, cfg: Settings) {
    && v in st.heads && st.At(v).key !in r.bindings
    && forall k :: k in st.bindings && st.bindings[k] != v && !st.At(st.bindings[k]).Dead(cfg.oldestLive, now) ==>
         && k in r.bindings && r.bindings[k] == st.bindings[k] && r.Linked(r.bindings[k])
         && var h, g := st.At(st.bindings[k]), r.At(st.bindings[k]);
            !g.Dead(cfg.oldestLive, now) && g == h.(flags := g.flags, time := g.time, clsid := g.clsid, refcount := g.refcount)
  }

  lemma EvictSpares<T>(a: World<T>, e: World<T>, f: Frame<T>, v: T, s: seq<T>)
    requires Sound(a) && Sound(e) && Eviction.Kept(a.st, e.st) && a.st.Linked(v) && !e.st.Linked(v)
    requires Evicts(a.st, e.st, Some(v), DeadOf(a.st, s, f.now, f.cfg))
    ensures SparesBut(a.st, e.st, v, f.now, f.cfg)
  {
    hide Sound, Head.Dead, FreesStay, Stays;
    BoundOnce(a);
    BoundOnce(e);
    forall k | k in a.st.bindings && a.st.bindings[k] != v && !a.st.At(a.st.bindings[k]).Dead(f.cfg.oldestLive, f.now)
      ensures k in e.st.bindings && e.st.bindings[k] == a.st.bindings[k] && e.st.Linked(e.st.bindings[k])
              && e.st.At(e.st.bindings[k]) == a.st.At(a.st.bindings[k])
    {
      var y := a.st.bindings[k];
      assert y !in DeadOf(a.st, s, f.now, f.cfg) && y in a.st.heads;
      assert e.st.At(y) == a.st.At(y);
    }
  }

  lemma ButAfter<T>(st: State<T>, a: State<T>, e: State<T>, r: State<T>, v: T, now: nat, cfg: Settings)
    requires SparesLive(st, a, now, cfg) && SparesBut(a, e, v, now, cfg) && SparesLive(e, r, now, cfg)
    requires v in st.heads && a.At(v).key == st.At(v).key && r.bindings.Keys <= e.bindings.Keys
    ensures SparesBut(st, r, v, now, cfg)
  {
    hide Head.Dead, State.Linked;
  }

  /** The eviction of an unheld victim gives a free chunk, and takes nobody else who is alive. */
  lemma VictimGoes<T>(a: World<T>, f: Frame<T>, weather: Weather<T>, round: nat, v: T) returns (b: World<T>)
    requires Fits(a, f) && f.cfg.evictToFree && VictimAt(a.st, f, weather.busy(3 * round + 1)) == Some(v) && Held(a.st.holders, v) == 0
    ensures Fits(b, f) && b.st == MakeRoomFor(a.st, f, weather, round).0 && MakeRoomFor(a.st, f, weather, round).1
    ensures FreesAt(b.st, f.id) != [] && SparesBut(a.st, b.st, v, f.now, f.cfg) && a.st.Linked(v)
  {
    hide SparesLive, SparesBut, Fits, MakeRoomFor, MetAt, VictimAt, Eviction.Kept, Evicts, State.Linked, State.At, TakenOut, PullList;
    EvictionTakes(a, f, weather, round);
    MetUnheld(a, f, weather, round, v);
    var e;
    e, b := RoomIsRun(a, f, weather, round);
    MetIsLinked(a, f, weather.busy(3 * round + 1), v);
    FitsIs(a, f);
    FitsIs(e, f);
    NotLinked(a.st, e.st, MetAt(a.st, f, weather.busy(3 * round + 1)), f.id, v);
    EvictSpares(a, e, f, v, ListAt(a.st, f.id + COLD_LRU));
    FewerBound(e.st, b.st);
    SparesSelf(a, f.now, f.cfg);
    ButAfter(a.st, a.st, e.st, b.st, v, f.now, f.cfg);
  }

  /** If there is no chunk, and the eviction meets an item alive that is not busy and that nobody holds,
      the allocation gets a chunk in the next round; that item, and of the others only dead ones, have
      been taken from the table. */
  lemma UnheldVictimServes<T>(w: World<T>, f: Frame<T>, weather: Weather<T>, round: nat)
    requires Fits(w, f) && f.cfg.evictToFree && round < ROUNDS - 1
    requires var a := Reclaim(w.st, f, weather.busy(3 * round));
             var v := VictimAt(a, f, weather.busy(3 * round + 1));
             FreesAt(a, f.id) == [] && v.Some? && Held(a.holders, v.value) == 0
    ensures var v := VictimAt(Reclaim(w.st, f, weather.busy(3 * round)), f, weather.busy(3 * round + 1)).value;
            var (r, it, n) := AllocRounds(w.st, f, weather, round);
            it.Some? && n == round + 1 && SparesBut(w.st, r, v, f.now, f.cfg)
  {
    hide SparesLive, SparesBut, Fits, Reclaim, MakeRoomFor, VictimAt, Eviction.Kept, State.Linked, State.At, AllocRounds, State.Take;
    RoundsAre(w.st, f, weather, round);
    var a := ReclaimIsRun(w, f, weather.busy(3 * round));
    var v := VictimAt(a.st, f, weather.busy(3 * round + 1)).value;
    var b := VictimGoes(a, f, weather, round, v);
    ChunkIsTaken(b, f, weather, round + 1);
    FitsIs(w, f);
    FitsIs(a, f);
    KeyStays(w, a, v);
    ButAfter(w.st, a.st, b.st, AllocRounds(b.st, f, weather, round + 1).0, v, f.now, f.cfg);
  }

  lemma NotLinked<T>(a: State<T>, e: State<T>, met: set<T>, id: nat, v: T)
    requires TakenOut(a, e, met, id) && v in met
    ensures !e.Linked(v)
  {
  }

  lemma KeyStays<T>(w: World<T>, a: World<T>, v: T)
    requires Sound(w) && Sound(a) && Eviction.Kept(w.st, a.st) && a.st.Linked(v)
    ensures v in w.st.heads && a.st.At(v).key == w.st.At(v).key
  {
    BoundOnce(w);
    BoundOnce(a);
    hide Sound;
    assert a.st.bindings[a.st.At(v).key] == v;
  }

  lemma MetIsLinked<T>(a: World<T>, f: Frame<T>, busy: set<T>, v: T)
    requires Fits(a, f) && v in MetAt(a.st, f, busy)
    ensures a.st.Linked(v) && v in a.st.heads
  {
    ColdList(a, f);
    var i := f.id + COLD_LRU;
    MetIn(a.st.lists[i], f.crawlers[i], busy, DeadOf(a.st, a.st.lists[i], f.now, f.cfg), 5);
  }

  lemma FewerBound<T>(a: State<T>, b: State<T>)
    requires Eviction.Kept(a, b)
    ensures b.bindings.Keys <= a.bindings.Keys
  {
  }

  /** The last HOT item, alive and not active, is moved to COLD. */
  lemma HotMoves<T>(st: State<T>, x: T, id: nat, p: Pull, over: bool, now: nat, cfg: Settings)
    requires Counted(st, x) && st.At(x).clsid == id < CLASS_COUNT && !p.evict && p.maxAge == 0
    requires !st.At(x).Dead(cfg.oldestLive, now) && !st.At(x).flags.active && st.At(x).time != now && st.At(x).time < UINT_SPAN && now < UINT_SPAN
    ensures var r := PullOne(st, x, HOT_LRU, p, over, now, cfg);
            && r.stop && r.st.Linked(x) && r.st.At(x) == st.At(x).(clsid := id + COLD_LRU) && r.st.frees == st.frees
            && r.st.lists == Headed(Left(st.lists, id, x), id + COLD_LRU, x)
  {
    hide PullOne, Counted, Moved, There;
    ListNumbers(id);
    PullOutcome(st, x, HOT_LRU, p, over, now, cfg);
    Ages(now, st.At(x).time);
    MovedIs(st, PullOne(st, x, HOT_LRU, p, over, now, cfg).st, x, id + COLD_LRU, now);
  }

  /** x is the last item of its HOT list, is alive, and is neither active nor touched in this second. */
  ghost predicate LastHot<T>(st: State<T>, f: Frame<T>, x: T) {
    && f.id < |f.crawlers| && ListAt(st, f.id) != [] && ListAt(st, f.id)[|ListAt(st, f.id)| - 1] == x && x != f.crawlers[f.id]
    && !st.At(x).Dead(f.cfg.oldestLive, f.now) && !st.At(x).flags.active
    && st.At(x).time != f.now && st.At(x).time < UINT_SPAN && f.now < UINT_SPAN
  }

  /** A pull from HOT puts it at the head of COLD. */
  lemma HotFeedsCold<T>(a: World<T>, f: Frame<T>, busy: set<T>, total: nat, x: T)
    requires Fits(a, f) && LastHot(a.st, f, x) && x !in busy
    ensures var b, cold := PullList(a.st, f, HOT_LRU, Pull(false, false, total, 0), busy).0, f.id + COLD_LRU;
            && |b.lists| == |a.st.lists| == LIST_COUNT && b.lists[cold] == [x] + a.st.lists[cold]
            && b.Linked(x) && b.At(x) == a.st.At(x).(clsid := cold) && b.frees == a.st.frees
  {
    hide Fits, Counted, Distinct, Head.Dead, PullOne;
    ListOf(a, f, HOT_LRU);
    ListOf(a, f, COLD_LRU);
    ListCounted(a, f.id);
    var s, p := a.st.lists[f.id], Pull(false, false, total, 0);
    assert x in s;
    var scan := Scan(f.crawlers[f.id], busy, p, f.now, f.cfg);
    HotMoves(a.st, x, f.id, p, ListBytes(a.st, s, scan.crawler) > Limit(HOT_LRU, p, f.cfg), f.now, f.cfg);
  }

  /** The COLD list holds nothing but perhaps its crawler. */
  ghost predicate NoCold<T>(st: State<T>, f: Frame<T>) {
    && f.id + COLD_LRU < |f.crawlers|
    && (ListAt(st, f.id + COLD_LRU) == [] || ListAt(st, f.id + COLD_LRU) == [f.crawlers[f.id + COLD_LRU]])
  }

  /** There nobody can be evicted. */
  lemma NobodyThere<T>(st: State<T>, f: Frame<T>, weather: Weather<T>, round: nat)
    requires NoCold(st, f)
    ensures Evicted(st, f, weather, round) == (st, 0)
  {
    var i := f.id + COLD_LRU;
    var scan := Scan(f.crawlers[i], weather.busy(3 * round + 1), Pull(true, false, weather.totalBytes(round), 0), f.now, f.cfg);
    assert PullWalk(st, i, 0, COLD_LRU, scan, 5, 0) == (st, 0);
  }

  lemma NoCrawler<T>(w: World<T>, f: Frame<T>, x: T, i: nat)
    requires Fits(w, f) && x in w.st.heads && i < |f.crawlers|
    ensures x != f.crawlers[i]
  {
    assert f.crawlers[i] in w.ls.guests;
  }

  lemma NoLook<T>(st: State<T>, f: Frame<T>, busy: set<T>)
    requires f.cfg.segmented
    ensures Reclaim(st, f, busy) == st
  {
  }

  lemma RoomFromHot<T>(st: State<T>, f: Frame<T>, w: Weather<T>, round: nat)
    requires f.cfg.segmented && Evicted(st, f, w, round) == (st, 0)
    ensures MakeRoomFor(st, f, w, round) == (PullList(st, f, HOT_LRU, Pull(false, false, w.totalBytes(round), 0), w.busy(3 * round + 2)).0, true)
  {
    hide PullList;
  }

  /** After a round on an empty COLD list the item from HOT is the next victim. */
  lemma HotIsNext<T>(w: World<T>, f: Frame<T>, weather: Weather<T>, round: nat, x: T) returns (b: World<T>)
    requires Fits(w, f) && f.cfg.evictToFree && f.cfg.segmented && NoCold(w.st, f) && FreesAt(w.st, f.id) == []
    requires LastHot(w.st, f, x) && x !in weather.busy(3 * round + 2) && x !in weather.busy(3 * (round + 1) + 1)
    ensures Fits(b, f) && MakeRoomFor(w.st, f, weather, round) == (b.st, true) && FreesAt(b.st, f.id) == []
    ensures VictimAt(b.st, f, weather.busy(3 * (round + 1) + 1)) == Some(x) && Held(b.st.holders, x) == Held(w.st.holders, x)
  {
    hide Fits, LastHot, PullList, Eviction.Kept, SparesLive, MakeRoomFor, VictimAt, NoCold, Evicted;
    NobodyThere(w.st, f, weather, round);
    RoomFromHot(w.st, f, weather, round);
    HotFeedsCold(w, f, weather.busy(3 * round + 2), weather.totalBytes(round), x);
    var a;
    a, b := RoomIsRun(w, f, weather, round);
    ListOf(w, f, COLD_LRU);
    XIsVictim(w, b, f, weather.busy(3 * (round + 1) + 1), x);
    HotIsThere(w, f, x);
    KeptHeld(w.st, a.st, b.st, x);
  }

  /** So an allocation does not fail while COLD is empty and HOT ends in an item that can go. */
  lemma HotServes<T>(w: World<T>, f: Frame<T>, weather: Weather<T>, round: nat, x: T)
    requires Fits(w, f) && f.cfg.evictToFree && f.cfg.segmented && round < ROUNDS - 2 && NoCold(w.st, f)
    requires LastHot(w.st, f, x) && x !in weather.busy(3 * round + 2) && x !in weather.busy(3 * (round + 1) + 1) && Held(w.st.holders, x) == 0
    ensures AllocRounds(w.st, f, weather, round).1.Some?
  {
    hide Fits, AllocRounds, LastHot, State.Take, PullList, Reclaim, MakeRoomFor, NoCold, VictimAt, SparesLive, SparesBut;
    if FreesAt(w.st, f.id) != [] {
      ChunkIsTaken(w, f, weather, round);
    } else {
      RoundsAre(w.st, f, weather, round);
      NoLook(w.st, f, weather.busy(3 * round));
      var b := HotIsNext(w, f, weather, round, x);
      NoLook(b.st, f, weather.busy(3 * (round + 1)));
      UnheldVictimServes(b, f, weather, round + 1);
    }
  }

  lemma HotIsThere<T>(w: World<T>, f: Frame<T>, x: T)
    requires Fits(w, f) && LastHot(w.st, f, x)
    ensures x in w.st.heads
  {
    hide Sound, Counted;
    ListCounted(w, f.id);
    var s := w.st.lists[f.id];
    assert x in s;
    CountedIs(w.st, x);
  }

  lemma KeptHeld<T>(st: State<T>, a: State<T>, b: State<T>, x: T)
    requires Eviction.Kept(st, a) && Eviction.Kept(a, b) && x in st.heads
    ensures Held(b.holders, x) == Held(st.holders, x)
  {
  }

  lemma XIsVictim<T>(w: World<T>, b: World<T>, f: Frame<T>, busy: set<T>, x: T)
    requires Fits(w, f) && Fits(b, f) && LastHot(w.st, f, x) && x !in busy
    requires NoCold(w.st, f)
    requires ListAt(b.st, f.id + COLD_LRU) == [x] + ListAt(w.st, f.id + COLD_LRU)
    requires b.st.Linked(x) && b.st.At(x) == w.st.At(x).(clsid := f.id + COLD_LRU) && FreesAt(b.st, f.id) == []
    ensures VictimAt(b.st, f, busy) == Some(x)
  {
    hide Fits;
    ListOf(b, f, COLD_LRU);
    var i := f.id + COLD_LRU;
    NoCrawler(b, f, x, i);
    var t, avoid := [x] + ListAt(w.st, i), busy + DeadOf(b.st, ListAt(b.st, i), f.now, f.cfg);
    assert x !in avoid && Victim([x], f.crawlers[i], avoid, 5) == Some(x);
    assert ListAt(w.st, i) != [] ==> t[|t| - 1] == f.crawlers[i] && t[..|t| - 1] == [x];
  }

  lemma Ages(now: nat, time: nat)
    requires now < UINT_SPAN && time < UINT_SPAN && now != time
    ensures (now - time) % UINT_SPAN > 0
  {
    if now < time {
      assert (now - time) % UINT_SPAN == now - time + UINT_SPAN;
    }
  }

  lemma MovedIs<T>(st: State<T>, r: State<T>, x: T, id: nat, now: nat)
    requires Moved(st, r, x, id, now) && id != st.At(x).clsid && !st.At(x).flags.active
    ensures r.Linked(x) && r.At(x) == st.At(x).(clsid := id) && r.frees == st.frees
    ensures r.lists == Headed(Left(st.lists, st.At(x).clsid, x), id, x)
  {
  }

  /** In its last round it evicts in vain: what becomes free then is not looked for any more. */
  lemma LastRoundIsLost<T>(st: State<T>, f: Frame<T>, w: Weather<T>)
    requires FreesAt(Reclaim(st, f, w.busy(3 * (ROUNDS - 1))), f.id) == []
    ensures AllocRounds(st, f, w, ROUNDS - 1).1.None?
  {
    hide Reclaim, MakeRoomFor, AllocRounds;
    RoundsAre(st, f, w, ROUNDS - 1);
    NoMoreRounds(MakeRoomFor(Reclaim(st, f, w.busy(3 * (ROUNDS - 1))), f, w, ROUNDS - 1).0, f, w);
  }

  // ---------------------------------------------------------------- what an allocation promises

  /** The eviction from this state meets only items that somebody holds. */
  ghost predicate AllHeld<T>(st: State<T>, f: Frame<T>, busy: set<T>) {
    forall x :: x in MetAt(st, f, busy) ==> Held(st.holders, x) > 0
  }

  /** There is a free chunk of the class, or a dead item at the tail gives one. */
  ghost predicate ChunkAtOnce<T>(st: State<T>, f: Frame<T>, w: Weather<T>) {
    FreesAt(Reclaim(st, f, w.busy(0)), f.id) != []
  }

  /** With a chunk or a page to be had an allocation gets it at once, and takes nobody alive from the
      table.  Else, if it may evict: if nobody holds the first item alive and not busy within reach of
      the tail, it gets a chunk in the next round, and of all that are alive only that item has gone.
      And if it fails, then it met in every round but the tenth only busy and held items. */
  ghost predicate Outcome<T>(st: State<T>, r: State<T>, it: Option<T>, n: nat, f: Frame<T>, w: Weather<T>, page: bool) {
    && (page || ChunkAtOnce(st, f, w) ==> it.Some? && n == 0 && SparesLive(st, r, f.now, f.cfg))
    && (!page && !ChunkAtOnce(st, f, w) && f.cfg.evictToFree ==>
          && (var a := Reclaim(st, f, w.busy(0));
              var v := VictimAt(a, f, w.busy(1));
              v.Some? && Held(a.holders, v.value) == 0 ==> it.Some? && n == 1 && SparesBut(st, r, v.value, f.now, f.cfg))
          && (it.None? ==> forall j :: 0 <= j < ROUNDS - 1 && j <= n ==> AllHeld(AtEviction(st, f, w, 0, j), f, w.busy(3 * j + 1)))
          && (it.None? && n < ROUNDS ==> !f.cfg.segmented && MetAt(AtEviction(st, f, w, 0, n), f, w.busy(3 * n + 1)) == {}))
  }

  /** The rounds keep this promise. */
  lemma RoundsPromise<T>(w: World<T>, f: Frame<T>, weather: Weather<T>)
    requires Fits(w, f)
    ensures var (r, it, n) := AllocRounds(w.st, f, weather, 0);
            && Outcome(w.st, r, it, n, f, weather, false)
            && (ChunkAtOnce(w.st, f, weather) ==> it.Some? && n == 0)
  {
    hide Fits, Reclaim, MakeRoomFor, MetAt, VictimAt, AllocRounds, AtEviction, SparesLive, SparesBut, State.Take, Eviction.Kept;
    var (r, it, n) := AllocRounds(w.st, f, weather, 0);
    RoundsAre(w.st, f, weather, 0);
    var a := ReclaimIsRun(w, f, weather.busy(0));
    if FreesAt(a.st, f.id) != [] {
      TakeSpares(a, f);
      SparesTwice(w.st, a.st, a.st.Take(f.id, FreesAt(a.st, f.id)[0]), f.now, f.cfg);
    } else if f.cfg.evictToFree {
      var v := VictimAt(a.st, f, weather.busy(1));
      if v.Some? && Held(a.st.holders, v.value) == 0 {
        UnheldVictimServes(w, f, weather, 0);
      }
      if it.None? {
        GivesUpOnNobody(w, f, weather, 0);
        forall j | 0 <= j < ROUNDS - 1 && j <= n ensures AllHeld(AtEviction(w.st, f, weather, 0, j), f, weather.busy(3 * j + 1)) {
          FailureMeansHeld(w, f, weather, 0, j);
        }
      }
    }
  }

  /** So does a chunk of a new page. */
  lemma PagePromises<T>(w: World<T>, f: Frame<T>, weather: Weather<T>, grown: State<T>, y: T)
    requires Fits(w, f) && Grown(Reclaim(w.st, f, weather.busy(0)), grown) && FreesAt(grown, f.id) != [] && grown.At(y).flags == FREE
    ensures Outcome(w.st, grown.Take(f.id, y), Some(y), 0, f, weather, true)
  {
    hide Fits, Reclaim, SparesLive, Eviction.Kept, SparesBut, MetAt, VictimAt, AtEviction, Grown;
    var a := ReclaimIsRun(w, f, weather.busy(0));
    GrownSpares(a, f, grown, y);
    SparesTwice(w.st, a.st, grown.Take(f.id, y), f.now, f.cfg);
  }

  lemma GrownSpares<T>(a: World<T>, f: Frame<T>, grown: State<T>, y: T)
    requires Fits(a, f) && Grown(a.st, grown) && grown.At(y).flags == FREE
    ensures SparesLive(a.st, grown.Take(f.id, y), f.now, f.cfg)
  {
    hide Sound, Head.Dead;
    FitsIs(a, f);
    BoundOnce(a);
  }
}
