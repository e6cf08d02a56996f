/** What the operations on items do, on values: the key bindings, the LRU lists, the freelists,
    the item headers, and the references that are held. */
module CacheSpec {
  import opened Common
  import opened Items
  import opened LruSpec
  import opened Recency

  const HOT_LRU := 0
  const WARM_LRU := 64
  const COLD_LRU := 128
  const TEMP_LRU := 192

  /** ITEM_clsid and ITEM_lruid. */
  function ClassOf(clsid: nat): nat { clsid % CLASS_COUNT }

  function LruOf(clsid: nat): nat { clsid - clsid % CLASS_COUNT }

  datatype Settings = Settings(segmented: bool, evictToFree: bool, oldestLive: nat, hotPct: nat, warmPct: nat,
                               tempLru: bool, temporaryTtl: nat)

  datatype Head = Head(flags: Flags, refcount: nat, time: nat, exptime: nat, nbytes: nat, clsid: nat,
                       key: Key, value: seq<Byte>)
  {
    /** item_is_flushed, without CAS ids. */
    predicate Flushed(oldestLive: nat, now: nat) {
      oldestLive != 0 && oldestLive <= now && time <= oldestLive
    }

    /** Expired or flushed, as the tail of a list and the page mover see it. */
    predicate Dead(oldestLive: nat, now: nat) {
      (exptime != 0 && exptime < now) || Flushed(oldestLive, now)
    }

    /** Just linked. */
    function Linked(now: nat): Head {
      this.(flags := flags.(linked := true), time := now, refcount := refcount + 1)
    }

    /** With one reference less; the last one frees the chunk. */
    function Dropped(): Head {
      if refcount <= 1 then this.(refcount := 0, flags := FREE, clsid := 0) else this.(refcount := refcount - 1)
    }

    /** As a reader sees it: one second earlier. */
    predicate Gone(oldestLive: nat, now: nat) {
      (exptime != 0 && exptime <= now) || Flushed(oldestLive, now)
    }
  }

  const NO_HEAD := Head(FREE, 0, 0, 0, 0, 0, [], [])

  /** References to x besides the one of being linked. */
  function Held<T(==)>(holders: map<T, nat>, x: T): nat {
    if x in holders then holders[x] else 0
  }

  /** One reference more, and one less. */
  function Given<T(==)>(holders: map<T, nat>, x: T): map<T, nat> {
    holders[x := Held(holders, x) + 1]
  }

  function Taken<T(==)>(holders: map<T, nat>, x: T): map<T, nat> {
    if Held(holders, x) <= 1 then holders - {x} else holders[x := holders[x] - 1]
  }

  /** No entry for what nobody holds. */
  function Settled<T(==)>(holders: map<T, nat>, x: T): map<T, nat> {
    if Held(holders, x) == 0 then holders - {x} else holders
  }

  /** The lists when x leaves list i, and when it becomes the head of list i. */
  function Left<T(==)>(ss: seq<seq<T>>, i: nat, x: T): seq<seq<T>> {
    if i < |ss| then ss[i := Removed(ss[i], x)] else ss
  }

  function Headed<T>(ss: seq<seq<T>>, i: nat, x: T): seq<seq<T>> {
    if i < |ss| then ss[i := [x] + ss[i]] else ss
  }

  datatype State<T(==)> = State(bindings: map<Key, T>, lists: seq<seq<T>>, frees: seq<seq<T>>,
                                heads: map<T, Head>, holders: map<T, nat>)
  {
    function At(it: T): Head {
      if it in heads then heads[it] else NO_HEAD
    }

    function With(it: T, h: Head): State<T> {
      this.(heads := heads[it := h])
    }

    predicate Linked(it: T) {
      it in heads && heads[it].flags.linked
    }

    /** In someone's hands, and not linked. */
    predicate Loose(it: T) {
      it in heads && it in holders && !heads[it].flags.linked
    }

    /** Somebody holds a reference to the item. */
    predicate Holds(it: T) {
      it in heads && Held(holders, it) > 0
    }

    /** refcount_incr. */
    function Hold(it: T): State<T> {
      With(it, At(it).(refcount := At(it).refcount + 1)).(holders := Given(holders, it))
    }

    /** do_item_remove: the last reference frees the chunk. */
    function Drop(it: T): State<T> {
      var h := At(it);
      With(it, h.Dropped())
        .(holders := Taken(holders, it), frees := if h.refcount <= 1 then Headed(frees, ClassOf(h.clsid), it) else frees)
    }

    /** Out of the table and off the list; the reference of being linked passes to the caller. */
    function Out(it: T): State<T> {
      With(it, At(it).(flags := At(it).flags.(linked := false)))
        .(bindings := bindings - {At(it).key}, lists := Left(lists, At(it).clsid, it), holders := Given(holders, it))
    }

    /** do_item_link. */
    function Link(it: T, now: nat): State<T> {
      With(it, At(it).Linked(now))
        .(bindings := bindings[At(it).key := it], lists := Headed(lists, At(it).clsid, it), holders := Settled(holders, it))
    }

    /** do_item_unlink. */
    function Unlink(it: T): State<T> {
      if Linked(it) then Out(it).Drop(it) else this
    }

    /** do_item_replace. */
    function Replace(it: T, newIt: T, now: nat): State<T> {
      Unlink(it).Link(newIt, now)
    }

    /** To the head of the list `clsid`. */
    function Relist(it: T, clsid: nat): State<T> {
      With(it, At(it).(clsid := clsid)).(lists := Headed(Left(lists, At(it).clsid, it), clsid, it))
    }

    function Flag(it: T, f: Flags): State<T> {
      With(it, At(it).(flags := f))
    }

    function Stamp(it: T, now: nat): State<T> {
      With(it, At(it).(time := now))
    }

    /** do_item_update. */
    function Update(it: T, now: nat, segmented: bool): State<T> {
      var h := At(it);
      if segmented then
        if !h.flags.linked then this
        else if LruOf(h.clsid) == COLD_LRU && h.flags.active then
          Stamp(it, now).Flag(it, h.flags.(active := false)).Relist(it, ClassOf(h.clsid) + WARM_LRU)
        else if Stale(h.time, now) then Stamp(it, now)
        else this
      else UpdateNolock(it, now)
    }

    /** do_item_update_nolock. */
    function UpdateNolock(it: T, now: nat): State<T> {
      if Stale(At(it).time, now) && Linked(it) then Stamp(it, now).Relist(it, At(it).clsid) else this
    }

    /** Hold it, unlink it, and let go of it. */
    function Retire(it: T): State<T> {
      Hold(it).Unlink(it).Drop(it)
    }

    /** What a hit does to the item besides holding it.  A hit on an item of a COLD list only asks
        for the item to be moved, if there is room for that; the request holds the item as well. */
    function Hit(it: T, now: nat, segmented: bool, room: bool): State<T> {
      var f := At(it).flags;
      if !segmented then Flag(it, f.(fetched := true)).Update(it, now, false)
      else if f.active then this
      else if !f.fetched then Flag(it, f.(fetched := true))
      else if LruOf(At(it).clsid) != COLD_LRU then Flag(it, f.(active := true)).Update(it, now, true)
      else if room then Flag(it, f.(active := true)).Hold(it)
      else Flag(it, f.(active := true)).Flag(it, f)
    }

    /** The first chunk of a freelist is handed out. */
    function Take(id: nat, it: T): State<T> {
      With(it, At(it).(flags := At(it).flags.(slabbed := false), refcount := 1))
        .(frees := if id < |frees| && frees[id] != [] then frees[id := frees[id][1..]] else frees)
    }

    /** Its header is written. */
    function Own(it: T, h: Head): State<T> {
      With(it, h).(holders := holders[it := h.refcount])
    }

    /** It is marked as cleared for a page move. */
    function Clear(it: T): State<T> {
      With(it, At(it).(flags := CLEARED, refcount := 0)).(holders := holders - {it})
    }

    /** It is cut out of the freelist `id` and marked. */
    function CutFree(it: T, id: nat): State<T> {
      Clear(it).(frees := Left(frees, id, it))
    }

    /** slabs_free of an item in our hands, whatever its count. */
    function Free(it: T, id: nat): State<T> {
      With(it, At(it).(flags := FREE, clsid := 0)).(frees := Headed(frees, id, it), holders := holders - {it})
    }

    /** do_item_get. */
    function Get(key: Key, now: nat, settings: Settings, update: bool, room: bool): State<T> {
      if key !in bindings then this
      else
        var it := bindings[key];
        if At(it).Gone(settings.oldestLive, now) then Retire(it)
        else if update then Hold(it).Hit(it, now, settings.segmented, room)
        else Hold(it)
    }
  }

  /** Marked as cleared for a page move. */
  predicate Cleared<T(==)>(st: State<T>, x: T) {
    x in st.heads && st.heads[x].flags == CLEARED
  }

  /** Cleared chunks stay as they are. */
  ghost predicate Stays<T>(st: State<T>, st': State<T>) {
    forall x :: x in st.heads && st.heads[x].flags == CLEARED ==> x in st'.heads && st'.heads[x] == st.heads[x]
  }

  /** All headers but that of `it` are the same. */
  ghost predicate Elsewhere<T>(st: State<T>, st': State<T>, it: T) {
    forall z :: z in st.heads && z != it ==> z in st'.heads && st'.heads[z] == st.heads[z]
  }

  lemma StepElsewhere<T>(st: State<T>, a: State<T>, it: T, f: Flags, id: nat, now: nat)
    requires Elsewhere(st, a, it)
    ensures Elsewhere(st, a.Hold(it), it) && Elsewhere(st, a.Drop(it), it) && Elsewhere(st, a.Out(it), it)
    ensures Elsewhere(st, a.Link(it, now), it) && Elsewhere(st, a.Relist(it, id), it)
    ensures Elsewhere(st, a.Flag(it, f), it) && Elsewhere(st, a.Stamp(it, now), it)
  {
  }

  lemma UnlinkElsewhere<T>(st: State<T>, a: State<T>, it: T)
    requires Elsewhere(st, a, it)
    ensures Elsewhere(st, a.Unlink(it), it)
  {
    hide Elsewhere, State.Out, State.Drop;
    StepElsewhere(st, a, it, FREE, 0, 0);
    StepElsewhere(st, a.Out(it), it, FREE, 0, 0);
  }

  lemma UpdateElsewhere<T>(st: State<T>, a: State<T>, it: T, now: nat, segmented: bool)
    requires Elsewhere(st, a, it)
    ensures Elsewhere(st, a.Update(it, now, segmented), it)
  {
    hide Elsewhere, State.Stamp, State.Flag, State.Relist;
    var h := a.At(it);
    var calm := h.flags.(active := false);
    StepElsewhere(st, a, it, calm, 0, now);
    StepElsewhere(st, a.Stamp(it, now), it, calm, h.clsid, now);
    StepElsewhere(st, a.Stamp(it, now).Flag(it, calm), it, calm, ClassOf(h.clsid) + WARM_LRU, now);
  }

  lemma HitElsewhere<T>(st: State<T>, a: State<T>, it: T, now: nat, segmented: bool, room: bool)
    requires Elsewhere(st, a, it)
    ensures Elsewhere(st, a.Hit(it, now, segmented, room), it)
  {
    hide Elsewhere, State.Flag, State.Update, State.Hold;
    var f := a.At(it).flags;
    StepElsewhere(st, a, it, f.(fetched := true), 0, now);
    StepElsewhere(st, a, it, f.(active := true), 0, now);
    StepElsewhere(st, a.Flag(it, f.(active := true)), it, f, 0, now);
    UpdateElsewhere(st, a.Flag(it, f.(fetched := true)), it, now, false);
    UpdateElsewhere(st, a.Flag(it, f.(active := true)), it, now, true);
  }

  /** No operation on an item touches a cleared chunk. */
  lemma WorkStays<T>(st: State<T>, it: T, now: nat, segmented: bool)
    requires !Cleared(st, it)
    ensures Stays(st, st.Hold(it)) && Stays(st, st.Drop(it)) && Stays(st, st.Link(it, now))
    ensures Stays(st, st.Unlink(it)) && Stays(st, st.Update(it, now, segmented))
  {
    hide State.Hold, State.Drop, State.Link, State.Unlink, State.Update;
    StepElsewhere(st, st, it, FREE, 0, now);
    UnlinkElsewhere(st, st, it);
    UpdateElsewhere(st, st, it, now, segmented);
  }

  lemma GetStays<T>(st: State<T>, key: Key, now: nat, cfg: Settings, update: bool, room: bool)
    requires key in st.bindings ==> st.Linked(st.bindings[key])
    ensures Stays(st, st.Get(key, now, cfg, update, room))
  {
    if key in st.bindings {
      var it := st.bindings[key];
      hide State.Hold, State.Drop, State.Unlink, State.Hit;
      StepElsewhere(st, st, it, FREE, 0, now);
      HitElsewhere(st, st.Hold(it), it, now, cfg.segmented, room);
      UnlinkElsewhere(st, st.Hold(it), it);
      StepElsewhere(st, st.Hold(it).Unlink(it), it, FREE, 0, now);
    }
  }

  lemma ReplaceStays<T>(st: State<T>, it: T, newIt: T, now: nat)
    requires !Cleared(st, it) && !Cleared(st, newIt)
    ensures Stays(st, st.Replace(it, newIt, now))
  {
    hide State.Unlink, State.Link;
    UnlinkElsewhere(st, st, it);
    StepElsewhere(st.Unlink(it), st.Unlink(it), newIt, FREE, 0, now);
  }

  /** What the parts of the cache know: the items in the table, the list each item is on, the class
      each chunk belongs to, the chunks handed out whose header is not written yet, and the crawlers,
      one a list. */
  datatype Links<T(==)> = Links(nodes: set<T>, where: map<T, nat>, home: map<T, nat>, raw: set<T>, crawlers: seq<T>, guests: set<T>)

  /** Flags, reference count, hash table and LRU lists tell the same story about a chunk: a slabbed
      one is in neither, and nobody holds it; any other is linked exactly if it is in the table,
      exactly if it is on a list, and that is the list its slabs_clsid names; its count is that of
      the references there are.  Only while a copy changes hands may the count of a held one be 0. */
  ghost predicate Told<T>(x: T, h: Head, ls: Links<T>, holders: map<T, nat>) {
    if x in ls.raw then
      !h.flags.slabbed && !h.flags.linked && x !in ls.nodes && x !in ls.where && x !in holders
    else if h.flags.slabbed then
      (h.flags == FREE || h.flags == CLEARED) && x !in ls.nodes && x !in ls.where && x !in holders
    else
      && h.refcount == Held(holders, x) + (if h.flags.linked then 1 else 0)
      && (h.refcount > 0 || x in holders)
      && (x in ls.nodes <==> h.flags.linked)
      && (x in ls.where <==> h.flags.linked)
      && (h.flags.linked ==> ls.where[x] == h.clsid && h.nbytes >= 2 && (x in holders ==> holders[x] > 0))
      && h.clsid < LIST_COUNT && x in ls.home && ClassOf(h.clsid) == ls.home[x]
  }

  /** Only chunks are in the table and are held, and only chunks and crawlers are on the lists. */
  ghost predicate Members<T>(ls: Links<T>, holders: map<T, nat>) {
    && (forall x :: x in ls.nodes ==> x in ls.home)
    && (forall x :: x in ls.where && x !in ls.home ==> x in ls.guests && ls.where[x] < |ls.crawlers| && x == ls.crawlers[ls.where[x]])
    && (forall i :: 0 <= i < |ls.crawlers| ==> ls.crawlers[i] in ls.guests) && Distinct(ls.crawlers)
    && (forall x :: x in ls.guests ==> x !in ls.home)
    && (forall x :: x in holders ==> x in ls.home)
  }

  ghost predicate Consistent<T>(hs: map<T, Head>, ls: Links<T>, holders: map<T, nat>) {
    hs.Keys == ls.home.Keys && Members(ls, holders) && forall x :: x in hs ==> Told(x, hs[x], ls, holders)
  }

  /** The account changes for one chunk, in all its parts. */
  ghost predicate OnlyFor<T>(it: T, ls: Links<T>, ls': Links<T>, holders: map<T, nat>, holders': map<T, nat>) {
    && ls' == ls.(nodes := ls'.nodes, where := ls'.where, raw := ls'.raw)
    && ls.nodes - {it} == ls'.nodes - {it} && ls.raw - {it} == ls'.raw - {it} && ls.where - {it} == ls'.where - {it} && holders - {it} == holders' - {it}
  }

  /** Consistency is a matter of each chunk alone. */
  lemma ConsistentFor<T>(it: T, h: Head, hs: map<T, Head>, ls: Links<T>, ls': Links<T>, holders: map<T, nat>, holders': map<T, nat>)
    requires Consistent(hs, ls, holders) && it in hs && OnlyFor(it, ls, ls', holders, holders') && Told(it, h, ls', holders')
    ensures Consistent(hs[it := h], ls', holders')
  {
    SameBut(ls.where, ls'.where, it);
    SameBut(holders, holders', it);
    assert forall x :: x != it ==> (x in ls.nodes <==> x in ls.nodes - {it}) && (x in ls'.nodes <==> x in ls'.nodes - {it});
    assert forall x :: x != it ==> (x in ls.raw <==> x in ls.raw - {it}) && (x in ls'.raw <==> x in ls'.raw - {it});
  }

  lemma SameBut<T>(m: map<T, nat>, m': map<T, nat>, it: T)
    requires m - {it} == m' - {it}
    ensures forall x :: x != it && x in m ==> x in m' && m[x] == m'[x]
    ensures forall x :: x != it && x in m' ==> x in m && m[x] == m'[x]
  {
    assert forall x :: x in m && x != it ==> x in m - {it} && (m - {it})[x] == m[x];
    assert forall x :: x in m' && x != it ==> x in m' - {it} && (m' - {it})[x] == m'[x];
  }

  lemma ConsistentHold<T>(hs: map<T, Head>, ls: Links<T>, holders: map<T, nat>, it: T)
    requires Consistent(hs, ls, holders) && it in hs && (hs[it].flags.linked || it in holders)
    ensures Consistent(hs[it := hs[it].(refcount := hs[it].refcount + 1)], ls, Given(holders, it))
  {
    GiveTake(holders, it);
    ConsistentFor(it, hs[it].(refcount := hs[it].refcount + 1), hs, ls, ls, holders, Given(holders, it));
  }

  lemma ConsistentDrop<T>(hs: map<T, Head>, ls: Links<T>, holders: map<T, nat>, it: T)
    requires Consistent(hs, ls, holders) && it in hs && Held(holders, it) > 0
    ensures Consistent(hs[it := hs[it].Dropped()], ls, Taken(holders, it))
    ensures hs[it].refcount > 0 && !hs[it].flags.slabbed && (hs[it].refcount == 1 ==> it !in ls.where)
    ensures it in ls.home && ls.home[it] == ClassOf(hs[it].clsid) < CLASS_COUNT && it !in ls.guests
  {
    GiveTake(holders, it);
    ConsistentFor(it, hs[it].Dropped(), hs, ls, ls, holders, Taken(holders, it));
  }

  lemma ConsistentOut<T>(hs: map<T, Head>, ls: Links<T>, holders: map<T, nat>, it: T)
    requires Consistent(hs, ls, holders) && it in hs && hs[it].flags.linked
    ensures it in ls.nodes
    ensures Consistent(hs[it := hs[it].(flags := hs[it].flags.(linked := false))],
                       ls.(nodes := ls.nodes - {it}, where := ls.where - {it}), Given(holders, it))
  {
    GiveTake(holders, it);
    ConsistentFor(it, hs[it].(flags := hs[it].flags.(linked := false)), hs, ls,
                  ls.(nodes := ls.nodes - {it}, where := ls.where - {it}), holders, Given(holders, it));
  }

  lemma ConsistentLink<T>(hs: map<T, Head>, ls: Links<T>, holders: map<T, nat>, it: T, now: nat)
    requires Consistent(hs, ls, holders) && it in hs && !hs[it].flags.linked && it in holders && hs[it].nbytes >= 2
    ensures Consistent(hs[it := hs[it].Linked(now)], ls.(nodes := ls.nodes + {it}, where := ls.where[it := hs[it].clsid]), Settled(holders, it))
    ensures it !in ls.raw && it !in ls.nodes && it !in ls.where && it !in ls.guests && hs[it].clsid < LIST_COUNT
  {
    var h := hs[it].Linked(now);
    ConsistentFor(it, h, hs, ls, ls.(nodes := ls.nodes + {it}, where := ls.where[it := h.clsid]), holders, Settled(holders, it));
  }

  lemma ConsistentRelist<T>(hs: map<T, Head>, ls: Links<T>, holders: map<T, nat>, it: T, h: Head)
    requires Consistent(hs, ls, holders) && it in hs && hs[it].flags.linked
    requires h.flags.linked && !h.flags.slabbed && h.refcount == hs[it].refcount && h.nbytes == hs[it].nbytes
    requires h.clsid < LIST_COUNT && ClassOf(h.clsid) == ClassOf(hs[it].clsid)
    ensures Consistent(hs[it := h], ls.(where := ls.where[it := h.clsid]), holders)
    ensures ls.where[it := h.clsid] == (ls.where - {it})[it := h.clsid]
  {
    ConsistentFor(it, h, hs, ls, ls.(where := ls.where[it := h.clsid]), holders, holders);
  }

  /** Any other field of a chunk in use may change, and any flag but linked and slabbed. */
  lemma ConsistentEdit<T>(hs: map<T, Head>, ls: Links<T>, holders: map<T, nat>, it: T, h: Head)
    requires Consistent(hs, ls, holders) && it in hs && (hs[it].flags.linked || it in holders)
    requires h.flags.linked == hs[it].flags.linked && !h.flags.slabbed && h.refcount == hs[it].refcount && h.clsid == hs[it].clsid
    requires h.flags.linked ==> h.nbytes == hs[it].nbytes
    ensures Consistent(hs[it := h], ls, holders)
  {
    ConsistentFor(it, h, hs, ls, ls, holders, holders);
  }

  /** A chunk comes off its freelist, its header still to be written. */
  lemma ConsistentTake<T>(hs: map<T, Head>, ls: Links<T>, holders: map<T, nat>, it: T, h: Head)
    requires Consistent(hs, ls, holders) && it in hs && hs[it].flags == FREE && !h.flags.slabbed && !h.flags.linked
    ensures Consistent(hs[it := h], ls.(raw := ls.raw + {it}), holders) && it !in ls.raw && it !in ls.guests && it !in holders
  {
    ConsistentFor(it, h, hs, ls, ls.(raw := ls.raw + {it}), holders, holders);
  }

  /** Its header is written, and it is in its owner's hands; a copy's count starts at 0. */
  lemma ConsistentOwn<T>(hs: map<T, Head>, ls: Links<T>, holders: map<T, nat>, it: T, h: Head)
    requires Consistent(hs, ls, holders) && it in hs && it in ls.raw && !h.flags.slabbed && !h.flags.linked
    requires h.clsid < LIST_COUNT && ClassOf(h.clsid) == ls.home[it]
    ensures Consistent(hs[it := h], ls.(raw := ls.raw - {it}), holders[it := h.refcount])
    ensures it !in ls.guests && it !in ls.nodes && it !in ls.where
  {
    ConsistentFor(it, h, hs, ls, ls.(raw := ls.raw - {it}), holders, holders[it := h.refcount]);
  }

  /** A chunk that nobody holds and that is not linked may be marked as cleared or free. */
  lemma ConsistentShut<T>(hs: map<T, Head>, ls: Links<T>, holders: map<T, nat>, it: T, h: Head)
    requires Consistent(hs, ls, holders) && it in hs && !hs[it].flags.linked && (h.flags == FREE || h.flags == CLEARED)
    ensures Consistent(hs[it := h], ls.(raw := ls.raw - {it}), holders - {it})
    ensures it !in ls.guests && it !in ls.where
  {
    ConsistentFor(it, h, hs, ls, ls.(raw := ls.raw - {it}), holders, holders - {it});
  }

  /** A crawler comes to its list, or leaves it. */
  lemma ConsistentCrawler<T>(hs: map<T, Head>, ls: Links<T>, holders: map<T, nat>, c: T, i: nat, where': map<T, nat>)
    requires Consistent(hs, ls, holders) && i < |ls.crawlers| && c == ls.crawlers[i]
    requires where' == ls.where || where' == ls.where - {c} || where' == ls.where[c := i]
    ensures Consistent(hs, ls.(where := where'), holders)
  {
    assert c in ls.guests && c !in ls.home;
    forall x | x in hs ensures Told(x, hs[x], ls.(where := where'), holders) {
      assert Told(x, hs[x], ls, holders);
    }
  }

  /** Fresh free chunks join. */
  lemma ConsistentGrow<T>(hs: map<T, Head>, hs': map<T, Head>, ls: Links<T>, home: map<T, nat>, holders: map<T, nat>)
    requires Consistent(hs, ls, holders) && hs'.Keys == home.Keys && ls.home.Keys <= home.Keys
    requires forall x :: x in ls.home ==> home[x] == ls.home[x] && hs'[x] == hs[x]
    requires forall x :: x in home && x !in ls.home ==> hs'[x].flags == FREE && x !in ls.where && x !in ls.raw && x !in ls.guests
    ensures Consistent(hs', ls.(home := home), holders)
  {
    forall x | x in hs' ensures Told(x, hs'[x], ls.(home := home), holders) {
      if x in ls.home {
        assert Told(x, hs[x], ls, holders);
      }
    }
  }

  /** Cleared chunks go, fresh free ones come. */
  lemma ConsistentMove<T>(hs: map<T, Head>, hs': map<T, Head>, ls: Links<T>, home: map<T, nat>, holders: map<T, nat>)
    requires Consistent(hs, ls, holders) && hs'.Keys == home.Keys
    requires forall x :: x in ls.home && x in home ==> home[x] == ls.home[x] && hs'[x] == hs[x]
    requires forall x :: x in ls.home && x !in home ==> hs[x].flags == CLEARED
    requires forall x :: x in home && x !in ls.home ==> hs'[x].flags == FREE && x !in ls.where && x !in ls.raw && x !in ls.guests
    ensures Consistent(hs', ls.(home := home), holders)
  {
    forall x | x in ls.home && x !in home ensures x !in ls.nodes && x !in ls.where && x !in holders {
      assert Told(x, hs[x], ls, holders);
    }
    forall x | x in hs' ensures Told(x, hs'[x], ls.(home := home), holders) {
      if x in ls.home {
        assert Told(x, hs[x], ls, holders);
      }
    }
  }

  /** The same cache after a page of cleared chunks was cut anew. */
  ghost predicate Recut<T>(st: State<T>, st': State<T>, gone: set<T>) {
    && st'.bindings == st.bindings && st'.lists == st.lists && st'.holders == st.holders && |st'.frees| == |st.frees|
    && (forall x :: x in st.heads && x !in gone ==> x in st'.heads && st'.heads[x] == st.heads[x])
    && (forall x :: x in st'.heads && x !in st.heads ==> st'.heads[x].flags == FREE)
    && (forall x :: x in gone ==> x !in st'.heads)
  }

  /** The same cache with some more free chunks. */
  ghost predicate Grown<T>(st: State<T>, st': State<T>) {
    && st'.bindings == st.bindings && st'.lists == st.lists && st'.holders == st.holders && |st'.frees| == |st.frees|
    && (forall x :: x in st.heads ==> x in st'.heads && st'.heads[x] == st.heads[x])
    && (forall x :: x in st'.heads && x !in st.heads ==> st'.heads[x].flags == FREE)
  }

  /** The table binds exactly the linked items, each to its key. */
  ghost predicate BindsOK<T>(st: State<T>) {
    && (forall k :: k in st.bindings ==> st.Linked(st.bindings[k]) && st.At(st.bindings[k]).key == k)
    && (forall z :: z in st.heads && st.heads[z].flags.linked ==> st.heads[z].key in st.bindings && st.bindings[st.heads[z].key] == z)
  }

  /** Unlinking an item that is held leaves it to its holders. */
  lemma UnlinkHeld<T>(st: State<T>, x: T)
    requires st.Linked(x) && Held(st.holders, x) > 0 && st.At(x).refcount == Held(st.holders, x) + 1
    ensures var h := st.At(x);
            st.Unlink(x) == State(st.bindings - {h.key}, Left(st.lists, h.clsid, x), st.frees,
                                  st.heads[x := h.(flags := h.flags.(linked := false), refcount := h.refcount - 1)], st.holders)
  {
    assert Taken(Given(st.holders, x), x) == st.holders;
  }

  lemma GiveTake<T>(h: map<T, nat>, it: T)
    ensures Given(h, it) - {it} == h - {it} && Held(Given(h, it), it) == Held(h, it) + 1 && it in Given(h, it)
    ensures Taken(h, it) - {it} == h - {it}
    ensures Held(h, it) > 0 ==> Held(Taken(h, it), it) == Held(h, it) - 1 && (it in Taken(h, it) <==> Held(h, it) > 1)
  {
  }
}
