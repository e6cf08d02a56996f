/** The operations of items.c and the turns of the page mover as runs of steps, each with its rights. */
module Operations {
  import opened Common
  import opened Items
  import opened Recency
  import LruSpec
  import opened CacheSpec
  import opened ItemLaws
  import opened ItemRuns
  import opened ItemOwners
  import Eviction
  import MoverSpec

  /** Who takes the steps; and in flat mode the time at which they are taken. */
  datatype Bounds = Bounds(whos: set<nat>, flat: Option<nat>)
  {
    /** In flat mode an item stays on its list, and its time tells when it was linked or bumped. */
    predicate Keeps<T>(act: Act<T>) {
      && act.who in whos
      && (flat.Some? ==> !act.op.Relist? && !act.op.Stamp? && (act.op.Link? || act.op.Bump? ==> act.op.now == flat.value))
    }

    predicate In(now: nat, segmented: bool) {
      flat.Some? ==> !segmented && flat.value == now
    }
  }

  /** Within these bounds `acts` bring the world from w to r. */
  ghost predicate Done<T>(w: World<T>, acts: seq<Act<T>>, b: Bounds, r: World<T>) {
    Sound(w) && AllMay(w, acts) && RunActs(w, acts) == r && Sound(r) && forall i :: 0 <= i < |acts| ==> b.Keeps(acts[i])
  }

  lemma {:induction false} RunSnoc<T>(w: World<T>, acts: seq<Act<T>>, act: Act<T>)
    ensures RunActs(w, acts + [act]) == After(RunActs(w, acts), act)
    ensures AllMay(w, acts) && May(RunActs(w, acts), act) ==> AllMay(w, acts + [act])
    decreases |acts|
  {
    hide After, May;
    if acts == [] {
      assert acts + [act] == [act];
      assert RunActs(After(w, act), [act][1..]) == After(w, act);
    } else {
      assert (acts + [act])[0] == acts[0] && (acts + [act])[1..] == acts[1..] + [act];
      RunSnoc(After(w, acts[0]), acts[1..], act);
    }
  }

  lemma SameCrawlers<T>(w: World<T>, act: Act<T>)
    ensures After(w, act).ls.crawlers == w.ls.crawlers
  {
    hide ItemRuns.Next, NextRefs;
  }

  lemma {:induction false} RunCrawlers<T>(w: World<T>, acts: seq<Act<T>>)
    ensures RunActs(w, acts).ls.crawlers == w.ls.crawlers
    decreases |acts|
  {
    hide After;
    if acts != [] {
      SameCrawlers(w, acts[0]);
      RunCrawlers(After(w, acts[0]), acts[1..]);
    }
  }

  lemma DoneCrawlers<T>(w: World<T>, acts: seq<Act<T>>, b: Bounds, r: World<T>)
    requires Done(w, acts, b, r)
    ensures r.ls.crawlers == w.ls.crawlers
  {
    RunCrawlers(w, acts);
  }

  lemma Do<T>(w: World<T>, acts: seq<Act<T>>, b: Bounds, a: World<T>, who: nat, op: Op<T>) returns (acts': seq<Act<T>>, r: World<T>)
    requires Done(w, acts, b, a) && b.Keeps(Act(who, op)) && May(a, Act(who, op))
    ensures Done(w, acts', b, r) && r == After(a, Act(who, op)) && acts' == acts + [Act(who, op)]
  {
    hide Sound, May, After;
    acts', r := acts + [Act(who, op)], After(a, Act(who, op));
    RunSnoc(w, acts, Act(who, op));
    StepSound(a, Act(who, op));
  }

  lemma Begin<T>(w: World<T>, b: Bounds) returns (acts: seq<Act<T>>, r: World<T>)
    requires Sound(w)
    ensures Done(w, acts, b, r) && r == w && acts == []
  {
    acts, r := [], w;
  }

  lemma DoHold<T>(w: World<T>, acts: seq<Act<T>>, b: Bounds, a: World<T>, who: nat, x: T) returns (acts': seq<Act<T>>, r: World<T>)
    requires Done(w, acts, b, a) && who in b.whos && (a.st.Holds(x) || a.st.Linked(x))
    ensures Done(w, acts', b, r) && r.st == a.st.Hold(x) && RefsOf(r.refs, x) == RefsOf(a.refs, x) + multiset{who} && r.ls.home == a.ls.home
  {
    hide Done;
    acts', r := Do(w, acts, b, a, who, Op.Hold(x));
  }

  lemma DoneSound<T>(w: World<T>, acts: seq<Act<T>>, b: Bounds, a: World<T>)
    requires Done(w, acts, b, a)
    ensures Sound(w) && Sound(a)
  {
  }

  lemma OwnerHolds<T>(a: World<T>, who: nat, x: T)
    requires Sound(a) && who in RefsOf(a.refs, x)
    ensures a.st.Holds(x)
  {
    KeptSelf(a, x);
  }

  lemma DoDrop<T>(w: World<T>, acts: seq<Act<T>>, b: Bounds, a: World<T>, who: nat, x: T) returns (acts': seq<Act<T>>, r: World<T>)
    requires Done(w, acts, b, a) && who in b.whos && who in RefsOf(a.refs, x)
    ensures Done(w, acts', b, r) && r.st == a.st.Drop(x) && RefsOf(r.refs, x) == RefsOf(a.refs, x) - multiset{who} && r.ls.home == a.ls.home
  {
    hide Done, Sound;
    DoneSound(w, acts, b, a);
    OwnerHolds(a, who, x);
    acts', r := Do(w, acts, b, a, who, Op.Drop(x));
  }

  lemma DoOut<T>(w: World<T>, acts: seq<Act<T>>, b: Bounds, a: World<T>, who: nat, x: T) returns (acts': seq<Act<T>>, r: World<T>)
    requires Done(w, acts, b, a) && who in b.whos && a.st.Linked(x)
    ensures Done(w, acts', b, r) && r.st == a.st.Out(x) && RefsOf(r.refs, x) == RefsOf(a.refs, x) + multiset{who} && r.ls.home == a.ls.home
  {
    hide Done;
    acts', r := Do(w, acts, b, a, who, Op.Out(x));
  }

  /** A step that neither gives nor takes a reference. */
  lemma DoEdit<T>(w: World<T>, acts: seq<Act<T>>, b: Bounds, a: World<T>, who: nat, op: Op<T>) returns (acts': seq<Act<T>>, r: World<T>)
    requires Done(w, acts, b, a) && Enabled(a.st, a.ls, op)
    requires (op.Flag? || op.Stamp? || op.Relist? || op.Bump? || op.Link?) && b.Keeps(Act(who, op))
    ensures Done(w, acts', b, r) && r.st == ItemRuns.Next(a.st, op) && r.refs == a.refs && r.ls.home == a.ls.home
  {
    hide Done, Enabled, ItemRuns.Next;
    acts', r := Do(w, acts, b, a, who, op);
  }

  // ---------------------------------------------------------------- items

  lemma DoUnlink<T>(w: World<T>, acts: seq<Act<T>>, b: Bounds, a: World<T>, who: nat, x: T) returns (acts': seq<Act<T>>, r: World<T>)
    requires Done(w, acts, b, a) && who in b.whos
    ensures Done(w, acts', b, r) && r.st == a.st.Unlink(x) && RefsOf(r.refs, x) == RefsOf(a.refs, x) && r.ls.home == a.ls.home
  {
    hide Done, State.Out, State.Drop;
    acts', r := acts, a;
    if a.st.Linked(x) {
      acts', r := DoOut(w, acts', b, r, who, x);
      acts', r := DoDrop(w, acts', b, r, who, x);
    }
  }

  lemma DoRetire<T>(w: World<T>, acts: seq<Act<T>>, b: Bounds, a: World<T>, who: nat, x: T) returns (acts': seq<Act<T>>, r: World<T>)
    requires Done(w, acts, b, a) && who in b.whos && a.st.Linked(x)
    ensures Done(w, acts', b, r) && r.st == a.st.Retire(x) && RefsOf(r.refs, x) == RefsOf(a.refs, x)
  {
    hide Done, State.Hold, State.Unlink, State.Drop;
    acts', r := DoHold(w, acts, b, a, who, x);
    acts', r := DoUnlink(w, acts', b, r, who, x);
    acts', r := DoDrop(w, acts', b, r, who, x);
  }

  lemma HeldKept<T>(st: State<T>, x: T, f: Flags, id: nat, now: nat)
    requires st.Holds(x) && f.linked == st.At(x).flags.linked
    ensures st.Flag(x, f).Holds(x) && st.Flag(x, f).Linked(x) == st.Linked(x) && st.Stamp(x, now).Holds(x) && st.Stamp(x, now).Linked(x) == st.Linked(x)
    ensures st.Relist(x, id).Holds(x) && st.Relist(x, id).Linked(x) == st.Linked(x)
    ensures st.Flag(x, f).At(x) == st.At(x).(flags := f) && st.Stamp(x, now).At(x) == st.At(x).(time := now)
    ensures st.Linked(x) == st.At(x).flags.linked
  {
  }

  lemma DoFlag<T>(w: World<T>, acts: seq<Act<T>>, b: Bounds, a: World<T>, who: nat, x: T, f: Flags) returns (acts': seq<Act<T>>, r: World<T>)
    requires Done(w, acts, b, a) && who in b.whos && a.st.Holds(x) && f.linked == a.st.At(x).flags.linked && !f.slabbed
    ensures Done(w, acts', b, r) && r.st == a.st.Flag(x, f) && r.refs == a.refs
    ensures r.st.Holds(x) && r.st.Linked(x) == a.st.Linked(x) && r.st.At(x) == a.st.At(x).(flags := f)
  {
    hide Done, State.Flag;
    acts', r := DoEdit(w, acts, b, a, who, Op.Flag(x, f));
    HeldKept(a.st, x, f, 0, 0);
  }

  lemma DoStamp<T>(w: World<T>, acts: seq<Act<T>>, b: Bounds, a: World<T>, who: nat, x: T, now: nat) returns (acts': seq<Act<T>>, r: World<T>)
    requires Done(w, acts, b, a) && who in b.whos && b.flat.None? && a.st.Holds(x)
    ensures Done(w, acts', b, r) && r.st == a.st.Stamp(x, now) && r.refs == a.refs
    ensures r.st.Holds(x) && r.st.Linked(x) == a.st.Linked(x) && r.st.At(x) == a.st.At(x).(time := now)
  {
    hide Done, State.Stamp;
    acts', r := DoEdit(w, acts, b, a, who, Op.Stamp(x, now));
    HeldKept(a.st, x, a.st.At(x).flags, 0, now);
  }

  /** Segment lists of the class of an item. */
  lemma Segment(clsid: nat, lru: nat)
    requires lru == WARM_LRU || lru == COLD_LRU
    ensures ClassOf(clsid) + lru < LIST_COUNT && ClassOf(ClassOf(clsid) + lru) == ClassOf(clsid)
  {
  }

  lemma DoRelist<T>(w: World<T>, acts: seq<Act<T>>, b: Bounds, a: World<T>, who: nat, x: T, lru: nat) returns (acts': seq<Act<T>>, r: World<T>)
    requires Done(w, acts, b, a) && who in b.whos && b.flat.None? && a.st.Holds(x) && a.st.Linked(x) && (lru == WARM_LRU || lru == COLD_LRU)
    ensures Done(w, acts', b, r) && r.st == a.st.Relist(x, ClassOf(a.st.At(x).clsid) + lru) && r.refs == a.refs
    ensures r.st.Holds(x) && r.st.Linked(x)
  {
    hide Done, State.Relist;
    var id := ClassOf(a.st.At(x).clsid) + lru;
    Segment(a.st.At(x).clsid, lru);
    acts', r := DoEdit(w, acts, b, a, who, Op.Relist(x, id));
    HeldKept(a.st, x, a.st.At(x).flags, id, 0);
  }

  lemma HeldCalm<T>(a: World<T>, x: T)
    requires Sound(a) && a.st.Holds(x)
    ensures !a.st.At(x).flags.slabbed
  {
    assert Told(x, a.st.heads[x], a.ls, a.st.holders);
  }

  lemma DoUpdate<T>(w: World<T>, acts: seq<Act<T>>, b: Bounds, a: World<T>, who: nat, x: T, now: nat, segmented: bool)
    returns (acts': seq<Act<T>>, r: World<T>)
    requires Done(w, acts, b, a) && who in b.whos && b.In(now, segmented) && a.st.Holds(x)
    ensures Done(w, acts', b, r) && r.st == a.st.Update(x, now, segmented) && r.refs == a.refs
  {
    hide Done, Sound, State.Flag, State.Stamp, State.Relist, State.UpdateNolock, State.Linked, State.Holds, State.At;
    DoneSound(w, acts, b, a);
    HeldCalm(a, x);
    var h := a.st.At(x);
    HeldKept(a.st, x, h.flags, 0, 0);
    acts', r := acts, a;
    if !segmented {
      acts', r := DoEdit(w, acts, b, a, who, Op.Bump(x, now));
    } else if h.flags.linked {
      if LruOf(h.clsid) == COLD_LRU && h.flags.active {
        acts', r := DoStamp(w, acts', b, r, who, x, now);
        acts', r := DoFlag(w, acts', b, r, who, x, h.flags.(active := false));
        acts', r := DoRelist(w, acts', b, r, who, x, WARM_LRU);
      } else if Stale(h.time, now) {
        acts', r := DoStamp(w, acts', b, r, who, x, now);
      }
    }
  }

  /** Replacing: the old item unlinked, the new one linked. */
  lemma DoReplace<T>(w: World<T>, acts: seq<Act<T>>, b: Bounds, a: World<T>, who: nat, x: T, y: T, now: nat)
    returns (acts': seq<Act<T>>, r: World<T>)
    requires Done(w, acts, b, a) && who in b.whos && b.In(now, false) && a.st.Linked(x) && a.st.Loose(y) && a.st.At(y).key == a.st.At(x).key && a.st.At(y).nbytes >= 2
    ensures Done(w, acts', b, r) && r.st == a.st.Replace(x, y, now) && RefsOf(r.refs, x) == RefsOf(a.refs, x) && r.ls.home == a.ls.home
  {
    hide Done, State.Unlink, State.Link, State.Loose, State.Linked, State.At;
    acts', r := DoUnlink(w, acts, b, a, who, x);
    Unlinked(a.st, x, y);
    acts', r := DoEdit(w, acts', b, r, who, Op.Link(y, now));
  }

  lemma Unlinked<T>(st: State<T>, x: T, y: T)
    requires st.Linked(x) && st.Loose(y)
    ensures st.Unlink(x).Loose(y) && st.Unlink(x).At(y) == st.At(y) && st.At(x).key !in st.Unlink(x).bindings
  {
  }

  /** A hit: the reader and the buffer of bumps each get their own reference. */
  lemma DoHit<T>(w: World<T>, acts: seq<Act<T>>, b: Bounds, a: World<T>, who: nat, buffer: nat, x: T, now: nat, segmented: bool, room: bool)
    returns (acts': seq<Act<T>>, r: World<T>)
    requires Done(w, acts, b, a) && who in b.whos && b.In(now, segmented) && buffer in b.whos && a.st.Holds(x)
    ensures Done(w, acts', b, r) && r.st == a.st.Hit(x, now, segmented, room)
    ensures var h := a.st.At(x);
            var queued := room && segmented && !h.flags.active && h.flags.fetched && LruOf(h.clsid) == COLD_LRU;
            RefsOf(r.refs, x) == RefsOf(a.refs, x) + (if queued then multiset{buffer} else multiset{})
  {
    hide Done, Sound, State.Flag, State.Update, State.Hold, State.Linked, State.Holds, State.At, RefsOf;
    DoneSound(w, acts, b, a);
    HeldCalm(a, x);
    HeldKept(a.st, x, a.st.At(x).flags, 0, 0);
    var f, id := a.st.At(x).flags, a.st.At(x).clsid;
    acts', r := acts, a;
    if !segmented {
      acts', r := DoFlag(w, acts', b, r, who, x, f.(fetched := true));
      acts', r := DoUpdate(w, acts', b, r, who, x, now, false);
    } else if !f.active {
      if !f.fetched {
        acts', r := DoFlag(w, acts', b, r, who, x, f.(fetched := true));
      } else {
        acts', r := DoFlag(w, acts', b, r, who, x, f.(active := true));
        if LruOf(id) != COLD_LRU {
          acts', r := DoUpdate(w, acts', b, r, who, x, now, true);
        } else if room {
          acts', r := DoHold(w, acts', b, r, buffer, x);
        } else {
          acts', r := DoFlag(w, acts', b, r, who, x, f);
        }
      }
    }
  }

  /** do_item_get is a run of the reader and the buffer. */
  lemma GetIsRun<T>(w: World<T>, who: nat, buffer: nat, key: Key, now: nat, cfg: Settings, update: bool, room: bool)
    returns (acts: seq<Act<T>>, r: World<T>)
    requires Sound(w)
    ensures Done(w, acts, Bounds({who, buffer}, if cfg.segmented then None else Some(now)), r) && r.st == w.st.Get(key, now, cfg, update, room)
    ensures key in w.st.bindings && !w.st.At(w.st.bindings[key]).Gone(cfg.oldestLive, now) ==> who in RefsOf(r.refs, w.st.bindings[key])
  {
    hide Done, Sound, State.Hold, State.Hit, State.Retire, Head.Gone, RefsOf;
    var b := Bounds({who, buffer}, if cfg.segmented then None else Some(now));
    acts, r := Begin(w, b);
    if key in w.st.bindings {
      var x := w.st.bindings[key];
      Bound(w, key);
      if w.st.At(x).Gone(cfg.oldestLive, now) {
        acts, r := DoRetire(w, acts, b, r, who, x);
      } else {
        acts, r := DoHold(w, acts, b, r, who, x);
        HoldHolds(w.st, x);
        if update {
          acts, r := DoHit(w, acts, b, r, who, buffer, x, now, cfg.segmented, room);
        }
      }
    }
  }

  lemma Bound<T>(w: World<T>, key: Key)
    requires Sound(w) && key in w.st.bindings
    ensures w.st.Linked(w.st.bindings[key])
  {
  }

  lemma HoldHolds<T>(st: State<T>, x: T)
    requires x in st.heads
    ensures st.Hold(x).Holds(x) && st.Hold(x).Linked(x) == st.Linked(x) && st.Hold(x).At(x) == st.At(x).(refcount := st.At(x).refcount + 1)
  {
  }

  // ---------------------------------------------------------------- pulls

  lemma DoMove<T>(w: World<T>, acts: seq<Act<T>>, b: Bounds, a: World<T>, who: nat, x: T, lru: nat)
    returns (acts': seq<Act<T>>, r: World<T>)
    requires Done(w, acts, b, a) && who in b.whos && b.flat.None? && a.st.Linked(x) && who in RefsOf(a.refs, x) && (lru == WARM_LRU || lru == COLD_LRU)
    ensures Done(w, acts', b, r) && r.st == (if lru == WARM_LRU then Eviction.ToWarm(a.st, x) else Eviction.ToCold(a.st, x))
    ensures RefsOf(r.refs, x) == RefsOf(a.refs, x) - multiset{who}
  {
    hide Done, Sound, State.Flag, State.Relist, State.Drop, State.Linked, State.Holds, State.At, RefsOf;
    DoneSound(w, acts, b, a);
    OwnerHolds(a, who, x);
    HeldCalm(a, x);
    HeldKept(a.st, x, a.st.At(x).flags, 0, 0);
    acts', r := acts, a;
    if lru == WARM_LRU {
      acts', r := DoFlag(w, acts', b, r, who, x, a.st.At(x).flags.(active := false));
    }
    acts', r := DoRelist(w, acts', b, r, who, x, lru);
    acts', r := DoDrop(w, acts', b, r, who, x);
  }

  lemma DoYoung<T>(w: World<T>, acts: seq<Act<T>>, b: Bounds, a: World<T>, who: nat, x: T, lru: nat, drain: bool, now: nat)
    returns (acts': seq<Act<T>>, r: World<T>)
    requires Done(w, acts, b, a) && who in b.whos && b.flat.None? && a.st.Linked(x) && who in RefsOf(a.refs, x)
    ensures Done(w, acts', b, r) && r.st == Eviction.PullYoung(a.st, x, lru, drain, now).st
    ensures RefsOf(r.refs, x) == RefsOf(a.refs, x) - multiset{who}
  {
    hide Done, Sound, State.Flag, State.UpdateNolock, State.Drop, State.Linked, State.Holds, State.At, RefsOf, Eviction.ToWarm, Eviction.ToCold;
    DoneSound(w, acts, b, a);
    OwnerHolds(a, who, x);
    HeldCalm(a, x);
    HeldKept(a.st, x, a.st.At(x).flags, 0, 0);
    acts', r := acts, a;
    if a.st.At(x).flags.active && lru == WARM_LRU {
      acts', r := DoFlag(w, acts', b, r, who, x, a.st.At(x).flags.(active := false));
      acts', r := DoEdit(w, acts', b, r, who, Op.Bump(x, now));
      acts', r := DoDrop(w, acts', b, r, who, x);
    } else if a.st.At(x).flags.active || drain {
      acts', r := DoMove(w, acts', b, r, who, x, if a.st.At(x).flags.active then WARM_LRU else COLD_LRU);
    } else {
      acts', r := DoDrop(w, acts', b, r, who, x);
    }
  }

  lemma DoOld<T>(w: World<T>, acts: seq<Act<T>>, b: Bounds, a: World<T>, who: nat, x: T, evict: bool, cfg: Settings)
    returns (acts': seq<Act<T>>, r: World<T>)
    requires Done(w, acts, b, a) && who in b.whos && (b.flat.Some? ==> !cfg.segmented) && a.st.Linked(x) && who in RefsOf(a.refs, x)
    ensures Done(w, acts', b, r) && r.st == Eviction.PullOld(a.st, x, evict, cfg).st
    ensures RefsOf(r.refs, x) == RefsOf(a.refs, x) - multiset{who}
  {
    hide Done, State.Unlink, State.Drop, State.Linked, State.At, RefsOf, Eviction.ToWarm, Eviction.ToCold;
    acts', r := acts, a;
    if !evict && a.st.At(x).flags.active && cfg.segmented {
      acts', r := DoMove(w, acts', b, r, who, x, WARM_LRU);
    } else {
      if evict && cfg.evictToFree {
        acts', r := DoUnlink(w, acts', b, r, who, x);
      }
      acts', r := DoDrop(w, acts', b, r, who, x);
    }
  }

  /** What a pull does with one item: the references that others hold stay theirs. */
  lemma DoPull<T>(w: World<T>, acts: seq<Act<T>>, b: Bounds, a: World<T>, who: nat, x: T, lru: nat, p: Eviction.Pull, over: bool, now: nat, cfg: Settings)
    returns (acts': seq<Act<T>>, r: World<T>)
    requires Done(w, acts, b, a) && who in b.whos && (b.flat.Some? ==> !cfg.segmented && lru == COLD_LRU) && a.st.Linked(x)
    ensures Done(w, acts', b, r) && r.st == Eviction.PullOne(a.st, x, lru, p, over, now, cfg).st
    ensures RefsOf(r.refs, x) == RefsOf(a.refs, x)
  {
    hide Done, State.Hold, State.Unlink, State.Drop, State.Linked, State.At, RefsOf, Eviction.PullYoung, Eviction.PullOld, Head.Dead;
    LinkedThere(a.st, x);
    HoldHolds(a.st, x);
    if a.st.At(x).Dead(cfg.oldestLive, now) {
      acts', r := DoRetire(w, acts, b, a, who, x);
    } else {
      acts', r := DoHold(w, acts, b, a, who, x);
      if lru == HOT_LRU || lru == WARM_LRU {
        acts', r := DoYoung(w, acts', b, r, who, x, lru, over || (now - a.st.At(x).time) % UINT_SPAN > p.maxAge, now);
      } else if lru == COLD_LRU {
        acts', r := DoOld(w, acts', b, r, who, x, p.evict, cfg);
      } else {
        acts', r := DoDrop(w, acts', b, r, who, x);
      }
    }
  }

  lemma LinkedThere<T>(st: State<T>, x: T)
    requires st.Linked(x)
    ensures x in st.heads
  {
  }

  /** A whole pull on a list, of any segment, is a run of the thread that pulls. */
  lemma {:induction false} DoPullWalk<T>(w: World<T>, acts: seq<Act<T>>, b: Bounds, a: World<T>, who: nat, i: nat, k: nat, lru: nat,
                                         scan: Eviction.Scan<T>, tries: nat, removed: nat)
    returns (acts': seq<Act<T>>, r: World<T>)
    requires Done(w, acts, b, a) && who in b.whos && (b.flat.Some? ==> !scan.cfg.segmented && lru == COLD_LRU)
    requires i < LIST_COUNT == |w.ls.crawlers| && scan.crawler == w.ls.crawlers[i]
    ensures Done(w, acts', b, r) && r.st == Eviction.PullWalk(a.st, i, k, lru, scan, tries, removed).0
    decreases tries, k
  {
    hide Done, Sound, LruSpec.Distinct, State.Linked, Eviction.PullOne, RefsOf;
    acts', r := acts, a;
    if tries > 0 && 0 < k <= |Eviction.ListAt(a.st, i)| {
      DoneSound(w, acts, b, a);
      DoneCrawlers(w, acts, b, a);
      ListIsLinked(a, i);
      var x := Eviction.ListAt(a.st, i)[k - 1];
      if x == scan.crawler {
        if !scan.p.crawlBlocks {
          acts', r := DoPullWalk(w, acts, b, a, who, i, k - 1, lru, scan, tries, removed);
        }
      } else if x in scan.busy {
        acts', r := DoPullWalk(w, acts, b, a, who, i, k - 1, lru, scan, tries - 1, removed);
      } else {
        var over := Eviction.ListBytes(a.st, Eviction.ListAt(a.st, i), scan.crawler) > Eviction.Limit(lru, scan.p, scan.cfg);
        acts', r := DoPull(w, acts, b, a, who, x, lru, scan.p, over, scan.now, scan.cfg);
        var one := Eviction.PullAt(a.st, i, k, lru, scan);
        if !one.stop {
          acts', r := DoPullWalk(w, acts', b, r, who, i, Eviction.PlaceBefore(Eviction.ListAt(a.st, i), k, Eviction.ListAt(one.st, i)), lru,
                                 scan, tries - 1, removed + one.removed);
        }
      }
    }
  }

  /** What others do to an item leaves my references, and what I hold. */
  lemma DoneKeeps<T>(w: World<T>, acts: seq<Act<T>>, b: Bounds, r: World<T>, me: nat, x: T)
    requires Done(w, acts, b, r) && me !in b.whos && me in RefsOf(w.refs, x)
    ensures ItemOwners.Kept(w, r, x) && RefsOf(r.refs, x)[me] == RefsOf(w.refs, x)[me]
  {
    OwnerKeepsItem(w, acts, me, x);
  }

  lemma ListIsLinked<T>(w: World<T>, i: nat)
    requires Sound(w) && i < LIST_COUNT
    ensures |w.st.lists| == |w.ls.crawlers| == LIST_COUNT && LruSpec.Distinct(w.st.lists[i])
    ensures forall x :: x in w.st.lists[i] && x != w.ls.crawlers[i] ==> w.st.Linked(x) && w.st.At(x).clsid == i
  {
    forall x | x in w.st.lists[i] && x != w.ls.crawlers[i] ensures w.st.Linked(x) && w.st.At(x).clsid == i {
      assert x in w.ls.where && w.ls.where[x] == i;
      assert x in w.ls.home;
      assert Told(x, w.st.heads[x], w.ls, w.st.holders);
    }
  }

  /** A pull may take a held item from table and list, or to another list, but neither frees it nor
      touches its content. */
  lemma PullSparesHeld<T>(w: World<T>, who: nat, i: nat, lru: nat, scan: Eviction.Scan<T>, me: nat, x: T) returns (r: World<T>)
    requires Sound(w) && i < LIST_COUNT == |w.ls.crawlers| && scan.crawler == w.ls.crawlers[i]
    requires me != who && me in RefsOf(w.refs, x)
    ensures Sound(r) && r.st == Eviction.PullWalk(w.st, i, |Eviction.ListAt(w.st, i)|, lru, scan, 5, 0).0
    ensures ItemOwners.Kept(w, r, x) && RefsOf(r.refs, x)[me] == RefsOf(w.refs, x)[me]
  {
    hide Done, Sound, ItemOwners.Kept, RefsOf, Eviction.PullWalk;
    var acts, b := [], Bounds({who}, None);
    acts, r := Begin(w, b);
    acts, r := DoPullWalk(w, acts, b, r, who, i, |Eviction.ListAt(w.st, i)|, lru, scan, 5, 0);
    DoneSound(w, acts, b, r);
    DoneKeeps(w, acts, b, r, me, x);
  }

  /** A cache in order is one in which the walk up a COLD list is as specified. */
  lemma OrderIsCold<T>(w: World<T>, i: nat, scan: Eviction.Scan<T>)
    requires Sound(w) && i < LIST_COUNT == |w.ls.crawlers| && scan.crawler == w.ls.crawlers[i]
    ensures i < |w.st.lists|
    ensures Eviction.PullWalk(w.st, i, |w.st.lists[i]|, COLD_LRU, scan, 5, 0)
         == Eviction.PullCold(w.st, w.st.lists[i], scan.crawler, scan.busy, 5, 0, scan.p, scan.now, scan.cfg)
  {
    ListIsLinked(w, i);
    var s := w.st.lists[i];
    assert forall j :: 0 <= j < |s| ==> s[j] in s;
    hide Sound, LruSpec.Distinct;
    Eviction.WalkIsCold(w.st, i, |s|, scan, 5, 0);
    assert s[..|s|] == s;
  }
}
