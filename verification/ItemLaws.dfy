/** What the operations on items promise, told without their steps. */
module ItemLaws {
  import opened Common
  import opened Items
  import opened LruSpec
  import opened Recency
  import opened CacheSpec

  /** Every item stands on the list the account names for it, once; and so does a crawler. */
  ghost predicate ListsInOrder<T>(st: State<T>, ls: Links<T>) {
    && |st.lists| == LIST_COUNT == |ls.crawlers| && Placed(st.lists, ls.where)
    && forall i :: 0 <= i < |st.lists| ==> Distinct(st.lists[i])
  }

  /** The free chunks are on the freelists of their classes, each once, and nothing else is. */
  ghost predicate FreesInOrder<T>(st: State<T>, ls: Links<T>) {
    && |st.frees| == CLASS_COUNT
    && (forall i :: 0 <= i < |st.frees| ==> Distinct(st.frees[i]))
    && (forall i, x :: 0 <= i < |st.frees| && x in st.frees[i] ==> x in st.heads && st.heads[x].flags == FREE && x in ls.home && ls.home[x] == i)
    && (forall x :: x in st.heads && st.heads[x].flags == FREE ==> x in ls.home && ls.home[x] < |st.frees| && x in st.frees[ls.home[x]])
  }

  /** Headers, references, table, LRU lists and freelists agree, by the account ls. */
  ghost predicate InOrder<T>(st: State<T>, ls: Links<T>) {
    Consistent(st.heads, ls, st.holders) && BindsOK(st) && ListsInOrder(st, ls) && FreesInOrder(st, ls)
  }

  /** An item is freed exactly when the last reference to it goes, and linked items have one more. */
  lemma DropFreesLast<T>(st: State<T>, ls: Links<T>, it: T)
    requires InOrder(st, ls) && st.Holds(it)
    ensures var r, last := st.Drop(it), !st.Linked(it) && Held(st.holders, it) == 1;
            && (r.At(it).flags == FREE <==> last)
            && r.bindings == st.bindings && r.lists == st.lists && Elsewhere(st, r, it)
            && (last ==> r.frees == Headed(st.frees, ls.home[it], it) && it !in r.holders)
            && (!last ==> r.frees == st.frees && r.At(it) == st.At(it).(refcount := st.At(it).refcount - 1) && r.At(it).refcount > 0)
  {
    hide ListsInOrder, FreesInOrder;
    assert Told(it, st.heads[it], ls, st.holders);
  }

  /** Retiring an item unbinds it and takes it off its list.  It is freed if nobody holds it; else it
      stays with its holders, whose references are all that is left of its count. */
  lemma RetireKeepsHolders<T>(st: State<T>, ls: Links<T>, it: T)
    requires InOrder(st, ls) && st.Linked(it)
    ensures var h, r, n := st.At(it), st.Retire(it), Held(st.holders, it);
            && r.bindings == st.bindings - {h.key} && r.lists == Left(st.lists, h.clsid, it) && Elsewhere(st, r, it)
            && (forall y :: y in st.heads ==> Held(r.holders, y) == Held(st.holders, y))
            && (r.At(it).flags == FREE <==> n == 0)
            && (n == 0 ==> r.frees == Headed(st.frees, ls.home[it], it))
            && (n > 0 ==> r.frees == st.frees && r.At(it) == h.(flags := h.flags.(linked := false), refcount := n))
  {
    hide ListsInOrder, FreesInOrder;
    assert Told(it, st.heads[it], ls, st.holders);
  }

  /** Unlinking undoes linking: only the time tells. */
  lemma UnlinkUndoesLink<T>(st: State<T>, ls: Links<T>, it: T, now: nat)
    requires InOrder(st, ls) && st.Loose(it) && st.Holds(it) && st.At(it).key !in st.bindings
    ensures st.Link(it, now).Unlink(it) == st.Stamp(it, now)
  {
    hide ListsInOrder, FreesInOrder;
    assert Told(it, st.heads[it], ls, st.holders);
    LinkIs(st, it, now);
    LinkedAgain(st, it, now);
    HeadedLeft(st.lists, st.At(it).clsid, it);
    LooseFlags(st, it, now);
    hide *;
    UnlinkHeld(st.Link(it, now), it);
    assert st.bindings[st.At(it).key := it] - {st.At(it).key} == st.bindings;
  }

  lemma HeadedLeft<T>(ss: seq<seq<T>>, i: nat, x: T)
    ensures Left(Headed(ss, i, x), i, x) == ss
  {
    if i < |ss| {
      assert ([x] + ss[i])[1..] == ss[i];
    }
  }

  /** Linked and unlinked again, only the time of the header has changed. */
  lemma LooseFlags<T>(st: State<T>, it: T, now: nat)
    requires it in st.heads && !st.At(it).flags.linked
    ensures var h := st.At(it);
            var l := h.(flags := h.flags.(linked := true), time := now, refcount := h.refcount + 1);
            && st.Stamp(it, now) == st.(heads := st.heads[it := l][it := l.(flags := l.flags.(linked := false), refcount := l.refcount - 1)])
            && st.Link(it, now).At(it) == l
  {
  }

  lemma LinkedAgain<T>(st: State<T>, it: T, now: nat)
    requires it in st.heads && Held(st.holders, it) > 0
    ensures st.Link(it, now).Linked(it) && Held(st.Link(it, now).holders, it) == Held(st.holders, it)
    ensures st.Link(it, now).At(it).refcount == st.At(it).refcount + 1
  {
  }

  lemma LinkIs<T>(st: State<T>, it: T, now: nat)
    requires it in st.heads && Held(st.holders, it) > 0
    ensures var h := st.At(it);
            st.Link(it, now) == State(st.bindings[h.key := it], Headed(st.lists, h.clsid, it), st.frees,
              st.heads[it := h.Linked(now)], st.holders)
  {
  }

  /** A replacement hands the key over: the new item is linked as the head of its list, the old one
      retired, and freed if nobody holds it.  Nothing else changes. */
  lemma ReplaceRebinds<T>(st: State<T>, ls: Links<T>, it: T, newIt: T, now: nat)
    requires InOrder(st, ls) && st.Linked(it) && st.Loose(newIt) && st.At(newIt).key == st.At(it).key
    ensures var h, g, r, n := st.At(it), st.At(newIt), st.Replace(it, newIt, now), Held(st.holders, it);
            && r.bindings == st.bindings[h.key := newIt]
            && r.lists == Headed(Left(st.lists, h.clsid, it), g.clsid, newIt)
            && r.frees == (if n == 0 then Headed(st.frees, ls.home[it], it) else st.frees)
            && r.At(newIt) == g.Linked(now) && r.At(it) == h.(flags := h.flags.(linked := false)).Dropped()
            && (forall y :: y in st.heads ==> Held(r.holders, y) == Held(st.holders, y))
            && (forall z :: z in st.heads && z != it && z != newIt ==> z in r.heads && r.heads[z] == st.heads[z])
  {
    hide ListsInOrder, FreesInOrder;
    assert Told(it, st.heads[it], ls, st.holders);
    UnlinkIs(st, ls, it);
    hide State.Unlink, Consistent, BindsOK, Told;
  }

  lemma UnlinkIs<T>(st: State<T>, ls: Links<T>, it: T)
    requires InOrder(st, ls) && st.Linked(it)
    ensures var h, r, n := st.At(it), st.Unlink(it), Held(st.holders, it);
            && r.bindings == st.bindings - {h.key} && r.lists == Left(st.lists, h.clsid, it)
            && r.frees == (if n == 0 then Headed(st.frees, ls.home[it], it) else st.frees)
            && r.heads == st.heads[it := h.(flags := h.flags.(linked := false)).Dropped()]
            && (forall y :: Held(r.holders, y) == Held(st.holders, y)) && (forall y :: y in r.holders && y != it ==> y in st.holders)
  {
    hide ListsInOrder, FreesInOrder;
    assert Told(it, st.heads[it], ls, st.holders);
  }

  /** References to `it` change by d; it stays linked, with the content it has. */
  ghost predicate Handled<T>(st: State<T>, a: State<T>, it: T, d: nat) {
    && a.bindings == st.bindings && st.Linked(it) && a.Linked(it) && a.heads.Keys == st.heads.Keys
    && (forall y :: y in st.heads ==> Held(a.holders, y) == Held(st.holders, y) + (if y == it then d else 0))
    && a.At(it).value == st.At(it).value && a.At(it).key == st.At(it).key
    && a.At(it).exptime == st.At(it).exptime && a.At(it).nbytes == st.At(it).nbytes
  }

  lemma EditHandles<T>(st: State<T>, a: State<T>, b: State<T>, it: T, d: nat, h: Head)
    requires Handled(st, a, it, d) && b.bindings == a.bindings && b.holders == a.holders && b.heads == a.heads[it := h]
    requires h.flags.linked && h.value == a.At(it).value && h.key == a.At(it).key
    requires h.exptime == a.At(it).exptime && h.nbytes == a.At(it).nbytes
    ensures Handled(st, b, it, d)
  {
  }

  lemma HoldHandles<T>(st: State<T>, a: State<T>, it: T, d: nat)
    requires Handled(st, a, it, d)
    ensures Handled(st, a.Hold(it), it, d + 1) && it in a.heads && a.At(it).flags.linked
  {
  }

  lemma StepHandles<T>(st: State<T>, a: State<T>, it: T, d: nat, f: Flags, id: nat, now: nat)
    requires Handled(st, a, it, d) && f.linked
    ensures Handled(st, a.Hold(it), it, d + 1) && Handled(st, a.Flag(it, f), it, d)
    ensures Handled(st, a.Stamp(it, now), it, d) && Handled(st, a.Relist(it, id), it, d)
  {
    var h := a.At(it);
    HoldHandles(st, a, it, d);
    hide Handled, State.Hold;
    EditHandles(st, a, a.Flag(it, f), it, d, h.(flags := f));
    EditHandles(st, a, a.Stamp(it, now), it, d, h.(time := now));
    EditHandles(st, a, a.Relist(it, id), it, d, h.(clsid := id));
  }

  lemma UpdateHandles<T>(st: State<T>, a: State<T>, it: T, d: nat, now: nat, segmented: bool)
    requires Handled(st, a, it, d)
    ensures Handled(st, a.Update(it, now, segmented), it, d)
  {
    hide Handled, State.Stamp, State.Flag, State.Relist, State.Hold;
    HoldHandles(st, a, it, d);
    var h := a.At(it);
    var calm := h.flags.(active := false);
    StepHandles(st, a, it, d, calm, 0, now);
    StepHandles(st, a.Stamp(it, now), it, d, calm, h.clsid, now);
    StepHandles(st, a.Stamp(it, now).Flag(it, calm), it, d, calm, ClassOf(h.clsid) + WARM_LRU, now);
  }

  lemma HitHandles<T>(st: State<T>, a: State<T>, it: T, d: nat, now: nat, segmented: bool, room: bool)
    requires Handled(st, a, it, d)
    ensures var h := a.At(it);
            var queued := room && segmented && !h.flags.active && h.flags.fetched && LruOf(h.clsid) == COLD_LRU;
            Handled(st, a.Hit(it, now, segmented, room), it, if queued then d + 1 else d)
  {
    hide Handled, State.Flag, State.Update, State.Hold;
    HoldHandles(st, a, it, d);
    var f := a.At(it).flags;
    StepHandles(st, a, it, d, f.(fetched := true), 0, now);
    StepHandles(st, a, it, d, f.(active := true), 0, now);
    StepHandles(st, a.Flag(it, f.(active := true)), it, d, f, 0, now);
    UpdateHandles(st, a.Flag(it, f.(fetched := true)), it, d, now, false);
    UpdateHandles(st, a.Flag(it, f.(active := true)), it, d, now, true);
  }

  /** A hit gives the reader one reference, and the bump buffer one if a request was queued; it
      neither binds nor unbinds, and the item's content stays. */
  lemma GetReturnsHeld<T>(st: State<T>, ls: Links<T>, key: Key, now: nat, cfg: Settings, update: bool, room: bool)
    requires InOrder(st, ls) && key in st.bindings
    ensures var it, r := st.bindings[key], st.Get(key, now, cfg, update, room);
            if st.At(it).Gone(cfg.oldestLive, now) then r.bindings == st.bindings - {key} && !r.Linked(it)
            else
              var h := st.At(it);
              var queued := update && room && cfg.segmented && !h.flags.active && h.flags.fetched && LruOf(h.clsid) == COLD_LRU;
              Handled(st, r, it, if queued then 2 else 1)
  {
    hide ListsInOrder, FreesInOrder;
    var it := st.bindings[key];
    if st.At(it).Gone(cfg.oldestLive, now) {
      RetireKeepsHolders(st, ls, it);
      RetireUnlinks(st, it);
    } else {
      assert Handled(st, st, it, 0);
      StepHandles(st, st, it, 0, st.At(it).flags, 0, now);
      HeldFlags(st, it);
      hide Handled, State.Hold, State.Hit;
      HitHandles(st, st.Hold(it), it, 1, now, cfg.segmented, room);
    }
  }

  lemma RetireUnlinks<T>(st: State<T>, it: T)
    requires st.Linked(it)
    ensures !st.Retire(it).Linked(it)
  {
  }

  lemma HeldFlags<T>(st: State<T>, it: T)
    ensures st.Hold(it).At(it).flags == st.At(it).flags && st.Hold(it).At(it).clsid == st.At(it).clsid
  {
  }

  /** Which items a get returns, and for how long: without expiry and flush at all times; with an
      expiry exactly until then; and a flush hides exactly the items touched up to its time, from its
      time on.  What a get does not return it has unlinked. */
  lemma GetSees<T>(st: State<T>, ls: Links<T>, key: Key, now: nat, cfg: Settings, update: bool, room: bool)
    requires InOrder(st, ls) && key in st.bindings
    ensures var it, r, flush := st.bindings[key], st.Get(key, now, cfg, update, room), cfg.oldestLive;
            var h, seen := st.At(it), r.Linked(it);
            && (h.exptime == 0 && flush == 0 ==> seen)
            && (h.exptime > 0 && flush == 0 ==> (seen <==> now < h.exptime))
            && (h.exptime == 0 && flush > 0 ==> (seen <==> now < flush || flush < h.time))
            && (h.exptime > 0 && flush > 0 ==> (seen <==> now < h.exptime && (now < flush || flush < h.time)))
            && (if seen then r.bindings == st.bindings && Held(r.holders, it) > Held(st.holders, it)
                else r.bindings == st.bindings - {key} && Held(r.holders, it) == Held(st.holders, it))
  {
    var it := st.bindings[key];
    GetReturnsHeld(st, ls, key, now, cfg, update, room);
    if st.At(it).Gone(cfg.oldestLive, now) {
      RetireKeepsHolders(st, ls, it);
    }
    hide State.Get, State.Retire, ListsInOrder, FreesInOrder, Consistent;
  }

  /** A get that is not to update takes its reference and leaves no other trace. */
  lemma PlainGetOnlyHolds<T>(st: State<T>, ls: Links<T>, key: Key, now: nat, cfg: Settings, room: bool)
    requires InOrder(st, ls) && key in st.bindings && st.Get(key, now, cfg, false, room).Linked(st.bindings[key])
    ensures var it, r := st.bindings[key], st.Get(key, now, cfg, false, room);
            && r.At(it) == st.At(it).(refcount := st.At(it).refcount + 1) && Elsewhere(st, r, it)
            && r.bindings == st.bindings && r.lists == st.lists && r.frees == st.frees
  {
    GetSees(st, ls, key, now, cfg, false, room);
    RetireUnlinks(st, st.bindings[key]);
  }

  /** Pulls and the page mover give an expired item up one second after readers stop seeing it; a
      flush they see as readers do. */
  lemma DeadIsGoneBefore(h: Head, oldestLive: nat, now: nat)
    ensures h.Dead(oldestLive, now) ==> h.Gone(oldestLive, now)
    ensures h.exptime != now ==> (h.Dead(oldestLive, now) <==> h.Gone(oldestLive, now))
    ensures oldestLive == 0 ==> (h.Dead(0, now + 1) <==> h.Gone(0, now))
    ensures h.exptime == 0 && oldestLive == 0 ==> !h.Dead(oldestLive, now)
  {
  }

  /** In flat mode a hit marks the item, and moves it to the head of its list if its time is stale. */
  lemma FlatHitMoves<T>(st: State<T>, it: T, now: nat, room: bool)
    requires st.Linked(it)
    ensures var r, h := st.Hit(it, now, false, room), st.At(it);
            var hit := h.flags.(fetched := true);
            && r.bindings == st.bindings && r.holders == st.holders && r.frees == st.frees
            && (if Stale(h.time, now) then r.At(it) == h.(flags := hit, time := now) && r.lists == Headed(Left(st.lists, h.clsid, it), h.clsid, it)
                else r.At(it) == h.(flags := hit) && r.lists == st.lists)
  {
  }

  /** In segmented mode the first hit on an item only marks it as fetched; the second makes it active;
      more change nothing.  Neither moves it, and only the second gives it a new time. */
  lemma SecondHitActivates<T>(st: State<T>, it: T, now: nat, later: nat, room: bool)
    requires st.Linked(it) && !st.At(it).flags.fetched && !st.At(it).flags.active && LruOf(st.At(it).clsid) != COLD_LRU
    ensures var a, h := st.Hit(it, now, true, room), st.At(it);
            var b := a.Hit(it, later, true, room);
            && a == st.With(it, h.(flags := h.flags.(fetched := true)))
            && b.At(it) == h.(flags := h.flags.(fetched := true, active := true), time := if Stale(h.time, later) then later else h.time)
            && b.lists == st.lists && b.bindings == st.bindings && b.holders == st.holders && b.frees == st.frees
            && b.Hit(it, later, true, room) == b
  {
  }

  /** A bump worked off: an active item goes from COLD to the head of WARM, and one reference is given
      back. */
  lemma WorkedOff<T>(b: State<T>, it: T, now: nat)
    requires b.Linked(it) && b.At(it).flags.active && LruOf(b.At(it).clsid) == COLD_LRU && b.At(it).refcount > 1
    ensures var h, r := b.At(it), b.Update(it, now, true).Drop(it);
            var warm := ClassOf(h.clsid) + WARM_LRU;
            && r.At(it) == h.(flags := h.flags.(active := false), time := now, clsid := warm, refcount := h.refcount - 1)
            && r.lists == Headed(Left(b.lists, h.clsid, it), warm, it)
            && r.bindings == b.bindings && r.frees == b.frees && r.holders == Taken(b.holders, it)
  {
  }

  lemma Balanced<T>(holders: map<T, nat>, it: T)
    ensures forall y :: Held(Taken(Given(holders, it), it), y) == Held(holders, y)
  {
  }

  lemma BothHits<T>(st: State<T>, it: T, now: nat, later: nat)
    requires st.Linked(it) && !st.At(it).flags.fetched && !st.At(it).flags.active && LruOf(st.At(it).clsid) == COLD_LRU
    ensures var h, a := st.At(it), st.Hit(it, now, true, true);
            var b := a.Hit(it, later, true, true);
            && a == st.With(it, h.(flags := h.flags.(fetched := true))) && a.Hit(it, later, true, false) == a
            && b.At(it) == h.(flags := h.flags.(fetched := true, active := true), refcount := h.refcount + 1) && b.Linked(it)
            && b.lists == st.lists && b.bindings == st.bindings && b.frees == st.frees && b.holders == Given(st.holders, it)
  {
    hide Given;
    var h := st.At(it);
    var a := st.Hit(it, now, true, true);
    assert a == st.With(it, h.(flags := h.flags.(fetched := true)));
  }

  /** On a COLD list the second hit asks for a bump, which holds the item.  Worked off, it puts the item
      at the head of the WARM list of its class, no longer active, and everything else is as before.
      Without room for the request the hit leaves no trace, so that the next one asks again. */
  lemma SecondHitWarms<T>(st: State<T>, ls: Links<T>, it: T, now: nat, later: nat, worked: nat)
    requires InOrder(st, ls) && st.Linked(it) && !st.At(it).flags.fetched && !st.At(it).flags.active && LruOf(st.At(it).clsid) == COLD_LRU
    ensures var h, a := st.At(it), st.Hit(it, now, true, true);
            var b, warm := a.Hit(it, later, true, true), ClassOf(h.clsid) + WARM_LRU;
            var r := b.Update(it, worked, true).Drop(it);
            && a == st.With(it, h.(flags := h.flags.(fetched := true))) && a.Hit(it, later, true, false) == a
            && b.At(it).flags.active && Held(b.holders, it) == Held(st.holders, it) + 1 && b.lists == st.lists
            && r.At(it) == h.(flags := h.flags.(fetched := true), time := worked, clsid := warm)
            && r.lists == Headed(Left(st.lists, h.clsid, it), warm, it)
            && r.bindings == st.bindings && r.frees == st.frees && forall y :: y in st.heads ==> Held(r.holders, y) == Held(st.holders, y)
  {
    hide ListsInOrder, FreesInOrder, Left, Headed, State.Drop, State.Hit, State.Update;
    assert Told(it, st.heads[it], ls, st.holders);
    BothHits(st, it, now, later);
    WorkedOff(st.Hit(it, now, true, true).Hit(it, later, true, true), it, worked);
    GiveTake(st.holders, it);
    GiveTake(Given(st.holders, it), it);
    Balanced(st.holders, it);
  }
}
