/** How the slab page mover clears a page, on values: one chunk after the other, over and over, until
    a whole pass finds every chunk cleared. */
module MoverSpec {
  import opened Common
  import opened Items
  import opened LruSpec
  import opened CacheSpec

  /** The freelist of class s: free chunks, each once, held by nobody. */
  ghost predicate FreesOK<T>(st: State<T>, s: nat) {
    && s < |st.frees| && Distinct(st.frees[s])
    && forall x :: x in st.frees[s] ==> x in st.heads && st.heads[x].flags == FREE && x !in st.holders
  }

  /** slab_rebalance_alloc: the first free chunk outside the page; free chunks of the page that come
      up meanwhile are cleared. */
  function Grab<T(==)>(st: State<T>, page: seq<T>, s: nat, tries: nat): (State<T>, Option<T>)
    decreases tries
  {
    if tries == 0 || s >= |st.frees| || st.frees[s] == [] then (st, None)
    else
      var x := st.frees[s][0];
      if x in page then Grab(st.Take(s, x).Clear(x), page, s, tries - 1)
      else (st.Take(s, x), Some(x))
  }

  /** What is copied of a header before the copy is linked. */
  function Copied(h: Head): Head {
    h.(flags := h.flags.(linked := false), refcount := 0)
  }

  /** The item moves from x to y. */
  function Rescue<T(==)>(st: State<T>, x: T, y: T, now: nat): State<T> {
    st.Own(y, Copied(st.At(x))).Replace(x, y, now).Clear(x)
  }

  /** The item is given up. */
  function Wipe<T(==)>(st: State<T>, x: T, s: nat): State<T> {
    st.Unlink(x).Free(x, s)
  }

  /** A linked item that only the mover holds; the second result says that the chunk is not cleared yet. */
  function FromLru<T(==)>(st: State<T>, x: T, page: seq<T>, s: nat, now: nat, cfg: Settings): (State<T>, bool) {
    if st.At(x).Dead(cfg.oldestLive, now) then (Wipe(st, x, s), true)
    else
      match Grab(st, page, s, |page|)
      case (grabbed, None) => (Wipe(grabbed, x, s), true)
      case (grabbed, Some(y)) => (Rescue(grabbed, x, y, now), false)
  }

  /** One chunk of the page; `locked` says that another thread holds its stripe. */
  function MoveOne<T(==)>(st: State<T>, x: T, page: seq<T>, s: nat, locked: bool, now: nat, cfg: Settings): (State<T>, bool) {
    var h := st.At(x);
    if h.flags == CLEARED then (st, false)
    else if h.flags.slabbed then (st.CutFree(x, s), false)
    else if h.flags.linked && !locked && h.refcount == 1 then FromLru(st.Hold(x), x, page, s, now, cfg)
    else (st, true)
  }

  /** Where the mover is: the chunk it comes to next, how many were busy in this pass, and whether a
      pass ended without busy ones. */
  datatype Sweep<T> = Sweep(page: seq<T>, pos: nat, busy: nat, done: bool)
  {
    /** On to the next chunk. */
    function Passed(wasBusy: bool): Sweep<T> {
      this.(pos := pos + 1, busy := if wasBusy then busy + 1 else busy)
    }

    /** At the end of the page, back to the top or done. */
    function AtEnd(): Sweep<T> {
      if pos < |page| then this else if busy > 0 then this.(pos := 0, busy := 0) else this.(done := true)
    }

    function Advance(wasBusy: bool): Sweep<T> {
      Passed(wasBusy).AtEnd()
    }

    /** In a pass without busy chunks, all chunks passed are cleared; when done, all are. */
    ghost predicate Safe(st: State<T>) {
      && pos <= |page|
      && (busy == 0 ==> forall i :: 0 <= i < pos ==> Cleared(st, page[i]))
      && (done ==> forall i :: 0 <= i < |page| ==> Cleared(st, page[i]))
    }
  }

  /** One call of slab_rebalance_move: up to `bulk` chunks, but not beyond the end of the page. */
  function Turns<T(==)>(st: State<T>, sw: Sweep<T>, x: nat, bulk: nat, locked: nat -> bool, s: nat, now: nat, cfg: Settings): (State<T>, Sweep<T>)
    decreases bulk - x
  {
    if x >= bulk || sw.pos >= |sw.page| then (st, sw)
    else
      var (r, busy) := MoveOne(st, sw.page[sw.pos], sw.page, s, locked(x), now, cfg);
      Turns(r, sw.Passed(busy), x + 1, bulk, locked, s, now, cfg)
  }

  // ---------------------------------------------------------------- one chunk

  /** A chunk taken and cleared at once. */
  lemma Reclaimed<T>(st: State<T>, s: nat)
    requires FreesOK(st, s) && st.frees[s] != []
    ensures var x := st.frees[s][0];
            var a := st.Take(s, x).Clear(x);
            && a.bindings == st.bindings && a.lists == st.lists && a.holders == st.holders && |a.frees| == |st.frees|
            && a.heads.Keys == st.heads.Keys && Elsewhere(st, a, x) && Cleared(a, x) && st.heads[x].flags == FREE
            && a.frees[s] == st.frees[s][1..] && FreesOK(a, s)
  {
    var x := st.frees[s][0];
    assert st.frees[s] == [x] + st.frees[s][1..];
    assert st.holders - {x} == st.holders;
  }

  /** Grabbing touches free chunks only, and never comes up with one of the page; what it passes
      over is cleared. */
  lemma {:induction false} GrabFacts<T>(st: State<T>, page: seq<T>, s: nat, tries: nat)
    requires FreesOK(st, s)
    ensures var (g, y) := Grab(st, page, s, tries);
            && g.bindings == st.bindings && g.lists == st.lists && g.holders == st.holders && |g.frees| == |st.frees|
            && g.heads.Keys == st.heads.Keys
            && (forall z :: z in st.heads && st.heads[z].flags != FREE ==> g.heads[z] == st.heads[z])
            && (y.Some? ==> y.value !in page && y.value in st.frees[s] && y.value in st.heads && st.heads[y.value].flags == FREE)
            && (forall z :: z in page && z in st.frees[s] && z !in g.frees[s] ==> Cleared(g, z))
    decreases tries
  {
    if tries > 0 && st.frees[s] != [] {
      var x := st.frees[s][0];
      assert st.frees[s] == [x] + st.frees[s][1..];
      if x in page {
        Reclaimed(st, s);
        var a := st.Take(s, x).Clear(x);
        hide FreesOK, State.Take, State.Clear;
        GrabFacts(a, page, s, tries - 1);
      }
    }
  }

  /** Linking a copy that starts with a count of 0. */
  lemma LinkCopy<T>(st: State<T>, y: T, h: Head, now: nat)
    requires y in st.heads && st.At(y) == Copied(h) && Held(st.holders, y) == 0 && h.flags.linked
    ensures st.Link(y, now) == State(st.bindings[h.key := y], Headed(st.lists, h.clsid, y), st.frees,
                                     st.heads[y := h.(time := now, refcount := 1)], st.holders - {y})
  {
  }

  /** A rescue, with the whole state it leaves: the copy is bound, at the head of the item's list,
      with a count of 1, and everything else of the item; the old chunk is cleared. */
  lemma RescueIs<T>(st: State<T>, x: T, y: T, now: nat)
    requires st.Linked(x) && st.At(x).refcount == 2 && Held(st.holders, x) == 1
    requires y != x && y in st.heads && y !in st.holders
    ensures var h := st.At(x);
            Rescue(st, x, y, now) ==
            State(st.bindings[h.key := y], Headed(Left(st.lists, h.clsid, x), h.clsid, y), st.frees,
                  st.heads[x := h.(flags := CLEARED, refcount := 0)][y := h.(time := now, refcount := 1)], st.holders - {x})
  {
    var h := st.At(x);
    var a := st.Own(y, Copied(h));
    UnlinkHeld(a, x);
    var c := a.Unlink(x);
    LinkCopy(c, y, h, now);
    var d := c.Link(y, now);
    assert d.heads[x := h.(flags := CLEARED, refcount := 0)]
        == st.heads[x := h.(flags := CLEARED, refcount := 0)][y := h.(time := now, refcount := 1)];
    assert d.bindings == st.bindings[h.key := y];
    assert d.holders - {x} == st.holders - {x};
  }

  /** An item given up: unbound, off its list, on the freelist. */
  lemma WipeIs<T>(st: State<T>, x: T, s: nat)
    requires st.Linked(x) && st.At(x).refcount == 2 && Held(st.holders, x) == 1
    ensures var h := st.At(x);
            Wipe(st, x, s) ==
            State(st.bindings - {h.key}, Left(st.lists, h.clsid, x), Headed(st.frees, s, x),
                  st.heads[x := h.(flags := FREE, refcount := 1, clsid := 0)], st.holders - {x})
  {
    UnlinkHeld(st, x);
  }

  /** The same item, wherever its chunk is. */
  ghost predicate SameItem(h: Head, h': Head) {
    h'.key == h.key && h'.value == h.value && h'.exptime == h.exptime && h'.nbytes == h.nbytes && h'.clsid == h.clsid
  }

  /** What the mover may meet at x. */
  ghost predicate Movable<T>(st: State<T>, x: T, s: nat) {
    && FreesOK(st, s) && BindsOK(st) && x in st.heads
    && (st.At(x).flags.slabbed ==> st.At(x).flags == FREE || st.At(x).flags == CLEARED)
    && (st.At(x).flags.linked && st.At(x).refcount == 1 ==> x !in st.holders)
  }

  /** What moving one chunk does to the map: other keys keep their chunks, and these their headers;
      the key of a rescued item goes to a chunk outside the page, with the item unchanged. */
  ghost predicate MapKept<T>(st: State<T>, r: State<T>, x: T, page: seq<T>, busy: bool) {
    var key := st.At(x).key;
    && r.bindings.Keys <= st.bindings.Keys
    && (forall k :: k in st.bindings && st.bindings[k] != x ==>
          k in r.bindings && r.bindings[k] == st.bindings[k] && r.At(r.bindings[k]) == st.At(st.bindings[k]))
    && (st.Linked(x) && !busy ==>
          && key in r.bindings && r.bindings[key] !in page && r.bindings[key] in r.heads
          && SameItem(st.At(x), r.At(r.bindings[key])) && r.At(r.bindings[key]).refcount == 1 && r.Linked(r.bindings[key]))
  }

  lemma HeldOnce<T>(st: State<T>, x: T, s: nat)
    requires Movable(st, x, s) && st.At(x).flags.linked && st.At(x).refcount == 1
    ensures var a := st.Hold(x);
            && FreesOK(a, s) && a.Linked(x) && a.At(x) == st.At(x).(refcount := 2) && Held(a.holders, x) == 1
            && a.bindings == st.bindings && Elsewhere(st, a, x) && st.At(x).flags != FREE && st.At(x).flags != CLEARED && x !in a.frees[s]
            && a.heads.Keys == st.heads.Keys && (forall z :: z in a.holders && z != x ==> z in st.holders)
  {
  }

  /** One chunk moved: what was cleared stays so; unless it was busy, the chunk is cleared now; and
      the map is kept. */
  lemma MoveOneFacts<T>(st: State<T>, x: T, page: seq<T>, s: nat, locked: bool, now: nat, cfg: Settings)
    requires Movable(st, x, s) && x in page
    ensures var (r, busy) := MoveOne(st, x, page, s, locked, now, cfg);
            Stays(st, r) && (!busy ==> Cleared(r, x)) && MapKept(st, r, x, page, busy)
  {
    var h := st.At(x);
    if h.flags.linked && !locked && h.refcount == 1 && !h.flags.slabbed {
      HeldOnce(st, x, s);
      FromLruFacts(st, x, page, s, now, cfg);
    }
  }

  /** The item is held by the mover alone, and at most free chunks have changed. */
  ghost predicate Ready<T>(st: State<T>, g: State<T>, x: T) {
    && BindsOK(st) && st.Linked(x) && g.Linked(x) && g.At(x) == st.At(x).(refcount := 2) && Held(g.holders, x) == 1
    && !st.At(x).flags.slabbed && g.bindings == st.bindings && g.heads.Keys == st.heads.Keys
    && (forall z :: z in st.heads && z != x && st.heads[z].flags != FREE ==> g.heads[z] == st.heads[z])
  }

  lemma WipeFacts<T>(st: State<T>, g: State<T>, x: T, page: seq<T>, s: nat)
    requires Ready(st, g, x)
    ensures Stays(st, Wipe(g, x, s)) && MapKept(st, Wipe(g, x, s), x, page, true)
  {
    WipeIs(g, x, s);
  }

  lemma RescueFacts<T>(st: State<T>, g: State<T>, x: T, y: T, page: seq<T>, now: nat)
    requires Ready(st, g, x) && y in st.heads && st.At(y).flags == FREE && y !in g.holders && y !in page && x in page
    ensures var r := Rescue(g, x, y, now); Stays(st, r) && Cleared(r, x) && MapKept(st, r, x, page, false)
  {
    RescueIs(g, x, y, now);
  }

  lemma HeldReady<T>(st: State<T>, g: State<T>, x: T, page: seq<T>, s: nat, tries: nat)
    requires Movable(st, x, s) && st.At(x).flags.linked && st.At(x).refcount == 1 && g == Grab(st.Hold(x), page, s, tries).0
    ensures Ready(st, st.Hold(x), x) && Ready(st, g, x)
    ensures var y := Grab(st.Hold(x), page, s, tries).1;
            y.Some? ==> y.value in st.heads && st.At(y.value).flags == FREE && y.value !in g.holders && y.value !in page
  {
    HeldOnce(st, x, s);
    GrabFacts(st.Hold(x), page, s, tries);
  }

  lemma FromLruFacts<T>(st: State<T>, x: T, page: seq<T>, s: nat, now: nat, cfg: Settings)
    requires Movable(st, x, s) && st.At(x).flags.linked && st.At(x).refcount == 1 && x in page
    ensures var (r, busy) := FromLru(st.Hold(x), x, page, s, now, cfg);
            Stays(st, r) && (!busy ==> Cleared(r, x)) && MapKept(st, r, x, page, busy)
  {
    hide State.Hold, Wipe, Rescue, Grab, Ready, Movable, MapKept, Stays, Cleared;
    var (g, y) := Grab(st.Hold(x), page, s, |page|);
    HeldReady(st, g, x, page, s, |page|);
    WipeFacts(st, st.Hold(x), x, page, s);
    WipeFacts(st, g, x, page, s);
    if y.Some? {
      RescueFacts(st, g, x, y.value, page, now);
    }
  }

  // ---------------------------------------------------------------- when a chunk is busy

  /** The chunks of the page that are on the freelist. */
  ghost function FreeOfPage<T>(st: State<T>, page: seq<T>, s: nat): set<T>
    requires s < |st.frees|
  {
    set x | x in st.frees[s] && x in page
  }

  /** Grabbing finds a chunk if and only if there is a free one outside the page. */
  lemma {:induction false} GrabFinds<T>(st: State<T>, page: seq<T>, s: nat, tries: nat)
    requires FreesOK(st, s) && |FreeOfPage(st, page, s)| < tries
    ensures Grab(st, page, s, tries).1.Some? <==> exists y :: y in st.frees[s] && y !in page
    decreases tries
  {
    hide FreesOK, State.Take, State.Clear;
    FreesAt(st, s);
    if st.frees[s] != [] {
      var x := st.frees[s][0];
      if x in page {
        Reclaimed(st, s);
        var a := st.Take(s, x).Clear(x);
        OneFewer(st, a, page, s);
        GrabFinds(a, page, s, tries - 1);
      }
    }
  }

  lemma FreesAt<T>(st: State<T>, s: nat)
    requires FreesOK(st, s)
    ensures s < |st.frees| && (st.frees[s] != [] ==> st.frees[s][0] in st.frees[s])
  {
  }

  lemma OneFewer<T>(st: State<T>, a: State<T>, page: seq<T>, s: nat)
    requires s < |st.frees| == |a.frees| && st.frees[s] != [] && st.frees[s][0] in page && a.frees[s] == st.frees[s][1..] && FreesOK(st, s)
    ensures FreeOfPage(a, page, s) == FreeOfPage(st, page, s) - {st.frees[s][0]} && st.frees[s][0] in FreeOfPage(st, page, s)
    ensures (exists y :: y in st.frees[s] && y !in page) <==> exists y :: y in a.frees[s] && y !in page
  {
    var x := st.frees[s][0];
    assert st.frees[s] == [x] + st.frees[s][1..] && x !in st.frees[s][1..];
    forall y ensures y in st.frees[s] <==> y == x || y in a.frees[s] {
    }
  }

  lemma {:induction false} Members<T>(page: seq<T>)
    ensures |set x | x in page| <= |page|
  {
    if page != [] {
      Members(page[1..]);
      assert (set x | x in page) == {page[0]} + set x | x in page[1..];
    }
  }

  lemma FewOfPage<T>(st: State<T>, page: seq<T>, s: nat, x: T)
    requires s < |st.frees| && x in page && x !in st.frees[s]
    ensures |FreeOfPage(st, page, s)| < |page|
  {
    Members(page);
    var all := set z | z in page;
    assert FreeOfPage(st, page, s) <= all - {x};
    Fewer(FreeOfPage(st, page, s), all - {x});
  }

  lemma {:induction false} Fewer<T>(a: set<T>, b: set<T>)
    requires a <= b
    ensures |a| <= |b|
  {
    assert b == a + (b - a);
  }

  /** What a turn comes to.  A cleared chunk stays, a free one is cleared.  A linked one whose stripe
      is free and that nobody holds is rescued if it is alive and there is a free chunk outside the
      page; else it is given up: unbound, its chunk free.  Any other chunk is left alone.  It counts as
      busy exactly if it is not cleared now. */
  lemma MoveOutcome<T>(st: State<T>, x: T, page: seq<T>, s: nat, locked: bool, now: nat, cfg: Settings)
    requires Movable(st, x, s) && x in page
    ensures var h := st.At(x);
            var (r, busy) := MoveOne(st, x, page, s, locked, now, cfg);
            var dead := (h.exptime != 0 && h.exptime < now) || (cfg.oldestLive != 0 && cfg.oldestLive <= now && h.time <= cfg.oldestLive);
            && (busy <==> !Cleared(r, x))
            && (if h.flags.slabbed then Cleared(r, x) && r.bindings == st.bindings
                else if !h.flags.linked || locked || h.refcount != 1 then r == st
                else if !dead && exists y :: y in st.frees[s] && y !in page then Cleared(r, x) && h.key in r.bindings && r.bindings[h.key] !in page
                else r.bindings == st.bindings - {h.key} && x in r.heads && r.At(x).flags == FREE)
  {
    var h := st.At(x);
    MoveOneFacts(st, x, page, s, locked, now, cfg);
    if !h.flags.slabbed && h.flags.linked && !locked && h.refcount == 1 {
      LruOutcome(st, x, page, s, now, cfg);
    }
  }

  lemma LruOutcome<T>(st: State<T>, x: T, page: seq<T>, s: nat, now: nat, cfg: Settings)
    requires Movable(st, x, s) && st.At(x).flags.linked && st.At(x).refcount == 1 && !st.At(x).flags.slabbed && x in page
    ensures var h := st.At(x);
            var (r, busy) := FromLru(st.Hold(x), x, page, s, now, cfg);
            if !h.Dead(cfg.oldestLive, now) && exists y :: y in st.frees[s] && y !in page
            then !busy && Cleared(r, x) && h.key in r.bindings && r.bindings[h.key] !in page
            else busy && r.bindings == st.bindings - {h.key} && x in r.heads && r.At(x).flags == FREE
  {
    hide State.Hold, Wipe, Rescue, Grab, Ready, Movable, Head.Dead;
    HeldOnce(st, x, s);
    var a := st.Hold(x);
    assert a.frees == st.frees by { HoldFrees(st, x); }
    FewOfPage(a, page, s, x);
    GrabFinds(a, page, s, |page|);
    var (g, y) := Grab(a, page, s, |page|);
    HeldReady(st, g, x, page, s, |page|);
    ReadyIs(st, a, x);
    ReadyIs(st, g, x);
    if a.At(x).Dead(cfg.oldestLive, now) {
      WipeIs(a, x, s);
    } else if y.Some? {
      RescueIs(g, x, y.value, now);
    } else {
      WipeIs(g, x, s);
    }
  }

  lemma HoldFrees<T>(st: State<T>, x: T)
    ensures st.Hold(x).frees == st.frees
  {
  }

  lemma ReadyIs<T>(st: State<T>, g: State<T>, x: T)
    requires Ready(st, g, x)
    ensures g.Linked(x) && g.At(x) == st.At(x).(refcount := 2) && Held(g.holders, x) == 1 && g.bindings == st.bindings
    ensures forall d, n :: g.At(x).Dead(d, n) == st.At(x).Dead(d, n)
  {
  }

  /** Of the other chunks of the page a turn changes at most free ones, which it clears. */
  lemma MoveElsewhere<T>(st: State<T>, x: T, page: seq<T>, s: nat, locked: bool, now: nat, cfg: Settings)
    requires Movable(st, x, s) && x in page
    ensures var r := MoveOne(st, x, page, s, locked, now, cfg).0;
            forall z :: z in page && z != x && z in st.heads ==>
              z in r.heads && (r.heads[z] == st.heads[z] || (st.heads[z].flags == FREE && Cleared(r, z)))
  {
    var h := st.At(x);
    if !h.flags.slabbed && h.flags.linked && !locked && h.refcount == 1 {
      LruElsewhere(st, x, page, s, now, cfg);
    }
  }

  /** A grab hands out no chunk of the page, and clears those it passes. */
  lemma {:induction false} GrabElsewhere<T>(st: State<T>, page: seq<T>, s: nat, tries: nat)
    requires FreesOK(st, s)
    ensures var (g, y) := Grab(st, page, s, tries);
            && (forall z :: z in page && z in st.heads ==> z in g.heads && (g.heads[z] == st.heads[z] || (st.heads[z].flags == FREE && Cleared(g, z))))
    decreases tries
  {
    hide FreesOK, State.Take, State.Clear;
    FreesAt(st, s);
    if tries > 0 && st.frees[s] != [] {
      var x := st.frees[s][0];
      var a := st.Take(s, x).Clear(x);
      if x in page {
        Reclaimed(st, s);
        GrabElsewhere(a, page, s, tries - 1);
      } else {
        TakesOne(st, s, x);
      }
    }
  }

  lemma TakesOne<T>(st: State<T>, s: nat, x: T)
    ensures forall z :: z != x && z in st.heads ==> z in st.Take(s, x).heads && st.Take(s, x).heads[z] == st.heads[z]
  {
  }

  lemma LruElsewhere<T>(st: State<T>, x: T, page: seq<T>, s: nat, now: nat, cfg: Settings)
    requires Movable(st, x, s) && st.At(x).flags.linked && st.At(x).refcount == 1 && !st.At(x).flags.slabbed && x in page
    ensures var r := FromLru(st.Hold(x), x, page, s, now, cfg).0;
            forall z :: z in page && z != x && z in st.heads ==>
              z in r.heads && (r.heads[z] == st.heads[z] || (st.heads[z].flags == FREE && Cleared(r, z)))
  {
    hide State.Hold, Wipe, Rescue, Grab, Ready, Movable, Head.Dead;
    HeldOnce(st, x, s);
    var a := st.Hold(x);
    GrabElsewhere(a, page, s, |page|);
    var (g, y) := Grab(a, page, s, |page|);
    HeldReady(st, g, x, page, s, |page|);
    ReadyIs(st, a, x);
    ReadyIs(st, g, x);
    if a.At(x).Dead(cfg.oldestLive, now) {
      WipeIs(a, x, s);
    } else if y.Some? {
      RescueIs(g, x, y.value, now);
    } else {
      WipeIs(g, x, s);
    }
  }

  // ---------------------------------------------------------------- whole sweeps

  /** Either the other threads bring the cache to a new state, or the mover takes a turn. */
  datatype Event<T(==)> = Work(st: State<T>) | Turn(locked: bool, now: nat)

  ghost function NextEvent<T>(st: State<T>, sw: Sweep<T>, e: Event<T>, s: nat, cfg: Settings): (State<T>, Sweep<T>) {
    match e
    case Work(st') => (st', sw)
    case Turn(locked, now) =>
      if sw.done || sw.pos >= |sw.page| then (st, sw)
      else
        var (r, busy) := MoveOne(st, sw.page[sw.pos], sw.page, s, locked, now, cfg);
        (r, sw.Advance(busy))
  }

  ghost function RunEvents<T>(st: State<T>, sw: Sweep<T>, es: seq<Event<T>>, s: nat, cfg: Settings): (State<T>, Sweep<T>) {
    if es == [] then (st, sw)
    else
      var (a, b) := RunEvents(st, sw, es[..|es| - 1], s, cfg);
      NextEvent(a, b, es[|es| - 1], s, cfg)
  }

  /** The other threads leave cleared chunks alone, and the mover meets a cache that is in order. */
  ghost predicate Allowed<T>(st: State<T>, sw: Sweep<T>, e: Event<T>, s: nat) {
    match e
    case Work(st') => Stays(st, st')
    case Turn(_, _) => forall i :: 0 <= i < |sw.page| ==> Movable(st, sw.page[i], s)
  }

  ghost predicate AllAllowed<T>(st: State<T>, sw: Sweep<T>, es: seq<Event<T>>, s: nat, cfg: Settings) {
    es != [] ==>
      && AllAllowed(st, sw, es[..|es| - 1], s, cfg)
      && Allowed(RunEvents(st, sw, es[..|es| - 1], s, cfg).0, RunEvents(st, sw, es[..|es| - 1], s, cfg).1, es[|es| - 1], s)
  }

  lemma AdvanceKeepsSafe<T>(st: State<T>, r: State<T>, sw: Sweep<T>, busy: bool)
    requires sw.Safe(st) && sw.pos < |sw.page| && !sw.done && Stays(st, r) && (!busy ==> Cleared(r, sw.page[sw.pos]))
    ensures sw.Advance(busy).Safe(r)
  {
  }

  /** With the default bulk of 1, a call is one turn. */
  lemma OneTurn<T>(st: State<T>, sw: Sweep<T>, locked: nat -> bool, s: nat, now: nat, cfg: Settings)
    requires !sw.done && sw.pos < |sw.page|
    ensures var (r, sw') := Turns(st, sw, 0, 1, locked, s, now, cfg);
            NextEvent(st, sw, Turn(locked(0), now), s, cfg) == (r, sw'.AtEnd())
  {
    hide MoveOne;
  }

  lemma NextKeepsSafe<T>(st: State<T>, sw: Sweep<T>, e: Event<T>, s: nat, cfg: Settings)
    requires sw.Safe(st) && Allowed(st, sw, e, s)
    ensures var (r, sw') := NextEvent(st, sw, e, s, cfg); sw'.Safe(r) && Stays(st, r) && sw'.page == sw.page
  {
    hide MoveOne, Movable;
    match e
    case Work(st') =>
    case Turn(locked, now) =>
      if !sw.done && sw.pos < |sw.page| {
        MoveOneFacts(st, sw.page[sw.pos], sw.page, s, locked, now, cfg);
        AdvanceKeepsSafe(st, MoveOne(st, sw.page[sw.pos], sw.page, s, locked, now, cfg).0, sw,
                         MoveOne(st, sw.page[sw.pos], sw.page, s, locked, now, cfg).1);
      }
  }

  /** Whatever happens in between and however often the sweep starts over: a chunk once cleared stays
      cleared, and when the mover is done, every chunk of the page is. */
  lemma {:induction false} RunClears<T>(st: State<T>, page: seq<T>, es: seq<Event<T>>, s: nat, cfg: Settings)
    requires AllAllowed(st, Sweep(page, 0, 0, false), es, s, cfg)
    ensures var (r, sw) := RunEvents(st, Sweep(page, 0, 0, false), es, s, cfg);
            && sw.Safe(r) && sw.page == page && Stays(st, r)
            && (sw.done ==> forall i :: 0 <= i < |page| ==> Cleared(r, page[i]))
  {
    if es != [] {
      var es' := es[..|es| - 1];
      RunClears(st, page, es', s, cfg);
      var (a, b) := RunEvents(st, Sweep(page, 0, 0, false), es', s, cfg);
      hide NextEvent, Allowed;
      NextKeepsSafe(a, b, es[|es| - 1], s, cfg);
    }
  }

  // ---------------------------------------------------------------- how a pass ends

  /** How far a call gets. */
  lemma {:induction false} TurnsAdvance<T>(st: State<T>, sw: Sweep<T>, x: nat, bulk: nat, locked: nat -> bool, s: nat, now: nat, cfg: Settings)
    requires x <= bulk && sw.pos <= |sw.page|
    ensures var sw' := Turns(st, sw, x, bulk, locked, s, now, cfg).1;
            && sw' == sw.(pos := sw'.pos, busy := sw'.busy) && sw'.busy >= sw.busy
            && sw'.pos == if sw.pos + (bulk - x) < |sw.page| then sw.pos + (bulk - x) else |sw.page|
    decreases bulk - x
  {
    hide MoveOne;
    if x < bulk && sw.pos < |sw.page| {
      var (r, busy) := MoveOne(st, sw.page[sw.pos], sw.page, s, locked(x), now, cfg);
      TurnsAdvance(r, sw.Passed(busy), x + 1, bulk, locked, s, now, cfg);
    }
  }

  /** What a call leaves behind: further on in the pass; or at its end, from the top again with nothing
      counted if there was a busy chunk in the pass, and done if there was none. */
  lemma CallEnds<T>(st: State<T>, sw: Sweep<T>, bulk: nat, locked: nat -> bool, s: nat, now: nat, cfg: Settings)
    requires sw.pos < |sw.page| && !sw.done
    ensures var r := Turns(st, sw, 0, bulk, locked, s, now, cfg).1;
            r.AtEnd() == if sw.pos + bulk < |sw.page| then sw.(pos := sw.pos + bulk, busy := r.busy)
                         else if r.busy > 0 then sw.(pos := 0, busy := 0)
                         else sw.(pos := |sw.page|, busy := 0, done := true)
  {
    TurnsAdvance(st, sw, 0, bulk, locked, s, now, cfg);
  }

  /** How many turns there are, and how many of them found their chunk busy. */
  ghost function TurnsIn<T>(es: seq<Event<T>>): nat {
    if es == [] then 0 else TurnsIn(es[..|es| - 1]) + if es[|es| - 1].Turn? then 1 else 0
  }

  ghost predicate FoundBusy<T>(st: State<T>, sw: Sweep<T>, e: Event<T>, s: nat, cfg: Settings) {
    e.Turn? && sw.pos < |sw.page| && MoveOne(st, sw.page[sw.pos], sw.page, s, e.locked, e.now, cfg).1
  }

  ghost function BusyIn<T>(st: State<T>, sw: Sweep<T>, es: seq<Event<T>>, s: nat, cfg: Settings): nat {
    if es == [] then 0
    else
      var init := es[..|es| - 1];
      var (a, b) := RunEvents(st, sw, init, s, cfg);
      BusyIn(st, sw, init, s, cfg) + if FoundBusy(a, b, es[|es| - 1], s, cfg) then 1 else 0
  }

  /** A pass takes as many turns as the page has chunks, whatever happens in between.  Before that it is
      not over; then it is done if no chunk was busy, and else starts over with nothing counted. */
  lemma {:induction false} PassEnds<T>(st: State<T>, page: seq<T>, es: seq<Event<T>>, s: nat, cfg: Settings)
    requires page != [] && TurnsIn(es) <= |page|
    ensures var sw0 := Sweep(page, 0, 0, false);
            var sw, n, busy := RunEvents(st, sw0, es, s, cfg).1, TurnsIn(es), BusyIn(st, sw0, es, s, cfg);
            if n < |page| then sw == Sweep(page, n, busy, false)
            else if busy == 0 then sw == Sweep(page, |page|, 0, true)
            else sw == sw0
  {
    hide MoveOne, FoundBusy;
    if es != [] {
      var init, e, sw0 := es[..|es| - 1], es[|es| - 1], Sweep(page, 0, 0, false);
      PassEnds(st, page, init, s, cfg);
      var (a, b) := RunEvents(st, sw0, init, s, cfg);
      EventAdvances(a, b, e, s, cfg);
    }
  }

  lemma EventAdvances<T>(st: State<T>, sw: Sweep<T>, e: Event<T>, s: nat, cfg: Settings)
    ensures var sw' := NextEvent(st, sw, e, s, cfg).1;
            && (!e.Turn? || sw.done || sw.pos >= |sw.page| ==> sw' == sw)
            && (!e.Turn? ==> !FoundBusy(st, sw, e, s, cfg))
            && (e.Turn? && !sw.done && sw.pos < |sw.page| ==>
                  var busy := sw.busy + if FoundBusy(st, sw, e, s, cfg) then 1 else 0;
                  sw' == if sw.pos + 1 < |sw.page| then sw.(pos := sw.pos + 1, busy := busy)
                         else if busy > 0 then sw.(pos := 0, busy := 0) else sw.(pos := sw.pos + 1, busy := 0, done := true))
  {
    hide MoveOne;
  }
}
