/** The page mover among the steps of all other threads, from a cache that is in order. */
module MoverRuns {
  import opened Common
  import opened Items
  import opened CacheSpec
  import opened ItemLaws
  import opened ItemRuns
  import opened ItemOwners
  import opened Operations
  import MoverSpec
  import LruSpec

  /** The page's chunks are all of class s. */
  ghost predicate PageOf<T>(w: World<T>, page: seq<T>, s: nat) {
    s < CLASS_COUNT && forall x :: x in page ==> x in w.ls.home && w.ls.home[x] == s
  }

  // ---------------------------------------------------------------- a turn is a run of the mover

  /** Taking the first free chunk. */
  lemma DoTake<T>(w: World<T>, acts: seq<Act<T>>, b: Bounds, a: World<T>, who: nat, s: nat) returns (acts': seq<Act<T>>, r: World<T>)
    requires Done(w, acts, b, a) && who in b.whos && s < |a.st.frees| && a.st.frees[s] != []
    ensures var x := a.st.frees[s][0];
            && Done(w, acts', b, r) && r.st == a.st.Take(s, x) && r.ls.home == a.ls.home && r.refs == a.refs
            && x in r.ls.raw && x in r.st.heads && !r.st.At(x).flags.slabbed && !r.st.At(x).flags.linked && RefsOf(r.refs, x) == multiset{}
            && x in r.ls.home && r.ls.home[x] == s && a.st.At(x).flags == FREE
  {
    hide Done, Sound;
    DoneSound(w, acts, b, a);
    var x := a.st.frees[s][0];
    TakeIs(a, s);
    acts', r := Do(w, acts, b, a, who, Op.Take(x, s));
  }

  lemma TakeIs<T>(a: World<T>, s: nat)
    requires Sound(a) && s < |a.st.frees| && a.st.frees[s] != []
    ensures var x := a.st.frees[s][0];
            && x in a.st.heads && a.st.At(x).flags == FREE && x in a.ls.home && a.ls.home[x] == s
            && Held(a.st.holders, x) == 0 && RefsOf(a.refs, x) == multiset{}
  {
    var x := a.st.frees[s][0];
    assert x in a.st.frees[s];
    assert Told(x, a.st.heads[x], a.ls, a.st.holders);
  }

  lemma DoClear<T>(w: World<T>, acts: seq<Act<T>>, b: Bounds, a: World<T>, who: nat, x: T) returns (acts': seq<Act<T>>, r: World<T>)
    requires Done(w, acts, b, a) && who in b.whos && x in a.st.heads && !a.st.At(x).flags.slabbed && !a.st.At(x).flags.linked
    requires RefsOf(a.refs, x) <= multiset{who}
    ensures Done(w, acts', b, r) && r.st == a.st.Clear(x) && r.ls.home == a.ls.home && r.refs == a.refs[x := multiset{}]
  {
    hide Done, Sound;
    DoneSound(w, acts, b, a);
    FewHeld(a, who, x);
    acts', r := Do(w, acts, b, a, who, Op.Clear(x));
  }

  lemma BackedFor<T>(a: World<T>, x: T)
    requires Sound(a)
    ensures |RefsOf(a.refs, x)| == Held(a.st.holders, x)
  {
    BackedIs(a, x);
  }

  lemma FewHeld<T>(a: World<T>, who: nat, x: T)
    requires Sound(a) && RefsOf(a.refs, x) <= multiset{who}
    ensures Held(a.st.holders, x) == |RefsOf(a.refs, x)| <= 1
  {
    var m := RefsOf(a.refs, x);
    var n := multiset{who} - m;
    assert m + n == multiset{who} && |m + n| == |m| + |n| && |multiset{who}| == 1;
    BackedFor(a, x);
  }

  lemma {:induction false} DoGrab<T>(w: World<T>, acts: seq<Act<T>>, b: Bounds, a: World<T>, who: nat, page: seq<T>, s: nat, tries: nat, x: T)
    returns (acts': seq<Act<T>>, r: World<T>)
    requires Done(w, acts, b, a) && who in b.whos && x in a.st.heads && a.st.At(x).flags != FREE
    ensures var (g, y) := MoverSpec.Grab(a.st, page, s, tries);
            && Done(w, acts', b, r) && r.st == g && r.ls.home == a.ls.home
            && RefsOf(r.refs, x) == RefsOf(a.refs, x) && x in g.heads && g.At(x) == a.st.At(x)
            && (y.Some? ==> y.value in g.heads && y.value in r.ls.raw && y.value != x && y.value in r.ls.home && r.ls.home[y.value] == s)
    decreases tries
  {
    hide Done, RefsOf, Enabled, State.Clear;
    acts', r := acts, a;
    if tries > 0 && s < |a.st.frees| && a.st.frees[s] != [] {
      var y := a.st.frees[s][0];
      acts', r := DoTake(w, acts', b, r, who, s);
      Apart(a, r, x, y);
      if y in page {
        acts', r := DoClear(w, acts', b, r, who, y);
        Cleaned(a.st.Take(s, y), r.refs, a.refs, x, y);
        acts', r := DoGrab(w, acts', b, r, who, page, s, tries - 1, x);
      }
    }
  }

  lemma Apart<T>(a: World<T>, r: World<T>, x: T, y: T)
    requires x in a.st.heads && a.st.At(x).flags != FREE && a.st.At(y).flags == FREE && exists s :: r.st == a.st.Take(s, y)
    ensures x != y && x in r.st.heads && r.st.At(x) == a.st.At(x)
  {
  }

  lemma Cleaned<T>(st: State<T>, refs: Refs<T>, refs0: Refs<T>, x: T, y: T)
    requires x != y && x in st.heads
    ensures x in st.Clear(y).heads && st.Clear(y).At(x) == st.At(x)
    ensures refs == refs0[y := multiset{}] ==> RefsOf(refs, x) == RefsOf(refs0, x)
  {
  }

  /** The mover holds x, which is linked, and nobody else does. */
  ghost predicate Gripped<T>(a: World<T>, who: nat, x: T, s: nat) {
    a.st.Linked(x) && RefsOf(a.refs, x) == multiset{who} && x in a.ls.home && a.ls.home[x] == s
  }

  lemma DoWipe<T>(w: World<T>, acts: seq<Act<T>>, b: Bounds, a: World<T>, who: nat, x: T, s: nat) returns (acts': seq<Act<T>>, r: World<T>)
    requires Done(w, acts, b, a) && who in b.whos && Gripped(a, who, x, s)
    ensures Done(w, acts', b, r) && r.st == MoverSpec.Wipe(a.st, x, s) && r.ls.home == a.ls.home
  {
    hide Done, Sound, State.Free, State.Unlink;
    DoneSound(w, acts, b, a);
    FewHeld(a, who, x);
    acts', r := DoUnlink(w, acts, b, a, who, x);
    DoneSound(w, acts', b, r);
    FewHeld(r, who, x);
    UnlinkedStays(a.st, x);
    acts', r := Do(w, acts', b, r, who, Op.Free(x, s));
  }

  lemma UnlinkedStays<T>(st: State<T>, x: T)
    requires st.Linked(x)
    ensures x in st.Unlink(x).heads && !st.Unlink(x).At(x).flags.linked
  {
  }

  lemma DoOwn<T>(w: World<T>, acts: seq<Act<T>>, b: Bounds, a: World<T>, who: nat, y: T, h: Head) returns (acts': seq<Act<T>>, r: World<T>)
    requires Done(w, acts, b, a) && who in b.whos && y in a.st.heads && y in a.ls.raw && y in a.ls.home
    requires !h.flags.slabbed && !h.flags.linked && h.refcount == 0 && h.clsid < LIST_COUNT && ClassOf(h.clsid) == a.ls.home[y]
    ensures Done(w, acts', b, r) && r.st == a.st.Own(y, h) && r.ls.home == a.ls.home && r.refs == a.refs[y := multiset{}]
  {
    hide Done;
    acts', r := Do(w, acts, b, a, who, Op.Own(y, h));
  }

  lemma GrippedIs<T>(a: World<T>, who: nat, x: T, s: nat)
    requires Sound(a) && Gripped(a, who, x, s)
    ensures var h := a.st.At(x); !h.flags.slabbed && h.clsid < LIST_COUNT && ClassOf(h.clsid) == s && h.nbytes >= 2
  {
    assert Told(x, a.st.heads[x], a.ls, a.st.holders);
  }

  lemma DoRescue<T>(w: World<T>, acts: seq<Act<T>>, b: Bounds, a: World<T>, who: nat, x: T, y: T, s: nat, now: nat)
    returns (acts': seq<Act<T>>, r: World<T>)
    requires Done(w, acts, b, a) && who in b.whos && b.In(now, false) && Gripped(a, who, x, s)
    requires y in a.st.heads && y in a.ls.raw && y != x && y in a.ls.home && a.ls.home[y] == s
    ensures Done(w, acts', b, r) && r.st == MoverSpec.Rescue(a.st, x, y, now) && r.ls.home == a.ls.home
  {
    hide Done, Sound, State.Clear, State.Replace;
    DoneSound(w, acts, b, a);
    GrippedIs(a, who, x, s);
    acts', r := DoOwn(w, acts, b, a, who, y, MoverSpec.Copied(a.st.At(x)));
    acts', r := DoReplace(w, acts', b, r, who, x, y, now);
    ReplacedStays(a.st.Own(y, MoverSpec.Copied(a.st.At(x))), x, y, now);
    DoneSound(w, acts', b, r);
    OwnerHolds(r, who, x);
    HeldCalm(r, x);
    acts', r := DoClear(w, acts', b, r, who, x);
  }

  lemma ReplacedStays<T>(st: State<T>, x: T, y: T, now: nat)
    requires st.Linked(x) && x != y
    ensures x in st.Replace(x, y, now).heads && !st.Replace(x, y, now).At(x).flags.linked
  {
  }

  lemma DoFromLru<T>(w: World<T>, acts: seq<Act<T>>, b: Bounds, a: World<T>, who: nat, x: T, page: seq<T>, s: nat, now: nat, cfg: Settings)
    returns (acts': seq<Act<T>>, r: World<T>)
    requires Done(w, acts, b, a) && who in b.whos && b.In(now, false) && Gripped(a, who, x, s)
    ensures Done(w, acts', b, r) && r.st == MoverSpec.FromLru(a.st, x, page, s, now, cfg).0 && r.ls.home == a.ls.home
  {
    hide Done, Sound, MoverSpec.Grab, MoverSpec.Wipe, MoverSpec.Rescue, RefsOf;
    DoneSound(w, acts, b, a);
    LinkedOnly(a.st, x);
    acts', r := acts, a;
    if a.st.At(x).Dead(cfg.oldestLive, now) {
      acts', r := DoWipe(w, acts', b, r, who, x, s);
    } else {
      acts', r := DoGrab(w, acts', b, r, who, page, s, |page|, x);
      var (g, y) := MoverSpec.Grab(a.st, page, s, |page|);
      if y.Some? {
        acts', r := DoRescue(w, acts', b, r, who, x, y.value, s, now);
      } else {
        acts', r := DoWipe(w, acts', b, r, who, x, s);
      }
    }
  }

  lemma LinkedOnly<T>(st: State<T>, x: T)
    requires st.Linked(x)
    ensures x in st.heads && st.At(x).flags != FREE
  {
  }

  /** One turn of the mover is a run of steps of its own. */
  lemma DoMoveOne<T>(w: World<T>, acts: seq<Act<T>>, b: Bounds, a: World<T>, who: nat, x: T, page: seq<T>, s: nat, locked: bool, now: nat, cfg: Settings)
    returns (acts': seq<Act<T>>, r: World<T>)
    requires Done(w, acts, b, a) && who in b.whos && b.In(now, false) && x in a.ls.home && a.ls.home[x] == s
    ensures Done(w, acts', b, r) && r.st == MoverSpec.MoveOne(a.st, x, page, s, locked, now, cfg).0 && r.ls.home == a.ls.home
  {
    hide Done, Sound, MoverSpec.FromLru, State.Hold, State.CutFree, RefsOf;
    DoneSound(w, acts, b, a);
    MetIs(a, x);
    HoldHolds(a.st, x);
    acts', r := acts, a;
    var h := a.st.At(x);
    if h.flags == CLEARED {
    } else if h.flags.slabbed {
      acts', r := Do(w, acts', b, r, who, Op.CutFree(x, s));
    } else if h.flags.linked && !locked && h.refcount == 1 {
      acts', r := DoHold(w, acts', b, r, who, x);
      acts', r := DoFromLru(w, acts', b, r, who, x, page, s, now, cfg);
    }
  }

  /** What the mover meets at a chunk. */
  lemma MetIs<T>(a: World<T>, x: T)
    requires Sound(a) && x in a.ls.home
    ensures x in a.st.heads
    ensures a.st.At(x).flags.slabbed ==> a.st.At(x).flags == FREE || a.st.At(x).flags == CLEARED
    ensures a.st.At(x).flags.linked && a.st.At(x).refcount == 1 ==> x !in a.st.holders && RefsOf(a.refs, x) == multiset{} && a.st.Linked(x)
  {
    assert Told(x, a.st.heads[x], a.ls, a.st.holders);
    BackedFor(a, x);
  }

  lemma InOrderIsMovable<T>(a: World<T>, x: T, s: nat)
    requires Sound(a) && x in a.ls.home && s < CLASS_COUNT
    ensures MoverSpec.Movable(a.st, x, s)
  {
    MetIs(a, x);
    assert forall y :: y in a.st.frees[s] ==> y in a.st.heads && a.st.heads[y].flags == FREE && Told(y, a.st.heads[y], a.ls, a.st.holders);
  }

  // ---------------------------------------------------------------- the mover among the others

  /** Another thread takes a step, or the mover a turn, whose steps are `acts`. */
  datatype Event<T(==)> = Work(act: Act<T>) | Turn(locked: bool, now: nat, acts: seq<Act<T>>)

  /** The cache and where the mover is. */
  datatype Scene<T(==)> = Scene(w: World<T>, sw: MoverSpec.Sweep<T>)

  ghost function Turned<T>(c: Scene<T>, e: Event<T>, s: nat, cfg: Settings): (State<T>, MoverSpec.Sweep<T>)
    requires e.Turn?
  {
    MoverSpec.NextEvent(c.w.st, c.sw, MoverSpec.Turn(e.locked, e.now), s, cfg)
  }

  ghost function NextScene<T>(c: Scene<T>, e: Event<T>, s: nat, cfg: Settings): Scene<T> {
    match e
    case Work(act) => Scene(After(c.w, act), c.sw)
    case Turn(locked, now, acts) => Scene(RunActs(c.w, acts), Turned(c, e, s, cfg).1)
  }

  /** Other threads do what they may, but give no chunks back; the mover does what its turn says. */
  ghost predicate Legal<T>(c: Scene<T>, e: Event<T>, mover: nat, s: nat, cfg: Settings) {
    match e
    case Work(act) => May(c.w, act) && act.who != mover && !act.op.Go?
    case Turn(locked, now, acts) =>
      && Done(c.w, acts, Bounds({mover}, None), RunActs(c.w, acts))
      && RunActs(c.w, acts).st == Turned(c, e, s, cfg).0 && RunActs(c.w, acts).ls.home == c.w.ls.home
  }

  ghost function RunScene<T>(c: Scene<T>, es: seq<Event<T>>, s: nat, cfg: Settings): Scene<T>
    decreases |es|
  {
    if es == [] then c else RunScene(NextScene(c, es[0], s, cfg), es[1..], s, cfg)
  }

  ghost predicate AllLegal<T>(c: Scene<T>, es: seq<Event<T>>, mover: nat, s: nat, cfg: Settings)
    decreases |es|
  {
    es != [] ==> Legal(c, es[0], mover, s, cfg) && AllLegal(NextScene(c, es[0], s, cfg), es[1..], mover, s, cfg)
  }

  /** The mover can take a turn whenever the cache is in order. */
  lemma TurnIsLegal<T>(c: Scene<T>, locked: bool, now: nat, mover: nat, s: nat, cfg: Settings) returns (acts: seq<Act<T>>)
    requires Sound(c.w) && PageOf(c.w, c.sw.page, s)
    ensures Legal(c, Turn(locked, now, acts), mover, s, cfg)
  {
    hide Sound, MoverSpec.MoveOne;
    var r;
    acts, r := Begin(c.w, Bounds({mover}, None));
    if !c.sw.done && c.sw.pos < |c.sw.page| {
      acts, r := DoMoveOne(c.w, acts, Bounds({mover}, None), r, mover, c.sw.page[c.sw.pos], c.sw.page, s, locked, now, cfg);
    }
  }

  /** Steps that are not of the mover leave cleared chunks alone. */
  lemma StepStays<T>(w: World<T>, act: Act<T>)
    requires Sound(w) && May(w, act) && !act.op.Go?
    ensures Stays(w.st, After(w, act).st)
    ensures forall x :: x in w.ls.home ==> x in After(w, act).ls.home && After(w, act).ls.home[x] == w.ls.home[x]
  {
    MeetsNoCleared(w, act);
    hide Sound, Enabled, Rightful;
    StepElsewhere(w.st, act.op);
    HomesStay(w, act);
  }

  lemma MeetsNoCleared<T>(w: World<T>, act: Act<T>)
    requires Sound(w) && May(w, act) && !act.op.Go?
    ensures !act.op.Crawls() ==> !Cleared(w.st, act.op.it)
    ensures act.op.Come? ==> act.op.it !in w.ls.home
  {
    hide ListsInOrder, FreesInOrder, BindsOK, Backed, Rightful;
    if act.op.Come? {
      assert w.st.heads.Keys == w.ls.home.Keys;
    } else if !act.op.Crawls() {
      OpIs(w.st, w.ls, act.op);
    }
  }

  lemma StepElsewhere<T>(st: State<T>, op: Op<T>)
    requires !op.Go? && (op.Crawls() || !Cleared(st, op.it))
    ensures Stays(st, ItemRuns.Next(st, op))
  {
    hide Left, Headed, Given, Taken, Settled;
  }

  lemma HomesStay<T>(w: World<T>, act: Act<T>)
    requires !act.op.Go? && (act.op.Come? ==> act.op.it !in w.ls.home)
    ensures forall x :: x in w.ls.home ==> x in After(w, act).ls.home && After(w, act).ls.home[x] == w.ls.home[x]
  {
    hide ItemRuns.Next, NextRefs;
  }

  ghost predicate Orderly<T>(c: Scene<T>, s: nat) {
    Sound(c.w) && PageOf(c.w, c.sw.page, s) && c.sw.Safe(c.w.st)
  }

  lemma NextOrderly<T>(c: Scene<T>, e: Event<T>, mover: nat, s: nat, cfg: Settings)
    requires Orderly(c, s) && Legal(c, e, mover, s, cfg)
    ensures Orderly(NextScene(c, e, s, cfg), s) && NextScene(c, e, s, cfg).sw.page == c.sw.page
    ensures Stays(c.w.st, NextScene(c, e, s, cfg).w.st)
  {
    hide Sound, May, MoverSpec.NextEvent, MoverSpec.Movable, RunActs, After, MoverSpec.Sweep.Safe, Stays;
    match e
    case Work(act) =>
      StepSound(c.w, act);
      StepStays(c.w, act);
      MoverSpec.NextKeepsSafe(c.w.st, c.sw, MoverSpec.Work(After(c.w, act).st), s, cfg);
      WorkIs(c.w.st, c.sw, After(c.w, act).st, s, cfg);
    case Turn(locked, now, acts) =>
      forall i | 0 <= i < |c.sw.page| ensures MoverSpec.Movable(c.w.st, c.sw.page[i], s) {
        InOrderIsMovable(c.w, c.sw.page[i], s);
      }
      DoneSound(c.w, acts, Bounds({mover}, None), RunActs(c.w, acts));
      MoverSpec.NextKeepsSafe(c.w.st, c.sw, MoverSpec.Turn(locked, now), s, cfg);
  }

  lemma WorkIs<T>(st: State<T>, sw: MoverSpec.Sweep<T>, st': State<T>, s: nat, cfg: Settings)
    ensures MoverSpec.NextEvent(st, sw, MoverSpec.Work(st'), s, cfg) == (st', sw)
  {
  }

  /** In no table, on no list, on no freelist, held by nobody. */
  ghost predicate Vacated<T>(w: World<T>, x: T) {
    && Cleared(w.st, x) && RefsOf(w.refs, x) == multiset{}
    && (forall k :: k in w.st.bindings ==> w.st.bindings[k] != x)
    && (forall i :: 0 <= i < |w.st.lists| ==> x !in w.st.lists[i])
    && (forall i :: 0 <= i < |w.st.frees| ==> x !in w.st.frees[i])
  }

  lemma ClearedIsVacated<T>(w: World<T>, x: T)
    requires Sound(w) && Cleared(w.st, x)
    ensures Vacated(w, x)
  {
    assert Told(x, w.st.heads[x], w.ls, w.st.holders);
    BackedFor(w, x);
  }

  /** From a cache in order, whatever the other threads do between the turns of the mover and however
      often it starts over: the cache stays in order, cleared chunks stay cleared, and when the mover
      is done nothing refers to any chunk of the page. */
  lemma {:induction false} RunVacatesPage<T>(c: Scene<T>, es: seq<Event<T>>, mover: nat, s: nat, cfg: Settings)
    requires Orderly(c, s) && AllLegal(c, es, mover, s, cfg)
    ensures var r := RunScene(c, es, s, cfg);
            && Orderly(r, s) && r.sw.page == c.sw.page && Stays(c.w.st, r.w.st)
            && (r.sw.done ==> forall x :: x in c.sw.page ==> Vacated(r.w, x))
    decreases |es|
  {
    hide Legal, NextScene, Sound;
    if es != [] {
      NextOrderly(c, es[0], mover, s, cfg);
      hide Orderly;
      RunVacatesPage(NextScene(c, es[0], s, cfg), es[1..], mover, s, cfg);
    } else {
      forall x | x in c.sw.page && c.sw.done ensures Vacated(c.w, x) {
        ClearedIsVacated(c.w, x);
      }
    }
  }

  /** A move starts at the first chunk. */
  lemma StartIsOrderly<T>(w: World<T>, page: seq<T>, s: nat)
    requires Sound(w) && PageOf(w, page, s)
    ensures Orderly(Scene(w, MoverSpec.Sweep(page, 0, 0, false)), s)
  {
  }

  // ---------------------------------------------------------------- when the mover is done

  ghost function TurnCount<T>(es: seq<Event<T>>): nat
    decreases |es|
  {
    if es == [] then 0 else (if es[0].Turn? then 1 else 0) + TurnCount(es[1..])
  }

  /** No turn finds its chunk busy. */
  ghost predicate NeverBusy<T>(c: Scene<T>, es: seq<Event<T>>, s: nat, cfg: Settings)
    decreases |es|
  {
    es != [] ==>
      && (es[0].Turn? ==> !MoverSpec.FoundBusy(c.w.st, c.sw, MoverSpec.Turn(es[0].locked, es[0].now), s, cfg))
      && NeverBusy(NextScene(c, es[0], s, cfg), es[1..], s, cfg)
  }

  /** The turns to go if none is busy: the rest of the pass, and one more if this one had a busy chunk. */
  function ToGo<T>(sw: MoverSpec.Sweep<T>): nat {
    if sw.done || sw.pos > |sw.page| then 0 else |sw.page| - sw.pos + if sw.busy > 0 then |sw.page| else 0
  }

  lemma CalmTurn<T>(c: Scene<T>, e: Event<T>, s: nat, cfg: Settings)
    requires !c.sw.done ==> c.sw.pos < |c.sw.page|
    requires e.Turn? ==> !MoverSpec.FoundBusy(c.w.st, c.sw, MoverSpec.Turn(e.locked, e.now), s, cfg)
    ensures var sw := NextScene(c, e, s, cfg).sw;
            && (!sw.done ==> sw.pos < |sw.page|)
            && ToGo(sw) == (if e.Turn? && ToGo(c.sw) > 0 then ToGo(c.sw) - 1 else ToGo(c.sw))
            && (sw.done <==> ToGo(sw) == 0)
  {
    hide MoverSpec.FoundBusy, RunActs, After, MoverSpec.NextEvent;
    if e.Turn? {
      MoverSpec.EventAdvances(c.w.st, c.sw, MoverSpec.Turn(e.locked, e.now), s, cfg);
    }
  }

  /** As long as no turn is busy, the mover is done after exactly the turns to go, at most twice the
      chunks of the page; whatever the others do meanwhile. */
  lemma {:induction false} DoneWhenCalm<T>(c: Scene<T>, es: seq<Event<T>>, s: nat, cfg: Settings)
    requires !c.sw.done ==> c.sw.pos < |c.sw.page|
    requires NeverBusy(c, es, s, cfg)
    ensures RunScene(c, es, s, cfg).sw.done <==> TurnCount(es) >= ToGo(c.sw)
    ensures ToGo(c.sw) <= 2 * |c.sw.page|
    decreases |es|
  {
    hide NextScene, MoverSpec.FoundBusy;
    if es != [] {
      CalmTurn(c, es[0], s, cfg);
      DoneWhenCalm(NextScene(c, es[0], s, cfg), es[1..], s, cfg);
    }
  }

  /** What another thread does to the chunks of the page: nothing. */
  ghost predicate LeavesPage<T>(st: State<T>, r: State<T>, page: seq<T>) {
    forall x :: x in page && x in st.heads ==> x in r.heads && r.heads[x] == st.heads[x]
  }

  /** Free or cleared. */
  predicate Settled<T(==)>(st: State<T>, x: T) {
    x in st.heads && st.heads[x].flags.slabbed
  }

  /** No chunk of the page is held, or waits for its owner. */
  ghost predicate Quiet<T>(st: State<T>, page: seq<T>) {
    forall x :: x in page ==> Settled(st, x) || (st.Linked(x) && st.At(x).refcount == 1)
  }

  /** The mover finds no stripe locked, and the others leave the page alone. */
  ghost predicate Calm<T>(c: Scene<T>, e: Event<T>) {
    match e
    case Work(act) => LeavesPage(c.w.st, After(c.w, act).st, c.sw.page)
    case Turn(locked, now, acts) => !locked
  }

  ghost predicate AllCalm<T>(c: Scene<T>, es: seq<Event<T>>, s: nat, cfg: Settings)
    decreases |es|
  {
    es != [] ==> Calm(c, es[0]) && AllCalm(NextScene(c, es[0], s, cfg), es[1..], s, cfg)
  }

  /** One turn on a quiet page settles its chunk, and leaves the others settled and quiet. */
  lemma TurnSettles<T>(st: State<T>, x: T, page: seq<T>, s: nat, now: nat, cfg: Settings)
    requires MoverSpec.Movable(st, x, s) && x in page && Quiet(st, page)
    ensures var (r, busy) := MoverSpec.MoveOne(st, x, page, s, false, now, cfg);
            && Settled(r, x) && Quiet(r, page) && (Settled(st, x) ==> !busy)
            && forall z :: z in page && Settled(st, z) ==> Settled(r, z)
  {
    MoverSpec.MoveOutcome(st, x, page, s, false, now, cfg);
    MoverSpec.MoveElsewhere(st, x, page, s, false, now, cfg);
    hide MoverSpec.MoveOne, MoverSpec.Movable;
  }

  /** How far the mover has come: in stage 1 it has settled the chunks it passed; in stage 2 all chunks
      are settled and none was busy in this pass. */
  ghost predicate Stage<T>(c: Scene<T>, stage: nat) {
    var st, sw := c.w.st, c.sw;
    && (!sw.done ==> sw.pos < |sw.page|)
    && Quiet(st, sw.page)
    && (stage >= 1 ==> forall i :: 0 <= i < sw.pos && i < |sw.page| ==> Settled(st, sw.page[i]))
    && (stage >= 2 ==> sw.busy == 0 && forall x :: x in sw.page ==> Settled(st, x))
  }

  /** The turns that are enough from there. */
  function Enough<T>(sw: MoverSpec.Sweep<T>, stage: nat): nat {
    if sw.done || sw.pos >= |sw.page| then 0
    else |sw.page| - sw.pos + if stage == 0 then |sw.page| + |sw.page| else if stage == 1 then |sw.page| else 0
  }

  lemma QuietTurn<T>(st: State<T>, r: State<T>, sw: MoverSpec.Sweep<T>, busy: bool, c: Scene<T>, c': Scene<T>, stage: nat) returns (stage': nat)
    requires c.w.st == st && c.sw == sw && Stage(c, stage) && !sw.done && c'.w.st == r && c'.sw == sw.Advance(busy)
    requires Quiet(r, sw.page) && Settled(r, sw.page[sw.pos]) && (Settled(st, sw.page[sw.pos]) ==> !busy)
    requires forall z :: z in sw.page && Settled(st, z) ==> Settled(r, z)
    ensures Stage(c', stage') && Enough(c'.sw, stage') + 1 <= Enough(sw, stage)
  {
    hide Quiet, MoverSpec.Sweep.Safe;
    if sw.pos + 1 < |sw.page| || c'.sw.done {
      stage' := stage;
      if stage >= 1 {
        assert forall i :: 0 <= i < sw.pos ==> sw.page[i] in sw.page;
      }
    } else if stage == 0 {
      stage' := 1;
    } else {
      stage' := 2;
      forall x | x in sw.page ensures Settled(r, x) {
        var i :| 0 <= i < |sw.page| && sw.page[i] == x;
        if i < sw.pos {
          assert sw.page[i] in sw.page;
        }
      }
    }
  }

  lemma CalmStep<T>(c: Scene<T>, e: Event<T>, mover: nat, s: nat, cfg: Settings, stage: nat) returns (stage': nat)
    requires Orderly(c, s) && Legal(c, e, mover, s, cfg) && Calm(c, e) && Stage(c, stage)
    ensures var c' := NextScene(c, e, s, cfg);
            Stage(c', stage') && Enough(c'.sw, stage') + (if e.Turn? && !c.sw.done then 1 else 0) <= Enough(c.sw, stage)
  {
    hide Sound, May, MoverSpec.MoveOne, MoverSpec.Movable, RunActs, After, MoverSpec.Sweep.Safe, Done, Settled;
    var c' := NextScene(c, e, s, cfg);
    stage' := stage;
    if e.Turn? && !c.sw.done {
      var x := c.sw.page[c.sw.pos];
      InOrderIsMovable(c.w, x, s);
      TurnSettles(c.w.st, x, c.sw.page, s, e.now, cfg);
      hide Stage, Quiet;
      stage' := QuietTurn(c.w.st, c'.w.st, c.sw, MoverSpec.MoveOne(c.w.st, x, c.sw.page, s, false, e.now, cfg).1, c, c', stage);
    } else {
      StaysQuiet(c, c', stage);
    }
  }

  lemma StaysQuiet<T>(c: Scene<T>, c': Scene<T>, stage: nat)
    requires Stage(c, stage) && c'.sw == c.sw && LeavesPage(c.w.st, c'.w.st, c.sw.page)
    ensures Stage(c', stage)
  {
  }

  /** If from some time on no chunk of the page is held or locked by others, the mover is done after at
      most three times the chunks of the page: the rest of the pass under way, one that rescues or gives
      up every item that is left, and one that finds nothing busy.  From the first chunk, two are enough. */
  lemma {:induction false} DoneWhenQuiet<T>(c: Scene<T>, es: seq<Event<T>>, mover: nat, s: nat, cfg: Settings, stage: nat)
    requires Orderly(c, s) && AllLegal(c, es, mover, s, cfg) && AllCalm(c, es, s, cfg) && Stage(c, stage)
    requires TurnCount(es) >= Enough(c.sw, stage)
    ensures RunScene(c, es, s, cfg).sw.done
    ensures Enough(c.sw, stage) <= 3 * |c.sw.page| && (stage > 0 ==> Enough(c.sw, stage) <= 2 * |c.sw.page|)
    decreases |es|
  {
    hide Orderly, Legal, Calm, NextScene;
    if es != [] {
      var stage' := CalmStep(c, es[0], mover, s, cfg, stage);
      NextOrderly(c, es[0], mover, s, cfg);
      hide Stage;
      DoneWhenQuiet(NextScene(c, es[0], s, cfg), es[1..], mover, s, cfg, stage');
    } else {
      StageIs(c, stage);
    }
  }

  lemma StageIs<T>(c: Scene<T>, stage: nat)
    requires Stage(c, stage)
    ensures c.sw.done || c.sw.pos < |c.sw.page|
  {
  }

  lemma QuietIsStage<T>(w: World<T>, page: seq<T>)
    requires Quiet(w.st, page) && page != []
    ensures Stage(Scene(w, MoverSpec.Sweep(page, 0, 0, false)), 1)
  {
  }
}
