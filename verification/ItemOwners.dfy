/** Who holds the references: readers, owners of new items, queued bumps, evictions, the page mover. */
module ItemOwners {
  import opened Common
  import opened Items
  import opened CacheSpec
  import opened ItemLaws
  import opened ItemRuns

  /** A step, and by whom. */
  datatype Act<T> = Act(who: nat, op: Op<T>)

  /** Whose the references to each item are. */
  type Refs<T> = map<T, multiset<nat>>

  function RefsOf<T(==)>(refs: Refs<T>, x: T): multiset<nat> {
    if x in refs then refs[x] else multiset{}
  }

  /** Nobody drops a reference of another one, nor clears or frees a chunk that another one holds. */
  ghost predicate Rightful<T>(refs: Refs<T>, act: Act<T>) {
    && (act.op.Drop? ==> act.who in RefsOf(refs, act.op.it))
    && (act.op.Clear? || act.op.Free? ==> RefsOf(refs, act.op.it) <= multiset{act.who})
  }

  function NextRefs<T(==)>(refs: Refs<T>, act: Act<T>): Refs<T> {
    var x := act.op.it;
    match act.op
    case Hold(_) => refs[x := RefsOf(refs, x) + multiset{act.who}]
    case Out(_) => refs[x := RefsOf(refs, x) + multiset{act.who}]
    case Drop(_) => refs[x := RefsOf(refs, x) - multiset{act.who}]
    case Own(_, h) => refs[x := if h.refcount == 0 then multiset{} else multiset{act.who}]
    case Clear(_) => refs[x := multiset{}]
    case CutFree(_, _) => refs[x := multiset{}]
    case Free(_, _) => refs[x := multiset{}]
    case _ => refs
  }

  /** Every reference counted is somebody's. */
  ghost predicate Backed<T>(st: State<T>, refs: Refs<T>) {
    && (forall x :: x in refs ==> |refs[x]| == Held(st.holders, x))
    && (forall x :: x in st.holders && st.holders[x] > 0 ==> x in refs)
  }

  datatype World<T(==)> = World(st: State<T>, ls: Links<T>, refs: Refs<T>)

  ghost function After<T>(w: World<T>, act: Act<T>): World<T> {
    World(Next(w.st, act.op), NextLinks(w.st, w.ls, act.op), NextRefs(w.refs, act))
  }

  ghost predicate Sound<T>(w: World<T>) {
    InOrder(w.st, w.ls) && Backed(w.st, w.refs)
  }

  ghost predicate May<T>(w: World<T>, act: Act<T>) {
    Enabled(w.st, w.ls, act.op) && Rightful(w.refs, act)
  }

  /** All references in one hand. */
  function Lent<T(==)>(holders: map<T, nat>, who: nat): Refs<T> {
    map x | x in holders :: multiset(seq(holders[x], i => who))
  }

  /** Any cache in order is where a run can start. */
  lemma StartIsSound<T>(st: State<T>, ls: Links<T>, who: nat)
    requires InOrder(st, ls)
    ensures Sound(World(st, ls, Lent(st.holders, who)))
  {
    hide InOrder;
  }

  /** The owners are counted as the references are. */
  lemma OwnersCount<T>(refs: Refs<T>, act: Act<T>, y: T)
    requires Rightful(refs, act) && (act.op.Own? ==> act.op.h.refcount <= 1)
    ensures |RefsOf(NextRefs(refs, act), y)| == Tally(|RefsOf(refs, y)|, act.op, y)
  {
  }

  lemma BackedIs<T>(w: World<T>, y: T)
    ensures Backed(w.st, w.refs) ==> |RefsOf(w.refs, y)| == Held(w.st.holders, y)
    ensures (forall x :: |RefsOf(w.refs, x)| == Held(w.st.holders, x)) ==> Backed(w.st, w.refs)
  {
    if forall x :: |RefsOf(w.refs, x)| == Held(w.st.holders, x) {
      forall x | x in w.refs ensures |w.refs[x]| == Held(w.st.holders, x) {
        assert |RefsOf(w.refs, x)| == Held(w.st.holders, x);
      }
      forall x | x in w.st.holders && w.st.holders[x] > 0 ensures x in w.refs {
        assert |RefsOf(w.refs, x)| == Held(w.st.holders, x);
      }
    }
  }

  lemma StepBacked<T>(w: World<T>, act: Act<T>)
    requires Sound(w) && May(w, act)
    ensures Backed(After(w, act).st, After(w, act).refs)
  {
    hide InOrder, Backed, NextRefs, ItemRuns.Next, NextLinks, Rightful, Held, Tally, RefsOf;
    var r := After(w, act);
    forall y ensures |RefsOf(r.refs, y)| == Held(r.st.holders, y) {
      StepCounts(w.st, w.ls, act.op, y);
      OwnersCount(w.refs, act, y);
      BackedIs(w, y);
    }
    BackedIs(r, act.op.it);
  }

  lemma StepSound<T>(w: World<T>, act: Act<T>)
    requires Sound(w) && May(w, act)
    ensures Sound(After(w, act))
  {
    StepBacked(w, act);
    StepInOrder(w.st, w.ls, act.op);
    hide InOrder, Backed, Next, NextLinks, NextRefs;
  }

  ghost function RunActs<T>(w: World<T>, acts: seq<Act<T>>): World<T>
    decreases |acts|
  {
    if acts == [] then w else RunActs(After(w, acts[0]), acts[1..])
  }

  ghost predicate AllMay<T>(w: World<T>, acts: seq<Act<T>>)
    decreases |acts|
  {
    acts != [] ==> May(w, acts[0]) && AllMay(After(w, acts[0]), acts[1..])
  }

  /** What somebody who holds an item relies on: it is not free, and its content is what it was. */
  ghost predicate Kept<T>(w: World<T>, w': World<T>, x: T) {
    && x in w.st.heads && x in w'.st.heads && !w'.st.heads[x].flags.slabbed
    && w'.st.heads[x].refcount >= |RefsOf(w'.refs, x)|
    && w'.st.heads[x].key == w.st.heads[x].key && w'.st.heads[x].value == w.st.heads[x].value
    && w'.st.heads[x].nbytes == w.st.heads[x].nbytes && w'.st.heads[x].exptime == w.st.heads[x].exptime
  }

  lemma KeptSelf<T>(w: World<T>, x: T)
    requires Sound(w) && RefsOf(w.refs, x) != multiset{}
    ensures Kept(w, w, x) && x !in w.ls.raw
  {
    hide ListsInOrder, FreesInOrder, BindsOK;
    assert |RefsOf(w.refs, x)| > 0;
    assert x in w.st.holders && x in w.ls.home;
    assert Told(x, w.st.heads[x], w.ls, w.st.holders);
  }

  /** A step of somebody else leaves my references, and what I hold. */
  lemma OthersKeep<T>(w: World<T>, act: Act<T>, me: nat, x: T)
    requires Sound(w) && May(w, act) && me in RefsOf(w.refs, x) && (act.who == me ==> act.op.it != x)
    ensures RefsOf(After(w, act).refs, x)[me] == RefsOf(w.refs, x)[me] && Kept(w, After(w, act), x)
  {
    StepSound(w, act);
    KeptSelf(w, x);
    OthersRefs(w, act, me, x);
    KeptSelf(After(w, act), x);
    SameContent(w, act, me, x);
    hide Sound, May, RefsOf, After;
  }

  lemma OthersRefs<T>(w: World<T>, act: Act<T>, me: nat, x: T)
    requires Sound(w) && May(w, act) && me in RefsOf(w.refs, x) && (act.who == me ==> act.op.it != x)
    ensures RefsOf(After(w, act).refs, x)[me] == RefsOf(w.refs, x)[me]
    ensures act.op.it == x ==> !act.op.Own? && !act.op.Clear? && !act.op.Free? && !act.op.CutFree? && !act.op.Take? && !act.op.Go? && !act.op.Come?
  {
    KeptSelf(w, x);
    hide ListsInOrder, BindsOK, Sound, Backed, Next;
    if act.op.it == x {
      assert (act.op.Clear? || act.op.Free?) ==> RefsOf(w.refs, x)[me] <= multiset{act.who}[me];
      if act.op.Take? {
        TakenIsFree(w, act.op);
      }
    }
  }

  lemma TakenIsFree<T>(w: World<T>, op: Op<T>)
    requires Sound(w) && Enabled(w.st, w.ls, op) && op.Take?
    ensures op.it in w.st.heads && w.st.heads[op.it].flags == FREE
  {
    OpIs(w.st, w.ls, op);
  }

  lemma SameContent<T>(w: World<T>, act: Act<T>, me: nat, x: T)
    requires Sound(w) && May(w, act) && me in RefsOf(w.refs, x) && (act.who == me ==> act.op.it != x)
    requires x in w.st.heads && x in After(w, act).st.heads
    ensures var h, h' := w.st.heads[x], After(w, act).st.heads[x];
            h'.key == h.key && h'.value == h.value && h'.nbytes == h.nbytes && h'.exptime == h.exptime
  {
    OthersRefs(w, act, me, x);
    hide Sound, May, RefsOf, NextRefs, NextLinks;
    ContentKept(w.st, act.op, x);
  }

  lemma ContentKept<T>(st: State<T>, op: Op<T>, x: T)
    requires x in st.heads && x in Next(st, op).heads
    requires op.it == x ==> !op.Own? && !op.Come? && !op.Go?
    ensures var h, h' := st.heads[x], Next(st, op).heads[x];
            h'.key == h.key && h'.value == h.value && h'.nbytes == h.nbytes && h'.exptime == h.exptime
  {
    hide Left, Headed, Given, Taken, Settled;
  }

  /** While I keep a reference to an item, nobody frees it or changes its content, in any run in which
      I leave it alone and the others hold, drop, unlink, replace, evict, bump and move what they may. */
  lemma {:induction false} OwnerKeepsItem<T>(w: World<T>, acts: seq<Act<T>>, me: nat, x: T)
    requires Sound(w) && AllMay(w, acts) && me in RefsOf(w.refs, x)
    requires forall i :: 0 <= i < |acts| && acts[i].who == me ==> acts[i].op.it != x
    ensures var r := RunActs(w, acts);
            Sound(r) && Kept(w, r, x) && RefsOf(r.refs, x)[me] == RefsOf(w.refs, x)[me]
    decreases |acts|
  {
    KeptSelf(w, x);
    if acts != [] {
      StepSound(w, acts[0]);
      OthersKeep(w, acts[0], me, x);
      hide Sound, May, After;
      OwnerKeepsItem(After(w, acts[0]), acts[1..], me, x);
    }
  }
}
