/** The queue of bumps between readers and the LRU maintainer, while all other threads go on. */
module BumpQueue {
  import opened Common
  import opened Items
  import opened CacheSpec
  import opened ItemRuns
  import opened ItemOwners

  /** The queue of items to be bumped; its references are those of the owner `buffer`. */
  datatype Desk<T(==)> = Desk(w: World<T>, queue: seq<T>)

  /** On behalf of the queue a reader takes a reference to an item it queues, and the maintainer
      updates the item of the first entry and lets go of its reference. */
  ghost predicate Proper<T>(queue: seq<T>, act: Act<T>, buffer: nat) {
    act.who == buffer ==>
      || act.op.Hold?
      || (queue != [] && act.op.it == queue[0] && (act.op.Drop? || act.op.Bump? || act.op.Stamp? || act.op.Flag? || act.op.Relist?))
  }

  function NextQueue<T>(queue: seq<T>, act: Act<T>, buffer: nat): seq<T> {
    if act.who != buffer then queue
    else if act.op.Hold? then queue + [act.op.it]
    else if act.op.Drop? && queue != [] then queue[1..]
    else queue
  }

  ghost function NextDesk<T>(d: Desk<T>, act: Act<T>, buffer: nat): Desk<T> {
    Desk(After(d.w, act), NextQueue(d.queue, act, buffer))
  }

  ghost function RunDesk<T>(d: Desk<T>, acts: seq<Act<T>>, buffer: nat): Desk<T>
    decreases |acts|
  {
    if acts == [] then d else RunDesk(NextDesk(d, acts[0], buffer), acts[1..], buffer)
  }

  ghost predicate AllProper<T>(d: Desk<T>, acts: seq<Act<T>>, buffer: nat)
    decreases |acts|
  {
    acts != [] ==>
      May(d.w, acts[0]) && Proper(d.queue, acts[0], buffer) && AllProper(NextDesk(d, acts[0], buffer), acts[1..], buffer)
  }

  /** Each entry holds one reference, and there are no others. */
  ghost predicate Covered<T>(d: Desk<T>, buffer: nat) {
    && Sound(d.w) && (forall x :: x in d.queue ==> RefsOf(d.w.refs, x)[buffer] == multiset(d.queue)[x])
    && (forall x :: x in d.w.refs ==> RefsOf(d.w.refs, x)[buffer] == multiset(d.queue)[x])
  }

  lemma EmptyIsCovered<T>(w: World<T>, buffer: nat)
    requires Sound(w) && forall x :: x in w.refs ==> buffer !in w.refs[x]
    ensures Covered(Desk(w, []), buffer)
  {
    hide Sound;
  }

  lemma CoveredIs<T>(d: Desk<T>, buffer: nat, x: T)
    requires Covered(d, buffer)
    ensures RefsOf(d.w.refs, x)[buffer] == multiset(d.queue)[x] && Sound(d.w)
  {
  }

  /** A step of another owner neither gives nor takes references of mine. */
  lemma OthersLeave<T>(w: World<T>, act: Act<T>, me: nat, x: T)
    requires Sound(w) && May(w, act) && act.who != me
    ensures RefsOf(After(w, act).refs, x)[me] == RefsOf(w.refs, x)[me]
  {
    if me in RefsOf(w.refs, x) {
      OthersRefs(w, act, me, x);
    } else {
      hide Sound, May, ItemRuns.Next, NextLinks;
    }
  }

  lemma QueueCounts<T>(queue: seq<T>, act: Act<T>, buffer: nat, x: T)
    requires Proper(queue, act, buffer)
    ensures act.who != buffer ==> NextQueue(queue, act, buffer) == queue
    ensures act.who == buffer ==>
              multiset(NextQueue(queue, act, buffer))[x] == multiset(queue)[x] +
                (if act.op.it != x then 0 else if act.op.Hold? then 1 else if act.op.Drop? then -1 else 0)
  {
    if queue != [] {
      assert queue == [queue[0]] + queue[1..];
    }
  }

  lemma MyRefs<T>(refs: Refs<T>, act: Act<T>, x: T)
    requires Rightful(refs, act) && (act.op.Hold? || act.op.Drop? || act.op.Bump? || act.op.Stamp? || act.op.Flag? || act.op.Relist?)
    ensures RefsOf(NextRefs(refs, act), x)[act.who] == RefsOf(refs, x)[act.who] +
              (if act.op.it != x then 0 else if act.op.Hold? then 1 else if act.op.Drop? then -1 else 0)
  {
  }

  lemma StepCovered<T>(d: Desk<T>, act: Act<T>, buffer: nat)
    requires Covered(d, buffer) && May(d.w, act) && Proper(d.queue, act, buffer)
    ensures Covered(NextDesk(d, act, buffer), buffer)
  {
    hide Covered, Sound, Enabled, RefsOf, NextQueue, NextRefs, ItemRuns.Next, NextLinks, Rightful;
    CoveredIs(d, buffer, act.op.it);
    StepSound(d.w, act);
    var d' := NextDesk(d, act, buffer);
    forall x ensures RefsOf(d'.w.refs, x)[buffer] == multiset(d'.queue)[x] {
      CoveredIs(d, buffer, x);
      QueueCounts(d.queue, act, buffer, x);
      if act.who == buffer {
        MyRefs(d.w.refs, act, x);
      } else {
        OthersLeave(d.w, act, buffer, x);
      }
    }
    AreCovered(d', buffer);
  }

  lemma AreCovered<T>(d: Desk<T>, buffer: nat)
    requires Sound(d.w) && forall x :: RefsOf(d.w.refs, x)[buffer] == multiset(d.queue)[x]
    ensures Covered(d, buffer)
  {
  }

  /** The item of an entry is held and not freed, and the queue may let go of it. */
  ghost predicate Entered<T>(d: Desk<T>, buffer: nat, x: T) {
    && d.w.st.Holds(x) && !d.w.st.At(x).flags.slabbed && d.w.st.At(x).refcount >= multiset(d.queue)[x] > 0
    && May(d.w, Act(buffer, Op.Drop(x)))
  }

  lemma EntryHolds<T>(d: Desk<T>, buffer: nat, x: T)
    requires Covered(d, buffer) && x in d.queue
    ensures Entered(d, buffer, x)
  {
    CoveredIs(d, buffer, x);
    hide Covered;
    KeptSelf(d.w, x);
    assert |RefsOf(d.w.refs, x)| >= RefsOf(d.w.refs, x)[buffer];
  }

  /** Whatever readers, evictions, replacements and page moves do between queueing an entry and
      working it off, and between one entry and the next: every entry still holds its reference, its
      item has not been freed, and the maintainer may let go of it. */
  lemma {:induction false} QueuedAreHeld<T>(d: Desk<T>, acts: seq<Act<T>>, buffer: nat)
    requires Covered(d, buffer) && AllProper(d, acts, buffer)
    ensures var r := RunDesk(d, acts, buffer);
            Covered(r, buffer) && forall x :: x in r.queue ==> Entered(r, buffer, x)
    decreases |acts|
  {
    if acts != [] {
      StepCovered(d, acts[0], buffer);
      hide Covered, May, Proper, NextDesk;
      QueuedAreHeld(NextDesk(d, acts[0], buffer), acts[1..], buffer);
    } else {
      hide Covered, Proper, Sound, Enabled, May, Rightful;
      forall x | x in d.queue ensures Entered(d, buffer, x) {
        EntryHolds(d, buffer, x);
      }
    }
  }
}
