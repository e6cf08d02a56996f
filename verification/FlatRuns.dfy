/** Flat mode, the first minute of the clock: every list stays sorted by last link or hit, so an
    eviction takes the item that was used longest ago. */
module FlatRuns {
  import opened Common
  import opened Items
  import opened LruSpec
  import opened Recency
  import opened CacheSpec
  import opened ItemLaws
  import opened ItemRuns
  import opened ItemOwners
  import opened Operations
  import Eviction

  /** A cache in flat mode; `touched` is the history: when an item was last linked or hit. */
  datatype Past<!T(==)> = Past(w: World<T>, touched: map<T, nat>, tick: nat, now: nat)

  datatype Event<T> = Step(act: Act<T>) | Clock

  ghost function Touched<T>(p: Past<T>, op: Op<T>): map<T, nat> {
    if op.Link? || (op.Bump? && p.w.st.Linked(op.it)) then p.touched[op.it := p.tick] else p.touched
  }

  ghost function Later<T>(p: Past<T>, e: Event<T>): Past<T> {
    match e
    case Step(act) => Past(After(p.w, act), Touched(p, act.op), p.tick + 1, p.now)
    case Clock => p.(now := p.now + 1)
  }

  /** Steps of flat mode, taken at the time of the clock. */
  ghost predicate Flatly<T>(p: Past<T>, e: Event<T>) {
    e.Step? ==> May(p.w, e.act) && Bounds({e.act.who}, Some(p.now)).Keeps(e.act)
  }

  /** What is linked was touched, not later than now. */
  ghost predicate Dated<T>(p: Past<T>) {
    forall x :: x in p.w.st.heads && p.w.st.heads[x].flags.linked ==>
      x in p.touched && p.touched[x] < p.tick && p.w.st.heads[x].time <= p.now
  }

  /** Each list, but for its crawler, has the most recently touched item first. */
  ghost predicate Sorted<T>(p: Past<T>) {
    && |p.w.st.lists| == LIST_COUNT == |p.w.ls.crawlers|
    && forall i :: 0 <= i < LIST_COUNT ==> ByRecency(Removed(p.w.st.lists[i], p.w.ls.crawlers[i]), p.touched)
  }

  ghost predicate Good<T>(p: Past<T>) {
    Sound(p.w) && Dated(p) && Sorted(p)
  }

  // ---------------------------------------------------------------- one list

  lemma TouchOther<T>(s: seq<T>, touched: map<T, nat>, x: T, tick: nat)
    requires ByRecency(s, touched) && x !in s
    ensures ByRecency(s, touched[x := tick])
  {
  }

  lemma TouchHead<T>(s: seq<T>, touched: map<T, nat>, x: T, tick: nat)
    requires ByRecency(s, touched) && x !in s && forall y :: y in s ==> touched[y] < tick
    ensures ByRecency([x] + s, touched[x := tick])
  {
    var r := [x] + s;
    assert forall i :: 0 < i < |r| ==> r[i] == s[i - 1];
  }

  /** Linked as the head, seen without the crawler. */
  lemma HeadRefines<T>(s: seq<T>, x: T, c: T)
    requires x != c
    ensures Removed([x] + s, c) == [x] + Removed(s, c)
  {
    assert ([x] + s)[1..] == s;
  }

  /** The crawler comes, goes, and moves on: the others do not notice. */
  lemma CrawlerRefines<T>(s: seq<T>, c: T)
    requires Distinct(s)
    ensures c !in s ==> Removed(s + [c], c) == Removed(s, c)
    ensures Removed(Removed(s, c), c) == Removed(s, c)
    ensures c in s ==> Removed(CrawlStep(s, c), c) == Removed(s, c)
  {
    RemovedOnce(s, c);
    RemovedOnce(Removed(s, c), c);
    if c in s {
      CrawlStepKeepsOrder(s, c);
    } else {
      assert (s + [c])[..|s|] == s && (s + [c])[|s|] == c;
      RemovedAt(s + [c], c, |s|);
      assert s + [] == s;
    }
  }

  // ---------------------------------------------------------------- one step

  /** Only linking and bumping change the time of a linked item. */
  lemma TimesKept<T>(st: State<T>, op: Op<T>, x: T)
    requires !op.Stamp? && (op.Own? || op.Come? ==> !op.h.flags.linked) && (op.Flag? && op.it in st.heads ==> op.f.linked == st.At(op.it).flags.linked)
    requires op.Flag? ==> op.it in st.heads
    requires x in ItemRuns.Next(st, op).heads && ItemRuns.Next(st, op).heads[x].flags.linked
    ensures var r := ItemRuns.Next(st, op);
            if x == op.it && op.Link? then r.heads[x].time == op.now
            else st.Linked(x) && (r.heads[x].time == st.heads[x].time || (op.Bump? && x == op.it && r.heads[x].time == op.now))
  {
    hide Left, Headed, Given, Taken, Settled, Crawled;
  }

  lemma FlatlyIs<T>(p: Past<T>, e: Event<T>)
    requires Flatly(p, e) && e.Step?
    ensures var op := e.act.op;
            && !op.Stamp? && !op.Relist? && (op.Own? || op.Come? ==> !op.h.flags.linked) && (op.Flag? ==> op.f.linked == p.w.st.At(op.it).flags.linked && op.it in p.w.st.heads)
            && (op.Link? || op.Bump? ==> op.now == p.now)
  {
  }

  lemma StepDated<T>(p: Past<T>, e: Event<T>)
    requires Dated(p) && Flatly(p, e)
    ensures Dated(Later(p, e))
  {
    if e.Step? {
      FlatlyIs(p, e);
      hide Flatly, ItemRuns.Next, NextLinks, NextRefs;
      forall x | x in Later(p, e).w.st.heads && Later(p, e).w.st.heads[x].flags.linked
        ensures x in Later(p, e).touched && Later(p, e).touched[x] < p.tick + 1 && Later(p, e).w.st.heads[x].time <= p.now
      {
        TimesKept(p.w.st, e.act.op, x);
      }
    }
  }

  /** What is known of list i. */
  lemma ListIs<T>(p: Past<T>, i: nat)
    requires Good(p) && i < LIST_COUNT
    ensures |p.w.st.lists| == LIST_COUNT == |p.w.ls.crawlers|
    ensures var s, c := p.w.st.lists[i], p.w.ls.crawlers[i];
            && Distinct(s) && Distinct(Removed(s, c)) && ByRecency(Removed(s, c), p.touched)
            && (forall y :: y in Removed(s, c) ==> y in s && y != c && p.w.st.Linked(y) && p.touched[y] < p.tick)
  {
    ListIsLinked(p.w, i);
    RemovedOnce(p.w.st.lists[i], p.w.ls.crawlers[i]);
  }

  /** What is known of the item of a step on lists. */
  lemma ItemIs<T>(p: Past<T>, op: Op<T>)
    requires Good(p) && Enabled(p.w.st, p.w.ls, op) && (op.Out? || op.Link? || op.Bump?)
    ensures |p.w.st.lists| == LIST_COUNT == |p.w.ls.crawlers|
    ensures var x, i := op.it, p.w.st.At(op.it).clsid;
            && x in p.w.st.heads && (forall j :: 0 <= j < LIST_COUNT ==> x != p.w.ls.crawlers[j])
            && (op.Link? || p.w.st.Linked(x) ==> i < LIST_COUNT)
            && (forall j :: 0 <= j < LIST_COUNT && x in p.w.st.lists[j] ==> j == i && !op.Link?)
            && (p.w.st.Linked(x) ==> p.w.st.At(x).time <= p.now)
  {
    OpIs(p.w.st, p.w.ls, op);
    ItemListed(p.w, op.it);
  }

  lemma ItemListed<T>(w: World<T>, x: T)
    requires Sound(w) && x in w.st.heads
    ensures |w.st.lists| == |w.ls.crawlers| == LIST_COUNT
    ensures forall j :: 0 <= j < LIST_COUNT && x in w.st.lists[j] ==> w.st.Linked(x) && j == w.st.At(x).clsid
    ensures forall j :: 0 <= j < LIST_COUNT ==> x != w.ls.crawlers[j]
  {
    assert Told(x, w.st.heads[x], w.ls, w.st.holders);
  }

  /** How a step changes the lists. */
  lemma ListsAre<T>(st: State<T>, op: Op<T>, now: nat)
    requires !op.Relist? && (op.Bump? ==> op.now == now) && now < ITEM_UPDATE_INTERVAL
    requires st.Linked(op.it) ==> st.At(op.it).time <= now
    ensures var r, x, i := ItemRuns.Next(st, op).lists, op.it, st.At(op.it).clsid;
            if op.Out? then r == Left(st.lists, i, x)
            else if op.Link? then r == Headed(st.lists, i, x)
            else if op.Bump? && st.Linked(x) then r == Headed(Left(st.lists, i, x), i, x)
            else op.Crawls() || r == st.lists
  {
    hide Left, Headed, Given, Taken, Settled;
    if op.Bump? && st.Linked(op.it) {
      StaleExactly(st.At(op.it).time, now);
    }
  }

  lemma OutSorted<T>(s: seq<T>, x: T, c: T, touched: map<T, nat>)
    requires Distinct(Removed(s, c)) && ByRecency(Removed(s, c), touched)
    ensures ByRecency(Removed(Removed(s, x), c), touched)
  {
    RemovedTwice(s, x, c);
    RemovedByRecency(Removed(s, c), touched, x);
  }

  /** To the head, from wherever it was. */
  lemma HeadSorted<T>(s: seq<T>, x: T, c: T, touched: map<T, nat>, tick: nat)
    requires Distinct(s) && ByRecency(Removed(s, c), touched) && x != c
    requires forall y :: y in Removed(s, c) ==> touched[y] < tick
    ensures ByRecency(Removed([x] + Removed(s, x), c), touched[x := tick])
  {
    RemovedOnce(s, x);
    RemovedOnce(s, c);
    RemovedTwice(s, x, c);
    RemovedByRecency(Removed(s, c), touched, x);
    RemovedOnce(Removed(s, c), x);
    HeadRefines(Removed(s, x), x, c);
    hide Distinct, ByRecency;
    TouchHead(Removed(Removed(s, x), c), touched, x, tick);
  }

  /** A step on items keeps list j sorted. */
  lemma ItemSorted<T>(p: Past<T>, act: Act<T>, j: nat)
    requires Good(p) && Flatly(p, Step(act)) && p.now < ITEM_UPDATE_INTERVAL && j < LIST_COUNT && !act.op.Crawls()
    ensures var r := Later(p, Step(act));
            |r.w.st.lists| == LIST_COUNT == |p.w.ls.crawlers| && ByRecency(Removed(r.w.st.lists[j], p.w.ls.crawlers[j]), r.touched)
  {
    hide Good, Flatly, Removed, ByRecency, Distinct, ItemRuns.Next, NextLinks, NextRefs, Left, Headed;
    var op, x := act.op, act.op.it;
    OpOf(p, act);
    ListIs(p, j);
    if op.Out? || op.Link? || op.Bump? {
      ItemIs(p, op);
    }
    ListsAre(p.w.st, op, p.now);
    var s, c, i := p.w.st.lists[j], p.w.ls.crawlers[j], p.w.st.At(x).clsid;
    if op.Out? {
      LeftAt(p.w.st.lists, i, x, j);
      if j == i {
        OutSorted(s, x, c, p.touched);
      }
    } else if op.Link? || (op.Bump? && p.w.st.Linked(x)) {
      NotIn(s, x);
      HeadedAt(p.w.st.lists, i, x, j);
      LeftAt(p.w.st.lists, i, x, j);
      HeadedAt(Left(p.w.st.lists, i, x), i, x, j);
      if j == i {
        HeadSorted(s, x, c, p.touched, p.tick);
      } else {
        TouchOther(Removed(s, c), p.touched, x, p.tick);
      }
    }
  }

  lemma NotIn<T>(s: seq<T>, x: T)
    requires Distinct(s)
    ensures x !in s ==> Removed(s, x) == s
  {
    RemovedOnce(s, x);
  }

  lemma LeftAt<T>(ss: seq<seq<T>>, i: nat, x: T, j: nat)
    requires i < |ss| && j < |ss|
    ensures |Left(ss, i, x)| == |ss| && Left(ss, i, x)[j] == if j == i then Removed(ss[j], x) else ss[j]
  {
  }

  lemma HeadedAt<T>(ss: seq<seq<T>>, i: nat, x: T, j: nat)
    requires i < |ss| && j < |ss|
    ensures |Headed(ss, i, x)| == |ss| && Headed(ss, i, x)[j] == if j == i then [x] + ss[j] else ss[j]
  {
  }

  lemma OpOf<T>(p: Past<T>, act: Act<T>)
    requires Good(p) && Flatly(p, Step(act))
    ensures !act.op.Relist? && (act.op.Bump? || act.op.Link? ==> act.op.now == p.now) && Enabled(p.w.st, p.w.ls, act.op)
    ensures p.w.st.Linked(act.op.it) ==> p.w.st.At(act.op.it).time <= p.now
  {
  }

  /** A step of a crawler keeps list j sorted. */
  lemma CrawlSorted<T>(p: Past<T>, act: Act<T>, j: nat)
    requires Good(p) && Flatly(p, Step(act)) && j < LIST_COUNT && act.op.Crawls()
    ensures var r := Later(p, Step(act));
            |r.w.st.lists| == LIST_COUNT == |p.w.ls.crawlers| && ByRecency(Removed(r.w.st.lists[j], p.w.ls.crawlers[j]), r.touched)
  {
    hide Good, Removed, ByRecency, Distinct, CrawlStep;
    OpOf(p, act);
    ListIs(p, j);
    CrawlerRefines(p.w.st.lists[j], p.w.ls.crawlers[j]);
  }

  lemma StepGood<T>(p: Past<T>, e: Event<T>)
    requires Good(p) && Flatly(p, e) && p.now < ITEM_UPDATE_INTERVAL
    ensures Good(Later(p, e))
  {
    StepDated(p, e);
    if e.Step? {
      StepSound(p.w, e.act);
      SameCrawlers(p.w, e.act);
      forall j | 0 <= j < LIST_COUNT
        ensures var r := Later(p, e);
                |r.w.st.lists| == LIST_COUNT == |p.w.ls.crawlers| && ByRecency(Removed(r.w.st.lists[j], p.w.ls.crawlers[j]), r.touched)
      {
        hide Good, Flatly, Removed, ByRecency;
        if e.act.op.Crawls() {
          CrawlSorted(p, e.act, j);
        } else {
          ItemSorted(p, e.act, j);
        }
      }
    }
  }

  /** At any time: a hit keeps the list of the item sorted exactly when it relinks the item, or finds
      it first. */
  lemma HitSortedIff<T>(p: Past<T>, act: Act<T>)
    requires Good(p) && Flatly(p, Step(act)) && act.op.Bump? && p.w.st.Linked(act.op.it)
    ensures var r, x, i := Later(p, Step(act)), act.op.it, p.w.st.At(act.op.it).clsid;
            && i < |r.w.st.lists| == |p.w.st.lists| == LIST_COUNT == |p.w.ls.crawlers|
            && Removed(p.w.st.lists[i], p.w.ls.crawlers[i]) != []
            && (ByRecency(Removed(r.w.st.lists[i], p.w.ls.crawlers[i]), r.touched) <==>
                  Stale(p.w.st.At(x).time, p.now) || Removed(p.w.st.lists[i], p.w.ls.crawlers[i])[0] == x)
  {
    var op, x, i := act.op, act.op.it, p.w.st.At(act.op.it).clsid;
    OpOf(p, act);
    ItemIs(p, op);
    ListIs(p, i);
    OnItsList(p.w, x);
    hide Good, Flatly, Removed, ByRecency, Distinct, NextLinks, NextRefs, Left, Headed;
    var s, c := p.w.st.lists[i], p.w.ls.crawlers[i];
    StaysIn(s, c, x);
    LeftAt(p.w.st.lists, i, x, i);
    HeadedAt(Left(p.w.st.lists, i, x), i, x, i);
    if Stale(p.w.st.At(x).time, p.now) {
      HeadSorted(s, x, c, p.touched, p.tick);
    } else {
      TouchInPlace(Removed(s, c), p.touched, x, p.tick);
    }
  }

  lemma StaysIn<T>(s: seq<T>, c: T, x: T)
    requires Distinct(s) && x in s && x != c
    ensures x in Removed(s, c)
  {
    RemovedOnce(s, c);
  }

  lemma OnItsList<T>(w: World<T>, x: T)
    requires Sound(w) && w.st.Linked(x)
    ensures var i := w.st.At(x).clsid; i < LIST_COUNT == |w.st.lists| && x in w.st.lists[i]
  {
    assert Told(x, w.st.heads[x], w.ls, w.st.holders);
  }

  lemma TouchInPlace<T>(s: seq<T>, touched: map<T, nat>, x: T, tick: nat)
    requires Distinct(s) && ByRecency(s, touched) && x in s && forall y :: y in s ==> touched[y] < tick
    ensures ByRecency(s, touched[x := tick]) <==> s[0] == x
  {
    if s[0] != x {
      var k := IndexOf(s, x);
      assert !(touched[x := tick][s[0]] > touched[x := tick][s[k]]);
    }
  }

  // ---------------------------------------------------------------- runs

  ghost function RunPast<T>(p: Past<T>, es: seq<Event<T>>): Past<T>
    decreases |es|
  {
    if es == [] then p else RunPast(Later(p, es[0]), es[1..])
  }

  ghost predicate AllFlatly<T>(p: Past<T>, es: seq<Event<T>>)
    decreases |es|
  {
    es != [] ==> Flatly(p, es[0]) && AllFlatly(Later(p, es[0]), es[1..])
  }

  /** The clock only advances. */
  lemma {:induction false} ClockAdvances<T>(p: Past<T>, es: seq<Event<T>>)
    ensures p.now <= RunPast(p, es).now
    decreases |es|
  {
    if es != [] {
      ClockAdvances(Later(p, es[0]), es[1..]);
    }
  }

  /** In the first minute any run of links, hits, unlinks, evictions, replacements, page moves and
      crawls, by any threads, leaves every list sorted by last link or hit. */
  lemma {:induction false} RunSorted<T>(p: Past<T>, es: seq<Event<T>>)
    requires Good(p) && AllFlatly(p, es) && RunPast(p, es).now < ITEM_UPDATE_INTERVAL
    ensures Good(RunPast(p, es))
    decreases |es|
  {
    if es != [] {
      ClockAdvances(p, es);
      StepGood(p, es[0]);
      hide Good, Flatly, Later;
      RunSorted(Later(p, es[0]), es[1..]);
    }
  }

  lemma FirstIn<T>(s: seq<T>)
    ensures s == [] || s[0] in s
  {
  }

  /** A cache without items is sorted. */
  lemma EmptyIsGood<T>(w: World<T>, now: nat)
    requires Sound(w) && forall x :: x in w.st.heads ==> !w.st.heads[x].flags.linked
    ensures Good(Past(w, map[], 0, now))
  {
    forall i | 0 <= i < LIST_COUNT ensures |w.st.lists| == LIST_COUNT == |w.ls.crawlers| && Removed(w.st.lists[i], w.ls.crawlers[i]) == [] {
      ListIsLinked(w, i);
      RemovedOnce(w.st.lists[i], w.ls.crawlers[i]);
      FirstIn(Removed(w.st.lists[i], w.ls.crawlers[i]));
    }
  }

  /** The operations, and the turns of the page mover, are such runs. */
  lemma {:induction false} DoneIsFlat<T>(p: Past<T>, acts: seq<Act<T>>, whos: set<nat>, r: World<T>)
    requires Done(p.w, acts, Bounds(whos, Some(p.now)), r)
    ensures var es := seq(|acts|, i requires 0 <= i < |acts| => Step(acts[i]));
            AllFlatly(p, es) && RunPast(p, es).w == r && RunPast(p, es).now == p.now
    decreases |acts|
  {
    var es := seq(|acts|, i requires 0 <= i < |acts| => Step(acts[i]));
    if acts != [] {
      var rest := acts[1..];
      assert es[1..] == seq(|rest|, i requires 0 <= i < |rest| => Step(rest[i]));
      StepSound(p.w, acts[0]);
      assert Bounds(whos, Some(p.now)).Keeps(acts[0]);
      hide Sound, May, After;
      DoneIsFlat(Later(p, Step(acts[0])), rest, whos, r);
    }
  }

  /** After any such run an eviction from any list takes, of the items that are alive and not busy,
      the one that was linked or hit longest ago, and leaves all others alone. */
  lemma RunEvictsOldest<T>(p: Past<T>, es: seq<Event<T>>, i: nat, busy: set<T>, pull: Eviction.Pull, cfg: Settings)
    requires Good(p) && AllFlatly(p, es) && RunPast(p, es).now < ITEM_UPDATE_INTERVAL && i < LIST_COUNT
    requires pull.evict && !pull.crawlBlocks && cfg.evictToFree
    ensures var q := RunPast(p, es);
            var st := q.w.st;
            |st.lists| == |q.w.ls.crawlers| == LIST_COUNT &&
            var s, c := st.lists[i], q.w.ls.crawlers[i];
            var r := Eviction.PullWalk(st, i, |s|, COLD_LRU, Eviction.Scan(c, busy, pull, q.now, cfg), 5, 0).0;
            var dead := Eviction.DeadOf(st, s, q.now, cfg);
            var v := Victim(s, c, busy + dead, 5);
            && (forall y :: y in st.heads && y !in dead && v != Some(y) ==> r.At(y) == st.At(y))
            && (v.Some? ==>
                  && v.value in s && v.value !in busy + dead && !r.Linked(v.value) && v.value in q.touched
                  && forall y :: y in s && y != c && y !in busy + dead ==> y in q.touched && q.touched[v.value] <= q.touched[y])
  {
    RunSorted(p, es);
    var q := RunPast(p, es);
    ListIs(q, i);
    ListIsLinked(q.w, i);
    GoodIs(q);
    hide *;
    OrderIsCold(q.w, i, Eviction.Scan(q.w.ls.crawlers[i], busy, pull, q.now, cfg));
    Eviction.EvictionTakesOldest(q.w.st, q.w.st.lists[i], q.w.ls.crawlers[i], busy, pull, q.now, cfg, q.touched);
  }

  lemma GoodIs<T>(p: Past<T>)
    requires Good(p)
    ensures Sound(p.w)
  {
  }
}
