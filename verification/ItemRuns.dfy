/** Runs of the steps that all operations on items, crawlers and pages are made of. */
module ItemRuns {
  import opened Common
  import opened Items
  import opened LruSpec
  import opened CacheSpec
  import opened ItemLaws

  datatype Op<T> =
    // references, linking, and moving between lists
    | Hold(it: T)
    | Drop(it: T)
    | Out(it: T)
    | Link(it: T, now: nat)
    | Bump(it: T, now: nat)
    | Relist(it: T, clsid: nat)
    | Flag(it: T, f: Flags)
    | Stamp(it: T, now: nat)
    // chunks between freelist and owner
    | Take(it: T, id: nat)
    | Own(it: T, h: Head)
    | Clear(it: T)
    | CutFree(it: T, id: nat)
    | Free(it: T, id: nat)
    // chunks of pages that come and go
    | Come(it: T, id: nat, h: Head)
    | Go(it: T)
    // the crawler of a list
    | CrawlIn(it: T, i: nat)
    | Crawl(it: T, i: nat)
    | CrawlOut(it: T, i: nat)
  {
    predicate Crawls() {
      CrawlIn? || Crawl? || CrawlOut?
    }
  }

  /** What a caller of the step must see to. */
  ghost predicate Enabled<T>(st: State<T>, ls: Links<T>, op: Op<T>) {
    var it := op.it;
    match op
    case Hold(_) => st.Holds(it) || st.Linked(it)
    case Drop(_) => st.Holds(it)
    case Out(_) => st.Linked(it)
    case Link(_, _) => st.Loose(it) && st.At(it).key !in st.bindings && st.At(it).nbytes >= 2
    case Bump(_, _) => st.Holds(it) || st.Linked(it)
    case Relist(_, clsid) => st.Linked(it) && clsid < LIST_COUNT && ClassOf(clsid) == ClassOf(st.At(it).clsid)
    case Flag(_, f) => (st.Holds(it) || st.Linked(it)) && f.linked == st.At(it).flags.linked && !f.slabbed
    case Stamp(_, _) => st.Holds(it) || st.Linked(it)
    case Take(_, id) => id < |st.frees| && st.frees[id] != [] && st.frees[id][0] == it
    case Own(_, h) => it in st.heads && it in ls.raw && it in ls.home && !h.flags.slabbed && !h.flags.linked
                      && h.clsid < LIST_COUNT && ClassOf(h.clsid) == ls.home[it] && h.refcount <= 1
    case Clear(_) => it in st.heads && !st.At(it).flags.linked && !st.At(it).flags.slabbed && Held(st.holders, it) <= 1
    case CutFree(_, id) => it in st.heads && st.At(it).flags == FREE && it in ls.home && ls.home[it] == id
    case Free(_, id) => it in st.heads && it in st.holders && !st.At(it).flags.linked && Held(st.holders, it) <= 1
                        && it in ls.home && ls.home[it] == id
    case Come(_, id, h) => it !in st.heads && it !in ls.where && it !in ls.raw && it !in ls.guests && id < CLASS_COUNT && h.flags == FREE
    case Go(_) => Cleared(st, it)
    case CrawlIn(_, i) => i < |st.lists| && i < |ls.crawlers| && it == ls.crawlers[i] && it !in st.lists[i]
    case Crawl(_, i) => i < |st.lists| && i < |ls.crawlers| && it == ls.crawlers[i] && it in st.lists[i]
    case CrawlOut(_, i) => i < |st.lists| && i < |ls.crawlers| && it == ls.crawlers[i]
  }

  ghost function Next<T>(st: State<T>, op: Op<T>): State<T> {
    var it := op.it;
    match op
    case Hold(_) => st.Hold(it)
    case Drop(_) => st.Drop(it)
    case Out(_) => st.Out(it)
    case Link(_, now) => st.Link(it, now)
    case Bump(_, now) => st.UpdateNolock(it, now)
    case Relist(_, clsid) => st.Relist(it, clsid)
    case Flag(_, f) => st.Flag(it, f)
    case Stamp(_, now) => st.Stamp(it, now)
    case Take(_, id) => st.Take(id, it)
    case Own(_, h) => st.Own(it, h)
    case Clear(_) => st.Clear(it)
    case CutFree(_, id) => st.CutFree(it, id)
    case Free(_, id) => st.Free(it, id)
    case Come(_, id, h) => st.With(it, h).(frees := Headed(st.frees, id, it))
    case Go(_) => st.(heads := st.heads - {it})
    case CrawlIn(_, i) => if i < |st.lists| then st.(lists := st.lists[i := st.lists[i] + [it]]) else st
    case Crawl(_, i) => if i < |st.lists| then st.(lists := st.lists[i := Crawled(st.lists[i], it)]) else st
    case CrawlOut(_, i) => st.(lists := Left(st.lists, i, it))
  }

  /** The account that goes with it. */
  ghost function NextLinks<T>(st: State<T>, ls: Links<T>, op: Op<T>): Links<T> {
    var it := op.it;
    match op
    case Out(_) => ls.(nodes := ls.nodes - {it}, where := ls.where - {it})
    case Link(_, _) => ls.(nodes := ls.nodes + {it}, where := ls.where[it := st.At(it).clsid])
    case Relist(_, clsid) => ls.(where := ls.where[it := clsid])
    case Take(_, _) => ls.(raw := ls.raw + {it})
    case Own(_, _) => ls.(raw := ls.raw - {it})
    case Clear(_) => ls.(raw := ls.raw - {it})
    case Come(_, id, _) => ls.(home := ls.home[it := id])
    case Go(_) => ls.(home := ls.home - {it})
    case CrawlIn(_, i) => ls.(where := ls.where[it := i])
    case Crawl(_, i) => if i < |st.lists| && it !in Crawled(st.lists[i], it) then ls.(where := ls.where - {it}) else ls
    case CrawlOut(_, i) => ls.(where := ls.where - {it})
    case _ => ls
  }

  // ---------------------------------------------------------------- headers, references, table

  lemma Unraw<T>(ls: Links<T>, x: T)
    ensures x !in ls.raw ==> ls.(raw := ls.raw - {x}) == ls
  {
    assert x !in ls.raw ==> ls.raw - {x} == ls.raw;
  }

  lemma Unheld<T>(holders: map<T, nat>, x: T)
    ensures x !in holders ==> holders - {x} == holders
  {
  }

  lemma SameWhere<T>(ls: Links<T>, x: T, i: nat)
    ensures x in ls.where && ls.where[x] == i ==> ls.(where := ls.where[x := i]) == ls
  {
    assert x in ls.where && ls.where[x] == i ==> ls.where[x := i] == ls.where;
  }

  /** What is known of the chunk a step is about. */
  lemma OpIs<T>(st: State<T>, ls: Links<T>, op: Op<T>)
    requires InOrder(st, ls) && Enabled(st, ls, op) && !op.Crawls() && !op.Come?
    ensures op.it in st.heads && Told(op.it, st.heads[op.it], ls, st.holders)
    ensures op.Take? ==> st.heads[op.it].flags == FREE && op.it in ls.home && ls.home[op.it] == op.id
    ensures op.Drop? || op.Clear? || op.Free? || op.Own? || op.Go? || op.Hold? || op.Bump? || op.Flag? || op.Stamp? ==> st.heads[op.it].flags != FREE
    ensures op.Drop? && st.heads[op.it].refcount <= 1 ==>
              && !st.heads[op.it].flags.linked && op.it in ls.home && ClassOf(st.heads[op.it].clsid) == ls.home[op.it]
    ensures op.it !in ls.guests
    ensures op.Link? ==> !st.heads[op.it].flags.slabbed && op.it !in ls.raw
  {
    hide ListsInOrder, BindsOK;
    if op.Take? {
      assert op.it in st.frees[op.id];
    }
  }

  lemma EditConsistent<T>(st: State<T>, ls: Links<T>, op: Op<T>)
    requires InOrder(st, ls) && Enabled(st, ls, op) && (op.Hold? || op.Drop? || op.Flag? || op.Stamp? || op.Relist? || op.Bump?)
    ensures Consistent(Next(st, op).heads, NextLinks(st, ls, op), Next(st, op).holders)
  {
    hide ListsInOrder, FreesInOrder, BindsOK, Consistent;
    OpIs(st, ls, op);
    var it, hs, holders := op.it, st.heads, st.holders;
    var h := hs[it];
    match op
    case Hold(_) => ConsistentHold(hs, ls, holders, it);
    case Drop(_) => ConsistentDrop(hs, ls, holders, it);
    case Bump(_, now) =>
      if h.flags.linked {
        ConsistentRelist(hs, ls, holders, it, h.(time := now));
        SameWhere(ls, it, h.clsid);
        assert hs[it := h.(time := now)][it := h.(time := now)] == hs[it := h.(time := now)];
      }
    case Relist(_, clsid) => ConsistentRelist(hs, ls, holders, it, h.(clsid := clsid));
    case Flag(_, f) => ConsistentEdit(hs, ls, holders, it, h.(flags := f));
    case Stamp(_, now) => ConsistentEdit(hs, ls, holders, it, h.(time := now));
  }

  lemma ChunkConsistent<T>(st: State<T>, ls: Links<T>, op: Op<T>)
    requires InOrder(st, ls) && Enabled(st, ls, op)
    requires op.Out? || op.Link? || op.Take? || op.Own? || op.Clear? || op.CutFree? || op.Free?
    ensures Consistent(Next(st, op).heads, NextLinks(st, ls, op), Next(st, op).holders)
  {
    hide ListsInOrder, FreesInOrder, BindsOK, Consistent;
    OpIs(st, ls, op);
    var it, hs, holders := op.it, st.heads, st.holders;
    var h := hs[it];
    Unraw(ls, it);
    match op
    case Out(_) => ConsistentOut(hs, ls, holders, it);
    case Link(_, now) => ConsistentLink(hs, ls, holders, it, now);
    case Take(_, _) => ConsistentTake(hs, ls, holders, it, h.(flags := h.flags.(slabbed := false), refcount := 1));
    case Own(_, h') => ConsistentOwn(hs, ls, holders, it, h');
    case Clear(_) => ConsistentShut(hs, ls, holders, it, h.(flags := CLEARED, refcount := 0));
    case CutFree(_, _) => ConsistentShut(hs, ls, holders, it, h.(flags := CLEARED, refcount := 0));
    case Free(_, _) => ConsistentShut(hs, ls, holders, it, h.(flags := FREE, clsid := 0));
  }

  /** What Consistent says of chunks that are not there, are cleared, or are crawlers. */
  lemma Outsiders<T>(st: State<T>, ls: Links<T>, op: Op<T>)
    requires Consistent(st.heads, ls, st.holders) && Enabled(st, ls, op)
    ensures op.Come? ==> st.heads.Keys == ls.home.Keys && op.it !in ls.home
    ensures op.Go? ==> st.heads.Keys == ls.home.Keys && op.it in ls.home && st.heads[op.it].flags == CLEARED
  {
  }

  lemma PageConsistent<T>(st: State<T>, ls: Links<T>, op: Op<T>)
    requires InOrder(st, ls) && Enabled(st, ls, op) && (op.Come? || op.Go?)
    ensures Consistent(Next(st, op).heads, NextLinks(st, ls, op), Next(st, op).holders)
  {
    hide ListsInOrder, FreesInOrder, BindsOK, Consistent, Headed;
    Outsiders(st, ls, op);
    var it := op.it;
    match op
    case Come(_, id, h) => ConsistentGrow(st.heads, st.heads[it := h], ls, ls.home[it := id], st.holders);
    case Go(_) => ConsistentMove(st.heads, st.heads - {it}, ls, ls.home - {it}, st.holders);
  }

  lemma CrawlConsistent<T>(st: State<T>, ls: Links<T>, op: Op<T>)
    requires InOrder(st, ls) && Enabled(st, ls, op) && op.Crawls()
    ensures Consistent(Next(st, op).heads, NextLinks(st, ls, op), Next(st, op).holders)
  {
    hide ListsInOrder, FreesInOrder, BindsOK, Consistent, Left, Crawled;
    var it, i := op.it, op.i;
    var where' := NextLinks(st, ls, op).where;
    ConsistentCrawler(st.heads, ls, st.holders, it, i, where');
  }

  lemma BindsEdit<T>(st: State<T>, r: State<T>, it: T, h: Head)
    requires BindsOK(st) && it in st.heads && r.bindings == st.bindings && r.heads == st.heads[it := h]
    requires h.flags.linked == st.At(it).flags.linked && (h.flags.linked ==> h.key == st.At(it).key)
    ensures BindsOK(r)
  {
  }

  lemma BindsOut<T>(st: State<T>, it: T)
    requires BindsOK(st) && st.Linked(it)
    ensures BindsOK(st.Out(it))
  {
  }

  lemma BindsLink<T>(st: State<T>, it: T, now: nat)
    requires BindsOK(st) && it in st.heads && !st.Linked(it) && st.At(it).key !in st.bindings
    ensures BindsOK(st.Link(it, now))
  {
  }

  lemma BindsPage<T>(st: State<T>, it: T, h: Head)
    requires BindsOK(st)
    ensures it !in st.heads && !h.flags.linked ==> forall r: State<T> :: r.bindings == st.bindings && r.heads == st.heads[it := h] ==> BindsOK(r)
    ensures !st.Linked(it) ==> forall r: State<T> :: r.bindings == st.bindings && r.heads == st.heads - {it} ==> BindsOK(r)
    ensures forall r: State<T> :: r.bindings == st.bindings && r.heads == st.heads ==> BindsOK(r)
  {
  }

  lemma StepBinds<T>(st: State<T>, ls: Links<T>, op: Op<T>)
    requires InOrder(st, ls) && Enabled(st, ls, op)
    ensures BindsOK(Next(st, op))
  {
    hide ListsInOrder, FreesInOrder, Consistent, BindsOK;
    BindsPage(st, op.it, if op.Come? then op.h else NO_HEAD);
    if !op.Crawls() && !op.Come? && !op.Go? {
      OpIs(st, ls, op);
      match op
      case Out(it) => BindsOut(st, it);
      case Link(it, now) => BindsLink(st, it, now);
      case _ => BindsEdit(st, Next(st, op), op.it, Next(st, op).At(op.it));
    }
  }

  // ---------------------------------------------------------------- LRU lists

  lemma ListsOut<T>(st: State<T>, ls: Links<T>, x: T, r: State<T>, i: nat)
    requires ListsInOrder(st, ls) && x in ls.where && ls.where[x] == i && r.lists == Left(st.lists, i, x)
    ensures ListsInOrder(r, ls.(where := ls.where - {x})) && x !in ls.where - {x}
  {
    RemovedOnce(st.lists[i], x);
    PlacedDel(st.lists, ls.where, i, Removed(st.lists[i], x), x);
  }

  lemma ListsIn<T>(st: State<T>, ls: Links<T>, x: T, r: State<T>, i: nat)
    requires ListsInOrder(st, ls) && x !in ls.where && i < |st.lists| && r.lists == Headed(st.lists, i, x)
    ensures ListsInOrder(r, ls.(where := ls.where[x := i]))
  {
    ConsDistinct(x, st.lists[i]);
    PlacedAdd(st.lists, ls.where, i, [x] + st.lists[i], x);
  }

  lemma ListsMove<T>(st: State<T>, ls: Links<T>, x: T, r: State<T>, i: nat, j: nat)
    requires ListsInOrder(st, ls) && x in ls.where && ls.where[x] == i && j < |st.lists| && r.lists == Headed(Left(st.lists, i, x), j, x)
    ensures ListsInOrder(r, ls.(where := ls.where[x := j]))
  {
    var a := st.(lists := Left(st.lists, i, x));
    ListsOut(st, ls, x, a, i);
    ListsIn(a, ls.(where := ls.where - {x}), x, r, j);
    assert (ls.where - {x})[x := j] == ls.where[x := j];
  }

  lemma ListsCrawl<T>(st: State<T>, ls: Links<T>, op: Op<T>)
    requires InOrder(st, ls) && Enabled(st, ls, op) && op.Crawls()
    ensures ListsInOrder(Next(st, op), NextLinks(st, ls, op))
  {
    hide ListsInOrder, FreesInOrder, BindsOK, Consistent;
    CrawlerAt(st, ls, op.it, op.i);
    match op
    case CrawlIn(c, i) => ListsCrawlIn(st, ls, c, i);
    case Crawl(c, i) => ListsCrawlOn(st, ls, c, i);
    case CrawlOut(c, i) => ListsCrawlOut(st, ls, c, i);
  }

  lemma ListsCrawlIn<T>(st: State<T>, ls: Links<T>, c: T, i: nat)
    requires ListsInOrder(st, ls) && i < |st.lists| && c !in st.lists[i] && c !in ls.where
    ensures ListsInOrder(st.(lists := st.lists[i := st.lists[i] + [c]]), ls.(where := ls.where[c := i]))
  {
    SnocDistinct(st.lists[i], c);
    PlacedAdd(st.lists, ls.where, i, st.lists[i] + [c], c);
  }

  lemma ListsCrawlOn<T>(st: State<T>, ls: Links<T>, c: T, i: nat)
    requires ListsInOrder(st, ls) && i < |st.lists| && c in st.lists[i]
    ensures ListsInOrder(Next(st, Op.Crawl(c, i)), NextLinks(st, ls, Op.Crawl(c, i)))
  {
    CrawlStepKeepsOrder(st.lists[i], c);
    PlacedCrawl(st.lists, ls.where, i, c);
    hide Placed, CrawlStep;
  }

  lemma ListsCrawlOut<T>(st: State<T>, ls: Links<T>, c: T, i: nat)
    requires ListsInOrder(st, ls) && i < |st.lists| && (c in ls.where <==> c in st.lists[i])
    ensures ListsInOrder(st.(lists := Left(st.lists, i, c)), ls.(where := ls.where - {c}))
  {
    RemovedOnce(st.lists[i], c);
    if c in st.lists[i] {
      PlacedDel(st.lists, ls.where, i, Removed(st.lists[i], c), c);
    } else {
      assert st.lists[i := st.lists[i]] == st.lists && ls.where - {c} == ls.where;
    }
  }

  /** A crawler is on its own list or on none. */
  lemma CrawlerAt<T>(st: State<T>, ls: Links<T>, c: T, i: nat)
    requires Consistent(st.heads, ls, st.holders) && ListsInOrder(st, ls) && i < |ls.crawlers| && c == ls.crawlers[i]
    ensures c in ls.where <==> c in st.lists[i]
    ensures c in ls.where ==> ls.where[c] == i
  {
    hide Told;
    if c in ls.where {
      var j := ls.where[c];
      assert c in ls.guests && c !in ls.home;
      assert j < |ls.crawlers| && ls.crawlers[j] == c;
    }
  }

  lemma StepLists<T>(st: State<T>, ls: Links<T>, op: Op<T>)
    requires InOrder(st, ls) && Enabled(st, ls, op)
    ensures ListsInOrder(Next(st, op), NextLinks(st, ls, op))
  {
    hide ListsInOrder, FreesInOrder, Consistent, BindsOK, Left, Headed;
    if op.Crawls() {
      ListsCrawl(st, ls, op);
    } else if op.Out? || op.Link? || op.Relist? || op.Bump? {
      OpIs(st, ls, op);
      var it, r := op.it, Next(st, op);
      ListCount(st, ls);
      match op
      case Out(_) =>
        ListsOut(st, ls, it, r, st.At(it).clsid);
        ListsSame(r, ls.(where := ls.where - {it}), r, NextLinks(st, ls, op));
      case Link(_, _) =>
        ListsIn(st, ls, it, r, st.At(it).clsid);
        ListsSame(r, ls.(where := ls.where[it := st.At(it).clsid]), r, NextLinks(st, ls, op));
      case Relist(_, clsid) => ListsMove(st, ls, it, r, st.At(it).clsid, clsid);
      case Bump(_, now) =>
        if r != st {
          ListsMove(st, ls, it, r, st.At(it).clsid, st.At(it).clsid);
          SameWhere(ls, it, st.At(it).clsid);
        }
    } else {
      ListsSame(st, ls, Next(st, op), NextLinks(st, ls, op));
    }
  }

  lemma ListCount<T>(st: State<T>, ls: Links<T>)
    requires ListsInOrder(st, ls)
    ensures |st.lists| == LIST_COUNT
  {
  }

  lemma ListsSame<T>(st: State<T>, ls: Links<T>, r: State<T>, ls': Links<T>)
    requires ListsInOrder(st, ls) && r.lists == st.lists && ls'.where == ls.where && ls'.crawlers == ls.crawlers
    ensures ListsInOrder(r, ls')
  {
  }

  // ---------------------------------------------------------------- freelists

  lemma FreesSame<T>(st: State<T>, ls: Links<T>, r: State<T>, ls': Links<T>, it: T, h: Head)
    requires FreesInOrder(st, ls) && r.frees == st.frees && ls'.home == ls.home
    requires r.heads == st.heads || (it in st.heads && r.heads == st.heads[it := h] && st.heads[it].flags != FREE && h.flags != FREE)
    ensures FreesInOrder(r, ls')
  {
  }

  /** A chunk becomes free, as the head of its class's freelist. */
  lemma FreesIn<T>(st: State<T>, ls: Links<T>, r: State<T>, ls': Links<T>, it: T, h: Head, id: nat)
    requires FreesInOrder(st, ls) && id < |st.frees| && r.frees == Headed(st.frees, id, it) && r.heads == st.heads[it := h]
    requires h.flags == FREE && (it in st.heads ==> st.heads[it].flags != FREE) && ls'.home == ls.home[it := id]
    ensures FreesInOrder(r, ls')
  {
    hide Distinct, Headed;
    NotYetFree(st, ls, it, id);
    HeadedAt(st.frees, id, it);
  }

  lemma NotYetFree<T>(st: State<T>, ls: Links<T>, it: T, id: nat)
    requires FreesInOrder(st, ls) && id < |st.frees| && (it in st.heads ==> st.heads[it].flags != FREE)
    ensures forall i :: 0 <= i < |st.frees| ==> it !in st.frees[i]
    ensures Distinct([it] + st.frees[id])
  {
    ConsDistinct(it, st.frees[id]);
  }

  lemma HeadedAt<T>(ss: seq<seq<T>>, id: nat, x: T)
    requires id < |ss|
    ensures var r := Headed(ss, id, x); |r| == |ss| && r[id] == [x] + ss[id] && forall i :: 0 <= i < |ss| && i != id ==> r[i] == ss[i]
  {
  }

  /** A free chunk leaves its freelist. */
  lemma FreesOut<T>(st: State<T>, ls: Links<T>, r: State<T>, ls': Links<T>, it: T, h: Head, id: nat)
    requires FreesInOrder(st, ls) && it in st.heads && st.heads[it].flags == FREE && it in ls.home && ls.home[it] == id
    requires r.frees == Left(st.frees, id, it) && r.heads == st.heads[it := h] && h.flags != FREE && ls'.home == ls.home
    ensures FreesInOrder(r, ls')
  {
    RemovedOnce(st.frees[id], it);
  }

  /** A chunk that is not free goes altogether. */
  lemma FreesGone<T>(st: State<T>, ls: Links<T>, r: State<T>, ls': Links<T>, it: T)
    requires FreesInOrder(st, ls) && it in st.heads && st.heads[it].flags != FREE
    requires r.frees == st.frees && r.heads == st.heads - {it} && ls'.home == ls.home - {it}
    ensures FreesInOrder(r, ls')
  {
  }

  lemma FirstRemoved<T>(frees: seq<seq<T>>, id: nat)
    requires id < |frees| && frees[id] != []
    ensures Left(frees, id, frees[id][0]) == frees[id := frees[id][1..]]
  {
  }

  lemma StepFrees<T>(st: State<T>, ls: Links<T>, op: Op<T>)
    requires InOrder(st, ls) && Enabled(st, ls, op)
    ensures FreesInOrder(Next(st, op), NextLinks(st, ls, op))
  {
    hide ListsInOrder, FreesInOrder, Consistent, BindsOK, Left, Headed;
    var it, r, ls' := op.it, Next(st, op), NextLinks(st, ls, op);
    if op.Crawls() {
      FreesSame(st, ls, r, ls', it, NO_HEAD);
    } else if op.Come? {
      FreeCount(st, ls);
      FreesIn(st, ls, r, ls', it, op.h, op.id);
    } else {
      OpIs(st, ls, op);
      if op.Go? {
        FreesGone(st, ls, r, ls', it);
      } else {
        ChunkFrees(st, ls, op);
      }
    }
  }

  lemma FreeCount<T>(st: State<T>, ls: Links<T>)
    requires FreesInOrder(st, ls)
    ensures |st.frees| == CLASS_COUNT
  {
  }

  lemma HomeAgain<T>(ls: Links<T>, x: T, id: nat)
    ensures x in ls.home && ls.home[x] == id ==> ls.home[x := id] == ls.home
  {
  }

  lemma ChunkFrees<T>(st: State<T>, ls: Links<T>, op: Op<T>)
    requires InOrder(st, ls) && Enabled(st, ls, op) && !op.Crawls() && !op.Come? && !op.Go?
    ensures FreesInOrder(Next(st, op), NextLinks(st, ls, op))
  {
    hide ListsInOrder, FreesInOrder, Consistent, BindsOK, Left, Headed;
    var it, r, ls' := op.it, Next(st, op), NextLinks(st, ls, op);
    OpIs(st, ls, op);
    FreeCount(st, ls);
    var h := r.At(it);
    if op.Take? {
      FirstRemoved(st.frees, op.id);
      FreesOut(st, ls, r, ls', it, h, op.id);
    } else if op.CutFree? {
      FreesOut(st, ls, r, ls', it, h, op.id);
    } else if op.Free? {
      HomeAgain(ls, it, op.id);
      FreesIn(st, ls, r, ls', it, h, op.id);
    } else if op.Drop? && st.At(it).refcount <= 1 {
      HomeAgain(ls, it, ls.home[it]);
      FreesIn(st, ls, r, ls', it, h, ls.home[it]);
    } else {
      FreesSame(st, ls, r, ls', it, h);
    }
  }

  // ---------------------------------------------------------------- runs

  lemma StepInOrder<T>(st: State<T>, ls: Links<T>, op: Op<T>)
    requires InOrder(st, ls) && Enabled(st, ls, op)
    ensures InOrder(Next(st, op), NextLinks(st, ls, op))
  {
    StepBinds(st, ls, op);
    StepLists(st, ls, op);
    StepFrees(st, ls, op);
    if op.Come? || op.Go? {
      PageConsistent(st, ls, op);
    } else if op.Crawls() {
      CrawlConsistent(st, ls, op);
    } else if op.Out? || op.Link? || op.Take? || op.Own? || op.Clear? || op.CutFree? || op.Free? {
      ChunkConsistent(st, ls, op);
    } else {
      EditConsistent(st, ls, op);
    }
    hide BindsOK, Consistent, ListsInOrder, FreesInOrder, Next, NextLinks, Enabled;
  }

  ghost function Run<T>(st: State<T>, ls: Links<T>, ops: seq<Op<T>>): (State<T>, Links<T>)
    decreases |ops|
  {
    if ops == [] then (st, ls) else Run(Next(st, ops[0]), NextLinks(st, ls, ops[0]), ops[1..])
  }

  ghost predicate AllEnabled<T>(st: State<T>, ls: Links<T>, ops: seq<Op<T>>)
    decreases |ops|
  {
    ops != [] ==> Enabled(st, ls, ops[0]) && AllEnabled(Next(st, ops[0]), NextLinks(st, ls, ops[0]), ops[1..])
  }

  /** After any run every count is that of the references there are; linked means in the table and,
      once, on the list that slabs_clsid names; free means, once, on the freelist of the class. */
  lemma {:induction false} RunInOrder<T>(st: State<T>, ls: Links<T>, ops: seq<Op<T>>)
    requires InOrder(st, ls) && AllEnabled(st, ls, ops)
    ensures InOrder(Run(st, ls, ops).0, Run(st, ls, ops).1)
    decreases |ops|
  {
    if ops != [] {
      StepInOrder(st, ls, ops[0]);
      RunInOrder(Next(st, ops[0]), NextLinks(st, ls, ops[0]), ops[1..]);
    }
  }

  // ---------------------------------------------------------------- counting references

  /** How many references to x are held after a step, if there were n. */
  function Tally<T(==)>(n: nat, op: Op<T>, x: T): nat {
    if op.it != x then n
    else
      match op
      case Hold(_) => n + 1
      case Out(_) => n + 1
      case Drop(_) => if n == 0 then 0 else n - 1
      case Own(_, h) => h.refcount
      case Clear(_) => 0
      case CutFree(_, _) => 0
      case Free(_, _) => 0
      case _ => n
  }

  function RunTally<T(==)>(n: nat, ops: seq<Op<T>>, x: T): nat
    decreases |ops|
  {
    if ops == [] then n else RunTally(Tally(n, ops[0], x), ops[1..], x)
  }

  lemma StepCounts<T>(st: State<T>, ls: Links<T>, op: Op<T>, x: T)
    requires InOrder(st, ls) && Enabled(st, ls, op)
    ensures Held(Next(st, op).holders, x) == Tally(Held(st.holders, x), op, x)
  {
    hide ListsInOrder, FreesInOrder, BindsOK, Left, Headed, Head.Dropped;
    if op.CutFree? {
      OpIs(st, ls, op);
    }
  }

  /** In every run the references held are those taken less those dropped, from when the chunk was
      last handed out. */
  lemma {:induction false} RunCountsReferences<T>(st: State<T>, ls: Links<T>, ops: seq<Op<T>>, x: T)
    requires InOrder(st, ls) && AllEnabled(st, ls, ops)
    ensures Held(Run(st, ls, ops).0.holders, x) == RunTally(Held(st.holders, x), ops, x)
    decreases |ops|
  {
    if ops != [] {
      StepInOrder(st, ls, ops[0]);
      StepCounts(st, ls, ops[0], x);
      RunCountsReferences(Next(st, ops[0]), NextLinks(st, ls, ops[0]), ops[1..], x);
    }
  }

  /** No run frees an item while somebody holds it, whoever takes and drops references meanwhile: if
      a reference is left over, the chunk is not free, and its count is that of the references. */
  lemma HeldIsNotFreed<T>(st: State<T>, ls: Links<T>, ops: seq<Op<T>>, x: T)
    requires InOrder(st, ls) && AllEnabled(st, ls, ops) && RunTally(Held(st.holders, x), ops, x) > 0
    ensures var r, n := Run(st, ls, ops).0, RunTally(Held(st.holders, x), ops, x);
            && x in r.heads && !r.heads[x].flags.slabbed && (forall i :: 0 <= i < |r.frees| ==> x !in r.frees[i])
            && r.heads[x].refcount == n + (if r.heads[x].flags.linked then 1 else 0)
  {
    RunInOrder(st, ls, ops);
    RunCountsReferences(st, ls, ops, x);
    var (r, ls') := Run(st, ls, ops);
    hide Run, AllEnabled, ListsInOrder, BindsOK, RunTally;
    assert x in r.holders && x in ls'.home;
    assert Told(x, r.heads[x], ls', r.holders);
  }
}
