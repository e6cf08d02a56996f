/** LRU lists as sequences, head first, and the crawler that walks them from tail to head. */
module LruSpec {
  import opened Common

  ghost predicate Distinct<T>(s: seq<T>) {
    forall i, j :: 0 <= i < j < |s| ==> s[i] != s[j]
  }

  /** s without its (first) x. */
  function Removed<T(==)>(s: seq<T>, x: T): seq<T> {
    if s == [] then [] else if s[0] == x then s[1..] else [s[0]] + Removed(s[1..], x)
  }

  /** The part of s before x. */
  function Ahead<T(==)>(s: seq<T>, x: T): seq<T> {
    if s == [] || s[0] == x then [] else [s[0]] + Ahead(s[1..], x)
  }

  /** Where x is. */
  function IndexOf<T(==)>(s: seq<T>, x: T): (k: nat)
    requires x in s
    ensures k < |s| && s[k] == x && x !in s[..k]
  {
    if s[0] == x then 0 else 1 + IndexOf(s[1..], x)
  }

  lemma {:induction false} RemovedAt<T>(s: seq<T>, x: T, k: nat)
    requires k < |s| && s[k] == x && x !in s[..k]
    ensures Removed(s, x) == s[..k] + s[k + 1..] && Ahead(s, x) == s[..k]
  {
    if k > 0 {
      assert s[1..][..k - 1] == s[..k][1..];
      assert s[0] == s[..k][0];
      RemovedAt(s[1..], x, k - 1);
    }
  }

  lemma {:induction false} RemovedMember<T>(s: seq<T>, x: T, y: T)
    requires Distinct(s)
    ensures y in Removed(s, x) <==> y in s && y != x
  {
    if s != [] {
      assert Distinct(s[1..]) && s == [s[0]] + s[1..];
      RemovedMember(s[1..], x, y);
    }
  }

  lemma {:induction false} RemovedOnce<T>(s: seq<T>, x: T)
    requires Distinct(s)
    ensures Distinct(Removed(s, x)) && x !in Removed(s, x)
    ensures forall y :: y in Removed(s, x) ==> y in s && y != x
    ensures forall y :: y in s && y != x ==> y in Removed(s, x)
    ensures x !in s ==> Removed(s, x) == s
  {
    forall y ensures y in Removed(s, x) <==> y in s && y != x {
      RemovedMember(s, x, y);
    }
    if s != [] {
      assert Distinct(s[1..]) && s == [s[0]] + s[1..];
      RemovedOnce(s[1..], x);
      RemovedMember(s[1..], x, s[0]);
      ConsDistinct(s[0], Removed(s[1..], x));
    }
  }

  lemma {:induction false} RemovedTwice<T>(s: seq<T>, x: T, y: T)
    ensures Removed(Removed(s, x), y) == Removed(Removed(s, y), x)
  {
    if s != [] {
      RemovedTwice(s[1..], x, y);
      assert forall z :: s[0] != z ==> Removed(s, z)[0] == s[0] && Removed(s, z)[1..] == Removed(s[1..], z);
    }
  }

  lemma ConsDistinct<T>(x: T, s: seq<T>)
    requires Distinct(s) && x !in s
    ensures Distinct([x] + s)
  {
  }

  /** One crawl step: the crawler changes places with its predecessor; at the head it leaves. */
  function CrawlStep<T(==)>(s: seq<T>, c: T): seq<T>
    requires c in s
  {
    var k := IndexOf(s, c);
    if k == 0 then s[1..] else s[..k - 1] + [c, s[k - 1]] + s[k + 1..]
  }

  /** The item a crawl step passes, or none at the head. */
  function CrawlResult<T(==)>(s: seq<T>, c: T): Option<T>
    requires c in s
  {
    var k := IndexOf(s, c);
    if k == 0 then None else Some(s[k - 1])
  }

  lemma SwapShape<T>(s: seq<T>, k: nat)
    requires Distinct(s) && 0 < k < |s|
    ensures var t := s[..k - 1] + [s[k], s[k - 1]] + s[k + 1..];
            && |t| == |s| && Distinct(t) && t[k - 1] == s[k] && s[k] !in t[..k - 1]
            && t[..k - 1] == s[..k - 1] && t[k..] == [s[k - 1]] + s[k + 1..]
            && s[..k - 1] + t[k..] == s[..k] + s[k + 1..] && s[..k] == s[..k - 1] + [s[k - 1]]
  {
    var t := s[..k - 1] + [s[k], s[k - 1]] + s[k + 1..];
    assert forall i :: 0 <= i < |t| ==> t[i] == if i == k - 1 then s[k] else if i == k then s[k - 1] else s[i];
  }

  /** A crawl step keeps the order of all other nodes and moves the crawler one place ahead. */
  lemma CrawlStepKeepsOrder<T>(s: seq<T>, c: T)
    requires Distinct(s) && c in s
    ensures Removed(CrawlStep(s, c), c) == Removed(s, c)
    ensures Distinct(CrawlStep(s, c))
    ensures CrawlResult(s, c).Some? ==>
              && Ahead(s, c) == Ahead(CrawlStep(s, c), c) + [CrawlResult(s, c).value]
              && c in CrawlStep(s, c)
    ensures CrawlResult(s, c).None? ==> Ahead(s, c) == [] && CrawlStep(s, c) == Removed(s, c)
  {
    var k := IndexOf(s, c);
    RemovedAt(s, c, k);
    if k > 0 {
      SwapShape(s, k);
      hide Distinct;
      RemovedAt(CrawlStep(s, c), c, k - 1);
    } else {
      RemovedOnce(s, c);
      assert c !in s[1..];
      RemovedOnce(s[1..], c);
    }
  }

  // ---------------------------------------------------------------- a whole crawl

  /** What happens to a list while it is crawled: items are linked at the head, unlinked, or
      moved to the head, in any order, between crawl steps. */
  datatype Step<T> = LinkHead(x: T) | Unlink(x: T) | Bump(x: T) | Crawl

  /** `seen` is what the crawl steps returned; `done` is set by the step that returned nothing. */
  datatype Walk<T> = Walk(s: seq<T>, seen: seq<T>, done: bool)

  ghost function Next<T>(w: Walk<T>, c: T, step: Step<T>): Walk<T> {
    if w.done || c !in w.s then w
    else match step
    case LinkHead(x) => if x in w.s then w else w.(s := [x] + w.s)
    case Unlink(x) => if x == c then w else w.(s := Removed(w.s, x))
    case Bump(x) => if x == c || x !in w.s then w else w.(s := [x] + Removed(w.s, x))
    case Crawl =>
      match CrawlResult(w.s, c)
      case None => w.(s := CrawlStep(w.s, c), done := true)
      case Some(x) => w.(s := CrawlStep(w.s, c), seen := w.seen + [x])
  }

  ghost function Run<T>(w: Walk<T>, c: T, steps: seq<Step<T>>): Walk<T> {
    if steps == [] then w else Next(Run(w, c, steps[..|steps| - 1]), c, steps[|steps| - 1])
  }

  ghost function Only<T>(s: seq<T>, keep: set<T>): seq<T> {
    if s == [] then [] else (if s[0] in keep then [s[0]] else []) + Only(s[1..], keep)
  }

  function Reversed<T>(s: seq<T>): seq<T> {
    if s == [] then [] else Reversed(s[1..]) + [s[0]]
  }

  lemma {:induction false} OnlyConcat<T>(a: seq<T>, b: seq<T>, keep: set<T>)
    ensures Only(a + b, keep) == Only(a, keep) + Only(b, keep)
  {
    if a == [] {
      assert a + b == b;
    } else {
      assert (a + b)[1..] == a[1..] + b && (a + b)[0] == a[0];
      OnlyConcat(a[1..], b, keep);
      var x := if a[0] in keep then [a[0]] else [];
      assert Only(a, keep) == x + Only(a[1..], keep);
      assert Only(a + b, keep) == x + Only(a[1..] + b, keep);
    }
  }

  lemma {:induction false} ReversedSnoc<T>(s: seq<T>, x: T)
    ensures Reversed(s + [x]) == [x] + Reversed(s)
  {
    if s != [] {
      assert (s + [x])[1..] == s[1..] + [x];
      ReversedSnoc(s[1..], x);
    }
  }

  /** Taking out an item that is not kept leaves the kept ones as they were. */
  lemma {:induction false} RemovedAhead<T>(s: seq<T>, x: T, c: T, keep: set<T>)
    requires x !in keep && x != c
    ensures Only(Ahead(Removed(s, x), c), keep) == Only(Ahead(s, c), keep)
    ensures c in s <==> c in Removed(s, x)
  {
    if s != [] && s[0] == x {
      assert s == [x] + s[1..];
      assert Ahead(s, c) == [x] + Ahead(s[1..], c);
      assert Only(Ahead(s, c), keep) == Only(Ahead(s[1..], c), keep);
    } else if s != [] {
      RemovedAhead(s[1..], x, c, keep);
      var r := Removed(s[1..], x);
      assert s == [s[0]] + s[1..];
      assert ([s[0]] + r)[1..] == r;
      if s[0] != c {
        var a, b := Ahead(s[1..], c), Ahead(r, c);
        assert Ahead(s, c) == [s[0]] + a && Ahead([s[0]] + r, c) == [s[0]] + b;
        OnlyConcat([s[0]], a, keep);
        OnlyConcat([s[0]], b, keep);
      }
    }
  }

  lemma LinkedAhead<T>(s: seq<T>, x: T, c: T, keep: set<T>)
    requires x !in keep && x != c
    ensures Only(Ahead([x] + s, c), keep) == Only(Ahead(s, c), keep)
  {
    assert ([x] + s)[1..] == s;
    assert ([x] + Ahead(s, c))[1..] == Ahead(s, c);
  }

  ghost predicate Touches<T>(step: Step<T>, x: T) {
    !step.Crawl? && step.x == x
  }

  /** The kept items seen so far, followed by those still ahead, taken from the tail. */
  ghost function Account<T>(w: Walk<T>, c: T, keep: set<T>): seq<T> {
    Only(w.seen, keep) + if w.done then [] else Reversed(Only(Ahead(w.s, c), keep))
  }

  ghost predicate Good<T>(w: Walk<T>, c: T) {
    Distinct(w.s) && (!w.done ==> c in w.s) && (w.done ==> c !in w.s)
  }

  lemma StepAccounts<T>(w: Walk<T>, c: T, step: Step<T>, keep: set<T>)
    requires Good(w, c) && forall x :: x in keep ==> !Touches(step, x)
    ensures Good(Next(w, c, step), c)
    ensures Account(Next(w, c, step), c, keep) == Account(w, c, keep)
  {
    if step.Crawl? {
      if !w.done {
        CrawlAccounts(w, c, keep);
      }
    } else {
      assert Touches(step, step.x);
      StepAhead(w, c, step, keep);
    }
  }

  lemma Reassociate<T>(a: seq<T>, x: T, b: seq<T>)
    ensures (a + [x]) + b == a + ([x] + b)
  {
  }

  lemma CrawlAccounts<T>(w: Walk<T>, c: T, keep: set<T>)
    requires Good(w, c) && !w.done
    ensures Good(Next(w, c, Crawl), c)
    ensures Account(Next(w, c, Crawl), c, keep) == Account(w, c, keep)
  {
    CrawlStepKeepsOrder(w.s, c);
    RemovedOnce(w.s, c);
    match CrawlResult(w.s, c)
    case None =>
    case Some(x) =>
      hide Distinct;
      var a := Ahead(CrawlStep(w.s, c), c);
      OnlyConcat(a, [x], keep);
      OnlyConcat(w.seen, [x], keep);
      if x in keep {
        assert Only([x], keep) == [x];
        ReversedSnoc(Only(a, keep), x);
        Reassociate(Only(w.seen, keep), x, Reversed(Only(a, keep)));
      } else {
        assert Only([x], keep) == [];
        assert Only(a, keep) + [] == Only(a, keep);
        assert Only(w.seen, keep) + [] == Only(w.seen, keep);
      }
  }

  /** A step that spoils the account of x: x is linked or bumped, or unlinked before it was seen. */
  ghost predicate Spoils<T>(w: Walk<T>, step: Step<T>, x: T) {
    Touches(step, x) && (step.Unlink? ==> x !in w.seen)
  }

  lemma {:induction false} RemovedBehind<T>(s: seq<T>, x: T, c: T)
    requires x !in Ahead(s, c) && x != c
    ensures Ahead(Removed(s, x), c) == Ahead(s, c) && (c in s <==> c in Removed(s, x))
  {
    if s != [] && s[0] != x {
      var r := Removed(s[1..], x);
      assert s == [s[0]] + s[1..] && ([s[0]] + r)[1..] == r;
      if s[0] != c {
        assert Ahead(s, c) == [s[0]] + Ahead(s[1..], c);
        RemovedBehind(s[1..], x, c);
      }
    }
  }

  /** What is kept and was seen is not ahead any more. */
  lemma SeenIsBehind<T>(w: Walk<T>, c: T, keep: set<T>, x: T)
    requires Distinct(Account(w, c, keep)) && !w.done && x in w.seen && x in keep
    ensures x !in Ahead(w.s, c)
  {
    OnlyMember(w.seen, keep, x);
    OnlyMember(Ahead(w.s, c), keep, x);
    ReversedMember(Only(Ahead(w.s, c), keep), x);
    HalvesApart(Only(w.seen, keep), Reversed(Only(Ahead(w.s, c), keep)), x);
  }

  lemma HalvesApart<T>(a: seq<T>, b: seq<T>, x: T)
    requires Distinct(a + b) && x in a
    ensures x !in b
  {
    var i :| 0 <= i < |a| && a[i] == x;
    forall j | 0 <= j < |b| ensures b[j] != x {
      assert (a + b)[i] == x && (a + b)[|a| + j] == b[j];
    }
  }

  lemma SnocDistinct<T>(s: seq<T>, x: T)
    requires Distinct(s) && x !in s
    ensures Distinct(s + [x])
  {
  }

  lemma {:induction false} OnlyMember<T>(s: seq<T>, keep: set<T>, x: T)
    ensures x in Only(s, keep) <==> x in s && x in keep
  {
    if s != [] {
      assert s == [s[0]] + s[1..];
      OnlyMember(s[1..], keep, x);
    }
  }

  lemma {:induction false} ReversedMember<T>(s: seq<T>, x: T)
    ensures x in Reversed(s) <==> x in s
  {
    if s != [] {
      assert s == [s[0]] + s[1..];
      ReversedMember(s[1..], x);
    }
  }

  lemma {:induction false} OnlyDistinct<T>(s: seq<T>, keep: set<T>)
    requires Distinct(s)
    ensures Distinct(Only(s, keep)) && Distinct(Reversed(Only(s, keep)))
  {
    if s != [] {
      assert s == [s[0]] + s[1..] && Distinct(s[1..]);
      OnlyDistinct(s[1..], keep);
      OnlyMember(s[1..], keep, s[0]);
      var r := Only(s[1..], keep);
      ReversedMember(r, s[0]);
      if s[0] in keep {
        assert s[0] !in s[1..];
        assert ([s[0]] + r)[1..] == r;
        ConsDistinct(s[0], r);
        SnocDistinct(Reversed(r), s[0]);
      } else {
        assert [] + r == r;
      }
    }
  }

  lemma {:induction false} RunAccounts<T>(w: Walk<T>, c: T, steps: seq<Step<T>>, keep: set<T>)
    requires Good(w, c) && Distinct(Account(w, c, keep))
    requires forall i, x :: 0 <= i < |steps| && x in keep ==> !Spoils(Run(w, c, steps[..i]), steps[i], x)
    ensures Good(Run(w, c, steps), c)
    ensures Account(Run(w, c, steps), c, keep) == Account(w, c, keep)
  {
    if steps != [] {
      var init, step := steps[..|steps| - 1], steps[|steps| - 1];
      assert forall i :: 0 <= i < |init| ==> init[..i] == steps[..i];
      RunAccounts(w, c, init, keep);
      var v := Run(w, c, init);
      assert steps[..|steps| - 1] == init;
      assert forall x :: x in keep ==> !Spoils(v, step, x);
      if exists x :: x in keep && Touches(step, x) {
        UnlinkSeen(v, c, step, keep);
      } else {
        StepAccounts(v, c, step, keep);
      }
    }
  }

  /** Unlinking a kept item that was seen changes nothing ahead. */
  lemma UnlinkSeen<T>(w: Walk<T>, c: T, step: Step<T>, keep: set<T>)
    requires Good(w, c) && Distinct(Account(w, c, keep)) && !step.Crawl? && step.x in keep && !Spoils(w, step, step.x)
    ensures Good(Next(w, c, step), c) && Account(Next(w, c, step), c, keep) == Account(w, c, keep)
  {
    if !w.done && step.x != c {
      SeenIsBehind(w, c, keep, step.x);
      RemovedBehind(w.s, step.x, c);
      RemovedOnce(w.s, step.x);
    }
  }

  /** A full crawl of a list, entered at the tail: whatever else happens in between, the items that
      are not bumped, nor unlinked before they are seen, are each returned exactly once, from the tail
      to the head; and the crawler has left the list. */
  lemma FullCrawlReturnsOnce<T>(s: seq<T>, c: T, steps: seq<Step<T>>, keep: set<T>)
    requires Distinct(s) && c !in s
    requires forall i, x :: 0 <= i < |steps| && x in keep ==> !Spoils(Run(Walk(s + [c], [], false), c, steps[..i]), steps[i], x)
    ensures var w := Run(Walk(s + [c], [], false), c, steps);
            w.done ==> Only(w.seen, keep) == Reversed(Only(s, keep)) && c !in w.s && Distinct(w.s)
  {
    var w0 := Walk(s + [c], [], false);
    CrawlBegins(s, c, keep);
    OnlyDistinct(s, keep);
    RunAccounts(w0, c, steps, keep);
    var w := Run(w0, c, steps);
    hide Run, Ahead, Removed, Distinct;
    assert w.done ==> Account(w, c, keep) == Only(w.seen, keep) + [] == Only(w.seen, keep);
  }

  lemma CrawlBegins<T>(s: seq<T>, c: T, keep: set<T>)
    requires Distinct(s) && c !in s
    ensures Good(Walk(s + [c], [], false), c) && Ahead(s + [c], c) == s
    ensures Account(Walk(s + [c], [], false), c, keep) == Reversed(Only(s, keep))
  {
    assert (s + [c])[|s|] == c && (s + [c])[..|s|] == s;
    RemovedAt(s + [c], c, |s|);
    assert Account(Walk(s + [c], [], false), c, keep) == [] + Reversed(Only(s, keep));
  }

  /** Spelled out for one item: it is seen once. */
  lemma FullCrawlSeesOnce<T>(s: seq<T>, c: T, steps: seq<Step<T>>, x: T)
    requires Distinct(s) && c !in s && x in s
    requires forall i :: 0 <= i < |steps| ==> !Spoils(Run(Walk(s + [c], [], false), c, steps[..i]), steps[i], x)
    ensures var w := Run(Walk(s + [c], [], false), c, steps); w.done ==> multiset(w.seen)[x] == 1
  {
    hide Run, Next, Ahead, Distinct, Spoils;
    var w := Run(Walk(s + [c], [], false), c, steps);
    if w.done {
      FullCrawlReturnsOnce(s, c, steps, {x});
      OnlyCounts(w.seen, x);
      OnlyCounts(s, x);
      DistinctCounts(s, x);
      assert |Only(s, {x})| == 1;
      assert Reversed(Only(s, {x})) == Only(s, {x}) by {
        assert Only(s, {x})[1..] == [];
      }
    }
  }

  // ---------------------------------------------------------------- first visits

  /** What was seen, each item where it was seen first. */
  ghost function Firsts<T>(s: seq<T>): seq<T> {
    if s == [] then []
    else
      var x, rest := s[|s| - 1], s[..|s| - 1];
      if x in rest then Firsts(rest) else Firsts(rest) + [x]
  }

  ghost function SetOf<T>(s: seq<T>): set<T> {
    set x | x in s
  }

  /** The kept items by first visit, followed by those not seen yet, taken from the tail. */
  ghost function FirstAccount<T>(w: Walk<T>, c: T, keep: set<T>): seq<T> {
    Only(Firsts(w.seen), keep) + if w.done then [] else Reversed(Only(Ahead(w.s, c), keep - SetOf(w.seen)))
  }

  lemma FirstsSnoc<T>(s: seq<T>, x: T)
    ensures Firsts(s + [x]) == if x in s then Firsts(s) else Firsts(s) + [x]
    ensures SetOf(s + [x]) == SetOf(s) + {x}
  {
    assert (s + [x])[..|s|] == s && (s + [x])[|s|] == x;
  }

  lemma {:induction false} OnlySame<T>(s: seq<T>, keep: set<T>, keep': set<T>)
    requires forall x :: x in s ==> (x in keep <==> x in keep')
    ensures Only(s, keep) == Only(s, keep')
  {
    if s != [] {
      assert s[0] in s && forall x :: x in s[1..] ==> x in s;
      OnlySame(s[1..], keep, keep');
    }
  }

  lemma CrawlFirsts<T>(w: Walk<T>, c: T, keep: set<T>)
    requires Good(w, c) && !w.done
    ensures Good(Next(w, c, Crawl), c)
    ensures FirstAccount(Next(w, c, Crawl), c, keep) == FirstAccount(w, c, keep)
  {
    CrawlStepKeepsOrder(w.s, c);
    RemovedOnce(w.s, c);
    match CrawlResult(w.s, c)
    case None =>
    case Some(x) =>
      var a, left := Ahead(CrawlStep(w.s, c), c), keep - SetOf(w.seen);
      AheadApart(w.s, c, x, a);
      FirstsSnoc(w.seen, x);
      OnlyConcat(a, [x], left);
      OnlySame(a, left, left - {x});
      assert keep - SetOf(w.seen + [x]) == left - {x};
      if x in left {
        assert Only([x], left) == [x];
        ReversedSnoc(Only(a, left), x);
        OnlyConcat(Firsts(w.seen), [x], keep);
        assert Only([x], keep) == [x];
        Reassociate(Only(Firsts(w.seen), keep), x, Reversed(Only(a, left)));
      } else {
        assert Only([x], left) == [];
        assert Only(a, left) + [] == Only(a, left);
        if x !in w.seen {
          OnlyConcat(Firsts(w.seen), [x], keep);
          assert Only([x], keep) == [];
          assert Only(Firsts(w.seen), keep) + [] == Only(Firsts(w.seen), keep);
        }
      }
  }

  /** The item passed is not among those still ahead. */
  lemma AheadApart<T>(s: seq<T>, c: T, x: T, a: seq<T>)
    requires Distinct(s) && c in s && Ahead(s, c) == a + [x]
    ensures x !in a
  {
    var k := IndexOf(s, c);
    RemovedAt(s, c, k);
    assert s[..k] == a + [x];
    assert s[k - 1] == s[..k][k - 1] == x;
    assert forall i :: 0 <= i < |a| ==> a[i] == s[..k][i] == s[i];
  }

  lemma StepFirsts<T>(w: Walk<T>, c: T, step: Step<T>, keep: set<T>)
    requires Good(w, c) && forall x :: x in keep && Touches(step, x) ==> x in w.seen
    ensures Good(Next(w, c, step), c)
    ensures FirstAccount(Next(w, c, step), c, keep) == FirstAccount(w, c, keep)
  {
    var left := keep - SetOf(w.seen);
    assert forall x :: x in left ==> !Touches(step, x);
    if step.Crawl? {
      if !w.done {
        CrawlFirsts(w, c, keep);
      }
    } else {
      StepAhead(w, c, step, left);
    }
  }

  /** A step on an item that is not kept leaves the kept ones ahead as they were. */
  lemma StepAhead<T>(w: Walk<T>, c: T, step: Step<T>, keep: set<T>)
    requires Good(w, c) && !step.Crawl? && step.x !in keep
    ensures var v := Next(w, c, step); Good(v, c) && v.seen == w.seen && v.done == w.done
    ensures !w.done ==> Only(Ahead(Next(w, c, step).s, c), keep) == Only(Ahead(w.s, c), keep)
  {
    if !w.done {
      match step
      case LinkHead(x) =>
        if x !in w.s {
          LinkedAhead(w.s, x, c, keep);
        }
      case Unlink(x) =>
        if x != c {
          RemovedOnce(w.s, x);
          RemovedAhead(w.s, x, c, keep);
        }
      case Bump(x) =>
        if x != c && x in w.s {
          RemovedOnce(w.s, x);
          RemovedAhead(w.s, x, c, keep);
          LinkedAhead(Removed(w.s, x), x, c, keep);
        }
    }
  }

  lemma {:induction false} RunFirsts<T>(w: Walk<T>, c: T, steps: seq<Step<T>>, keep: set<T>)
    requires Good(w, c)
    requires forall i, x :: 0 <= i < |steps| && x in keep && Touches(steps[i], x) ==> x in Run(w, c, steps[..i]).seen
    ensures Good(Run(w, c, steps), c)
    ensures FirstAccount(Run(w, c, steps), c, keep) == FirstAccount(w, c, keep)
  {
    if steps != [] {
      var init := steps[..|steps| - 1];
      assert forall i :: 0 <= i < |init| ==> init[..i] == steps[..i] && init[i] == steps[i];
      RunFirsts(w, c, init, keep);
      StepFirsts(Run(w, c, init), c, steps[|steps| - 1], keep);
    }
  }

  /** A full crawl returns every item that is left alone until it is seen, whatever happens to it
      afterwards; by first visit they come from the tail to the head. */
  lemma FullCrawlReturnsEach<T>(s: seq<T>, c: T, steps: seq<Step<T>>, keep: set<T>)
    requires Distinct(s) && c !in s
    requires forall i, x :: 0 <= i < |steps| && x in keep && Touches(steps[i], x) ==> x in Run(Walk(s + [c], [], false), c, steps[..i]).seen
    ensures var w := Run(Walk(s + [c], [], false), c, steps);
            w.done ==> Only(Firsts(w.seen), keep) == Reversed(Only(s, keep)) && c !in w.s && Distinct(w.s)
  {
    var w0 := Walk(s + [c], [], false);
    CrawlBegins(s, c, keep);
    RunFirsts(w0, c, steps, keep);
    var w := Run(w0, c, steps);
    hide Run, Ahead, Removed, Distinct;
    assert keep - SetOf(w0.seen) == keep;
    assert FirstAccount(w0, c, keep) == [] + Reversed(Only(s, keep)) == Reversed(Only(s, keep));
    assert w.done ==> FirstAccount(w, c, keep) == Only(Firsts(w.seen), keep) + [] == Only(Firsts(w.seen), keep);
  }

  lemma {:induction false} OnlyCounts<T>(s: seq<T>, x: T)
    ensures |Only(s, {x})| == multiset(s)[x]
  {
    if s != [] {
      assert s == [s[0]] + s[1..];
      OnlyCounts(s[1..], x);
    }
  }

  lemma {:induction false} DistinctCounts<T>(s: seq<T>, x: T)
    requires Distinct(s)
    ensures multiset(s)[x] == if x in s then 1 else 0
  {
    if s != [] {
      assert s == [s[0]] + s[1..] && Distinct(s[1..]);
      DistinctCounts(s[1..], x);
    }
  }

  // ---------------------------------------------------------------- many lists

  /** `where` tells for each element of the lists ss the one list it is on. */
  ghost predicate Placed<T>(ss: seq<seq<T>>, where: map<T, nat>) {
    && (forall i, x :: 0 <= i < |ss| && x in ss[i] ==> x in where && where[x] == i)
    && (forall x :: x in where ==> where[x] < |ss| && x in ss[where[x]])
  }

  lemma PlacedAdd<T>(ss: seq<seq<T>>, where: map<T, nat>, i: nat, s: seq<T>, it: T)
    requires Placed(ss, where) && i < |ss| && it !in where
    requires forall x :: x in s <==> x in ss[i] || x == it
    ensures Placed(ss[i := s], where[it := i])
  {
  }

  lemma PlacedDel<T>(ss: seq<seq<T>>, where: map<T, nat>, i: nat, s: seq<T>, it: T)
    requires Placed(ss, where) && i < |ss| && it in ss[i]
    requires forall x :: x in s <==> x in ss[i] && x != it
    ensures Placed(ss[i := s], where - {it})
  {
    var tt := ss[i := s];
    assert where[it] == i;
    forall j, x | 0 <= j < |tt| && x in tt[j] ensures x in where && x != it && where[x] == j {
      assert x in ss[j];
    }
  }

  lemma PlacedAddMany<T>(ss: seq<seq<T>>, where: map<T, nat>, i: nat, s: seq<T>, more: set<T>)
    requires Placed(ss, where) && i < |ss| && more !! where.Keys
    requires forall x :: x in s <==> x in ss[i] || x in more
    ensures Placed(ss[i := s], where + map x | x in more :: i)
  {
    var tt := ss[i := s];
    forall j, x | 0 <= j < |tt| && x in tt[j] ensures x in where || x in more {
      assert j != i ==> x in ss[j];
    }
  }

  /** A list after a crawl step; alone in the list, the crawler stays. */
  function Crawled<T(==)>(s: seq<T>, c: T): seq<T> {
    if c !in s || s == [c] then s else CrawlStep(s, c)
  }

  ghost predicate CrawlsOn<T>(s: seq<T>, c: T) {
    c in Crawled(s, c)
  }

  lemma PlacedCrawl<T>(ss: seq<seq<T>>, where: map<T, nat>, i: nat, c: T)
    requires Placed(ss, where) && i < |ss| && c in ss[i] && Distinct(ss[i])
    ensures Placed(ss[i := Crawled(ss[i], c)], if CrawlsOn(ss[i], c) then where else where - {c})
  {
    var t := Crawled(ss[i], c);
    CrawlStepKeepsOrder(ss[i], c);
    RemovedOnce(ss[i], c);
    RemovedOnce(t, c);
    assert forall x :: x != c ==> (x in t <==> x in ss[i]);
    if CrawlsOn(ss[i], c) {
      var tt := ss[i := t];
      forall j, x | 0 <= j < |tt| && x in tt[j] ensures x in where && where[x] == j {
        assert x in ss[j];
      }
    } else {
      PlacedDel(ss, where, i, t, c);
    }
  }
}
