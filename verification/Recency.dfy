/** Recency order of an LRU list in flat mode.  A hit moves an item to the head only when its
    time lies more than ITEM_UPDATE_INTERVAL back, a test in unsigned 32-bit arithmetic. */
module Recency {
  import opened Common
  import opened LruSpec

  const ITEM_UPDATE_INTERVAL := 60

  /** `time < now - ITEM_UPDATE_INTERVAL` on 32-bit unsigned numbers. */
  predicate Stale(time: nat, now: nat) {
    time < (now - ITEM_UPDATE_INTERVAL) % UINT_SPAN
  }

  /** In the first minute the difference wraps, so every time is stale; afterwards the test is
      the one that was meant. */
  lemma StaleExactly(time: nat, now: nat)
    requires time <= now < UINT_SPAN
    ensures Stale(time, now) <==> now < ITEM_UPDATE_INTERVAL || time + ITEM_UPDATE_INTERVAL < now
  {
    if now < ITEM_UPDATE_INTERVAL {
      assert (now - ITEM_UPDATE_INTERVAL) % UINT_SPAN == now - ITEM_UPDATE_INTERVAL + UINT_SPAN;
    }
  }

  /** Most recently touched first. */
  ghost predicate ByRecency<T>(s: seq<T>, touched: map<T, nat>) {
    && (forall x :: x in s ==> x in touched)
    && (forall i, j :: 0 <= i < j < |s| ==> touched[s[i]] > touched[s[j]])
  }

  lemma {:induction false} RemovedByRecency<T>(s: seq<T>, touched: map<T, nat>, x: T)
    requires ByRecency(s, touched) && Distinct(s)
    ensures ByRecency(Removed(s, x), touched)
  {
    if s != [] {
      assert s == [s[0]] + s[1..] && Distinct(s[1..]) && ByRecency(s[1..], touched);
      RemovedByRecency(s[1..], touched, x);
      RemovedOnce(s[1..], x);
      assert forall y :: y in s[1..] ==> touched[s[0]] > touched[y];
    }
  }

  // ---------------------------------------------------------------- eviction

  /** What an eviction takes: from the tail, the first item that is neither the crawler, which is
      passed for free, nor busy, which costs one of the tries. */
  function Victim<T(==)>(s: seq<T>, crawler: T, busy: set<T>, tries: nat): Option<T> {
    if s == [] || tries == 0 then None
    else
      var x, rest := s[|s| - 1], s[..|s| - 1];
      if x == crawler then Victim(rest, crawler, busy, tries)
      else if x in busy then Victim(rest, crawler, busy, tries - 1)
      else Some(x)
  }

  /** Told by places: the victim is neither the crawler nor busy, all behind it are, and they are fewer
      than the tries, the crawler not counted. */
  lemma {:induction false} VictimIff<T>(s: seq<T>, crawler: T, busy: set<T>, tries: nat, k: nat)
    requires Distinct(s) && k < |s|
    ensures Victim(s, crawler, busy, tries) == Some(s[k]) <==>
              && s[k] != crawler && s[k] !in busy
              && (forall j :: k < j < |s| ==> s[j] == crawler || s[j] in busy)
              && |s| - 1 - k - (if crawler in s[k + 1..] then 1 else 0) < tries
  {
    var x, rest := s[|s| - 1], s[..|s| - 1];
    VictimIn(rest, crawler, busy, if x == crawler || tries == 0 then tries else tries - 1);
    assert x !in rest;
    if k < |s| - 1 {
      assert s[k + 1..] == rest[k + 1..] + [x];
      assert forall y :: y in rest[k + 1..] ==> y in rest;
      VictimIff(rest, crawler, busy, if x == crawler || tries == 0 then tries else tries - 1, k);
    }
  }

  lemma {:induction false} VictimIn<T>(s: seq<T>, crawler: T, busy: set<T>, tries: nat)
    ensures Victim(s, crawler, busy, tries).Some? ==> Victim(s, crawler, busy, tries).value in s
  {
    if s != [] && tries > 0 {
      var x, rest := s[|s| - 1], s[..|s| - 1];
      VictimIn(rest, crawler, busy, if x == crawler then tries else tries - 1);
    }
  }

  /** The victim is the least recently touched item among those that can be taken. */
  lemma {:induction false} VictimIsOldest<T>(s: seq<T>, crawler: T, busy: set<T>, tries: nat, touched: map<T, nat>)
    requires Distinct(s) && ByRecency(Removed(s, crawler), touched)
    requires Victim(s, crawler, busy, tries).Some?
    ensures var v := Victim(s, crawler, busy, tries).value;
            && v in s && v != crawler && v !in busy && v in touched
            && forall y :: y in s && y != crawler && y !in busy ==> y in touched && touched[v] <= touched[y]
  {
    var x, rest := s[|s| - 1], s[..|s| - 1];
    assert s == rest + [x];
    RemovedSnoc(rest, x, crawler);
    if x == crawler {
      hide Distinct, ByRecency;
      VictimIsOldest(rest, crawler, busy, tries, touched);
    } else {
      LastIsOldest(Removed(rest, crawler), x, touched);
      RemovedOnce(rest, crawler);
      hide Distinct, ByRecency;
      if x in busy {
        VictimIsOldest(rest, crawler, busy, tries - 1, touched);
      }
    }
  }

  lemma LastIsOldest<T>(r: seq<T>, x: T, touched: map<T, nat>)
    requires ByRecency(r + [x], touched)
    ensures ByRecency(r, touched) && x in touched && forall y :: y in r ==> y in touched && touched[x] <= touched[y]
  {
    var t := r + [x];
    assert forall i :: 0 <= i < |r| ==> t[i] == r[i];
    assert t[|r|] == x;
  }

  lemma {:induction false} RemovedSnoc<T>(s: seq<T>, x: T, c: T)
    requires Distinct(s + [x])
    ensures Distinct(s)
    ensures Removed(s + [x], c) == if x == c then s else Removed(s, c) + [x]
    ensures x == c ==> Removed(s, c) == s
  {
    assert forall i :: 0 <= i < |s| ==> s[i] == (s + [x])[i];
    if s != [] {
      assert (s + [x])[1..] == s[1..] + [x] && (s + [x])[0] == s[0] && (s + [x])[|s|] == x;
      assert forall i :: 0 <= i < |s| ==> (s[1..] + [x])[i] == (s + [x])[i + 1];
      RemovedSnoc(s[1..], x, c);
      assert s == [s[0]] + s[1..];
      assert [s[0]] + (Removed(s[1..], c) + [x]) == ([s[0]] + Removed(s[1..], c)) + [x];
    }
  }

  /** There is no victim only if every item within reach of the tries is busy. */
  lemma {:induction false} NoVictim<T>(s: seq<T>, crawler: T, busy: set<T>, tries: nat)
    requires Victim(s, crawler, busy, tries).None? && |busy| < tries
    requires Distinct(s)
    ensures forall y :: y in s ==> y == crawler || y in busy
  {
    if s != [] {
      var x, rest := s[|s| - 1], s[..|s| - 1];
      assert s == rest + [x];
      if x == crawler {
        NoVictim(rest, crawler, busy, tries);
      } else {
        SameVictim(rest, crawler, busy, busy - {x}, tries - 1);
        NoVictim(rest, crawler, busy - {x}, tries - 1);
      }
    }
  }

  /** The victim depends on nothing but who is busy in the list. */
  lemma {:induction false} SameVictim<T>(s: seq<T>, crawler: T, busy: set<T>, busy': set<T>, tries: nat)
    requires forall x :: x in s ==> (x in busy <==> x in busy')
    ensures Victim(s, crawler, busy, tries) == Victim(s, crawler, busy', tries)
  {
    if s != [] && tries > 0 {
      var x, rest := s[|s| - 1], s[..|s| - 1];
      SameVictim(rest, crawler, busy, busy', if x == crawler then tries else tries - 1);
    }
  }
}
