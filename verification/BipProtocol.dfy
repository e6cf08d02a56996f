/** The bip buffer between threads.  Producers write and push under the buffer's lock; the one
    consumer peeks under the lock, reads the peeked bytes without it, and later polls exactly
    what it peeked.  A run is any interleaving of these steps. */
module BipProtocol {
  import opened Common
  import opened BipBuffer

  type Record = r: seq<Byte> | 0 < |r| witness [0]

  function Flatten(rs: seq<Record>): seq<Byte> {
    if rs == [] then [] else rs[0] + Flatten(rs[1..])
  }

  /** What the consumer remembers between peek and poll: the region, what it held when it was
      peeked, and the records that make it up. */
  datatype Window = Window(off: nat, len: nat, bytes: seq<Byte>, recs: seq<Record>)

  /** `pending` is the record a producer has stored but not yet pushed; it holds the lock then.
      `recsA` and `recsB` cut the two regions into records.  `accepted`, `delivered` and `seen`
      are the history: records pushed, records polled, and bytes the consumer read. */
  datatype System = System(
    buf: Buf, pending: Option<Record>, window: Option<Window>,
    recsA: seq<Record>, recsB: seq<Record>,
    accepted: seq<Record>, delivered: seq<Record>, seen: seq<Byte>)

  function Start(data: seq<Byte>): System {
    System(Empty(data), None, None, [], [], [], [], [])
  }

  datatype Step = Write(rec: Record) | Commit | Peek | Poll

  /** One step; a step that is not enabled changes nothing. */
  function Next(s: System, step: Step): System {
    match step
    case Write(rec) =>
      var pos := s.buf.Request(|rec|);
      if s.pending.Some? || pos.None? || s.buf.Size() < pos.value + |rec| then s
      else s.(buf := s.buf.Store(pos.value, rec), pending := Some(rec))
    case Commit =>
      if s.pending.None? then s
      else
        var rec := s.pending.value;
        var (buf, ok) := s.buf.Push(|rec|);
        if !ok then s.(pending := None)
        else
          var r := s.(buf := buf, pending := None, accepted := s.accepted + [rec]);
          if s.buf.bInUse then r.(recsB := s.recsB + [rec]) else r.(recsA := s.recsA + [rec])
    case Peek =>
      if s.pending.Some? || s.window.Some? || s.buf.aEnd <= s.buf.aStart || s.buf.Size() < s.buf.aEnd then s
      else
        var (off, len) := s.buf.PeekAll().value;
        s.(window := Some(Window(off, len, s.buf.data[off..off + len], s.recsA)))
    case Poll =>
      if s.pending.Some? || s.window.None? then s
      else
        var w := s.window.value;
        var (buf, off) := s.buf.Poll(w.len);
        if off.None? || s.buf.Size() < off.value + w.len || |s.recsA| < |w.recs| then s.(window := None)
        else
          var r := s.(buf := buf, window := None, delivered := s.delivered + w.recs,
                      seen := s.seen + s.buf.data[off.value..off.value + w.len]);
          if |w.recs| == |s.recsA| then r.(recsA := s.recsB, recsB := []) else r.(recsA := s.recsA[|w.recs|..])
  }

  function Run(s: System, steps: seq<Step>): System {
    if steps == [] then s else Next(Run(s, steps[..|steps| - 1]), steps[|steps| - 1])
  }

  ghost predicate Inv(s: System) {
    && s.buf.Valid()
    && s.buf.data[s.buf.aStart..s.buf.aEnd] == Flatten(s.recsA)
    && s.buf.data[..s.buf.bEnd] == Flatten(s.recsB)
    && s.accepted == s.delivered + (s.recsA + s.recsB)
    && s.seen == Flatten(s.delivered)
    && (s.pending.Some? ==>
          && |s.pending.value| <= s.buf.Unused()
          && s.buf.WritePos() + |s.pending.value| <= s.buf.Size()
          && s.buf.data[s.buf.WritePos()..s.buf.WritePos() + |s.pending.value|] == s.pending.value)
    && (s.window.Some? ==> WindowIntact(s))
  }

  /** What the consumer relies on while it reads without the lock. */
  ghost predicate WindowIntact(s: System)
    requires s.window.Some?
  {
    var w := s.window.value;
    && w.off == s.buf.aStart && 0 < w.len
    && w.off + w.len <= s.buf.aEnd <= s.buf.Size()
    && s.buf.data[w.off..w.off + w.len] == w.bytes == Flatten(w.recs)
    && w.recs <= s.recsA
  }

  // ---------------------------------------------------------------- flattening

  lemma {:induction false} FlattenConcat(a: seq<Record>, b: seq<Record>)
    ensures Flatten(a + b) == Flatten(a) + Flatten(b)
  {
    if a == [] {
      assert a + b == b;
    } else {
      assert (a + b)[1..] == a[1..] + b;
      FlattenConcat(a[1..], b);
    }
  }

  lemma FlattenOne(r: Record)
    ensures Flatten([r]) == r
  {
    assert Flatten([r]) == r + Flatten([]);
  }

  lemma FlattenEmpty(rs: seq<Record>)
    ensures |Flatten(rs)| == 0 <==> rs == []
  {
  }

  /** Records of one size: the byte length is a multiple of it. */
  lemma {:induction false} FlattenUniform(rs: seq<Record>, size: nat)
    requires Uniform(rs, size)
    ensures |Flatten(rs)| == size * |rs|
  {
    if rs != [] {
      FlattenUniform(rs[1..], size);
      assert size * |rs| == size + size * |rs[1..]|;
    }
  }

  // ---------------------------------------------------------------- each step keeps the invariant

  lemma WriteKeepsInv(s: System, rec: Record)
    requires Inv(s)
    ensures Inv(Next(s, Write(rec)))
  {
    var t := Next(s, Write(rec));
    if t != s {
      StoreKeepsContents(s.buf, rec);
      StoreAway(s.buf, rec);
      if s.window.Some? {
        var w := s.window.value;
        SubSlice(s.buf.data, t.buf.data, s.buf.aStart, s.buf.aEnd, w.len);
      }
    }
  }

  /** A store at the write position leaves both regions as they are. */
  lemma StoreAway(b: Buf, bytes: seq<Byte>)
    requires b.Valid() && |bytes| <= b.Unused()
    ensures var d := b.Store(b.WritePos(), bytes).data;
            |d| == |b.data| && d[b.aStart..b.aEnd] == b.data[b.aStart..b.aEnd] && d[..b.bEnd] == b.data[..b.bEnd]
  {
  }

  lemma SubSlice<T>(x: seq<T>, y: seq<T>, lo: nat, hi: nat, n: nat)
    requires lo + n <= hi <= |x| == |y| && x[lo..hi] == y[lo..hi]
    ensures x[lo..lo + n] == y[lo..lo + n]
  {
    assert x[lo..lo + n] == x[lo..hi][..n];
    assert y[lo..lo + n] == y[lo..hi][..n];
  }

  /** A push extends exactly one region, by the stored record. */
  lemma CommitExtends(s: System)
    requires Inv(s) && s.pending.Some?
    ensures var b, t, rec := s.buf, s.buf.Push(|s.pending.value|).0, s.pending.value;
            && s.buf.Push(|rec|).1 && t.Valid() && t.data == b.data && t.aStart == b.aStart
            && (b.bInUse ==> t.aEnd == b.aEnd && t.bEnd == b.bEnd + |rec| && b.data[..t.bEnd] == b.data[..b.bEnd] + rec)
            && (!b.bInUse ==> t.bEnd == 0 && t.aEnd == b.aEnd + |rec|
                              && b.data[b.aStart..t.aEnd] == b.data[b.aStart..b.aEnd] + rec)
  {
    var b, rec := s.buf, s.pending.value;
    var t := b.Push(|rec|).0;
    PushAppends(b, |rec|);
    if b.bInUse {
      SliceSplit(b.data, 0, b.bEnd, t.bEnd);
    } else {
      SliceSplit(b.data, b.aStart, b.aEnd, t.aEnd);
    }
  }

  lemma CommitKeepsInv(s: System)
    requires Inv(s)
    ensures Inv(Next(s, Commit))
  {
    if s.pending.Some? {
      var rec, t := s.pending.value, Next(s, Commit);
      CommitExtends(s);
      FlattenOne(rec);
      if s.buf.bInUse {
        FlattenConcat(s.recsB, [rec]);
        ConcatAssoc(s.delivered, s.recsA, s.recsB, [rec]);
      } else {
        FlattenConcat(s.recsA, [rec]);
        FlattenEmpty(s.recsB);
        ConcatAssoc(s.delivered, s.recsA, [], [rec]);
      }
    }
  }

  lemma ConcatAssoc<T>(d: seq<T>, a: seq<T>, b: seq<T>, r: seq<T>)
    ensures d + (a + b) + r == d + (a + (b + r))
    ensures b == [] ==> d + (a + b) + r == d + ((a + r) + b)
  {
  }

  lemma PeekKeepsInv(s: System)
    requires Inv(s)
    ensures Inv(Next(s, Peek))
  {
  }

  /** Cutting the window off region A cuts its records off as well. */
  lemma WindowSplits(s: System) returns (rest: seq<Record>)
    requires Inv(s) && s.window.Some?
    ensures var w := s.window.value;
            && s.recsA == w.recs + rest && rest == s.recsA[|w.recs|..]
            && Flatten(rest) == s.buf.data[s.buf.aStart + w.len..s.buf.aEnd]
            && (rest == [] <==> s.buf.aStart + w.len == s.buf.aEnd)
  {
    var w, d := s.window.value, s.buf.data;
    rest := s.recsA[|w.recs|..];
    assert s.recsA == w.recs + rest;
    FlattenConcat(w.recs, rest);
    SliceSplit(d, s.buf.aStart, s.buf.aStart + w.len, s.buf.aEnd);
    FlattenEmpty(rest);
    PrefixAndRest(Flatten(w.recs), Flatten(rest));
    PrefixAndRest(w.bytes, d[s.buf.aStart + w.len..s.buf.aEnd]);
  }

  lemma Regroup<T>(d: seq<T>, w: seq<T>, rest: seq<T>, b: seq<T>)
    ensures d + ((w + rest) + b) == (d + w) + (rest + b)
    ensures rest == [] ==> rest + b == b + []
  {
  }

  /** The poll takes the window's bytes and records, and promotes B when A is used up. */
  lemma PollEffect(s: System, rest: seq<Record>)
    requires Inv(s) && s.pending.None? && s.window.Some?
    requires s.recsA == s.window.value.recs + rest
    requires rest == [] <==> s.buf.aStart + s.window.value.len == s.buf.aEnd
    ensures var w, b := s.window.value, s.buf.Poll(s.window.value.len).0;
            && b.Valid()
            && Next(s, Poll) == System(b, None, None, if rest == [] then s.recsB else rest, if rest == [] then [] else s.recsB,
                                       s.accepted, s.delivered + w.recs, s.seen + w.bytes)
  {
    PollCursors(s.buf, s.window.value.len);
  }

  lemma PollKeepsInv(s: System)
    requires Inv(s)
    ensures Inv(Next(s, Poll))
  {
    if s.pending.None? && s.window.Some? {
      var w := s.window.value;
      var rest := WindowSplits(s);
      PollEffect(s, rest);
      PollCursors(s.buf, w.len);
      FlattenConcat(s.delivered, w.recs);
      FlattenEmpty(s.recsB);
      var t := Next(s, Poll);
      hide Next;
      Regroup(s.delivered, w.recs, rest, s.recsB);
    }
  }

  /** In every reachable state the invariant holds. */
  lemma {:induction false} RunKeepsInv(s: System, steps: seq<Step>)
    requires Inv(s)
    ensures Inv(Run(s, steps))
  {
    if steps != [] {
      RunKeepsInv(s, steps[..|steps| - 1]);
      var t := Run(s, steps[..|steps| - 1]);
      match steps[|steps| - 1]
      case Write(rec) => WriteKeepsInv(t, rec);
      case Commit => CommitKeepsInv(t);
      case Peek => PeekKeepsInv(t);
      case Poll => PollKeepsInv(t);
    }
  }

  // ---------------------------------------------------------------- what a run guarantees

  /** Over every interleaving: the consumer has read, whole and in order, a prefix of the accepted
      records, and what it has not read yet is exactly what is still queued. */
  lemma EveryRecordOnceInOrder(data: seq<Byte>, steps: seq<Step>)
    requires |data| <= INT_MAX
    ensures var s := Run(Start(data), steps);
            && s.buf.Valid()
            && s.delivered <= s.accepted
            && s.seen == Flatten(s.delivered)
            && s.buf.Contents() == Flatten(s.accepted[|s.delivered|..])
  {
    RunKeepsInv(Start(data), steps);
    var s := Run(Start(data), steps);
    assert s.accepted[|s.delivered|..] == s.recsA + s.recsB;
    FlattenConcat(s.recsA, s.recsB);
  }

  /** Between a peek and its poll, any number of producer steps, finished or halfway, leave the
      peeked bytes and the start of region A as they were; the poll is then granted and takes
      away those bytes and nothing else. */
  lemma PeekedBytesAreStable(data: seq<Byte>, before: seq<Step>, between: seq<Step>)
    requires |data| <= INT_MAX
    requires forall i :: 0 <= i < |between| ==> between[i].Write? || between[i].Commit?
    requires Run(Start(data), before).window.Some?
    ensures var s, t := Run(Start(data), before), Run(Run(Start(data), before), between);
            && t.buf.Valid() && t.window == s.window && WindowIntact(t)
            && t.buf.aStart == s.buf.aStart
            && PollDequeues(t.buf, t.window.value.len)
            && t.delivered == s.delivered
  {
    hide *;
    StartInv(data);
    RunKeepsInv(Start(data), before);
    var s := Run(Start(data), before);
    RunKeepsInv(s, between);
    ProducersKeepWindow(s, between);
    WindowPolls(Run(s, between));
  }

  lemma StartInv(data: seq<Byte>)
    requires |data| <= INT_MAX
    ensures Inv(Start(data))
  {
  }

  lemma WindowPolls(s: System)
    requires Inv(s) && s.window.Some?
    ensures s.buf.Valid() && WindowIntact(s) && PollDequeues(s.buf, s.window.value.len)
  {
    PollWithinA(s.buf, s.window.value.len);
  }

  lemma ProducerKeepsWindow(s: System, step: Step)
    requires Inv(s) && (step.Write? || step.Commit?)
    ensures var t := Next(s, step);
            t.window == s.window && t.delivered == s.delivered && t.buf.aStart == s.buf.aStart
  {
  }

  lemma {:induction false} ProducersKeepWindow(s: System, steps: seq<Step>)
    requires Inv(s)
    requires forall i :: 0 <= i < |steps| ==> steps[i].Write? || steps[i].Commit?
    ensures var t := Run(s, steps);
            t.window == s.window && t.delivered == s.delivered && t.buf.aStart == s.buf.aStart
  {
    if steps != [] {
      var init := steps[..|steps| - 1];
      ProducersKeepWindow(s, init);
      RunKeepsInv(s, init);
      ProducerKeepsWindow(Run(s, init), steps[|steps| - 1]);
    }
  }

  /** With records of one size, what peek hands out is a whole number of them, so counting it down
      record by record ends at exactly zero. */
  lemma PeekedLengthIsWhole(data: seq<Byte>, steps: seq<Step>, size: nat)
    requires |data| <= INT_MAX && 0 < size
    requires forall i :: 0 <= i < |steps| && steps[i].Write? ==> |steps[i].rec| == size
    ensures var s := Run(Start(data), steps);
            s.window.Some? ==> s.window.value.len == size * |s.window.value.recs|
  {
    RunKeepsInv(Start(data), steps);
    RunKeepsSize(Start(data), steps, size);
    var s := Run(Start(data), steps);
    if s.window.Some? {
      FlattenUniform(s.window.value.recs, size);
    }
  }

  ghost predicate Uniform(rs: seq<Record>, size: nat) {
    forall i :: 0 <= i < |rs| ==> |rs[i]| == size
  }

  ghost predicate AllOfSize(s: System, size: nat) {
    && Uniform(s.recsA, size) && Uniform(s.recsB, size)
    && (s.pending.Some? ==> |s.pending.value| == size)
    && (s.window.Some? ==> Uniform(s.window.value.recs, size))
  }

  lemma StepKeepsSize(s: System, step: Step, size: nat)
    requires AllOfSize(s, size) && (step.Write? ==> |step.rec| == size)
    ensures AllOfSize(Next(s, step), size)
  {
  }

  lemma {:induction false} RunKeepsSize(s: System, steps: seq<Step>, size: nat)
    requires AllOfSize(s, size)
    requires forall i :: 0 <= i < |steps| && steps[i].Write? ==> |steps[i].rec| == size
    ensures AllOfSize(Run(s, steps), size)
  {
    if steps != [] {
      RunKeepsSize(s, steps[..|steps| - 1], size);
      StepKeepsSize(Run(s, steps[..|steps| - 1]), steps[|steps| - 1], size);
    }
  }
}
