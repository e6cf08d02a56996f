/** A bip buffer: one array, two regions.  Region A is data[aStart..aEnd]; region B, when in
    use, is data[..bEnd] and holds what was written after A.  Every reader and every writer
    gets contiguous memory. */
module BipBuffer {
  import opened Common

  const INT_MAX := 0x7fff_ffff

  /** The state of a buffer as a value. */
  datatype Buf = Buf(data: seq<Byte>, aStart: nat, aEnd: nat, bEnd: nat, bInUse: bool)
  {
    function Size(): nat { |data| }

    /** What every buffer built by the operations below satisfies. */
    predicate Valid() {
      && Size() <= INT_MAX
      && bEnd <= aStart <= aEnd <= Size()
      && (!bInUse ==> bEnd == 0 && Size() - aEnd >= aStart)
      && (aStart == aEnd ==> aEnd == 0 && !bInUse)
    }

    /** The queued bytes, oldest first. */
    function Contents(): seq<Byte>
      requires bEnd <= Size() && aStart <= aEnd <= Size()
    {
      data[aStart..aEnd] + data[..bEnd]
    }

    function Unused(): int {
      if bInUse then aStart - bEnd else Size() - aEnd
    }

    function Used(): int {
      (aEnd - aStart) + bEnd
    }

    predicate IsEmpty() {
      aStart == aEnd
    }

    /** Where the next write goes. */
    function WritePos(): nat {
      if bInUse then bEnd else aEnd
    }

    /** Region B is switched on once there is more room before A than after it. */
    function SwitchToB(): Buf {
      if Size() - aEnd < aStart - bEnd then this.(bInUse := true) else this
    }

    /** The array after `bytes` were stored at `pos`. */
    function Store(pos: nat, bytes: seq<Byte>): (r: Buf)
      requires pos + |bytes| <= Size()
    {
      this.(data := data[..pos] + bytes + data[pos + |bytes|..])
    }

    function Request(n: nat): Option<nat> {
      if Unused() < n then None else Some(WritePos())
    }

    /** Commits n bytes at the write position; the flag says whether they were accepted. */
    function Push(n: nat): (Buf, bool) {
      if Unused() < n then (this, false)
      else
        var moved := if bInUse then this.(bEnd := bEnd + n) else this.(aEnd := aEnd + n);
        (moved.SwitchToB(), true)
    }

    function Offer(bytes: seq<Byte>): (Buf, bool)
      requires Valid()
    {
      if Unused() < |bytes| then (this, false)
      else Store(WritePos(), bytes).Push(|bytes|)
    }

    function PeekAll(): Option<(nat, nat)>
      requires aStart <= aEnd
    {
      if IsEmpty() then None else Some((aStart, aEnd - aStart))
    }

    /** Drops n bytes from the front of region A; the result is the offset of the dropped bytes.
        aStart and n are 32-bit, so their sum wraps. */
    function Poll(n: nat): (Buf, Option<nat>) {
      var end := (aStart + n) % UINT_SPAN;
      if IsEmpty() || Size() < end then (this, None)
      else
        var moved :=
          if end != aEnd then this.(aStart := end)
          else if bInUse then this.(aStart := 0, aEnd := bEnd, bEnd := 0, bInUse := false)
          else this.(aStart := 0, aEnd := 0);
        (moved.SwitchToB(), Some(aStart))
    }
  }

  function Empty(data: seq<Byte>): Buf {
    Buf(data, 0, 0, 0, false)
  }

  // ---------------------------------------------------------------- the queue refinement

  /** A fresh buffer is a valid empty queue. */
  lemma EmptyIsQueue(data: seq<Byte>)
    requires |data| <= INT_MAX
    ensures Empty(data).Valid() && Empty(data).Contents() == []
  {
  }

  /** Storing where the next write goes touches no queued byte. */
  lemma StoreKeepsContents(b: Buf, bytes: seq<Byte>)
    requires b.Valid() && |bytes| <= b.Unused()
    ensures var s := b.Store(b.WritePos(), bytes);
            && s.Valid() && s.Contents() == b.Contents()
            && s.data[b.WritePos()..b.WritePos() + |bytes|] == bytes
            && s == b.(data := s.data)
  {
    var s := b.Store(b.WritePos(), bytes);
    assert s.data[b.aStart..b.aEnd] == b.data[b.aStart..b.aEnd];
    assert s.data[..b.bEnd] == b.data[..b.bEnd];
  }

  /** Push is accepted exactly when there is room, and then appends what lies at the write position. */
  lemma PushAppends(b: Buf, n: nat)
    requires b.Valid()
    ensures var (r, ok) := b.Push(n);
            && r.Valid() && ok == (n <= b.Unused()) && r.data == b.data
            && b.WritePos() + b.Unused() <= b.Size()
            && r.Contents() == if ok then b.Contents() + b.data[b.WritePos()..b.WritePos() + n] else b.Contents()
  {
    if n <= b.Unused() {
      var w := b.WritePos();
      var moved := if b.bInUse then b.(bEnd := b.bEnd + n) else b.(aEnd := b.aEnd + n);
      SliceSplit(b.data, b.aStart, b.aEnd, moved.aEnd);
      SliceSplit(b.data, 0, b.bEnd, moved.bEnd);
      assert b.data[w..w] == [];
      assert moved.Contents() == b.Contents() + b.data[w..w + n];
      SwitchKeepsContents(moved);
    }
  }

  lemma SliceSplit<T>(s: seq<T>, i: nat, j: nat, k: nat)
    requires i <= j <= k <= |s|
    ensures s[i..k] == s[i..j] + s[j..k]
  {
  }

  /** Offer enqueues the given bytes, all or nothing. */
  lemma OfferEnqueues(b: Buf, bytes: seq<Byte>)
    requires b.Valid()
    ensures var (r, ok) := b.Offer(bytes);
            && r.Valid() && ok == (|bytes| <= b.Unused())
            && r.Contents() == if ok then b.Contents() + bytes else b.Contents()
  {
    if |bytes| <= b.Unused() {
      StoreKeepsContents(b, bytes);
      PushAppends(b.Store(b.WritePos(), bytes), |bytes|);
    }
  }

  /** An accepted poll dequeues: it hands out the first n bytes and leaves the rest. */
  predicate PollDequeues(b: Buf, n: nat)
    requires b.Valid()
  {
    var (r, off) := b.Poll(n);
    && r.Valid()
    && n <= |b.Contents()|
    && off == Some(b.aStart) && b.aStart + n <= b.Size()
    && b.data[b.aStart..b.aStart + n] == b.Contents()[..n]
    && r.Contents() == b.Contents()[n..]
  }

  /** What a poll within region A does to the cursors. */
  lemma PollCursors(b: Buf, n: nat)
    requires b.Valid() && n <= b.aEnd - b.aStart && !b.IsEmpty()
    ensures b.Poll(n) == (if b.aStart + n < b.aEnd then b.(aStart := b.aStart + n).SwitchToB()
                          else Buf(b.data, 0, b.bEnd, 0, false), Some(b.aStart))
    ensures b.Poll(n).0.Valid()
  {
    assert b.aStart + n < UINT_SPAN;
  }

  /** Every length that was peeked is accepted, and dequeued. */
  lemma PollWithinA(b: Buf, n: nat)
    requires b.Valid() && n <= b.aEnd - b.aStart && !b.IsEmpty()
    ensures b.Poll(n).1 == Some(b.aStart) && PollDequeues(b, n)
  {
    var x, y, z := b.data[b.aStart..b.aStart + n], b.data[b.aStart + n..b.aEnd], b.data[..b.bEnd];
    var r := b.Poll(n).0;
    PollCursors(b, n);
    assert b.Contents() == x + (y + z) by { SliceSplit(b.data, b.aStart, b.aStart + n, b.aEnd); }
    PrefixAndRest(x, y + z);
    if b.aStart + n == b.aEnd {
      assert y == [];
      assert r.Contents() == z + [];
    } else {
      SwitchKeepsContents(b.(aStart := b.aStart + n));
      assert r.Contents() == y + z;
    }
  }

  lemma PrefixAndRest<T>(x: seq<T>, rest: seq<T>)
    ensures (x + rest)[..|x|] == x && (x + rest)[|x|..] == rest
  {
  }

  lemma PollBeyondA(b: Buf, n: nat)
    requires b.Valid() && b.aEnd - b.aStart < n < UINT_SPAN && b.Poll(n).1.Some?
    ensures !PollDequeues(b, n)
  {
    var (r, off) := b.Poll(n);
    if r.Valid() && n <= |b.Contents()| {
      assert |r.Contents()| == r.Used() && |b.Contents()| == b.Used();
    }
  }

  /** The 32-bit poll does this for exactly the lengths that region A can serve.  For any longer
      one it is refused or it damages the queue. */
  lemma PollDequeuesIff(b: Buf, n: nat)
    requires b.Valid() && n < UINT_SPAN && b.Poll(n).1.Some?
    ensures PollDequeues(b, n) <==> n <= b.aEnd - b.aStart
  {
    if n <= b.aEnd - b.aStart {
      PollWithinA(b, n);
    } else {
      PollBeyondA(b, n);
    }
  }

  /** Such a poll can be accepted: of 3 bytes in a buffer of 10, it takes 5. */
  lemma PollBeyondAAccepted()
    ensures var b := Buf(seq(10, i => 0), 0, 3, 0, false);
            b.Valid() && |b.Contents()| == 3 && b.Poll(5).1 == Some(0) && !b.Poll(5).0.Valid() && !PollDequeues(b, 5)
  {
  }

  /** The query functions report on the queue. */
  lemma QueriesReport(b: Buf)
    requires b.Valid()
    ensures b.IsEmpty() <==> b.Contents() == []
    ensures b.Used() == |b.Contents()|
    ensures 0 <= b.Unused() && b.Used() + b.Unused() <= b.Size()
    ensures b.PeekAll().Some? ==> var (off, n) := b.PeekAll().value; 0 < n && b.data[off..off + n] <= b.Contents()
  {
  }

  /** The test that turns region B on never changes what is queued. */
  lemma SwitchKeepsContents(b: Buf)
    requires b.bEnd <= b.aStart <= b.aEnd <= b.Size()
    ensures b.SwitchToB().Contents() == b.Contents()
    ensures b.Valid() && b.SwitchToB() != b ==> b.SwitchToB().Unused() > b.Unused()
  {
  }

  /** request, write, push: after a request of n was granted, a push of at most n commits the
      bytes written at the granted place. */
  lemma RequestThenPush(b: Buf, n: nat, bytes: seq<Byte>)
    requires b.Valid() && |bytes| <= n && b.Request(n).Some?
    ensures b.Request(n).value + |bytes| <= b.Size()
    ensures var (r, ok) := b.Store(b.Request(n).value, bytes).Push(|bytes|);
            ok && r.Valid() && r.Contents() == b.Contents() + bytes
  {
    StoreKeepsContents(b, bytes);
    PushAppends(b.Store(b.WritePos(), bytes), |bytes|);
  }

  /** A request is granted exactly if n bytes fit after the write position, before region A if B is in
      use and before the end of the array if not. */
  lemma RequestGrantedIff(b: Buf, n: nat)
    requires b.Valid()
    ensures b.Request(n).Some? <==> if b.bInUse then b.bEnd + n <= b.aStart else b.aEnd + n <= b.Size()
    ensures b.Request(n).Some? ==> b.Request(n).value == if b.bInUse then b.bEnd else b.aEnd
  {
  }

  /** Writing goes on after region A only while there is at least as much room there as before it. */
  predicate Roomy(b: Buf) {
    !b.bInUse ==> b.Size() - b.aEnd >= b.aStart
  }

  /** All operations see to that, so a request that is refused outside region B would fit nowhere. */
  lemma StaysRoomy(b: Buf, n: nat, bytes: seq<Byte>, data: seq<Byte>)
    requires b.Valid() && Roomy(b)
    ensures |data| <= INT_MAX ==> Roomy(Empty(data))
    ensures Roomy(b.Push(n).0) && Roomy(b.Offer(bytes).0)
    ensures n <= b.aEnd - b.aStart ==> Roomy(b.Poll(n).0)
    ensures !b.bInUse && b.Request(n).None? ==> b.Size() < b.aEnd + n && b.aStart < n
  {
    if n <= b.aEnd - b.aStart && !b.IsEmpty() {
      PollCursors(b, n);
    }
  }

  // ---------------------------------------------------------------- the buffer itself

  class BipBuf {
    const data: array<Byte>
    var aStart: nat
    var aEnd: nat
    var bEnd: nat
    var bInUse: bool

    ghost function View(): Buf
      reads this, data
    {
      Buf(data[..], aStart, aEnd, bEnd, bInUse)
    }

    constructor (size: nat)
      ensures View() == Empty(data[..]) && data.Length == size && fresh(data)
    {
      data := new Byte[size](_ => 0);
      aStart, aEnd, bEnd, bInUse := 0, 0, 0, false;
    }

    method Unused() returns (n: int)
      ensures n == View().Unused()
    {
      if bInUse { n := aStart - bEnd; } else { n := data.Length - aEnd; }
    }

    method CheckForSwitchToB()
      modifies this`bInUse
      ensures View() == old(View()).SwitchToB()
    {
      if data.Length - aEnd < aStart - bEnd { bInUse := true; }
    }

    method Request(n: nat) returns (pos: Option<nat>)
      ensures pos == View().Request(n)
    {
      var free := Unused();
      if free < n { return None; }
      if bInUse { pos := Some(bEnd); } else { pos := Some(aEnd); }
    }

    method Push(n: nat) returns (accepted: nat)
      modifies this
      ensures View() == old(View()).Push(n).0
      ensures accepted == if old(View()).Push(n).1 then n else 0
    {
      var free := Unused();
      if free < n { return 0; }
      if bInUse { bEnd := bEnd + n; } else { aEnd := aEnd + n; }
      CheckForSwitchToB();
      accepted := n;
    }

    method Offer(bytes: seq<Byte>) returns (accepted: nat)
      requires View().Valid()
      modifies this, data
      ensures View() == old(View()).Offer(bytes).0
      ensures accepted == if old(View()).Offer(bytes).1 then |bytes| else 0
    {
      var free := Unused();
      if free < |bytes| { return 0; }
      if bInUse {
        Copy(bEnd, bytes);
        bEnd := bEnd + |bytes|;
      } else {
        Copy(aEnd, bytes);
        aEnd := aEnd + |bytes|;
      }
      CheckForSwitchToB();
      accepted := |bytes|;
    }

    method Copy(pos: nat, bytes: seq<Byte>)
      requires pos + |bytes| <= data.Length
      modifies data
      ensures View() == old(View()).Store(pos, bytes)
    {
      for i := 0 to |bytes|
        invariant data[..] == old(data[..pos]) + bytes[..i] + old(data[pos + i..])
      {
        data[pos + i] := bytes[i];
      }
    }

    method PeekAll() returns (region: Option<(nat, nat)>)
      requires aStart <= aEnd
      ensures region == View().PeekAll()
    {
      if aStart == aEnd { return None; }
      region := Some((aStart, aEnd - aStart));
    }

    method Poll(n: nat) returns (off: Option<nat>)
      modifies this
      ensures View() == old(View()).Poll(n).0
      ensures off == old(View()).Poll(n).1
    {
      if aStart == aEnd { return None; }
      var end := (aStart + n) % UINT_SPAN;
      if data.Length < end { return None; }
      off := Some(aStart);
      aStart := end;
      if aStart == aEnd {
        if bInUse {
          aStart, aEnd := 0, bEnd;
          bEnd, bInUse := 0, false;
        } else {
          aStart, aEnd := 0, 0;
        }
      }
      CheckForSwitchToB();
    }
  }
}
