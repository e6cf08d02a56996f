/** One LRU list in memory: head, tail, the counters, and the items' next and prev links. */
module LruList {
  import opened Common
  import opened Items
  import opened LruSpec

  /** sizeof(item), without the CAS field. */
  const HEADER_SIZE := 48

  /** ITEM_ntotal: the bytes an item occupies. */
  function NTotal(it: Item): nat
    reads it`key, it`nbytes
  {
    HEADER_SIZE + |it.key| + 1 + it.nbytes
  }

  /** Bytes of the items of s; the crawler counts nothing. */
  ghost function Bytes(s: seq<Item>, crawler: Item): nat
    reads s`key, s`nbytes
  {
    if s == [] then 0 else (if s[0] == crawler then 0 else NTotal(s[0])) + Bytes(s[1..], crawler)
  }

  ghost function Count(s: seq<Item>, crawler: Item): nat {
    if crawler in s then |s| - 1 else |s|
  }

  class LruList {
    var head: Item?
    var tail: Item?
    var size: int
    var sizeBytes: int
    const crawler: Item
    ghost var s: seq<Item>

    ghost predicate Valid()
      reads this, s`next, s`prev, s`key, s`nbytes
    {
      Shape() && size == Count(s, crawler) && sizeBytes == Bytes(s, crawler)
    }

    ghost predicate Shape()
      reads `head, `tail, `s, s`next, s`prev
    {
      Distinct(s) && Ends(head, tail, s) && Linked(s)
    }

    constructor (crawler: Item)
      ensures Valid() && s == [] && this.crawler == crawler
    {
      head, tail, size, sizeBytes, this.crawler, s := null, null, 0, 0, crawler, [];
    }

    /** The links of a new head. */
    method LinkHead(it: Item)
      requires Shape() && it !in s
      modifies this`head, this`tail, this`s, it`next, it`prev, s`prev
      ensures Shape() && s == [it] + old(s)
    {
      it.prev := null;
      it.next := head;
      if it.next != null {
        it.next.prev := it;
      }
      head := it;
      if tail == null {
        tail := it;
      }
      s := [it] + s;
    }

    /** Makes the item the head of the list. */
    method LinkQ(it: Item)
      requires Valid() && it !in s && it != crawler
      modifies this, it`next, it`prev, s`prev
      ensures Valid() && s == [it] + old(s)
    {
      ghost var s0 := s;
      LinkHead(it);
      size := size + 1;
      sizeBytes := sizeBytes + NTotal(it);
      assert s[1..] == s0;
    }

    /** It has just left at the head: it is in no link of the list, but still points at it. */
    ghost predicate Popped(it: Item)
      reads `head, `s, it`next, it`prev
    {
      it !in s && it.prev == null && it.next == head && s != []
    }

    /** The links around the k-th item, which leaves the list; its own links stay as they are. */
    method Bypass(it: Item, ghost k: nat)
      requires Shape() && (if k < |s| then s[k] == it else Popped(it))
      modifies this`head, this`tail, this`s, s`next, s`prev
      ensures Shape() && s == old(if k < |s| then s[..k] + s[k + 1..] else s)
      ensures it.next == old(it.next) && it.prev == old(it.prev)
    {
      assert 0 < k < |s| ==> it.prev == s[k - 1];
      assert k < |s| - 1 ==> it.next == s[k + 1];
      if head == it {
        head := it.next;
      }
      if tail == it {
        tail := it.prev;
      }
      if it.next != null {
        it.next.prev := it.prev;
      }
      if it.prev != null {
        it.prev.next := it.next;
      }
      if k < |s| {
        s := s[..k] + s[k + 1..];
      }
    }

    /** Where the item that departs is: beyond the end if it has just left. */
    lemma Position(it: Item) returns (k: nat)
      requires Shape() && (it in s || Popped(it))
      ensures if k < |s| then s[k] == it else k == |s| && Popped(it)
      ensures Removed(s, it) == if k < |s| then s[..k] + s[k + 1..] else s
    {
      RemovedOnce(s, it);
      k := if it in s then IndexOf(s, it) else |s|;
      if it in s {
        RemovedAt(s, it, k);
      }
    }

    /** The links of an item's departure. */
    method Leave(it: Item)
      requires Shape() && (it in s || Popped(it))
      modifies this`head, this`tail, this`s, s`next, s`prev
      ensures Shape() && s == Removed(old(s), it)
    {
      hide *;
      ghost var k := Position(it);
      Bypass(it, k);
    }

    lemma Open()
      requires Valid()
      ensures Shape() && Distinct(s) && size == Count(s, crawler) && sizeBytes == Bytes(s, crawler)
    {
    }

    lemma Close()
      requires Shape() && size == Count(s, crawler) && sizeBytes == Bytes(s, crawler)
      ensures Valid()
    {
    }

    /** Takes the item out of the list. */
    method UnlinkQ(it: Item)
      requires Valid() && it in s && it != crawler
      modifies this, s`next, s`prev
      ensures Valid() && s == Removed(old(s), it)
    {
      hide *;
      Open();
      BytesRemoved(s, crawler, it);
      CountRemoved(s, crawler, it);
      ghost var rest, bytes := Removed(s, it), Bytes(Removed(s, it), crawler);
      Leave(it);
      assert Bytes(rest, crawler) == bytes;
      size := size - 1;
      sizeBytes := sizeBytes - NTotal(it);
      Close();
    }

    /** Makes the crawler the tail of the list; it does not count. */
    method LinkTailQ()
      requires Valid() && crawler !in s
      modifies this, crawler`next, crawler`prev, s`next
      ensures Valid() && s == old(s) + [crawler]
    {
      ghost var s0 := s;
      crawler.prev := tail;
      crawler.next := null;
      if crawler.prev != null {
        crawler.prev.next := crawler;
      }
      tail := crawler;
      if head == null {
        head := crawler;
      }
      s := s + [crawler];
      BytesSnoc(s0, crawler);
    }

    /** Takes the crawler out, wherever it is, also right after it left at the head. */
    method UnlinkTailQ()
      requires Valid() && (crawler in s || Popped(crawler))
      modifies this`head, this`tail, this`s, s`next, s`prev
      ensures Valid() && s == Removed(old(s), crawler) && crawler !in s
    {
      hide *;
      Open();
      CrawlerRemoved(s, crawler);
      ghost var rest, bytes := Removed(s, crawler), Bytes(Removed(s, crawler), crawler);
      Leave(crawler);
      assert Bytes(rest, crawler) == bytes;
      Close();
    }

    /** The links of a crawl step past the crawler's predecessor. */
    method SwapAhead(ghost k: nat)
      requires Shape() && 0 < k < |s| && s[k] == crawler
      modifies this`head, this`tail, this`s, s`next, s`prev
      ensures Shape() && s == old(s[..k - 1] + [s[k], s[k - 1]] + s[k + 1..])
      ensures crawler.next == old(s[k - 1])
    {
      assert crawler.prev == s[k - 1];
      assert k < |s| - 1 ==> crawler.next == s[k + 1];
      assert k > 1 ==> s[k - 1].prev == s[k - 2];
      if head == crawler.prev {
        head := crawler;
      }
      if tail == crawler {
        tail := crawler.prev;
      }
      if crawler.next != null {
        crawler.prev.next := crawler.next;
        crawler.next.prev := crawler.prev;
      } else {
        crawler.prev.next := null;
      }
      crawler.next := crawler.prev;
      crawler.prev := crawler.next.prev;
      crawler.next.prev := crawler;
      if crawler.prev != null {
        crawler.prev.next := crawler;
      }
      s := s[k - 1 := s[k]][k := s[k - 1]];
    }

    /** The crawler leaves at the head; alone in the list, it stays until it is unlinked. */
    method Pop()
      requires Shape() && s != [] && s[0] == crawler
      modifies this`head, this`s, s`prev
      ensures Shape() && crawler.prev == null
      ensures s == (if |old(s)| > 1 then old(s)[1..] else old(s))
      ensures |old(s)| > 1 ==> Popped(crawler)
    {
      assert |s| > 1 ==> crawler.next == s[1];
      if crawler.next != null {
        head := crawler.next;
        crawler.next.prev := null;
        s := s[1..];
      }
    }

    method CrawlLinks() returns (passed: Item?)
      requires Shape() && crawler in s
      modifies this`head, this`tail, this`s, s`next, s`prev
      ensures Shape()
      ensures passed == match CrawlResult(old(s), crawler) case Some(x) => x case None => null
      ensures s == if old(s) == [crawler] then old(s) else CrawlStep(old(s), crawler)
      ensures passed == null ==> crawler in s || Popped(crawler)
    {
      ghost var k := IndexOf(s, crawler);
      assert 0 < k ==> crawler.prev == s[k - 1];
      if crawler.prev == null {
        Pop();
        return null;
      }
      SwapAhead(k);
      passed := crawler.next;
    }

    /** One step of the crawler.  The result is the item it passed; null ends the crawl. */
    method CrawlQ() returns (passed: Item?)
      requires Valid() && crawler in s
      modifies this`head, this`tail, this`s, s`next, s`prev
      ensures Valid()
      ensures passed == match CrawlResult(old(s), crawler) case Some(x) => x case None => null
      ensures s == if old(s) == [crawler] then old(s) else CrawlStep(old(s), crawler)
      ensures passed == null ==> crawler in s || Popped(crawler)
    {
      hide *;
      Open();
      BytesSame(s, crawler);
      ghost var s0, s' := s, CrawlStep(s, crawler);
      ghost var bytes, bytes' := Bytes(s0, crawler), Bytes(s', crawler);
      passed := CrawlLinks();
      assert Bytes(s0, crawler) == bytes && Bytes(s', crawler) == bytes';
      Close();
    }
  }

  /** A crawl step changes neither counter. */
  lemma BytesSame(s: seq<Item>, crawler: Item)
    requires Distinct(s) && crawler in s
    ensures Bytes(CrawlStep(s, crawler), crawler) == Bytes(s, crawler)
    ensures Count(CrawlStep(s, crawler), crawler) == Count(s, crawler)
  {
    var t := CrawlStep(s, crawler);
    CrawlStepKeepsOrder(s, crawler);
    BytesRemoved(s, crawler, crawler);
    RemovedOnce(s, crawler);
    if crawler in t {
      BytesRemoved(t, crawler, crawler);
    }
  }

  /** Nor does the crawler's departure. */
  lemma CrawlerRemoved(s: seq<Item>, crawler: Item)
    requires Distinct(s)
    ensures Bytes(Removed(s, crawler), crawler) == Bytes(s, crawler) && Count(Removed(s, crawler), crawler) == Count(s, crawler)
    ensures crawler !in Removed(s, crawler)
  {
    RemovedOnce(s, crawler);
    if crawler in s {
      BytesRemoved(s, crawler, crawler);
      RemovedAt(s, crawler, IndexOf(s, crawler));
    }
  }

  lemma {:induction false} BytesRemoved(s: seq<Item>, crawler: Item, it: Item)
    requires Distinct(s) && it in s
    ensures Bytes(s, crawler) == Bytes(Removed(s, it), crawler) + if it == crawler then 0 else NTotal(it)
  {
    if s[0] != it {
      assert Distinct(s[1..]);
      BytesRemoved(s[1..], crawler, it);
      assert ([s[0]] + Removed(s[1..], it))[1..] == Removed(s[1..], it);
    }
  }

  lemma CountRemoved(s: seq<Item>, crawler: Item, it: Item)
    requires Distinct(s) && it in s && it != crawler
    ensures Count(Removed(s, it), crawler) == Count(s, crawler) - 1
  {
    RemovedOnce(s, it);
    RemovedAt(s, it, IndexOf(s, it));
  }

  lemma {:induction false} BytesSnoc(s: seq<Item>, crawler: Item)
    ensures Bytes(s + [crawler], crawler) == Bytes(s, crawler)
  {
    if s != [] {
      assert (s + [crawler])[1..] == s[1..] + [crawler];
      BytesSnoc(s[1..], crawler);
    }
  }
}
