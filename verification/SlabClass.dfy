/** One slab class: its pages, cut into chunks of one size, and the freelist threaded through the
    chunks' next and prev links. */
module SlabClass {
  import opened Common
  import opened Items
  import opened LruSpec
  import opened PageRoom

  /** A slab page and the chunks it is cut into now; none while it waits in the global pool. */
  class Page {
    var chunks: seq<Item>

    constructor ()
      ensures chunks == []
    {
      chunks := [];
    }
  }

  ghost function ItemSet(s: seq<Item>): set<Item> {
    set x | x in s
  }

  class SlabClass {
    const perslab: nat
    var slots: Item?
    var slCurr: int
    var slabList: seq<Page>
    var listSize: nat

    ghost var free: seq<Item>
    ghost var owned: set<Item>

    /** The freelist. */
    ghost predicate FreeList()
      reads `slots, `slCurr, `free, free`next, free`prev
    {
      && Distinct(free) && Linked(free)
      && slots == (if free == [] then null else free[0])
      && slCurr == |free|
    }

    /** The page list fits the space allocated for it. */
    ghost predicate PageList()
      reads `slabList, `listSize
    {
      |slabList| <= listSize && Distinct(slabList)
    }

    /** The class owns the chunks of its pages: each page holds perslab of them, no two share one. */
    ghost predicate PageChunks()
      reads `slabList, `owned, slabList`chunks
    {
      PageChunksOf(slabList, owned)
    }

    ghost predicate PageChunksOf(slabList: seq<Page>, owned: set<Item>)
      reads slabList`chunks
    {
      && (forall p :: p in slabList ==> |p.chunks| == perslab && Distinct(p.chunks) && ItemSet(p.chunks) <= owned)
      && (forall p, q :: p in slabList && q in slabList && p != q ==> ItemSet(p.chunks) !! ItemSet(q.chunks))
      && (forall x :: x in owned ==> exists p :: p in slabList && x in p.chunks)
      && |owned| == |slabList| * perslab
    }

    ghost predicate Valid()
      reads this, slabList`chunks, free`next, free`prev
    {
      FreeList() && PageList() && PageChunks() && ItemSet(free) <= owned
    }

    constructor (perslab: nat)
      ensures Valid() && slabList == [] && free == [] && owned == {} && this.perslab == perslab
    {
      this.perslab, slots, slCurr, slabList, listSize := perslab, null, 0, [], 0;
      free, owned := [], {};
    }

    /** Free chunks and handed-out chunks together are all chunks of all pages. */
    lemma Conservation()
      requires Valid()
      ensures ItemSet(free) !! (owned - ItemSet(free))
      ensures slCurr + |owned - ItemSet(free)| == |slabList| * perslab
    {
      DistinctCard(free);
    }

    /** Puts a chunk on the freelist. */
    method Free(it: Item)
      requires FreeList() && it !in free
      modifies this`slots, this`slCurr, this`free, it`flags, it`clsid, it`prev, it`next, ItemSet(free)`prev
      ensures FreeList() && free == [it] + old(free)
      ensures it.flags == FREE && it.clsid == 0
    {
      it.flags := FREE;
      it.clsid := 0;
      it.prev := null;
      it.next := slots;
      if it.next != null {
        it.next.prev := it;
      }
      slots := it;
      slCurr := slCurr + 1;
      free := [it] + free;
    }

    /** Takes the first chunk of the freelist. */
    method Alloc() returns (it: Item)
      requires FreeList() && free != []
      modifies this`slots, this`slCurr, this`free, free`prev, {free[0]}`flags, {free[0]}`refcount
      ensures FreeList() && old(free) == [it] + free
      ensures it.flags == old(it.flags).(slabbed := false) && it.refcount == 1
    {
      it := slots;
      assert |free| > 1 ==> it.next == free[1];
      slots := it.next;
      if it.next != null {
        it.next.prev := null;
      }
      it.flags := it.flags.(slabbed := false);
      it.refcount := 1;
      slCurr := slCurr - 1;
      free := free[1..];
    }

    /** The links of cutting the k-th chunk out of the freelist. */
    method CutAt(it: Item, ghost k: nat)
      requires FreeList() && k < |free| && free[k] == it
      modifies this`slots, this`slCurr, this`free, free`next, free`prev
      ensures FreeList() && free == old(free[..k] + free[k + 1..])
    {
      assert 0 < k ==> it.prev == free[k - 1];
      assert k < |free| - 1 ==> it.next == free[k + 1];
      if slots == it {
        slots := it.next;
      }
      if it.next != null {
        it.next.prev := it.prev;
      }
      if it.prev != null {
        it.prev.next := it.next;
      }
      slCurr := slCurr - 1;
      ghost var f := free;
      free := free[..k] + free[k + 1..];
      assert forall i :: 0 <= i < |free| ==> free[i] == if i < k then f[i] else f[i + 1];
    }

    /** Cuts a chunk out of the freelist, wherever it is. */
    method CutFree(it: Item)
      requires FreeList() && it in free
      modifies this`slots, this`slCurr, this`free, free`next, free`prev
      ensures FreeList() && free == Removed(old(free), it)
    {
      ghost var k := IndexOf(free, it);
      RemovedAt(free, it, k);
      CutAt(it, k);
    }

    /** Makes room for one more page in the page list. */
    method Grow()
      requires PageList()
      modifies `listSize
      ensures PageList() && |slabList| < listSize
      ensures listSize == GrownSize(|slabList|, old(listSize))
    {
      if |slabList| == listSize {
        listSize := if listSize != 0 then listSize * 2 else FIRST_LIST_SIZE;
      }
    }

    /** The next chunk of a page goes onto the freelist. */
    method CutOne(p: Page) returns (it: Item)
      requires FreeList() && ItemSet(free) <= owned
      modifies this`slots, this`slCurr, this`free, this`owned, p`chunks, ItemSet(free)`prev
      ensures FreeList() && free == [it] + old(free) && owned == old(owned) + {it} && fresh(it)
      ensures p.chunks == old(p.chunks) + [it]
      ensures it.flags == FREE && it.clsid == 0 && it.refcount == 0
    {
      it := new Item();
      Free(it);
      p.chunks := p.chunks + [it];
      owned := owned + {it};
    }

    /** Cuts a page without chunks into fresh chunks, and puts them all on the freelist. */
    method Split(p: Page)
      requires FreeList() && ItemSet(free) <= owned && p.chunks == []
      modifies this`slots, this`slCurr, this`free, this`owned, p`chunks, ItemSet(free)`prev
      ensures FreeList()
      ensures |p.chunks| == perslab && Distinct(p.chunks) && fresh(ItemSet(p.chunks))
      ensures owned == old(owned) + ItemSet(p.chunks)
      ensures ItemSet(free) == old(ItemSet(free)) + ItemSet(p.chunks)
      ensures forall x :: x in p.chunks ==> x.flags == FREE && x.clsid == 0 && x.refcount == 0
    {
      hide FreeList;
      for x := 0 to perslab
        invariant FreeList() && ItemSet(free) <= owned
        invariant |p.chunks| == x && Distinct(p.chunks) && fresh(ItemSet(p.chunks))
        invariant owned == old(owned) + ItemSet(p.chunks)
        invariant ItemSet(free) == old(ItemSet(free)) + ItemSet(p.chunks)
        invariant forall y :: y in free ==> y in old(free) || y in p.chunks
        invariant forall y :: y in p.chunks ==> y.flags == FREE && y.clsid == 0 && y.refcount == 0
      {
        ghost var chunks := p.chunks;
        var it := CutOne(p);
        assert forall y :: y in p.chunks <==> y in chunks || y == it;
      }
    }

    lemma PageAdded(p: Page, owned0: set<Item>, list0: seq<Page>)
      requires PageChunksOf(list0, owned0) && p !in list0 && slabList == list0 + [p]
      requires |p.chunks| == perslab && Distinct(p.chunks) && ItemSet(p.chunks) !! owned0
      requires owned == owned0 + ItemSet(p.chunks)
      ensures PageChunks()
    {
      forall x | x in owned ensures exists q :: q in slabList && x in q.chunks {
        if x in owned0 {
          var q :| q in list0 && x in q.chunks;
          assert q in slabList;
        } else {
          assert p in slabList && x in p.chunks;
        }
      }
      forall q, r | q in slabList && r in slabList && q != r ensures ItemSet(q.chunks) !! ItemSet(r.chunks) {
        assert q in list0 || q == p;
        assert r in list0 || r == p;
      }
      OneMore(|list0|, perslab, owned0, p.chunks);
    }

    lemma OneMore(n: nat, k: nat, owned0: set<Item>, s: seq<Item>)
      requires |owned0| == n * k && |s| == k && Distinct(s) && ItemSet(s) !! owned0
      ensures |owned0 + ItemSet(s)| == (n + 1) * k
    {
      DistinctCard(s);
    }

    /** Cuts a page and puts it at the end of the page list. */
    method AddPage(p: Page)
      requires Valid() && p !in slabList && p.chunks == [] && |slabList| < listSize
      modifies `slots, `slCurr, `free, `owned, `slabList, p`chunks, ItemSet(free)`prev
      ensures Valid() && slabList == old(slabList) + [p]
      ensures |p.chunks| == perslab && Distinct(p.chunks) && fresh(ItemSet(p.chunks))
      ensures owned == old(owned) + ItemSet(p.chunks)
      ensures ItemSet(free) == old(ItemSet(free)) + ItemSet(p.chunks)
      ensures forall x :: x in p.chunks ==> x.flags == FREE && x.clsid == 0 && x.refcount == 0
    {
      hide *;
      ghost var owned0, list0 := owned, slabList;
      Parts();
      Split(p);
      Disjointness(p, owned0, old(ItemSet(free)));
      slabList := slabList + [p];
      PageAdded(p, owned0, list0);
      AppendedDistinct(list0, p);
      Whole();
    }

    lemma Parts()
      requires Valid()
      ensures FreeList() && PageList() && PageChunksOf(slabList, owned) && ItemSet(free) <= owned
      ensures Distinct(slabList) && |slabList| <= listSize
    {
    }

    lemma Whole()
      requires FreeList() && Distinct(slabList) && |slabList| <= listSize && PageChunks() && ItemSet(free) <= owned
      ensures Valid()
    {
    }

    lemma Disjointness(p: Page, owned0: set<Item>, free0: set<Item>)
      requires free0 <= owned0 && ItemSet(free) == free0 + ItemSet(p.chunks) && owned == owned0 + ItemSet(p.chunks)
      ensures ItemSet(free) <= owned
    {
    }

    lemma AppendedDistinct(s: seq<Page>, p: Page)
      requires Distinct(s) && p !in s
      ensures Distinct(s + [p])
    {
    }

    /** Shifts the page list down over its first page. */
    method ShiftPages()
      requires slabList != []
      modifies `slabList
      ensures slabList == old(slabList)[1..]
    {
      var n := |slabList| - 1;
      ghost var was := slabList;
      for x := 0 to n
        invariant slabList == was[1..x + 1] + was[x..]
      {
        ShiftOne(was, x);
        slabList := slabList[x := slabList[x + 1]];
      }
      slabList := slabList[..n];
    }

    lemma ShiftOne(s: seq<Page>, x: nat)
      requires x < |s| - 1
      ensures var t := s[1..x + 1] + s[x..]; |t| == |s| && t[x := t[x + 1]] == s[1..x + 2] + s[x + 1..]
    {
    }

    lemma PageDropped(p: Page, owned0: set<Item>)
      requires PageChunksOf([p] + slabList, owned0) && owned == owned0 - ItemSet(p.chunks) && p !in slabList
      ensures PageChunks()
    {
      var list0 := [p] + slabList;
      assert p in list0 && forall q :: q in slabList ==> q in list0;
      forall q | q in slabList ensures ItemSet(q.chunks) <= owned {
        assert q in list0 && q != p;
        assert ItemSet(q.chunks) <= owned0 && ItemSet(q.chunks) !! ItemSet(p.chunks);
      }
      forall x | x in owned ensures exists q :: q in slabList && x in q.chunks {
        assert x in owned0;
        var q :| q in list0 && x in q.chunks;
        assert q != p;
      }
      CardDropped(p, owned0, |slabList|);
    }

    lemma CardDropped(p: Page, owned0: set<Item>, n: nat)
      requires |p.chunks| == perslab && Distinct(p.chunks) && ItemSet(p.chunks) <= owned0 && |owned0| == (n + 1) * perslab
      ensures |owned0 - ItemSet(p.chunks)| == n * perslab
    {
      DistinctCard(p.chunks);
      OneLess(n, perslab, owned0, ItemSet(p.chunks));
    }

    lemma OneLess(n: nat, k: nat, owned0: set<Item>, s: set<Item>)
      requires |owned0| == (n + 1) * k && |s| == k && s <= owned0
      ensures |owned0 - s| == n * k
    {
    }

    /** The last page leaves a class that cuts no chunks. */
    method RemoveLast() returns (p: Page)
      requires Valid() && slabList != [] && perslab == 0
      modifies `slabList
      ensures Valid() && p == old(slabList)[|old(slabList)| - 1] && p.chunks == []
      ensures slabList == old(slabList)[..|old(slabList)| - 1]
    {
      hide Linked, FreeList;
      p := slabList[|slabList| - 1];
      assert p in slabList;
      slabList := slabList[..|slabList| - 1];
      assert owned == {};
    }

    lemma FirstSplits(s: seq<Page>)
      requires s != [] && Distinct(s)
      ensures s == [s[0]] + s[1..] && s[0] !in s[1..] && Distinct(s[1..]) && |s[1..]| == |s| - 1
    {
    }

    lemma FreeElsewhere(p: Page)
      requires ItemSet(free) <= owned && ItemSet(p.chunks) !! ItemSet(free)
      ensures ItemSet(free) <= owned - ItemSet(p.chunks)
    {
    }

    /** The first page leaves the class, once none of its chunks is on the freelist. */
    method RemoveFirst() returns (p: Page)
      requires Valid() && slabList != [] && ItemSet(slabList[0].chunks) !! ItemSet(free)
      modifies `slabList, `owned
      ensures Valid() && p == old(slabList)[0] && slabList == old(slabList)[1..]
      ensures owned == old(owned) - ItemSet(p.chunks)
    {
      hide *;
      p := slabList[0];
      ghost var owned0, list0 := owned, slabList;
      Parts();
      FirstSplits(list0);
      FreeElsewhere(p);
      ShiftPages();
      owned := owned - ItemSet(p.chunks);
      PageDropped(p, owned0);
      Whole();
    }
  }

  lemma {:induction false} DistinctCard(s: seq<Item>)
    requires Distinct(s)
    ensures |ItemSet(s)| == |s|
  {
    if s != [] {
      assert Distinct(s[1..]) && s == [s[0]] + s[1..];
      DistinctCard(s[1..]);
      assert ItemSet(s) == {s[0]} + ItemSet(s[1..]);
    }
  }
}
