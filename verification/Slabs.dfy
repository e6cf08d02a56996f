/** The slab allocator: all slab classes, the global page pool (class 0), and the memory account. */
module Slabs {
  import opened Common
  import opened Items
  import opened LruSpec
  import opened SlabClass
  import opened Memory

  const POOL := 0

  class Slabs {
    const cs: seq<SlabClass>
    /** Bytes of a page of each class. */
    const pageSizes: seq<nat>
    var mem: Account
    var memLimitReached: bool

    /** Which class a chunk belongs to, which freelist it is on, which page list a page is on. */
    ghost var home: map<Item, nat>
    ghost var freeAt: map<Item, nat>
    ghost var pageAt: map<Page, nat>

    constructor (cs: seq<SlabClass>, pageSizes: seq<nat>, mem: Account)
      requires |cs| == |pageSizes| == CLASS_COUNT && Distinct(cs)
      requires cs[POOL].perslab == 0 && forall i :: POOL < i < |cs| ==> cs[i].perslab > 0
      requires forall i :: 0 <= i < |cs| ==> cs[i].Valid() && cs[i].owned == {} && cs[i].slabList == [] && cs[i].free == []
      ensures Valid() && home == map[] && freeAt == map[] && pageAt == map[] && this.cs == cs
    {
      this.cs, this.pageSizes, this.mem, memLimitReached := cs, pageSizes, mem, false;
      home, freeAt, pageAt := map[], map[], map[];
    }

    /** The freelists and the page lists as sequences. */
    ghost function Frees(n: nat := |cs|): (ss: seq<seq<Item>>)
      requires n <= |cs|
      reads cs`free
      ensures |ss| == n && forall i :: 0 <= i < n ==> ss[i] == cs[i].free
    {
      if n == 0 then [] else Frees(n - 1) + [cs[n - 1].free]
    }

    ghost function PageLists(n: nat := |cs|): (ss: seq<seq<Page>>)
      requires n <= |cs|
      reads cs`slabList
      ensures |ss| == n && forall i :: 0 <= i < n ==> ss[i] == cs[i].slabList
    {
      if n == 0 then [] else PageLists(n - 1) + [cs[n - 1].slabList]
    }

    ghost predicate Fixed() {
      && |cs| == |pageSizes| == CLASS_COUNT && Distinct(cs)
      && cs[POOL].perslab == 0 && forall i :: POOL < i < |cs| ==> cs[i].perslab > 0
    }

    ghost predicate FreeListsOK()
      reads `freeAt, cs`slots, cs`slCurr, cs`free, freeAt.Keys`next, freeAt.Keys`prev
    {
      && Placed(Frees(), freeAt)
      && AllFreeLists()
    }

    ghost predicate AllFreeLists()
      requires Placed(Frees(), freeAt)
      reads `freeAt, cs`slots, cs`slCurr, cs`free, freeAt.Keys`next, freeAt.Keys`prev
    {
      forall i :: 0 <= i < |cs| ==> cs[i].FreeList()
    }

    ghost predicate PagesOK()
      reads `pageAt, cs`slabList, cs`listSize, cs`owned, pageAt.Keys`chunks
    {
      && Placed(PageLists(), pageAt)
      && AllPages()
    }

    ghost predicate AllPages()
      requires Placed(PageLists(), pageAt)
      reads `pageAt, cs`slabList, cs`listSize, cs`owned, pageAt.Keys`chunks
    {
      forall i :: 0 <= i < |cs| ==> cs[i].PageList() && cs[i].PageChunks()
    }

    /** Each class owns exactly the chunks whose home it is. */
    ghost predicate HomesOK()
      reads `home, cs`owned
    {
      HomesAre(home)
    }

    ghost predicate HomesAre(home: map<Item, nat>)
      reads cs`owned
    {
      && (forall i, x :: 0 <= i < |cs| && x in cs[i].owned ==> x in home && home[x] == i)
      && (forall x :: x in home ==> home[x] < |cs| && x in cs[home[x]].owned)
    }

    /** A chunk carries the free flag exactly when it is on the freelist of its class. */
    ghost predicate TagsOK()
      reads `home, `freeAt, home.Keys`flags, home.Keys`clsid
    {
      TagsAre(home, freeAt)
    }

    ghost predicate TagsAre(home: map<Item, nat>, freeAt: map<Item, nat>)
      reads home.Keys`flags, home.Keys`clsid
    {
      && (forall x :: x in freeAt ==> x in home && home[x] == freeAt[x] && x.flags == FREE && x.clsid == 0)
      && (forall x :: x in home && x.flags == FREE ==> x in freeAt)
    }

    /** Pages and homes together: what allocating and freeing leaves alone. */
    ghost predicate Layout()
      reads `home, `pageAt, cs`slabList, cs`listSize, cs`owned, pageAt.Keys`chunks
    {
      Fixed() && PagesOK() && HomesOK()
    }

    ghost predicate Valid()
      reads `home, `freeAt, `pageAt, cs, freeAt.Keys`next, freeAt.Keys`prev, pageAt.Keys`chunks
      reads home.Keys`flags, home.Keys`clsid
    {
      Layout() && FreeListsOK() && TagsOK()
    }

    lemma OpenFree()
      requires Fixed() && FreeListsOK()
      ensures Distinct(cs) && Placed(Frees(), freeAt)
      ensures forall i :: 0 <= i < |cs| ==> ItemSet(cs[i].free) <= freeAt.Keys
      ensures forall i :: 0 <= i < |cs| ==> cs[i].FreeList() && Distinct(cs[i].free)
      ensures forall i, x :: 0 <= i < |cs| && x in cs[i].free ==> x in freeAt && freeAt[x] == i
      ensures forall x :: x in freeAt ==> freeAt[x] < |cs| && x in cs[freeAt[x]].free
    {
      forall i, x | 0 <= i < |cs| && x in cs[i].free ensures x in freeAt && freeAt[x] == i {
        assert x in Frees()[i];
      }
    }

    lemma FreeLists()
      requires Valid()
      ensures |cs| == CLASS_COUNT && |Frees()| == |cs| && forall i :: 0 <= i < |cs| ==> cs[i].slCurr == |cs[i].free|
    {
    }

    lemma FreeApart(i: nat)
      requires i < |cs| && forall i, x :: 0 <= i < |cs| && x in cs[i].free ==> x in freeAt && freeAt[x] == i
      ensures forall j :: 0 <= j < |cs| && j != i ==> forall x :: x in cs[j].free ==> x !in cs[i].free
    {
      forall j, x | 0 <= j < |cs| && j != i && x in cs[j].free ensures x !in cs[i].free {
        assert freeAt[x] == j;
      }
    }

    ghost method CloseFree(f: map<Item, nat>)
      requires Placed(Frees(), f) && forall i :: 0 <= i < |cs| ==> cs[i].FreeList()
      modifies this`freeAt
      ensures FreeListsOK() && freeAt == f && Frees() == old(Frees())
    {
      hide SlabClass.FreeList, Placed;
      freeAt := f;
      assert Frees() == old(Frees());
    }

    method FreeInto(i: nat, it: Item)
      requires i < |cs| && Distinct(cs)
      requires forall j :: 0 <= j < |cs| ==> cs[j].FreeList() && it !in cs[j].free
      requires forall j :: 0 <= j < |cs| && j != i ==> forall x :: x in cs[j].free ==> x !in cs[i].free
      modifies {cs[i]}`slots, {cs[i]}`slCurr, {cs[i]}`free, it`flags, it`clsid, it`prev, it`next, ItemSet(cs[i].free)`prev
      ensures forall j :: 0 <= j < |cs| ==> cs[j].FreeList()
      ensures Frees() == old(Frees())[i := [it] + old(cs[i].free)]
      ensures it.flags == FREE && it.clsid == 0
    {
      hide SlabClass.FreeList;
      cs[i].Free(it);
      forall j | 0 <= j < |cs| && j != i ensures cs[j].FreeList() {
        assert old(cs[j].FreeList()) && unchanged(cs[j]);
        assert forall x :: x in cs[j].free ==> x.next == old(x.next) && x.prev == old(x.prev);
      }
    }

    /** Puts a handed-out chunk back on the freelist of its class. */
    method FreeLinks(it: Item, id: nat)
      requires Fixed() && FreeListsOK() && id < |cs| && it !in freeAt
      modifies this`freeAt, cs`slots, cs`slCurr, cs`free, it`flags, it`clsid, it`prev, it`next, freeAt.Keys`prev
      ensures FreeListsOK() && freeAt == old(freeAt)[it := id]
      ensures Frees() == old(Frees())[id := [it] + old(cs[id].free)]
      ensures it.flags == FREE && it.clsid == 0
    {
      hide *;
      OpenFree();
      FreeApart(id);
      PlacedAdd(Frees(), freeAt, id, [it] + cs[id].free, it);
      FreeInto(id, it);
      CloseFree(freeAt[it := id]);
    }

    method FreeTagged(it: Item, id: nat)
      requires Fixed() && FreeListsOK() && TagsOK() && it in home && home[it] == id < |cs| && it !in freeAt
      modifies `freeAt, cs`slots, cs`slCurr, cs`free, it`flags, it`clsid, it`prev, it`next, freeAt.Keys`prev
      ensures FreeListsOK() && TagsOK() && freeAt == old(freeAt)[it := id]
      ensures Frees() == old(Frees())[id := [it] + old(cs[id].free)]
      ensures it.flags == FREE && it.clsid == 0
    {
      hide FreeListsOK, Fixed, Frees;
      FreeLinks(it, id);
    }

    lemma OpenChunk(it: Item)
      requires Valid() && it in home
      ensures Layout() && FreeListsOK() && TagsOK() && Fixed() && home[it] < |cs|
      ensures it in freeAt <==> it.flags == FREE
      ensures it in freeAt ==> freeAt[it] == home[it]
    {
    }

    lemma Close()
      requires Layout() && FreeListsOK() && TagsOK()
      ensures Valid()
    {
    }

    /** Puts a handed-out chunk back on the freelist of its class. */
    method FreeChunk(it: Item, id: nat)
      requires Valid() && it in home && home[it] == id && it.flags != FREE
      modifies `freeAt, cs`slots, cs`slCurr, cs`free, it`flags, it`clsid, it`prev, it`next, freeAt.Keys`prev
      ensures Valid() && freeAt == old(freeAt)[it := id] && it !in old(freeAt)
      ensures Frees() == old(Frees())[id := [it] + old(cs[id].free)]
      ensures it.flags == FREE && it.clsid == 0
    {
      hide *;
      OpenChunk(it);
      FreeTagged(it, id);
      Close();
    }

    // ---------------------------------------------------------------- taking chunks off a freelist

    method AllocFrom(i: nat) returns (it: Item)
      requires i < |cs| && Distinct(cs) && cs[i].free != []
      requires forall j :: 0 <= j < |cs| ==> cs[j].FreeList()
      requires forall j :: 0 <= j < |cs| && j != i ==> forall x :: x in cs[j].free ==> x !in cs[i].free
      modifies {cs[i]}`slots, {cs[i]}`slCurr, {cs[i]}`free, cs[i].free`prev, {cs[i].free[0]}`flags, {cs[i].free[0]}`refcount
      ensures forall j :: 0 <= j < |cs| ==> cs[j].FreeList()
      ensures it == old(cs[i].free[0]) && Frees() == old(Frees())[i := old(cs[i].free[1..])]
      ensures it.flags == old(it.flags).(slabbed := false) && it.refcount == 1
    {
      hide SlabClass.FreeList;
      it := cs[i].Alloc();
      forall j | 0 <= j < |cs| && j != i ensures cs[j].FreeList() {
        assert old(cs[j].FreeList()) && unchanged(cs[j]);
        assert forall x :: x in cs[j].free ==> x.next == old(x.next) && x.prev == old(x.prev);
      }
    }

    lemma HeadLeaves(s: seq<Item>)
      requires Distinct(s) && s != []
      ensures forall x :: x in s[1..] <==> x in s && x != s[0]
    {
      assert s == [s[0]] + s[1..];
    }

    method AllocTagged(id: nat) returns (it: Item)
      requires Fixed() && FreeListsOK() && TagsOK() && id < |cs| && cs[id].free != []
      modifies `freeAt, cs`slots, cs`slCurr, cs`free, freeAt.Keys`prev, {cs[id].free[0]}`flags, {cs[id].free[0]}`refcount
      ensures FreeListsOK() && it == old(cs[id].free[0]) && it in old(freeAt) && freeAt == old(freeAt) - {it}
      ensures Frees() == old(Frees())[id := old(cs[id].free[1..])]
      ensures it.flags == old(it.flags).(slabbed := false) && it.refcount == 1
    {
      hide *;
      OpenFree();
      FreeApart(id);
      HeadLeaves(cs[id].free);
      PlacedDel(Frees(), freeAt, id, cs[id].free[1..], cs[id].free[0]);
      it := AllocFrom(id);
      CloseFree(freeAt - {it});
    }

    lemma OpenHead(id: nat)
      requires Valid() && id < |cs| && cs[id].free != []
      ensures Layout() && FreeListsOK() && TagsOK() && Fixed()
      ensures var x := cs[id].free[0]; x in freeAt && freeAt[x] == id && x in home && home[x] == id && x.flags == FREE && x.clsid == 0
    {
      OpenFree();
    }

    lemma TagsTaken(f: map<Item, nat>, it: Item)
      requires forall x :: x in f && x != it ==> x in home && home[x] == f[x] && x.flags == FREE && x.clsid == 0
      requires forall x :: x in home && x != it && x.flags == FREE ==> x in f
      requires freeAt == f - {it} && it.flags != FREE
      ensures TagsOK()
    {
    }

    /** Hands out the first chunk of a class's freelist. */
    method AllocChunk(id: nat) returns (it: Item)
      requires Valid() && id < |cs| && cs[id].free != []
      modifies `freeAt, cs`slots, cs`slCurr, cs`free, freeAt.Keys`prev, {cs[id].free[0]}`flags, {cs[id].free[0]}`refcount
      ensures Valid() && it == old(cs[id].free[0]) && freeAt == old(freeAt) - {it}
      ensures it in old(freeAt) && it in home && home[it] == id
      ensures Frees() == old(Frees())[id := old(cs[id].free[1..])]
      ensures it.flags == Flags(false, false, false, false) && it.refcount == 1 && it.clsid == 0
    {
      hide *;
      OpenHead(id);
      ghost var f := freeAt;
      TagFacts();
      it := AllocTagged(id);
      assert forall x :: x in home && x != it ==> x.flags == old(x.flags) && x.clsid == old(x.clsid);
      FreeFlag(old(it.flags));
      TagsTaken(f, it);
      Close();
    }

    lemma FreeFlag(f: Flags)
      ensures f == FREE ==> f.(slabbed := false) == Flags(false, false, false, false)
      ensures Flags(false, false, false, false) != FREE && CLEARED != FREE
    {
    }

    lemma TagFacts()
      requires TagsOK()
      ensures forall x :: x in freeAt ==> x in home && home[x] == freeAt[x] && x.flags == FREE && x.clsid == 0
      ensures forall x :: x in home && x.flags == FREE ==> x in freeAt
    {
    }

    // ---------------------------------------------------------------- clearing a free chunk for a page move

    method CutFrom(i: nat, it: Item)
      requires i < |cs| && Distinct(cs) && it in cs[i].free
      requires forall j :: 0 <= j < |cs| ==> cs[j].FreeList()
      requires forall j :: 0 <= j < |cs| && j != i ==> forall x :: x in cs[j].free ==> x !in cs[i].free
      modifies {cs[i]}`slots, {cs[i]}`slCurr, {cs[i]}`free, cs[i].free`next, cs[i].free`prev
      ensures forall j :: 0 <= j < |cs| ==> cs[j].FreeList()
      ensures Frees() == old(Frees())[i := Removed(old(cs[i].free), it)]
    {
      hide SlabClass.FreeList;
      cs[i].CutFree(it);
      forall j | 0 <= j < |cs| && j != i ensures cs[j].FreeList() {
        assert old(cs[j].FreeList()) && unchanged(cs[j]);
        assert forall x :: x in cs[j].free ==> x.next == old(x.next) && x.prev == old(x.prev);
      }
    }

    method CutTagged(it: Item, id: nat)
      requires Fixed() && FreeListsOK() && id < |cs| && it in freeAt && freeAt[it] == id
      modifies `freeAt, cs`slots, cs`slCurr, cs`free, freeAt.Keys`next, freeAt.Keys`prev
      ensures FreeListsOK() && freeAt == old(freeAt) - {it}
      ensures Frees() == old(Frees())[id := Removed(old(cs[id].free), it)]
    {
      hide *;
      OpenFree();
      FreeApart(id);
      RemovedOnce(cs[id].free, it);
      PlacedDel(Frees(), freeAt, id, Removed(cs[id].free, it), it);
      CutFrom(id, it);
      CloseFree(freeAt - {it});
    }

    /** Cuts a free chunk out of its freelist and marks it as cleared for a page move. */
    method ClearFree(it: Item, id: nat)
      requires Valid() && it in home && home[it] == id && it.flags == FREE
      modifies `freeAt, cs`slots, cs`slCurr, cs`free, freeAt.Keys`next, freeAt.Keys`prev, it`flags, it`refcount
      ensures Valid() && it in old(freeAt) && freeAt == old(freeAt) - {it}
      ensures Frees() == old(Frees())[id := Removed(old(cs[id].free), it)]
      ensures it.flags == CLEARED && it.refcount == 0
    {
      hide *;
      OpenChunk(it);
      TagFacts();
      ghost var f := freeAt;
      CutTagged(it, id);
      it.refcount := 0;
      it.flags := CLEARED;
      FreeFlag(FREE);
      TagsTaken(f, it);
      Close();
    }

    // ---------------------------------------------------------------- pages

    /** What Valid says of each class, ... */
    lemma OpenAll()
      requires Valid()
      ensures Fixed() && Layout() && FreeListsOK() && TagsOK()
      ensures forall i :: 0 <= i < |cs| ==> cs[i].Valid()
    {
      OpenFree();
      forall i, x | 0 <= i < |cs| && x in cs[i].free ensures x in cs[i].owned {
        assert x in home && home[x] == i;
      }
    }

    /** ... where it says that pages are, ... */
    lemma OpenPages()
      requires Fixed() && PagesOK()
      ensures Placed(PageLists(), pageAt) && forall i, p :: 0 <= i < |cs| && p in cs[i].slabList ==> p in pageAt && pageAt[p] == i
    {
      forall i, p | 0 <= i < |cs| && p in cs[i].slabList ensures p in pageAt && pageAt[p] == i {
        assert p in PageLists()[i];
      }
    }

    /** ... and chunks. */
    lemma OpenHomes()
      requires HomesOK()
      ensures forall i, x :: 0 <= i < |cs| && x in cs[i].owned ==> x in home && home[x] == i
    {
    }

    method AddPageAt(i: nat, p: Page)
      requires i < |cs| && Distinct(cs) && p.chunks == [] && |cs[i].slabList| < cs[i].listSize
      requires forall j :: 0 <= j < |cs| ==> cs[j].Valid() && p !in cs[j].slabList
      requires forall j :: 0 <= j < |cs| && j != i ==> forall x :: x in cs[j].free ==> x !in cs[i].free
      modifies {cs[i]}`slots, {cs[i]}`slCurr, {cs[i]}`free, {cs[i]}`owned, {cs[i]}`slabList, p`chunks, ItemSet(cs[i].free)`prev
      ensures forall j :: 0 <= j < |cs| ==> cs[j].Valid()
      ensures forall j :: 0 <= j < |cs| && j != i ==> unchanged(cs[j])
      ensures cs[i].slabList == old(cs[i].slabList) + [p]
      ensures fresh(ItemSet(p.chunks)) && |p.chunks| == cs[i].perslab && Distinct(p.chunks)
      ensures cs[i].owned == old(cs[i].owned) + ItemSet(p.chunks)
      ensures ItemSet(cs[i].free) == old(ItemSet(cs[i].free)) + ItemSet(p.chunks)
      ensures forall x :: x in p.chunks ==> x.flags == FREE && x.clsid == 0 && x.refcount == 0
    {
      hide SlabClass.Valid;
      cs[i].AddPage(p);
      forall j | 0 <= j < |cs| && j != i ensures cs[j].Valid() {
        assert old(cs[j].Valid()) && unchanged(cs[j]);
        assert forall x :: x in cs[j].free ==> x.next == old(x.next) && x.prev == old(x.prev);
        assert forall q :: q in cs[j].slabList ==> q.chunks == old(q.chunks);
      }
    }

    ghost method CloseAll(f: map<Item, nat>, h: map<Item, nat>, pa: map<Page, nat>)
      requires Fixed() && Placed(Frees(), f) && Placed(PageLists(), pa)
      requires forall i :: 0 <= i < |cs| ==> cs[i].Valid()
      requires HomesAre(h) && TagsAre(h, f)
      modifies `freeAt, `home, `pageAt
      ensures Valid() && freeAt == f && home == h && pageAt == pa
      ensures Frees() == old(Frees()) && PageLists() == old(PageLists())
    {
      hide *;
      freeAt, home, pageAt := f, h, pa;
      SameLists(old(Frees()), old(PageLists()));
      CloseWhole();
    }

    lemma SameLists(fs: seq<seq<Item>>, ps: seq<seq<Page>>)
      requires |fs| == |cs| && (forall i :: 0 <= i < |cs| ==> fs[i] == cs[i].free)
      requires |ps| == |cs| && (forall i :: 0 <= i < |cs| ==> ps[i] == cs[i].slabList)
      ensures Frees() == fs && PageLists() == ps
    {
    }

    lemma CloseWhole()
      requires Fixed() && Placed(Frees(), freeAt) && Placed(PageLists(), pageAt)
      requires forall i :: 0 <= i < |cs| ==> cs[i].Valid()
      requires HomesAre(home) && TagsAre(home, freeAt)
      ensures Valid()
    {
    }

    ghost function Owneds(n: nat := |cs|): (os: seq<set<Item>>)
      requires n <= |cs|
      reads cs`owned
      ensures |os| == n && forall i :: 0 <= i < n ==> os[i] == cs[i].owned
    {
      if n == 0 then [] else Owneds(n - 1) + [cs[n - 1].owned]
    }

    /** What the account of homes, freelists and pages says before a change. */
    ghost predicate Before(fs: seq<seq<Item>>, ps: seq<seq<Page>>, os: seq<set<Item>>)
      reads `home, `freeAt, `pageAt, home.Keys`flags, home.Keys`clsid
    {
      && Fixed() && |fs| == |ps| == |os| == |cs|
      && Placed(fs, freeAt) && Placed(ps, pageAt) && TagsAre(home, freeAt)
      && (forall i, x :: 0 <= i < |os| && x in os[i] ==> x in home && home[x] == i)
      && (forall x :: x in home ==> home[x] < |os| && x in os[home[x]])
    }

    lemma BeforeIs(fs: seq<seq<Item>>, ps: seq<seq<Page>>, os: seq<set<Item>>)
      requires Before(fs, ps, os)
      ensures Fixed() && |fs| == |ps| == |os| == |cs| && Placed(fs, freeAt) && Placed(ps, pageAt) && TagsAre(home, freeAt)
      ensures forall i, x :: 0 <= i < |os| && x in os[i] ==> x in home && home[x] == i
      ensures forall x :: x in home ==> home[x] < |os| && x in os[home[x]]
    {
    }

    lemma OpenBefore()
      requires Valid()
      ensures Before(Frees(), PageLists(), Owneds())
    {
      hide Placed, TagsAre, AllPages, AllFreeLists;
    }

    ghost function Into(p: Page, id: nat): (m: map<Item, nat>)
      reads p`chunks
      ensures m.Keys == ItemSet(p.chunks) && forall x :: x in m ==> m[x] == id
    {
      map x | x in ItemSet(p.chunks) :: id
    }

    lemma AddedMaps(id: nat, p: Page, fs: seq<seq<Item>>, ps: seq<seq<Page>>)
      requires Placed(fs, freeAt) && Placed(ps, pageAt) && |fs| == |ps| == |cs| && id < |cs| && p !in pageAt
      requires (forall x :: x in p.chunks ==> x !in freeAt)
      requires forall j :: 0 <= j < |cs| && j != id ==> fs[j] == cs[j].free && ps[j] == cs[j].slabList
      requires cs[id].slabList == ps[id] + [p]
      requires ItemSet(cs[id].free) == ItemSet(fs[id]) + ItemSet(p.chunks)
      ensures Placed(Frees(), freeAt + Into(p, id)) && Placed(PageLists(), pageAt[p := id])
      ensures Frees() == fs[id := cs[id].free] && PageLists() == ps[id := ps[id] + [p]]
    {
      assert Frees() == fs[id := cs[id].free] && PageLists() == ps[id := ps[id] + [p]];
      forall x ensures x in cs[id].free <==> x in fs[id] || x in ItemSet(p.chunks) {
        assert x in cs[id].free <==> x in ItemSet(cs[id].free);
        assert x in fs[id] <==> x in ItemSet(fs[id]);
      }
      PlacedAddMany(fs, freeAt, id, cs[id].free, ItemSet(p.chunks));
      PlacedAdd(ps, pageAt, id, ps[id] + [p], p);
    }

    lemma AddedHomes(id: nat, p: Page, owneds: seq<set<Item>>)
      requires |owneds| == |cs| && id < |cs|
      requires forall i, x :: 0 <= i < |cs| && x in owneds[i] ==> x in home && home[x] == i
      requires forall x :: x in home ==> home[x] < |cs| && x in owneds[home[x]]
      requires forall j :: 0 <= j < |cs| && j != id ==> owneds[j] == cs[j].owned
      requires cs[id].owned == owneds[id] + ItemSet(p.chunks) && ItemSet(p.chunks) !! home.Keys
      ensures HomesAre(home + Into(p, id))
    {
    }

    lemma AddedTags(id: nat, p: Page)
      requires TagsAre(home, freeAt) && ItemSet(p.chunks) !! home.Keys
      requires forall x :: x in p.chunks ==> x.flags == FREE && x.clsid == 0
      ensures TagsAre(home + Into(p, id), freeAt + Into(p, id))
    {
    }

    lemma AddReady(id: nat, p: Page)
      requires Valid() && id < |cs| && p !in pageAt
      ensures Distinct(cs) && ItemSet(cs[id].free) <= freeAt.Keys
      ensures forall j :: 0 <= j < |cs| ==> cs[j].Valid() && p !in cs[j].slabList
      ensures forall j :: 0 <= j < |cs| && j != id ==> forall x :: x in cs[j].free ==> x !in cs[id].free
    {
      hide FreeListsOK, TagsOK, HomesOK, PagesOK, Placed, SlabClass.Valid;
      OpenAll();
      OpenFree();
      OpenPages();
      FreeApart(id);
    }

    lemma OpenTags(fs: seq<seq<Item>>, ps: seq<seq<Page>>, os: seq<set<Item>>)
      requires Before(fs, ps, os)
      ensures forall x :: x in freeAt ==> x in home
    {
    }

    ghost method CloseAdded(id: nat, p: Page, fs: seq<seq<Item>>, ps: seq<seq<Page>>, os: seq<set<Item>>)
      requires Before(fs, ps, os) && id < |cs| && p !in pageAt
      requires forall j :: 0 <= j < |cs| ==> cs[j].Valid()
      requires forall j :: 0 <= j < |cs| && j != id ==> fs[j] == cs[j].free && ps[j] == cs[j].slabList && os[j] == cs[j].owned
      requires cs[id].slabList == ps[id] + [p] && cs[id].owned == os[id] + ItemSet(p.chunks)
      requires ItemSet(cs[id].free) == ItemSet(fs[id]) + ItemSet(p.chunks)
      requires ItemSet(p.chunks) !! home.Keys && forall x :: x in p.chunks ==> x.flags == FREE && x.clsid == 0
      modifies `home, `freeAt, `pageAt
      ensures Valid()
      ensures home == old(home) + Into(p, id) && freeAt == old(freeAt) + Into(p, id) && pageAt == old(pageAt)[p := id]
      ensures PageLists() == ps[id := ps[id] + [p]]
    {
      hide Placed, TagsAre, HomesAre, SlabClass.Valid, Valid;
      OpenTags(fs, ps, os);
      AddedMaps(id, p, fs, ps);
      AddedHomes(id, p, os);
      AddedTags(id, p);
      CloseAll(freeAt + Into(p, id), home + Into(p, id), pageAt[p := id]);
    }

    /** Cuts a page that belongs to no class into fresh free chunks of a class. */
    method AddPage(id: nat, p: Page)
      requires Valid() && id < |cs| && p !in pageAt && p.chunks == [] && |cs[id].slabList| < cs[id].listSize
      modifies `home, `freeAt, `pageAt, p`chunks, freeAt.Keys`prev
      modifies cs`slots, cs`slCurr, cs`free, cs`owned, cs`slabList
      ensures Valid()
      ensures fresh(ItemSet(p.chunks)) && |p.chunks| == cs[id].perslab
      ensures home == old(home) + Into(p, id) && freeAt == old(freeAt) + Into(p, id) && pageAt == old(pageAt)[p := id]
      ensures PageLists() == old(PageLists())[id := old(cs[id].slabList) + [p]]
      ensures forall j :: 0 <= j < |cs| && j != id ==> cs[j].free == old(cs[j].free)
    {
      hide *;
      AddReady(id, p);
      OpenBefore();
      ghost var fs, ps, os := Frees(), PageLists(), Owneds();
      AddPageAt(id, p);
      CloseAdded(id, p, fs, ps, os);
    }

    method RemoveAt(i: nat, last: bool) returns (p: Page)
      requires i < |cs| && Distinct(cs) && cs[i].slabList != []
      requires if last then cs[i].perslab == 0 else ItemSet(cs[i].slabList[0].chunks) !! ItemSet(cs[i].free)
      requires forall j :: 0 <= j < |cs| ==> cs[j].Valid()
      modifies {cs[i]}`slabList, {cs[i]}`owned
      ensures forall j :: 0 <= j < |cs| ==> cs[j].Valid()
      ensures forall j :: 0 <= j < |cs| && j != i ==> unchanged(cs[j])
      ensures var n := |old(cs[i].slabList)| - 1;
              if last then p == old(cs[i].slabList)[n] && cs[i].slabList == old(cs[i].slabList)[..n] && p.chunks == []
              else p == old(cs[i].slabList)[0] && cs[i].slabList == old(cs[i].slabList)[1..]
      ensures cs[i].owned == old(cs[i].owned) - ItemSet(p.chunks)
    {
      hide SlabClass.Valid;
      if last {
        p := cs[i].RemoveLast();
      } else {
        p := cs[i].RemoveFirst();
      }
      forall j | 0 <= j < |cs| && j != i ensures cs[j].Valid() {
        assert old(cs[j].Valid()) && unchanged(cs[j]);
      }
    }

    lemma RemovedMaps(id: nat, p: Page, fs: seq<seq<Item>>, ps: seq<seq<Page>>, rest: seq<Page>)
      requires Placed(fs, freeAt) && Placed(ps, pageAt) && |fs| == |ps| == |cs| && id < |cs|
      requires forall j :: 0 <= j < |cs| ==> fs[j] == cs[j].free && (j != id ==> ps[j] == cs[j].slabList)
      requires cs[id].slabList == rest && forall q :: q in rest <==> q in ps[id] && q != p
      requires p in ps[id]
      ensures Placed(Frees(), freeAt) && Placed(PageLists(), pageAt - {p})
      ensures Frees() == fs && PageLists() == ps[id := rest]
    {
      assert Frees() == fs && PageLists() == ps[id := rest];
      PlacedDel(ps, pageAt, id, rest, p);
    }

    lemma RemovedHomes(id: nat, p: Page, owneds: seq<set<Item>>)
      requires |owneds| == |cs| && id < |cs|
      requires forall i, x :: 0 <= i < |cs| && x in owneds[i] ==> x in home && home[x] == i
      requires forall x :: x in home ==> home[x] < |cs| && x in owneds[home[x]]
      requires forall j :: 0 <= j < |cs| && j != id ==> owneds[j] == cs[j].owned
      requires cs[id].owned == owneds[id] - ItemSet(p.chunks) && ItemSet(p.chunks) <= owneds[id]
      ensures HomesAre(home - ItemSet(p.chunks))
    {
      assert forall x :: x in ItemSet(p.chunks) ==> x in owneds[id] && home[x] == id;
      forall i, x | 0 <= i < |cs| && x in cs[i].owned ensures x in home && home[x] == i && x !in ItemSet(p.chunks) {
        assert x in owneds[i];
      }
    }

    lemma RemovedTags(p: Page)
      requires TagsAre(home, freeAt) && ItemSet(p.chunks) !! freeAt.Keys
      ensures TagsAre(home - ItemSet(p.chunks), freeAt)
    {
    }

    /** Without one page the others of a duplicate-free list are left. */
    lemma OneLeaves(s: seq<Page>, last: bool)
      requires Distinct(s) && s != []
      ensures var n := |s| - 1;
              if last then forall q :: q in s[..n] <==> q in s && q != s[n] else forall q :: q in s[1..] <==> q in s && q != s[0]
    {
      assert s == s[..|s| - 1] + [s[|s| - 1]] && s == [s[0]] + s[1..];
    }

    lemma RemoveReady(id: nat, p: Page, last: bool)
      requires Valid() && id < |cs| && cs[id].slabList != [] && p == cs[id].slabList[if last then |cs[id].slabList| - 1 else 0]
      requires if last then id == POOL else ItemSet(p.chunks) !! freeAt.Keys
      ensures Distinct(cs) && ItemSet(p.chunks) <= cs[id].owned && p in pageAt
      ensures forall j :: 0 <= j < |cs| ==> cs[j].Valid()
      ensures ItemSet(p.chunks) !! freeAt.Keys
      ensures if last then cs[id].perslab == 0 && p.chunks == [] else ItemSet(p.chunks) !! ItemSet(cs[id].free)
      ensures var rest := if last then cs[id].slabList[..|cs[id].slabList| - 1] else cs[id].slabList[1..];
              forall q :: q in rest <==> q in cs[id].slabList && q != p
    {
      OpenAll();
      OpenFree();
      OpenPages();
      OpenHomes();
      assert cs[id].Valid() && p in cs[id].slabList;
      OneLeaves(cs[id].slabList, last);
    }

    ghost method CloseRemoved(id: nat, p: Page, fs: seq<seq<Item>>, ps: seq<seq<Page>>, os: seq<set<Item>>)
      requires Before(fs, ps, os) && id < |cs| && p in ps[id]
      requires forall j :: 0 <= j < |cs| ==> cs[j].Valid() && fs[j] == cs[j].free
      requires forall j :: 0 <= j < |cs| && j != id ==> ps[j] == cs[j].slabList && os[j] == cs[j].owned
      requires forall q :: q in cs[id].slabList <==> q in ps[id] && q != p
      requires cs[id].owned == os[id] - ItemSet(p.chunks) && ItemSet(p.chunks) <= os[id]
      requires ItemSet(p.chunks) !! freeAt.Keys
      modifies `home, `freeAt, `pageAt
      ensures Valid() && home == old(home) - ItemSet(p.chunks) && freeAt == old(freeAt) && pageAt == old(pageAt) - {p}
      ensures Frees() == fs && PageLists() == ps[id := cs[id].slabList]
    {
      hide *;
      BeforeIs(fs, ps, os);
      RemovedMaps(id, p, fs, ps, cs[id].slabList);
      RemovedHomes(id, p, os);
      RemovedTags(p);
      CloseAll(freeAt, home - ItemSet(p.chunks), pageAt - {p});
    }

    /** Takes a page out of its class: the first page of a slab class, none of whose chunks is
        free, or the last page of the pool. */
    method RemovePage(id: nat, last: bool) returns (p: Page)
      requires Valid() && id < |cs| && cs[id].slabList != []
      requires if last then id == POOL else ItemSet(cs[id].slabList[0].chunks) !! freeAt.Keys
      modifies `home, `freeAt, `pageAt, cs`slabList, cs`owned
      ensures Valid() && p in old(pageAt) && pageAt == old(pageAt) - {p} && freeAt == old(freeAt)
      ensures home == old(home) - ItemSet(p.chunks) && Frees() == old(Frees())
      ensures p == old(cs[id].slabList)[if last then |old(cs[id].slabList)| - 1 else 0]
      ensures last ==> p.chunks == []
      ensures PageLists() == old(PageLists())[id := if last then old(cs[id].slabList)[..|old(cs[id].slabList)| - 1] else old(cs[id].slabList)[1..]]
    {
      hide *;
      RemoveReady(id, cs[id].slabList[if last then |cs[id].slabList| - 1 else 0], last);
      OpenBefore();
      ghost var fs, ps, os := Frees(), PageLists(), Owneds();
      p := RemoveAt(id, last);
      CloseRemoved(id, p, fs, ps, os);
    }

    method GrowAt(i: nat)
      requires i < |cs| && Distinct(cs) && forall j :: 0 <= j < |cs| ==> cs[j].Valid()
      modifies {cs[i]}`listSize
      ensures forall j :: 0 <= j < |cs| ==> cs[j].Valid()
      ensures |cs[i].slabList| < cs[i].listSize && old(cs[i].listSize) <= cs[i].listSize
      ensures old(|cs[i].slabList| < cs[i].listSize) ==> cs[i].listSize == old(cs[i].listSize)
    {
      cs[i].Grow();
      forall j | 0 <= j < |cs| && j != i ensures cs[j].Valid() {
        assert old(cs[j].Valid()) && unchanged(cs[j]);
      }
    }

    lemma AllClasses()
      requires Valid()
      ensures Distinct(cs) && forall j :: 0 <= j < |cs| ==> cs[j].Valid()
    {
      OpenAll();
    }

    /** Room for one more page in a class's page list. */
    method GrowList(id: nat)
      requires Valid() && id < |cs|
      modifies `freeAt, `home, `pageAt, {cs[id]}`listSize
      ensures Valid() && |cs[id].slabList| < cs[id].listSize
      ensures freeAt == old(freeAt) && home == old(home) && pageAt == old(pageAt)
      ensures Frees() == old(Frees()) && PageLists() == old(PageLists())
      ensures old(|cs[id].slabList| < cs[id].listSize) ==> cs[id].listSize == old(cs[id].listSize)
    {
      hide *;
      AllClasses();
      OpenBefore();
      ghost var fs, ps, os := Frees(), PageLists(), Owneds();
      GrowAt(id);
      CloseGrown(fs, ps, os);
    }

    ghost method CloseGrown(fs: seq<seq<Item>>, ps: seq<seq<Page>>, os: seq<set<Item>>)
      requires Before(fs, ps, os)
      requires forall j :: 0 <= j < |cs| ==> cs[j].Valid() && fs[j] == cs[j].free && ps[j] == cs[j].slabList && os[j] == cs[j].owned
      modifies `freeAt, `home, `pageAt
      ensures Valid() && freeAt == old(freeAt) && home == old(home) && pageAt == old(pageAt)
      ensures Frees() == fs && PageLists() == ps
    {
      assert Frees() == fs && PageLists() == ps;
      CloseAll(freeAt, home, pageAt);
    }

    /** The page lists when the pool gives away its last page. */
    ghost function PoolTaken(ps: seq<seq<Page>>, source: Source): seq<seq<Page>> {
      if source == FromPool && |ps| > POOL && |ps[POOL]| > 0 then ps[POOL := ps[POOL][..|ps[POOL]| - 1]] else ps
    }

    /** A page for the class is in the pool, or may be taken from memory and is there. */
    predicate PageToBeHad(id: nat)
      reads `mem, cs`slabList
    {
      id < |pageSizes| && POOL < |cs|
      && (mem.NextPage(pageSizes[id], |cs[POOL].slabList|).1 == FromPool || mem.NextPage(pageSizes[id], |cs[POOL].slabList|).1 == Fresh)
    }

    lemma ToBeHad(id: nat)
      requires id < |pageSizes| && 0 <= POOL < |cs|
      ensures PageToBeHad(id) <==> mem.NextPage(pageSizes[id], |cs[POOL].slabList|).1 == FromPool
                                   || mem.NextPage(pageSizes[id], |cs[POOL].slabList|).1 == Fresh
    {
    }

    /** List id has one more page: the last one of the pool, or one from nowhere. */
    ghost predicate Gained(ps: seq<seq<Page>>, qs: seq<seq<Page>>, id: nat, p: Page, source: Source) {
      && id < |ps| == |qs| && POOL < |ps|
      && (source == FromPool ==> ps[POOL] != [] && p == ps[POOL][|ps[POOL]| - 1])
      && qs == PoolTaken(ps, source)[id := ps[id] + [p]]
    }

    lemma GainedIs(ps: seq<seq<Page>>, qs: seq<seq<Page>>, id: nat, p: Page, source: Source)
      requires POOL < id < |ps| == |qs| && qs == PoolTaken(ps, source)[id := ps[id] + [p]]
      requires source == FromPool ==> ps[POOL] != [] && p == ps[POOL][|ps[POOL]| - 1]
      ensures Gained(ps, qs, id, p, source)
    {
    }

    lemma PoolIs()
      requires Valid()
      ensures 0 <= POOL < |cs| == |PageLists()| && PageLists()[POOL] == cs[POOL].slabList && |cs| == |pageSizes|
      ensures |cs[POOL].slabList| > 0 ==>
                && PoolTaken(PageLists(), FromPool) == PageLists()[POOL := cs[POOL].slabList[..|cs[POOL].slabList| - 1]]
                && cs[POOL].slabList[|cs[POOL].slabList| - 1] in cs[POOL].slabList
      ensures forall s: Source :: s != FromPool ==> PoolTaken(PageLists(), s) == PageLists()
      ensures forall p: Page :: p.chunks == [] ==> ItemSet(p.chunks) == {}
    {
    }

    /** A page from the pool, or else from memory; null if neither has one. */
    method ObtainPage(size: nat) returns (p: Page?, ghost source: Source)
      requires Valid() && !mem.LimitHit(size, |cs[POOL].slabList|)
      modifies `home, `freeAt, `pageAt, `mem, cs`slabList, cs`owned
      ensures Valid() && freeAt == old(freeAt) && home == old(home) && Frees() == old(Frees())
      ensures (mem, source) == old(mem).NextPage(size, old(|cs[POOL].slabList|))
      ensures (source == Exhausted <==> p == null) && PageLists() == PoolTaken(old(PageLists()), source)
      ensures p != null ==> p.chunks == [] && p !in pageAt && pageAt == old(pageAt) - {p} && (p in old(cs[POOL].slabList) || fresh(p))
      ensures p == null ==> pageAt == old(pageAt)
      ensures source == FromPool ==> old(PageLists())[POOL] != [] && p == old(PageLists())[POOL][|old(PageLists())[POOL]| - 1]
      ensures source == Fresh || source == FromPool ==> (p in old(pageAt) <==> source == FromPool)
    {
      hide Valid, Placed, Into, PoolTaken, PageLists, ItemSet;
      PoolIs();
      PoolPages();
      if |cs[POOL].slabList| > 0 {
        source := FromPool;
        p := RemovePage(POOL, true);
      } else {
        var (m, ok) := mem.Allocate(size);
        mem := m;
        if ok {
          p := new Page();
          source := Fresh;
        } else {
          p, source := null, Exhausted;
        }
      }
    }

    lemma ListsSay(ps: seq<seq<Page>>)
      requires PageLists() == ps
      ensures |ps| == |cs| && forall j :: 0 <= j < |cs| ==> cs[j].slabList == ps[j]
    {
    }

    /** Cuts a page into the chunks of a class, which then has some on its freelist. */
    method FillClass(id: nat, p: Page, ghost ps: seq<seq<Page>>, ghost source: Source)
      requires Valid() && POOL < id < |cs| && p !in pageAt && p.chunks == [] && |cs[id].slabList| < cs[id].listSize
      requires PageLists() == PoolTaken(ps, source)
      modifies `home, `freeAt, `pageAt, p`chunks, freeAt.Keys`prev
      modifies cs`slots, cs`slCurr, cs`free, cs`owned, cs`slabList
      ensures Valid() && home == old(home) + Into(p, id) && freeAt == old(freeAt) + Into(p, id) && pageAt == old(pageAt)[p := id]
      ensures fresh(ItemSet(p.chunks)) && |p.chunks| == cs[id].perslab && cs[id].free != []
      ensures id < |ps| == |PageLists()| && PageLists() == PoolTaken(ps, source)[id := ps[id] + [p]]
    {
      hide *;
      PoolLeaves(ps, source, id);
      AddPage(id, p);
      HasFree(p, id, old(freeAt));
    }

    /** Room in the page list, and a page to put there. */
    method TakePage(id: nat, size: nat) returns (p: Page?, ghost source: Source)
      requires POOL < id < |cs| && !mem.LimitHit(size, |cs[POOL].slabList|) && Valid()
      modifies `home, `freeAt, `pageAt, `mem, cs`slabList, cs`owned, cs`listSize
      ensures Valid() && freeAt == old(freeAt) && home == old(home) && Frees() == old(Frees())
      ensures (mem, source) == old(mem).NextPage(size, old(|cs[POOL].slabList|))
      ensures (source == Exhausted <==> p == null) && PageLists() == PoolTaken(old(PageLists()), source)
      ensures p != null ==> p.chunks == [] && p !in pageAt && pageAt == old(pageAt) - {p} && (p in old(cs[POOL].slabList) || fresh(p))
      ensures p == null ==> pageAt == old(pageAt)
      ensures p != null ==> |cs[id].slabList| < cs[id].listSize
      ensures source == FromPool ==> old(PageLists())[POOL] != [] && p == old(PageLists())[POOL][|old(PageLists())[POOL]| - 1]
      ensures source == Fresh || source == FromPool ==> (p in old(pageAt) <==> source == FromPool)
    {
      hide *;
      PoolIs();
      GrowList(id);
      PoolIs();
      ghost var ps := PageLists();
      p, source := ObtainPage(size);
      StillRoom(ps, source, id);
    }

    /** One more page for a class whose request has passed the limit check. */
    method Extend(id: nat, size: nat) returns (ok: bool, ghost p: Page?, ghost source: Source)
      requires POOL < id < |cs| && !mem.LimitHit(size, |cs[POOL].slabList|) && Valid()
      modifies `home, `freeAt, `pageAt, `mem, freeAt.Keys`prev, cs[POOL].slabList`chunks
      modifies cs`slots, cs`slCurr, cs`free, cs`owned, cs`slabList, cs`listSize
      ensures Valid() && (mem, source) == old(mem).NextPage(size, old(|cs[POOL].slabList|))
      ensures ok == (source != Exhausted) == (p != null)
      ensures !ok ==> Frees() == old(Frees()) && PageLists() == old(PageLists())
                      && home == old(home) && freeAt == old(freeAt) && pageAt == old(pageAt)
      ensures ok ==> && home == old(home) + Into(p, id) && freeAt == old(freeAt) + Into(p, id) && pageAt == old(pageAt)[p := id]
                     && fresh(ItemSet(p.chunks)) && |p.chunks| == cs[id].perslab && cs[id].free != []
                     && Gained(old(PageLists()), PageLists(), id, p, source)
      ensures source == Fresh || source == FromPool ==> (p in old(pageAt) <==> source == FromPool)
    {
      hide *;
      PoolIs();
      ghost var ps := PageLists();
      var q;
      q, source := TakePage(id, size);
      p := q;
      ok := q != null;
      if q != null {
        FillClass(id, q, ps, source);
        GainedIs(ps, PageLists(), id, q, source);
      } else {
        PoolKept(ps, source);
      }
    }

    /** Gives a class one more page: refused at the memory limit unless the pool has one. */
    method NewSlab(id: nat) returns (ok: bool, ghost p: Page?, ghost source: Source)
      requires Valid() && POOL < id < |cs|
      modifies `home, `freeAt, `pageAt, `mem, `memLimitReached, freeAt.Keys`prev, cs[POOL].slabList`chunks
      modifies cs`slots, cs`slCurr, cs`free, cs`owned, cs`slabList, cs`listSize
      ensures Valid() && (mem, source) == old(mem).NextPage(pageSizes[id], old(|cs[POOL].slabList|))
      ensures ok == (source == FromPool || source == Fresh) == (p != null) && ok == old(PageToBeHad(id)) && (!ok ==> !PageToBeHad(id))
      ensures memLimitReached == (old(memLimitReached) || source == Refused)
      ensures !ok ==> Frees() == old(Frees()) && PageLists() == old(PageLists())
                      && home == old(home) && freeAt == old(freeAt) && pageAt == old(pageAt)
      ensures ok ==> && home == old(home) + Into(p, id) && freeAt == old(freeAt) + Into(p, id) && pageAt == old(pageAt)[p := id]
                     && fresh(ItemSet(p.chunks)) && |p.chunks| == cs[id].perslab && cs[id].free != []
                     && Gained(old(PageLists()), PageLists(), id, p, source)
      ensures forall start: Account, sizes: seq<nat> :: Paid(old(mem), old(|pageAt|), start, sizes) ==>
                Paid(mem, |pageAt|, start, if source == Fresh then sizes + [pageSizes[id]] else sizes)
    {
      hide *;
      PoolIs();
      ToBeHad(id);
      ghost var before := pageAt;
      AllPaid(mem, |pageAt|, pageSizes[id], |cs[POOL].slabList|);
      var size := pageSizes[id];
      if mem.LimitHit(size, |cs[POOL].slabList|) {
        memLimitReached := true;
        Refuses(mem, size, |cs[POOL].slabList|);
        return false, null, Refused;
      }
      Accepts(mem, size, |cs[POOL].slabList|);
      FreshOnlyWithinLimit(mem, size, |cs[POOL].slabList|);
      ok, p, source := Extend(id, size);
      OneMorePage(before, p, id);
      PoolIs();
      ToBeHad(id);
    }

    lemma AllPaid(a: Account, n: nat, size: nat, pooled: nat)
      ensures forall start: Account, sizes: seq<nat> :: Paid(a, n, start, sizes) ==>
                var (r, source) := a.NextPage(size, pooled);
                if source == Fresh then Paid(r, n + 1, start, sizes + [size]) else Paid(r, n, start, sizes)
    {
      forall start: Account, sizes: seq<nat> | Paid(a, n, start, sizes)
        ensures var (r, source) := a.NextPage(size, pooled);
                if source == Fresh then Paid(r, n + 1, start, sizes + [size]) else Paid(r, n, start, sizes)
      {
        PaidOn(a, n, start, sizes, size, pooled);
      }
    }

    lemma OneMorePage(before: map<Page, nat>, p: Page?, id: nat)
      ensures p != null ==> |before[p := id]| == |before| + if p in before then 0 else 1
    {
      if p != null {
        assert before[p := id].Keys == before.Keys + {p};
      }
    }

    /** The pool gives a page away; the room in the other classes stays. */
    lemma StillRoom(ps: seq<seq<Page>>, source: Source, id: nat)
      requires Valid() && PageLists() == PoolTaken(ps, source) && POOL < id < |cs|
      ensures id < |ps| && cs[id].slabList == ps[id]
    {
    }

    lemma PoolLeaves(ps: seq<seq<Page>>, source: Source, id: nat)
      requires Valid() && PageLists() == PoolTaken(ps, source) && POOL < id < |cs|
      ensures |ps| == |cs| && ps[id] == cs[id].slabList
    {
    }

    lemma PoolKept(ps: seq<seq<Page>>, source: Source)
      requires source != FromPool
      ensures PoolTaken(ps, source) == ps
    {
    }

    lemma HasFree(p: Page, id: nat, f: map<Item, nat>)
      requires Valid() && POOL < id < |cs| && freeAt == f + Into(p, id) && |p.chunks| == cs[id].perslab
      ensures cs[id].free != []
    {
      OpenFree();
      var x := p.chunks[0];
      assert x in Into(p, id);
      assert x in freeAt && freeAt[x] == id;
    }

    lemma Refuses(m: Account, size: nat, pooled: nat)
      requires m.LimitHit(size, pooled)
      ensures m.NextPage(size, pooled) == (m, Refused)
    {
    }

    lemma Accepts(m: Account, size: nat, pooled: nat)
      requires !m.LimitHit(size, pooled)
      ensures m.NextPage(size, pooled).1 != Refused
    {
    }

    /** Hands the first page of a class, none of whose chunks is free, to another class. */
    method MovePage(s: nat, d: nat) returns (p: Page)
      requires s < |cs| && d < |cs| && s != d && cs[s].slabList != [] && |cs[d].slabList| < cs[d].listSize && Valid()
      requires ItemSet(cs[s].slabList[0].chunks) !! freeAt.Keys
      modifies `home, `freeAt, `pageAt, freeAt.Keys`prev, {cs[s].slabList[0]}`chunks
      modifies cs`slots, cs`slCurr, cs`free, cs`owned, cs`slabList
      ensures Valid() && p == old(cs[s].slabList[0]) && pageAt == old(pageAt)[p := d] && |pageAt| == old(|pageAt|)
      ensures |PageLists()| == |cs| && PageLists() == old(PageLists())[s := old(cs[s].slabList)[1..]][d := old(cs[d].slabList) + [p]]
      ensures home == old(home - ItemSet(cs[s].slabList[0].chunks)) + Into(p, d) && freeAt == old(freeAt) + Into(p, d)
      ensures fresh(ItemSet(p.chunks)) && |p.chunks| == cs[d].perslab
    {
      hide *;
      ghost var ps := PageLists();
      ListsSay(ps);
      p := RemovePage(s, false);
      p.chunks := [];
      ListsSay(ps[s := ps[s][1..]]);
      AddPage(d, p);
    }

    /** Changes the flags of a chunk that is handed out. */
    method SetFlags(it: Item, f: Flags)
      requires Valid() && it in home && it.flags != FREE && f != FREE
      modifies it`flags
      ensures Valid() && it.flags == f
    {
      hide *;
      OpenChunk(it);
      TagFacts();
      it.flags := f;
      TagsKept(it);
      Close();
    }

    /** Changes the list an unfree chunk belongs to. */
    method SetClsid(it: Item, id: nat)
      requires Valid() && it in home && it.flags != FREE
      modifies it`clsid
      ensures Valid() && it.clsid == id
    {
      hide *;
      OpenChunk(it);
      TagFacts();
      it.clsid := id;
      TagsKept(it);
      Close();
    }

    lemma TagsKept(it: Item)
      requires forall x :: x in freeAt ==> x in home && home[x] == freeAt[x] && (x != it ==> x.flags == FREE && x.clsid == 0)
      requires forall x :: x in home && x != it && x.flags == FREE ==> x in freeAt
      requires it !in freeAt && it.flags != FREE
      ensures TagsOK()
    {
    }

    /** Where the free chunks are. */
    lemma FreesAre()
      requires Fixed() && FreeListsOK() && TagsOK()
      ensures |Frees()| == CLASS_COUNT && forall i :: 0 <= i < |Frees()| ==> Distinct(Frees()[i])
      ensures forall i, x :: 0 <= i < |Frees()| && x in Frees()[i] ==> x in home && home[x] == i && x.flags == FREE
      ensures forall x :: x in home && x.flags == FREE ==> home[x] < |Frees()| && x in Frees()[home[x]]
    {
      OpenFree();
      TagFacts();
      hide FreeListsOK, TagsOK, SlabClass.FreeList;
      assert forall i :: 0 <= i < |cs| ==> Frees()[i] == cs[i].free;
    }

    lemma PoolPages()
      requires Valid()
      ensures 0 <= POOL < |cs| && forall p :: p in cs[POOL].slabList ==> p in pageAt
    {
      hide FreeListsOK, TagsOK, HomesOK;
      OpenPages();
    }

    /** The chunks of a class's page belong to the class. */
    lemma PageHomes(id: nat)
      requires id < |cs| && cs[id].slabList != [] && Valid()
      ensures |cs[id].slabList[0].chunks| == cs[id].perslab
      ensures forall x :: x in cs[id].slabList[0].chunks ==> x in home && home[x] == id
    {
      OpenAll();
      OpenHomes();
      var p := cs[id].slabList[0];
      assert p in cs[id].slabList && ItemSet(p.chunks) <= cs[id].owned;
      assert forall x :: x in p.chunks ==> x in ItemSet(p.chunks);
    }

    lemma FreeIsTagged()
      requires Valid()
      ensures forall x :: x in freeAt ==> x in home && x.flags == FREE
    {
    }
  }
}
