/** The cache: items live in slab chunks, are found through the hash table, sit on one LRU list
    each, and are freed when their last reference goes. */
module Cache {
  import opened Common
  import opened Items
  import opened LruSpec
  import opened HashTable
  import opened Assoc
  import opened LruList
  import opened LruLists
  import opened SlabClass
  import opened Slabs
  import opened Recency
  import opened CacheSpec

  /** What sets a crawler apart from an item. */
  predicate CrawlerLike(x: Item)
    reads x`nbytes, x`key, x`flags
  {
    x.nbytes == 0 && x.key == [] && x.flags == Flags(true, false, false, false)
  }

  ghost function HeadOf(x: Item): Head
    reads x`flags, x`refcount, x`time, x`exptime, x`nbytes, x`clsid, x`key, x`value
  {
    Head(x.flags, x.refcount, x.time, x.exptime, x.nbytes, x.clsid, x.key, x.value)
  }

  class Cache {
    const tab: HashTab
    const lru: LruLists
    const slabs: Slabs
    const settings: Settings
    /** current_time */
    var now: nat

    /** How many references each item has besides the one of being linked. */
    ghost var holders: map<Item, nat>
    /** Chunks just taken off a freelist. */
    ghost var raw: set<Item>
    /** The crawlers. */
    ghost const guests: set<Item>

    constructor (tab: HashTab, lru: LruLists, slabs: Slabs, settings: Settings, now: nat)
      requires tab.Valid() && tab.bindings == map[] && lru.Valid() && lru.where == map[] && slabs.Valid() && slabs.home == map[]
      requires forall i :: 0 <= i < |lru.ls| ==> CrawlerLike(lru.ls[i].crawler)
      requires forall i, j :: 0 <= i < j < |lru.ls| ==> lru.ls[i].crawler != lru.ls[j].crawler
      ensures Valid() && holders == map[]
    {
      hide *;
      this.tab, this.lru, this.slabs, this.settings, this.now, holders, raw := tab, lru, slabs, settings, now, map[], {};
      guests := set i | 0 <= i < |lru.ls| :: lru.ls[i].crawler;
      new;
      Begins();
    }

    /** An empty cache is valid. */
    lemma Begins()
      requires tab.Valid() && tab.bindings == map[] && lru.Valid() && lru.where == map[] && slabs.Valid() && slabs.home == map[]
      requires forall i :: 0 <= i < |lru.ls| ==> CrawlerLike(lru.ls[i].crawler)
      requires forall i, j :: 0 <= i < j < |lru.ls| ==> lru.ls[i].crawler != lru.ls[j].crawler
      requires holders == map[] && raw == {} && guests == set i | 0 <= i < |lru.ls| :: lru.ls[i].crawler
      ensures Valid()
    {
      NoNodes(tab);
      hide HashTab.Valid, LruLists.Valid, Slabs.Valid;
    }

    ghost predicate CrawlersIntact()
      reads guests`nbytes, guests`key, guests`flags
    {
      forall c :: c in guests ==> CrawlerLike(c)
    }

    ghost predicate Parts()
      reads tab, tab.primary, tab.former, tab.nodes`hNext, tab.nodes`key
      reads lru, lru.ls, lru.where.Keys`next, lru.where.Keys`prev, lru.where.Keys`key, lru.where.Keys`nbytes
      reads slabs`home, slabs`freeAt, slabs`pageAt, slabs.cs, slabs.freeAt.Keys`next, slabs.freeAt.Keys`prev
      reads slabs.pageAt.Keys`chunks, slabs.home.Keys`flags, slabs.home.Keys`clsid
      reads guests`nbytes, guests`key, guests`flags
    {
      tab.Valid() && lru.Valid() && slabs.Valid() && CrawlersIntact()
    }

    ghost function CrawlerSeq(): seq<Item> {
      seq(|lru.ls|, i requires 0 <= i < |lru.ls| => lru.ls[i].crawler)
    }

    ghost function Account(): Links<Item>
      reads tab`nodes, lru`where, slabs`home, `raw
    {
      Links(tab.nodes, lru.where, slabs.home, raw, CrawlerSeq(), guests)
    }

    ghost function Heads(): map<Item, Head>
      reads slabs`home
      reads slabs.home.Keys`flags, slabs.home.Keys`refcount, slabs.home.Keys`time, slabs.home.Keys`exptime
      reads slabs.home.Keys`nbytes, slabs.home.Keys`clsid, slabs.home.Keys`key, slabs.home.Keys`value
    {
      map x | x in slabs.home :: HeadOf(x)
    }

    ghost predicate Valid()
      reads `holders, `raw
      reads tab, tab.primary, tab.former, tab.nodes`hNext, tab.nodes`key
      reads lru, lru.ls, lru.where.Keys`next, lru.where.Keys`prev, lru.where.Keys`key, lru.where.Keys`nbytes
      reads slabs`home, slabs`freeAt, slabs`pageAt, slabs.cs, slabs.freeAt.Keys`next, slabs.freeAt.Keys`prev
      reads slabs.pageAt.Keys`chunks
      reads slabs.home.Keys`flags, slabs.home.Keys`refcount, slabs.home.Keys`time, slabs.home.Keys`exptime
      reads slabs.home.Keys`nbytes, slabs.home.Keys`clsid, slabs.home.Keys`key, slabs.home.Keys`value
      reads guests`nbytes, guests`key, guests`flags
    {
      Parts() && Consistent(Heads(), Account(), holders)
    }

    /** What the operations see of the cache. */
    ghost function View(): State<Item>
      reads `holders, tab`bindings, lru.ls, slabs.cs`free, slabs`home
      reads slabs.home.Keys`flags, slabs.home.Keys`refcount, slabs.home.Keys`time, slabs.home.Keys`exptime
      reads slabs.home.Keys`nbytes, slabs.home.Keys`clsid, slabs.home.Keys`key, slabs.home.Keys`value
    {
      State(tab.bindings, lru.Lists(), slabs.Frees(), Heads(), holders)
    }

    // ---------------------------------------------------------------- taking the account apart

    lemma Open(it: Item)
      requires Valid() && it in View().heads
      ensures Parts() && Consistent(Heads(), Account(), holders)
      ensures View() == State(tab.bindings, lru.Lists(), slabs.Frees(), Heads(), holders)
      ensures it in slabs.home && it in Heads() && Heads()[it] == HeadOf(it) == View().At(it) && it !in guests
      ensures HeadOf(it) == Head(it.flags, it.refcount, it.time, it.exptime, it.nbytes, it.clsid, it.key, it.value)
    {
      hide Parts;
    }

    /** The view tells the fields. */
    lemma Fields(it: Item)
      requires Valid() && it in View().heads
      ensures View().At(it) == Head(it.flags, it.refcount, it.time, it.exptime, it.nbytes, it.clsid, it.key, it.value)
      ensures View().Linked(it) == it.flags.linked && it in slabs.home
      ensures View().bindings == tab.bindings
    {
      hide Parts;
    }

    lemma LinkedIs(it: Item)
      requires Valid() && View().Linked(it)
      ensures it in View().heads && it.key in tab.bindings && tab.bindings[it.key] == it
    {
      hide HashTab.Valid, LruLists.Valid, Slabs.Valid;
      assert Told(it, Heads()[it], Account(), holders);
      TableFinds(it);
    }

    /** The table serves the bindings, and what it finds is linked. */
    lemma TableIs(key: Key)
      requires Valid()
      ensures tab.Valid() && View().bindings == tab.bindings
      ensures key in tab.bindings ==> View().Linked(tab.bindings[key]) && tab.bindings[key].key == key
    {
      hide LruLists.Valid, Slabs.Valid, Represents;
      if key in tab.bindings {
        var it := tab.bindings[key];
        assert it in tab.nodes && it in slabs.home;
        assert Told(it, Heads()[it], Account(), holders);
      }
    }

    /** A reader must not see the item. */
    method IsGone(it: Item) returns (gone: bool)
      ensures gone == Head(it.flags, it.refcount, it.time, it.exptime, it.nbytes, it.clsid, it.key, it.value).Gone(settings.oldestLive, now)
    {
      var flushed := settings.oldestLive != 0 && settings.oldestLive <= now && it.time <= settings.oldestLive;
      gone := flushed || (it.exptime != 0 && it.exptime <= now);
    }

    /** Expired or flushed. */
    method IsDead(it: Item) returns (dead: bool)
      ensures dead == Head(it.flags, it.refcount, it.time, it.exptime, it.nbytes, it.clsid, it.key, it.value).Dead(settings.oldestLive, now)
    {
      var flushed := settings.oldestLive != 0 && settings.oldestLive <= now && it.time <= settings.oldestLive;
      dead := (it.exptime != 0 && it.exptime < now) || flushed;
    }

    lemma ListCount()
      requires Valid()
      ensures |lru.ls| == LIST_COUNT == |View().lists| && LIST_COUNT == 256
    {
      hide HashTab.Valid, Slabs.Valid;
    }

    lemma TailIs(i: nat)
      requires Valid() && i < |lru.ls|
      ensures |View().lists| == |lru.ls| && View().lists[i] == lru.ls[i].s
      ensures lru.ls[i].tail == if View().lists[i] == [] then null else View().lists[i][|View().lists[i]| - 1]
    {
      hide HashTab.Valid, Slabs.Valid;
      lru.Open();
    }

    /** The k-th node of list i: its neighbour towards the head, and whether it is the crawler. */
    lemma NodeIs(i: nat, k: nat)
      requires Valid() && i < |View().lists| && k < |View().lists[i]|
      ensures i < |lru.ls| && Distinct(View().lists[i])
      ensures var x := View().lists[i][k];
              && x.prev == (if k == 0 then null else View().lists[i][k - 1])
              && (x == lru.ls[i].crawler <==> x.nbytes == 0 && x.key == [] && x.flags == Flags(true, false, false, false))
              && (x != lru.ls[i].crawler ==> View().Linked(x) && View().At(x).clsid == i)
    {
      hide HashTab.Valid, Slabs.Valid;
      lru.Open();
      var x := View().lists[i][k];
      assert x in lru.ls[i].s && x in lru.where;
      assert Account().crawlers[i] == lru.ls[i].crawler;
      assert x in slabs.home ==> Told(x, Heads()[x], Account(), holders);
    }

    lemma ListDistinct(i: nat)
      requires Valid() && i < |View().lists|
      ensures Distinct(View().lists[i])
    {
      hide HashTab.Valid, Slabs.Valid;
      lru.Open();
    }

    lemma BytesOf(i: nat)
      requires Valid() && i < |View().lists|
      ensures i < |lru.ls| && View().lists[i] == lru.ls[i].s && lru.ls[i].sizeBytes == Bytes(lru.ls[i].s, lru.ls[i].crawler)
      ensures forall x :: x in lru.ls[i].s && x != lru.ls[i].crawler ==> View().At(x).key == x.key && View().At(x).nbytes == x.nbytes
    {
      hide HashTab.Valid, Slabs.Valid;
      lru.Open();
      assert Account().crawlers[i] == lru.ls[i].crawler;
      forall x | x in lru.ls[i].s && x != lru.ls[i].crawler ensures x in slabs.home {
        assert x in lru.where;
      }
    }

    lemma HoldsIs(it: Item)
      requires Valid() && View().Holds(it)
      ensures it in View().heads && !it.flags.slabbed
    {
      hide HashTab.Valid, LruLists.Valid, Slabs.Valid;
      assert Told(it, Heads()[it], Account(), holders);
    }

    lemma InRange(it: Item)
      requires Valid() && it in View().heads
      ensures View().Linked(it) ==> it.clsid < LIST_COUNT
    {
      hide HashTab.Valid, LruLists.Valid, Slabs.Valid;
      assert Told(it, Heads()[it], Account(), holders);
    }

    lemma Close()
      requires Parts() && Consistent(Heads(), Account(), holders)
      ensures Valid() && View() == State(tab.bindings, lru.Lists(), slabs.Frees(), Heads(), holders)
    {
    }

    lemma OpenAll()
      requires Valid()
      ensures Parts() && Consistent(Heads(), Account(), holders) && Heads().Keys == slabs.home.Keys
      ensures View() == State(tab.bindings, lru.Lists(), slabs.Frees(), Heads(), holders)
    {
      hide Parts, Consistent;
    }

    lemma OpenParts()
      requires Parts()
      ensures tab.Valid() && lru.Valid() && slabs.Valid() && CrawlersIntact() && |slabs.cs| == CLASS_COUNT && |lru.ls| == LIST_COUNT
    {
    }

    lemma CloseParts()
      requires tab.Valid() && lru.Valid() && slabs.Valid() && CrawlersIntact()
      ensures Parts()
    {
    }

    // ---------------------------------------------------------------- the table grows

    /** What the table's own steps need, and that its items are chunks. */
    lemma TableParts()
      requires Valid()
      ensures Parts() && tab.Valid() && lru.Valid() && slabs.Valid() && CrawlersIntact() && tab.nodes <= slabs.home.Keys
      ensures Consistent(Heads(), Account(), holders)
    {
      hide HashTab.Valid, LruLists.Valid, Slabs.Valid;
    }

    /** assoc_expand: a table of twice the size takes over, if there is memory for it. */
    method Expand(granted: bool)
      requires Valid() && !tab.expanding
      modifies tab
      ensures Valid() && View() == old(View()) && tab.t == if granted then old(tab.t).Expand() else old(tab.t)
    {
      hide *;
      OpenAll();
      AccountIs();
      TableParts();
      tab.Expand(granted);
      CloseParts();
      AccountIs();
      Close();
    }

    /** One bucket migrates, with its items wherever they are in the lists. */
    method Migrate()
      requires Valid() && tab.expanding
      modifies tab, tab.primary, tab.former, slabs.home.Keys`hNext
      ensures Valid() && View() == old(View()) && tab.t == old(tab.t).Migrate(tab.hash)
    {
      hide *;
      OpenAll();
      AccountIs();
      TableParts();
      tab.Migrate();
      CloseParts();
      AccountIs();
      Close();
    }

    // ---------------------------------------------------------------- references

    /** The count, and the account of it. */
    method Count(it: Item, n: nat, ghost holders': map<Item, nat>)
      requires Parts() && it in slabs.home && it !in guests
      modifies `holders, it`refcount
      ensures Parts() && it.refcount == n && holders == holders'
      ensures HeadOf(it) == old(HeadOf(it)).(refcount := n) && Heads() == old(Heads())[it := HeadOf(it)]
    {
      hide Parts;
      it.refcount := n;
      holders := holders';
    }

    /** A holder takes one more reference. */
    method Hold(it: Item)
      requires Valid() && (View().Holds(it) || View().Linked(it))
      modifies `holders, it`refcount
      ensures Valid() && View() == old(View()).Hold(it)
    {
      hide *;
      Usable(it);
      Open(it);
      ghost var st := View();
      HoldIs(st, it);
      ConsistentHold(Heads(), Account(), holders, it);
      Count(it, it.refcount + 1, Given(holders, it));
      Close();
    }

    lemma Usable(it: Item)
      requires Valid() && (View().Holds(it) || View().Linked(it))
      ensures it in View().heads && it in Heads() && !Heads()[it].flags.slabbed && Held(View().holders, it) == Held(holders, it)
      ensures View().Holds(it) ==> Held(holders, it) > 0
      ensures Heads()[it].flags.linked || it in holders
      ensures View().Linked(it) ==> Heads()[it].flags.linked
    {
      hide Parts;
    }

    method FreeHead(it: Item, id: nat)
      requires slabs.Valid() && it in slabs.home && slabs.home[it] == id < |slabs.cs| && !it.flags.slabbed
      modifies slabs`freeAt, slabs.cs`slots, slabs.cs`slCurr, slabs.cs`free, it`flags, it`clsid, it`prev, it`next, slabs.freeAt.Keys`prev
      ensures slabs.Valid() && slabs.Frees() == Headed(old(slabs.Frees()), id, it)
      ensures Heads() == old(Heads())[it := old(HeadOf(it)).(flags := FREE, clsid := 0)]
    {
      hide *;
      FreeAtHead(id, it);
      UnlinkedFlags(it.flags);
      ghost var hs := Heads();
      HeadsOpen(it);
      slabs.FreeChunk(it, id);
      HeadsClose(it, hs);
    }

    /** Everything the parts link together is a chunk or a crawler. */
    lemma Footprint()
      requires Valid()
      ensures tab.nodes <= slabs.home.Keys && lru.where.Keys <= slabs.home.Keys + guests && slabs.freeAt.Keys <= slabs.home.Keys
    {
      hide HashTab.Valid, LruLists.Valid, Slabs.Valid;
      slabs.FreeIsTagged();
    }

    /** Back to its freelist. */
    method FreeParts(it: Item, id: nat)
      requires Parts() && it !in guests && it in slabs.home && slabs.home[it] == id < CLASS_COUNT && !it.flags.slabbed
      requires it !in lru.where && lru.where.Keys !! slabs.freeAt.Keys
      modifies slabs`freeAt, slabs.cs`slots, slabs.cs`slCurr, slabs.cs`free, it`flags, it`clsid, it`prev, it`next, slabs.freeAt.Keys`prev
      ensures Parts() && slabs.Frees() == Headed(old(slabs.Frees()), id, it)
      ensures Heads() == old(Heads())[it := old(HeadOf(it)).(flags := FREE, clsid := 0)]
    {
      hide *;
      OpenParts();
      FreeHead(it, id);
      CloseParts();
    }

    lemma HeadsOpen(it: Item)
      ensures Heads().Keys == slabs.home.Keys && forall x :: x in slabs.home ==> Heads()[x] == HeadOf(x)
      ensures HeadOf(it) == Head(it.flags, it.refcount, it.time, it.exptime, it.nbytes, it.clsid, it.key, it.value)
    {
    }

    lemma HeadsClose(it: Item, hs: map<Item, Head>)
      requires hs.Keys == slabs.home.Keys && it in slabs.home && forall x :: x in slabs.home && x != it ==> hs[x] == HeadOf(x)
      ensures Heads() == hs[it := Head(it.flags, it.refcount, it.time, it.exptime, it.nbytes, it.clsid, it.key, it.value)]
    {
    }

    lemma FreeAtHead(id: nat, it: Item)
      requires id < |slabs.cs|
      ensures Headed(slabs.Frees(), id, it) == slabs.Frees()[id := [it] + slabs.cs[id].free]
    {
    }

    /** Nothing on an LRU list is on a freelist. */
    lemma ListedApart()
      requires Valid()
      ensures lru.where.Keys !! slabs.freeAt.Keys
    {
      hide HashTab.Valid, LruLists.Valid, Slabs.Valid;
      slabs.FreeIsTagged();
      forall x | x in slabs.freeAt ensures x !in lru.where {
        assert Told(x, Heads()[x], Account(), holders);
      }
    }

    method DropParts(it: Item)
      requires Parts() && it !in guests && it in slabs.home && it.refcount > 0
      requires it.refcount == 1 ==> it !in lru.where && !it.flags.slabbed && slabs.home[it] == ClassOf(it.clsid) < CLASS_COUNT
      requires lru.where.Keys !! slabs.freeAt.Keys
      modifies `holders, it`refcount
      modifies slabs`freeAt, slabs.cs`slots, slabs.cs`slCurr, slabs.cs`free, it`flags, it`clsid, it`prev, it`next, slabs.freeAt.Keys`prev
      ensures Parts() && Heads() == old(Heads())[it := old(HeadOf(it)).Dropped()] && holders == Taken(old(holders), it)
      ensures slabs.Frees() == if old(it.refcount) <= 1 then Headed(old(slabs.Frees()), ClassOf(old(it.clsid)), it) else old(slabs.Frees())
    {
      hide *;
      HeadsOpen(it);
      DroppedIs(Heads(), it, HeadOf(it));
      Count(it, it.refcount - 1, Taken(holders, it));
      if it.refcount == 0 {
        FreeParts(it, ClassOf(it.clsid));
      }
    }

    /** A reference goes; with the last one the item is freed. */
    method DoItemRemove(it: Item)
      requires Valid() && View().Holds(it)
      modifies `holders, slabs`freeAt, slabs.cs`slots, slabs.cs`slCurr, slabs.cs`free
      modifies slabs.home.Keys`flags, slabs.home.Keys`refcount, slabs.home.Keys`clsid, slabs.home.Keys`next, slabs.home.Keys`prev
      ensures Valid() && View() == old(View()).Drop(it)
    {
      hide *;
      Usable(it);
      Open(it);
      Footprint();
      AccountIs();
      ListedApart();
      ghost var st := View();
      DropIs(st, it);
      ConsistentDrop(Heads(), Account(), holders, it);
      DropParts(it);
      Close();
    }

    lemma AccountIs()
      ensures Account() == Links(tab.nodes, lru.where, slabs.home, raw, CrawlerSeq(), guests)
    {
    }

    // ---------------------------------------------------------------- linking and unlinking

    lemma TableFinds(it: Item)
      requires tab.Valid() && it in tab.nodes
      ensures it.key in tab.bindings && tab.bindings[it.key] == it
    {
      hide Represents;
    }

    /** The item can be taken off list i. */
    ghost predicate OnList(it: Item, i: nat)
      reads lru`where, lru.ls, slabs`freeAt
    {
      && i < LIST_COUNT == |lru.ls| && it in lru.ls[i].s && it != lru.ls[i].crawler && lru.where.Keys !! slabs.freeAt.Keys
      && forall x :: x in lru.ls[i].s ==> x in lru.where
    }

    lemma ListFinds(it: Item, i: nat)
      requires Valid() && View().Linked(it) && View().At(it).clsid == i
      ensures OnList(it, i)
    {
      hide LruList.Valid, HashTab.Valid, Slabs.Valid;
      ListedApart();
      lru.Open();
      assert Told(it, Heads()[it], Account(), holders);
      assert it in lru.Lists()[i] && Account().crawlers[i] == lru.ls[i].crawler;
    }

    method FlagParts(it: Item, f: Flags)
      requires Parts() && it in slabs.home && it !in guests && !it.flags.slabbed && f != FREE
      modifies it`flags
      ensures Parts() && Heads() == old(Heads())[it := old(HeadOf(it)).(flags := f)] && it.flags == f
    {
      hide *;
      OpenParts();
      UnlinkedFlags(it.flags);
      ghost var hs := Heads();
      HeadsOpen(it);
      slabs.SetFlags(it, f);
      HeadsClose(it, hs);
      CloseParts();
    }

    /** The flag and the table. */
    method Untable(it: Item, hv: nat)
      requires Parts() && it in slabs.home && it !in guests && !it.flags.slabbed && it in tab.nodes && hv == tab.hash(it.key)
      modifies it`flags, tab`t, tab`hashItems, tab`bindings, tab`nodes, tab.primary, tab.former, tab.nodes`hNext
      ensures Parts() && Heads() == old(Heads())[it := old(HeadOf(it)).(flags := old(it.flags).(linked := false))]
      ensures tab.bindings == old(tab.bindings) - {it.key} && tab.nodes == old(tab.nodes) - {it}
    {
      hide *;
      UnlinkedFlags(it.flags);
      FlagParts(it, it.flags.(linked := false));
      OpenParts();
      TableFinds(it);
      ExceptIs(tab.nodes, it);
      var x := tab.Delete(it.key, hv);
      CloseParts();
    }

    /** The list. */
    method Unlist(it: Item)
      requires Parts() && OnList(it, it.clsid)
      modifies lru`where, lru.ls, lru.where.Keys`next, lru.where.Keys`prev
      ensures Parts() && lru.where == old(lru.where) - {it} && lru.Lists() == Left(old(lru.Lists()), it.clsid, it)
    {
      hide *;
      OpenParts();
      OnListIs(it, it.clsid);
      lru.UnlinkQ(it);
      CloseParts();
    }

    lemma OnListIs(it: Item, i: nat)
      requires OnList(it, i)
      ensures i < LIST_COUNT == |lru.ls| && it in lru.ls[i].s && it != lru.ls[i].crawler && lru.where.Keys !! slabs.freeAt.Keys
      ensures Left(lru.Lists(), i, it) == lru.Lists()[i := Removed(lru.ls[i].s, it)]
      ensures forall x :: x in lru.ls[i].s ==> x in lru.where
    {
    }

    method Unthread(it: Item, hv: nat)
      requires Parts() && it in slabs.home && it !in guests && !it.flags.slabbed && it in tab.nodes && hv == tab.hash(it.key)
      requires OnList(it, it.clsid)
      modifies `holders, it`flags, tab`t, tab`hashItems, tab`bindings, tab`nodes, tab.primary, tab.former, tab.nodes`hNext
      modifies lru`where, lru.ls, lru.where.Keys`next, lru.where.Keys`prev
      ensures Parts() && Heads() == old(Heads())[it := old(HeadOf(it)).(flags := old(it.flags).(linked := false))]
      ensures tab.bindings == old(tab.bindings) - {it.key} && tab.nodes == old(tab.nodes) - {it}
      ensures lru.where == old(lru.where) - {it} && lru.Lists() == Left(old(lru.Lists()), it.clsid, it)
      ensures holders == Given(old(holders), it)
    {
      hide *;
      holders := Given(holders, it);
      Untable(it, hv);
      Unlist(it);
    }

    /** The item leaves the table and its list.  The reference of being linked passes to the caller. */
    method UnlinkOut(it: Item, hv: nat)
      requires Valid() && View().Linked(it) && hv == tab.hash(it.key)
      modifies `holders, tab`t, tab`hashItems, tab`bindings, tab`nodes, tab.primary, tab.former, lru`where, lru.ls
      modifies slabs.home.Keys`flags, slabs.home.Keys`hNext, (slabs.home.Keys + guests)`next, (slabs.home.Keys + guests)`prev
      ensures Valid() && View() == old(View()).Out(it)
    {
      hide *;
      Usable(it);
      Open(it);
      Footprint();
      AccountIs();
      ListFinds(it, it.clsid);
      ghost var st := View();
      OutIs(st, it);
      ConsistentOut(Heads(), Account(), holders, it);
      Unthread(it, hv);
      AccountIs();
      Close();
    }

    method MarkLinked(it: Item)
      requires Parts() && it in slabs.home && it !in guests && !it.flags.slabbed
      modifies it`flags, it`time
      ensures Parts() && Heads() == old(Heads())[it := HeadOf(it)]
      ensures HeadOf(it) == old(HeadOf(it)).(flags := old(it.flags).(linked := true), time := now)
    {
      hide *;
      OpenParts();
      UnlinkedFlags(it.flags);
      LinkedFlags(it.flags);
      ghost var hs := Heads();
      HeadsOpen(it);
      slabs.SetFlags(it, it.flags.(linked := true));
      it.time := now;
      HeadsClose(it, hs);
      HeadsOpen(it);
      CloseParts();
    }

    /** The flag, the time, and the table. */
    method Table(it: Item, hv: nat)
      requires Parts() && it in slabs.home && it !in guests && !it.flags.slabbed && it.key !in tab.bindings && hv == tab.hash(it.key)
      modifies it`flags, it`time, tab`t, tab`hashItems, tab`startedExpanding, tab`bindings, tab`nodes, tab.primary, tab.former, it`hNext
      ensures Parts() && Heads() == old(Heads())[it := HeadOf(it)]
      ensures HeadOf(it) == old(HeadOf(it)).(flags := old(it.flags).(linked := true), time := now)
      ensures tab.bindings == old(tab.bindings)[it.key := it] && tab.nodes == old(tab.nodes) + {it}
    {
      hide *;
      MarkLinked(it);
      OpenParts();
      tab.Insert(it, hv);
      CloseParts();
    }

    /** The item can be put on list i. */
    ghost predicate OffLists(it: Item, i: nat)
      reads lru`where, lru.ls, slabs`freeAt
    {
      && i < LIST_COUNT == |lru.ls| && it !in lru.where && it != lru.ls[i].crawler && it !in slabs.freeAt
      && lru.where.Keys !! slabs.freeAt.Keys && forall x :: x in lru.ls[i].s ==> x in lru.where
    }

    lemma ListReady(it: Item, i: nat)
      requires Valid() && View().Loose(it) && i < LIST_COUNT
      ensures OffLists(it, i)
    {
      hide LruList.Valid, HashTab.Valid, Slabs.Valid;
      ListedApart();
      slabs.FreeIsTagged();
      lru.Open();
      assert Told(it, Heads()[it], Account(), holders);
      assert Account().crawlers[i] == lru.ls[i].crawler;
    }

    lemma OffListsIs(it: Item, i: nat)
      requires OffLists(it, i)
      ensures i < LIST_COUNT == |lru.ls| && it !in lru.where && it != lru.ls[i].crawler && it !in slabs.freeAt
      ensures lru.where.Keys !! slabs.freeAt.Keys && forall x :: x in lru.ls[i].s ==> x in lru.where
      ensures Headed(lru.Lists(), i, it) == lru.Lists()[i := [it] + lru.ls[i].s]
    {
    }

    /** The list. */
    method List(it: Item)
      requires Parts() && OffLists(it, it.clsid)
      modifies lru`where, lru.ls, it`next, it`prev, lru.where.Keys`prev
      ensures Parts() && lru.where == old(lru.where)[it := it.clsid] && lru.Lists() == Headed(old(lru.Lists()), it.clsid, it)
    {
      hide *;
      OpenParts();
      OffListsIs(it, it.clsid);
      lru.LinkQ(it);
      CloseParts();
    }

    method ThreadLinks(it: Item, hv: nat)
      requires Parts() && it in slabs.home && it !in guests && !it.flags.slabbed && it.key !in tab.bindings && hv == tab.hash(it.key)
      requires OffLists(it, it.clsid)
      modifies it`flags, it`time, tab`t, tab`hashItems, tab`startedExpanding, tab`bindings, tab`nodes, tab.primary, tab.former, it`hNext
      modifies lru`where, lru.ls, it`next, it`prev, lru.where.Keys`prev
      ensures Parts() && Heads() == old(Heads())[it := HeadOf(it)]
      ensures HeadOf(it) == old(HeadOf(it)).(flags := old(it.flags).(linked := true), time := now)
      ensures tab.bindings == old(tab.bindings)[it.key := it] && tab.nodes == old(tab.nodes) + {it}
      ensures lru.where == old(lru.where)[it := it.clsid] && lru.Lists() == Headed(old(lru.Lists()), it.clsid, it)
    {
      hide *;
      Table(it, hv);
      List(it);
    }

    /** The reference of being linked. */
    method LinkCount(it: Item, ghost hs: map<Item, Head>, ghost h: Head)
      requires Parts() && it in slabs.home && it !in guests && it.refcount == h.refcount
      requires HeadOf(it) == h.(flags := h.flags.(linked := true), time := now) && Heads() == hs[it := HeadOf(it)]
      modifies `holders, it`refcount
      ensures Parts() && Heads() == hs[it := h.Linked(now)] && holders == Settled(old(holders), it)
    {
      hide *;
      LinkedHead(h, it.refcount + 1, now);
      Count(it, it.refcount + 1, Settled(holders, it));
      Overrides(hs, it, h.(flags := h.flags.(linked := true), time := now), HeadOf(it));
    }

    method Thread(it: Item, hv: nat)
      requires Parts() && it in slabs.home && it !in guests && !it.flags.slabbed && it.key !in tab.bindings && hv == tab.hash(it.key)
      requires OffLists(it, it.clsid)
      modifies it`flags, it`time, tab`t, tab`hashItems, tab`startedExpanding, tab`bindings, tab`nodes, tab.primary, tab.former, it`hNext
      modifies lru`where, lru.ls, it`next, it`prev, lru.where.Keys`prev, it`refcount, `holders
      ensures Parts() && Heads() == old(Heads())[it := old(HeadOf(it)).Linked(now)]
      ensures tab.bindings == old(tab.bindings)[it.key := it] && tab.nodes == old(tab.nodes) + {it}
      ensures lru.where == old(lru.where)[it := it.clsid] && lru.Lists() == Headed(old(lru.Lists()), it.clsid, it)
      ensures holders == Settled(old(holders), it)
    {
      hide *;
      ghost var hs, h := Heads(), HeadOf(it);
      HeadsOpen(it);
      ThreadLinks(it, hv);
      LinkCount(it, hs, h);
    }

    /** The item enters the table, and its list as the head.  Its key must not be bound. */
    method DoItemLink(it: Item, hv: nat)
      requires Valid() && View().Loose(it) && it.key !in View().bindings && it.nbytes >= 2 && hv == tab.hash(it.key)
      modifies `holders, tab`t, tab`hashItems, tab`startedExpanding, tab`bindings, tab`nodes, tab.primary, tab.former, lru`where, lru.ls
      modifies slabs.home.Keys`flags, slabs.home.Keys`time, slabs.home.Keys`refcount
      modifies slabs.home.Keys`hNext, (slabs.home.Keys + guests)`next, (slabs.home.Keys + guests)`prev
      ensures Valid() && View() == old(View()).Link(it, now)
    {
      hide *;
      LooseIs(it);
      Open(it);
      Footprint();
      AccountIs();
      ghost var st := View();
      LinkIs(st, it, HeadOf(it), now);
      ConsistentLink(Heads(), Account(), holders, it, now);
      ListReady(it, it.clsid);
      Thread(it, hv);
      AccountIs();
      Close();
    }

    // ---------------------------------------------------------------- moving between lists

    lemma NotCrawler(it: Item, i: nat)
      requires Consistent(Heads(), Account(), holders) && it in slabs.home && i < |lru.ls|
      ensures it != lru.ls[i].crawler
    {
      assert Account().crawlers[i] == lru.ls[i].crawler;
    }

    lemma OffAgain(it: Item, i: nat)
      requires Parts() && i < LIST_COUNT && it !in lru.where && it !in slabs.freeAt && it != lru.ls[i].crawler
      requires lru.where.Keys !! slabs.freeAt.Keys
      ensures OffLists(it, i)
    {
      hide LruList.Valid, HashTab.Valid, Slabs.Valid;
      lru.Open();
    }

    method ClsidParts(it: Item, id: nat)
      requires Parts() && it in slabs.home && !it.flags.slabbed && it !in lru.where
      modifies it`clsid
      ensures Parts() && it.clsid == id && Heads() == old(Heads())[it := old(HeadOf(it)).(clsid := id)]
    {
      hide *;
      OpenParts();
      UnlinkedFlags(it.flags);
      ghost var hs := Heads();
      HeadsOpen(it);
      slabs.SetClsid(it, id);
      HeadsClose(it, hs);
      CloseParts();
    }

    method Rethread(it: Item, id: nat)
      requires Parts() && it in slabs.home && !it.flags.slabbed && OnList(it, it.clsid)
      requires id < LIST_COUNT == |lru.ls| && it !in slabs.freeAt && it != lru.ls[id].crawler
      modifies it`clsid, lru`where, lru.ls, it`next, it`prev, lru.where.Keys`next, lru.where.Keys`prev
      ensures Parts() && lru.where == (old(lru.where) - {it})[it := id]
      ensures Heads() == old(Heads())[it := old(HeadOf(it)).(clsid := id)]
      ensures lru.Lists() == Headed(Left(old(lru.Lists()), old(it.clsid), it), id, it)
    {
      hide *;
      OnListIs(it, it.clsid);
      Unlist(it);
      ClsidParts(it, id);
      OffAgain(it, id);
      List(it);
    }

    /** From its list to the head of the same or another one of its slab class. */
    method Relist(it: Item, id: nat)
      requires Valid() && View().Linked(it) && id < LIST_COUNT && ClassOf(id) == ClassOf(it.clsid)
      modifies lru`where, lru.ls, slabs.home.Keys`clsid, (slabs.home.Keys + guests)`next, (slabs.home.Keys + guests)`prev
      ensures Valid() && View() == old(View()).Relist(it, id)
    {
      hide *;
      Usable(it);
      Open(it);
      Footprint();
      AccountIs();
      ListFinds(it, it.clsid);
      ghost var st := View();
      RelistIs(st, it, id);
      ConsistentRelist(Heads(), Account(), holders, it, HeadOf(it).(clsid := id));
      NotFree(it);
      NotCrawler(it, id);
      Rethread(it, id);
      AccountIs();
      Close();
    }

    lemma NotFree(it: Item)
      requires Valid() && it in Heads() && !Heads()[it].flags.slabbed
      ensures it !in slabs.freeAt && |lru.ls| == LIST_COUNT
    {
      hide HashTab.Valid, LruList.Valid, Slabs.Valid;
      slabs.FreeIsTagged();
    }

    /** Flags other than linked and slabbed. */
    method SetFlags(it: Item, f: Flags)
      requires Valid() && (View().Holds(it) || View().Linked(it)) && f.linked == it.flags.linked && !f.slabbed
      modifies it`flags
      ensures Valid() && View() == old(View()).Flag(it, f) && it.flags == f
    {
      hide *;
      Usable(it);
      Open(it);
      ghost var st := View();
      UnlinkedFlags(f);
      FlagIs(st, it, f);
      ConsistentEdit(Heads(), Account(), holders, it, HeadOf(it).(flags := f));
      FlagParts(it, f);
      Close();
    }

    method Stamp(it: Item)
      requires Valid() && (View().Holds(it) || View().Linked(it))
      modifies it`time
      ensures Valid() && View() == old(View()).Stamp(it, now)
    {
      hide *;
      Usable(it);
      Open(it);
      ghost var st := View();
      StampIs(st, it, now);
      ConsistentEdit(Heads(), Account(), holders, it, HeadOf(it).(time := now));
      StampParts(it);
      Close();
    }

    method StampParts(it: Item)
      requires Parts() && it in slabs.home
      modifies it`time
      ensures Parts() && Heads() == old(Heads())[it := old(HeadOf(it)).(time := now)]
    {
      hide *;
      ghost var hs := Heads();
      HeadsOpen(it);
      it.time := now;
      HeadsClose(it, hs);
    }

    // ---------------------------------------------------------------- crawlers

    /** Where a crawler is. */
    lemma CrawlerIs(i: nat)
      requires Valid() && i < |lru.ls|
      ensures i < |View().lists| && View().lists[i] == lru.ls[i].s && i < |Account().crawlers|
      ensures Account().crawlers[i] == lru.ls[i].crawler && lru.ls[i].crawler in guests
      ensures lru.ls[i].crawler in lru.where <==> lru.ls[i].crawler in lru.ls[i].s
      ensures lru.ls[i].crawler !in slabs.home && forall x :: x in lru.ls[i].s ==> x in lru.where
    {
      hide HashTab.Valid, Slabs.Valid;
      lru.Open();
      if lru.ls[i].crawler in lru.where {
        var j := lru.where[lru.ls[i].crawler];
        assert lru.ls[i].crawler in lru.Lists()[j] && Account().crawlers[j] == lru.ls[j].crawler;
      }
    }

    /** The lists changed, as far as the crawler of one goes. */
    ghost method CloseCrawl(st: State<Item>, ls: Links<Item>, i: nat)
      requires Parts() && Consistent(Heads(), ls, holders) && i < |ls.crawlers|
      requires Account() == ls.(where := lru.where)
      requires lru.where == ls.where || lru.where == ls.where - {ls.crawlers[i]} || lru.where == ls.where[ls.crawlers[i] := i]
      ensures Valid() && View() == State(tab.bindings, lru.Lists(), slabs.Frees(), Heads(), holders)
    {
      hide *;
      ConsistentCrawler(Heads(), ls, holders, ls.crawlers[i], i, lru.where);
      Close();
    }

    /** The crawler of list i joins it at the tail. */
    method CrawlerIn(i: nat)
      requires Valid() && i < |lru.ls| && lru.ls[i].crawler !in lru.ls[i].s
      modifies lru`where, lru.ls, (slabs.home.Keys + guests)`next, (slabs.home.Keys + guests)`prev
      ensures Valid() && i < |old(View()).lists|
      ensures View() == old(View()).(lists := old(View()).lists[i := old(View()).lists[i] + [lru.ls[i].crawler]])
    {
      hide *;
      OpenAll();
      Footprint();
      ListedApart();
      CrawlerIs(i);
      AccountIs();
      ghost var st, ls := View(), Account();
      CrawlerInParts(i);
      AccountIs();
      CloseCrawl(st, ls, i);
    }

    method CrawlerInParts(i: nat)
      requires Parts() && i < |lru.ls| && lru.ls[i].crawler !in lru.where && lru.ls[i].crawler !in slabs.freeAt
      requires lru.where.Keys !! slabs.freeAt.Keys && forall x :: x in lru.ls[i].s ==> x in lru.where
      modifies lru`where, lru.ls, lru.ls[i].crawler`next, lru.ls[i].crawler`prev, lru.where.Keys`next
      ensures Parts() && lru.where == old(lru.where)[lru.ls[i].crawler := i]
      ensures lru.Lists() == old(lru.Lists())[i := old(lru.ls[i].s) + [lru.ls[i].crawler]]
    {
      hide *;
      OpenParts();
      lru.LinkTailQ(i);
      CloseParts();
    }

    method CrawlParts(i: nat) returns (passed: Item?)
      requires Parts() && i < |lru.ls| && lru.ls[i].crawler in lru.ls[i].s
      requires lru.where.Keys !! slabs.freeAt.Keys && forall x :: x in lru.ls[i].s ==> x in lru.where
      modifies lru`where, lru.ls, lru.where.Keys`next, lru.where.Keys`prev
      ensures Parts() && (lru.where == old(lru.where) || lru.where == old(lru.where) - {lru.ls[i].crawler})
      ensures passed == match CrawlResult(old(lru.ls[i].s), lru.ls[i].crawler) case Some(x) => x case None => null
      ensures lru.Lists() == old(lru.Lists())[i := Crawled(old(lru.ls[i].s), lru.ls[i].crawler)]
      ensures passed == null ==> lru.ls[i].crawler in lru.ls[i].s || lru.ls[i].Popped(lru.ls[i].crawler)
    {
      hide *;
      OpenParts();
      passed := lru.CrawlQ(i);
      CloseParts();
    }

    /** A crawl step on list i: the item passed, or null at the head. */
    method CrawlOn(i: nat) returns (passed: Item?)
      requires Valid() && i < |lru.ls| && lru.ls[i].crawler in lru.ls[i].s
      modifies lru`where, lru.ls, (slabs.home.Keys + guests)`next, (slabs.home.Keys + guests)`prev
      ensures Valid() && i < |old(View()).lists| && lru.ls[i].crawler in old(View()).lists[i]
      ensures View() == old(View()).(lists := old(View()).lists[i := Crawled(old(View()).lists[i], lru.ls[i].crawler)])
      ensures passed == match CrawlResult(old(View()).lists[i], lru.ls[i].crawler) case Some(x) => x case None => null
      ensures passed == null ==> lru.ls[i].crawler in lru.ls[i].s || lru.ls[i].Popped(lru.ls[i].crawler)
    {
      hide *;
      OpenAll();
      Footprint();
      ListedApart();
      CrawlerIs(i);
      AccountIs();
      ghost var st, ls := View(), Account();
      passed := CrawlParts(i);
      AccountIs();
      CloseCrawl(st, ls, i);
    }

    method CrawlerOutParts(i: nat)
      requires Parts() && i < |lru.ls| && (lru.ls[i].crawler in lru.ls[i].s || lru.ls[i].Popped(lru.ls[i].crawler))
      requires lru.where.Keys !! slabs.freeAt.Keys && forall x :: x in lru.ls[i].s ==> x in lru.where
      modifies lru`where, lru.ls, lru.where.Keys`next, lru.where.Keys`prev
      ensures Parts() && (lru.where == old(lru.where) || lru.where == old(lru.where) - {lru.ls[i].crawler})
      ensures lru.Lists() == old(lru.Lists())[i := Removed(old(lru.ls[i].s), lru.ls[i].crawler)]
    {
      hide *;
      OpenParts();
      lru.UnlinkTailQ(i);
      CloseParts();
    }

    /** The crawler of list i leaves it, also when it has just left at the head. */
    method CrawlerOut(i: nat)
      requires Valid() && i < |lru.ls| && (lru.ls[i].crawler in lru.ls[i].s || lru.ls[i].Popped(lru.ls[i].crawler))
      modifies lru`where, lru.ls, (slabs.home.Keys + guests)`next, (slabs.home.Keys + guests)`prev
      ensures Valid() && i < |old(View()).lists|
      ensures View() == old(View()).(lists := old(View()).lists[i := Removed(old(View()).lists[i], lru.ls[i].crawler)])
    {
      hide *;
      OpenAll();
      Footprint();
      ListedApart();
      CrawlerIs(i);
      AccountIs();
      ghost var st, ls := View(), Account();
      CrawlerOutParts(i);
      AccountIs();
      CloseCrawl(st, ls, i);
    }

    // ---------------------------------------------------------------- chunks between freelist and owner

    method TakeHead(id: nat) returns (it: Item)
      requires slabs.Valid() && id < |slabs.cs| && slabs.cs[id].free != []
      modifies slabs`freeAt, slabs.cs`slots, slabs.cs`slCurr, slabs.cs`free, slabs.freeAt.Keys`prev
      modifies {slabs.cs[id].free[0]}`flags, {slabs.cs[id].free[0]}`refcount
      ensures slabs.Valid() && it == old(slabs.cs[id].free[0]) && it in slabs.home && slabs.home[it] == id
      ensures slabs.Frees() == old(slabs.Frees())[id := old(slabs.cs[id].free[1..])]
      ensures Heads() == old(Heads())[it := old(HeadOf(it)).(flags := old(it.flags).(slabbed := false), refcount := 1)]
      ensures old(it.flags) == FREE
    {
      hide *;
      FirstFree(id);
      ghost var hs := Heads();
      HeadsOpen(slabs.cs[id].free[0]);
      it := slabs.AllocChunk(id);
      HeadsClose(it, hs);
    }

    lemma FirstFree(id: nat)
      requires slabs.Valid() && id < |slabs.cs| && slabs.cs[id].free != []
      ensures var it := slabs.cs[id].free[0]; it in slabs.home && it.flags == FREE && it.clsid == 0 && it in slabs.freeAt
      ensures FREE.(slabbed := false) == Flags(false, false, false, false)
    {
      hide Slabs.Valid;
      slabs.OpenHead(id);
    }

    method TakeParts(id: nat) returns (it: Item)
      requires Parts() && id < |slabs.cs| && slabs.cs[id].free != [] && lru.where.Keys !! slabs.freeAt.Keys && guests !! slabs.home.Keys
      modifies slabs`freeAt, slabs.cs`slots, slabs.cs`slCurr, slabs.cs`free, slabs.freeAt.Keys`prev
      modifies {slabs.cs[id].free[0]}`flags, {slabs.cs[id].free[0]}`refcount
      ensures Parts() && it == old(slabs.cs[id].free[0]) && it in slabs.home && slabs.home[it] == id
      ensures slabs.Frees() == old(slabs.Frees())[id := old(slabs.cs[id].free[1..])]
      ensures Heads() == old(Heads())[it := old(HeadOf(it)).(flags := old(it.flags).(slabbed := false), refcount := 1)]
      ensures old(it.flags) == FREE
    {
      hide *;
      OpenParts();
      it := TakeHead(id);
      CloseParts();
    }

    lemma FreeIs(id: nat)
      requires Valid() && id < |slabs.cs|
      ensures |View().frees| == |slabs.cs| && View().frees[id] == slabs.cs[id].free && slabs.cs[id].slCurr == |slabs.cs[id].free|
      ensures guests !! slabs.home.Keys
      ensures slabs.cs[id].free != [] ==>
                && slabs.cs[id].free[0] in slabs.home && slabs.cs[id].free[0] in View().heads
                && View().At(slabs.cs[id].free[0]).flags == FREE
    {
      hide HashTab.Valid, LruLists.Valid, Slabs.Valid;
      slabs.FreeLists();
      if slabs.cs[id].free != [] {
        FirstFree(id);
      }
    }

    /** Hands out the first chunk of a freelist. */
    method Take(id: nat) returns (it: Item)
      requires Valid() && id < |slabs.cs| && slabs.cs[id].free != []
      modifies `raw, slabs`freeAt, slabs.cs`slots, slabs.cs`slCurr, slabs.cs`free
      modifies slabs.home.Keys`prev, slabs.home.Keys`flags, slabs.home.Keys`refcount
      ensures Valid() && it == old(slabs.cs[id].free[0]) && View() == old(View()).Take(id, it)
      ensures raw == old(raw) + {it} && it !in old(raw) && it in slabs.home && slabs.home[it] == id && it !in old(holders)
    {
      hide *;
      FreeIs(id);
      ghost var st, x := View(), slabs.cs[id].free[0];
      Open(x);
      Footprint();
      AccountIs();
      ListedApart();
      TakeIs(st, id, x);
      ConsistentTake(Heads(), Account(), holders, x, st.At(x).(flags := st.At(x).flags.(slabbed := false), refcount := 1));
      raw := raw + {x};
      it := TakeParts(id);
      AccountIs();
      Close();
    }

    method TagParts(it: Item, f: Flags, clsid: nat)
      requires Parts() && it in slabs.home && it !in guests && !it.flags.slabbed && f != FREE && it !in lru.where
      modifies it`flags, it`clsid
      ensures Parts() && it.flags == f && it.clsid == clsid
    {
      hide *;
      OpenParts();
      UnlinkedFlags(it.flags);
      slabs.SetFlags(it, f);
      slabs.SetClsid(it, clsid);
      CloseParts();
    }

    method NoLinks(it: Item)
      requires Parts() && it !in tab.nodes && it !in lru.where && it !in slabs.freeAt
      modifies it`next, it`prev, it`hNext
      ensures Parts()
    {
      hide *;
      it.next, it.prev, it.hNext := null, null, null;
    }

    method FieldParts(it: Item, h: Head)
      requires Parts() && it !in tab.nodes && it !in lru.where && it !in guests
      modifies it`refcount, it`time, it`exptime, it`nbytes, it`key, it`value
      ensures Parts() && it.refcount == h.refcount && it.time == h.time && it.exptime == h.exptime && it.nbytes == h.nbytes
      ensures it.key == h.key && it.value == h.value
    {
      hide *;
      it.refcount, it.time, it.exptime, it.nbytes := h.refcount, h.time, h.exptime, h.nbytes;
      it.key, it.value := h.key, h.value;
    }

    method HeaderParts(it: Item, h: Head)
      requires Parts() && it in slabs.home && !it.flags.slabbed && h.flags != FREE
      requires it !in tab.nodes && it !in lru.where && it !in slabs.freeAt && it !in guests
      modifies it`next, it`prev, it`hNext, it`refcount, it`time, it`exptime, it`nbytes, it`key, it`value, it`flags, it`clsid
      ensures Parts() && Heads() == old(Heads())[it := h] && it.key == h.key && it.nbytes == h.nbytes
    {
      hide *;
      ghost var hs := Heads();
      HeadsOpen(it);
      TagParts(it, h.flags, h.clsid);
      NoLinks(it);
      FieldParts(it, h);
      HeadsClose(it, hs);
    }

    lemma InView(x: Item)
      requires x in slabs.home
      ensures x in View().heads
    {
    }

    lemma NotRaw(x: Item)
      requires Valid() && View().Linked(x)
      ensures x !in raw && x in slabs.home && slabs.home[x] == ClassOf(x.clsid) && !x.flags.slabbed
    {
      hide HashTab.Valid, LruLists.Valid, Slabs.Valid;
      assert Told(x, Heads()[x], Account(), holders);
    }

    lemma RawApart(x: Item, y: Item)
      requires Valid() && View().Linked(x) && y in raw && y in slabs.home
      ensures x != y && y !in View().holders && !x.flags.slabbed && x.nbytes >= 2 && x !in raw
      ensures x in slabs.home && x.clsid < LIST_COUNT && ClassOf(x.clsid) == slabs.home[x]
    {
      hide HashTab.Valid, LruLists.Valid, Slabs.Valid;
      assert Told(x, Heads()[x], Account(), holders);
      assert Told(y, Heads()[y], Account(), holders);
    }

    /** Writes the header of a chunk just taken, which then belongs to the caller. */
    method WriteHeader(it: Item, h: Head)
      requires Valid() && it in raw && it in slabs.home && !h.flags.slabbed && !h.flags.linked
      requires h.clsid < LIST_COUNT && ClassOf(h.clsid) == slabs.home[it]
      modifies `holders, `raw
      modifies it`next, it`prev, it`hNext, it`refcount, it`time, it`exptime, it`nbytes, it`key, it`value, it`flags, it`clsid
      ensures Valid() && View() == old(View()).Own(it, h) && raw == old(raw) - {it} && it.key == h.key && it.nbytes == h.nbytes
    {
      hide *;
      RawIs(it);
      Open(it);
      AccountIs();
      OwnIs(View(), it, h);
      ConsistentOwn(Heads(), Account(), holders, it, h);
      raw, holders := raw - {it}, holders[it := h.refcount];
      HeaderParts(it, h);
      AccountIs();
      Close();
    }

    lemma RawIs(it: Item)
      requires Valid() && it in raw && it in slabs.home
      ensures it in View().heads && !it.flags.slabbed && it !in slabs.freeAt && Flags(false, false, false, false) != FREE
      ensures View().At(it).flags.linked == false && forall f: Flags :: !f.slabbed ==> f != FREE
    {
      hide HashTab.Valid, LruLists.Valid, Slabs.Valid;
      slabs.FreeIsTagged();
      assert Told(it, Heads()[it], Account(), holders);
    }

    lemma ShutIs(it: Item)
      requires Valid() && it in View().heads && !it.flags.linked && !it.flags.slabbed
      ensures it in slabs.home && it !in slabs.freeAt && CLEARED != FREE && CLASS_COUNT == |slabs.cs|
      ensures it in holders && it !in raw ==> slabs.home[it] == ClassOf(it.clsid) < CLASS_COUNT
    {
      hide HashTab.Valid, LruLists.Valid, Slabs.Valid;
      slabs.FreeIsTagged();
      slabs.FreeLists();
      assert Told(it, Heads()[it], Account(), holders);
    }

    method ClearParts(it: Item)
      requires Parts() && it in slabs.home && !it.flags.slabbed && it !in guests && CLEARED != FREE
      modifies it`flags, it`refcount
      ensures Parts() && Heads() == old(Heads())[it := old(HeadOf(it)).(flags := CLEARED, refcount := 0)]
    {
      hide *;
      ghost var hs := Heads();
      HeadsOpen(it);
      FlagParts(it, CLEARED);
      it.refcount := 0;
      HeadsClose(it, hs);
    }

    /** Marks a chunk that nobody else holds as cleared for a page move. */
    method Clear(it: Item)
      requires Valid() && it in View().heads && !it.flags.linked && !it.flags.slabbed && Held(View().holders, it) <= 1
      modifies `raw, `holders, it`flags, it`refcount
      ensures Valid() && View() == old(View()).Clear(it) && raw == old(raw) - {it}
    {
      hide *;
      ShutIs(it);
      Open(it);
      AccountIs();
      ClearIs(View(), it);
      ConsistentShut(Heads(), Account(), holders, it, HeadOf(it).(flags := CLEARED, refcount := 0));
      raw, holders := raw - {it}, holders - {it};
      ClearParts(it);
      AccountIs();
      Close();
    }

    method CutHead(it: Item, id: nat)
      requires slabs.Valid() && it in slabs.home && slabs.home[it] == id < |slabs.cs| && it.flags == FREE
      modifies slabs`freeAt, slabs.cs`slots, slabs.cs`slCurr, slabs.cs`free, slabs.freeAt.Keys`next, slabs.freeAt.Keys`prev, it`flags, it`refcount
      ensures slabs.Valid() && slabs.Frees() == Left(old(slabs.Frees()), id, it)
      ensures Heads() == old(Heads())[it := old(HeadOf(it)).(flags := CLEARED, refcount := 0)]
    {
      hide *;
      FreeLeft(id, it);
      ghost var hs := Heads();
      HeadsOpen(it);
      slabs.ClearFree(it, id);
      HeadsClose(it, hs);
    }

    lemma FreeLeft(id: nat, it: Item)
      requires id < |slabs.cs|
      ensures Left(slabs.Frees(), id, it) == slabs.Frees()[id := Removed(slabs.cs[id].free, it)]
    {
    }

    method CutParts(it: Item, id: nat)
      requires Parts() && it in slabs.home && slabs.home[it] == id < |slabs.cs| && it.flags == FREE && it !in guests
      requires lru.where.Keys !! slabs.freeAt.Keys
      modifies slabs`freeAt, slabs.cs`slots, slabs.cs`slCurr, slabs.cs`free, slabs.freeAt.Keys`next, slabs.freeAt.Keys`prev, it`flags, it`refcount
      ensures Parts() && slabs.Frees() == Left(old(slabs.Frees()), id, it)
      ensures Heads() == old(Heads())[it := old(HeadOf(it)).(flags := CLEARED, refcount := 0)]
    {
      hide *;
      OpenParts();
      CutHead(it, id);
      CloseParts();
    }

    /** Cuts a free chunk out of its freelist and marks it. */
    method CutFree(it: Item, id: nat)
      requires Valid() && it in slabs.home && slabs.home[it] == id < |slabs.cs| && it.flags == FREE
      modifies slabs`freeAt, slabs.cs`slots, slabs.cs`slCurr, slabs.cs`free, slabs.home.Keys`next, slabs.home.Keys`prev, it`flags, it`refcount
      ensures Valid() && View() == old(View()).CutFree(it, id)
    {
      hide *;
      FreeChunkIs(it);
      Open(it);
      Footprint();
      AccountIs();
      ListedApart();
      CutIs(View(), it, id);
      ConsistentShut(Heads(), Account(), holders, it, HeadOf(it).(flags := CLEARED, refcount := 0));
      Unheld(raw, holders, it);
      CutParts(it, id);
      AccountIs();
      Close();
    }

    lemma FreeChunkIs(it: Item)
      requires Valid() && it in slabs.home && it.flags == FREE
      ensures it in View().heads && !View().At(it).flags.linked && it !in raw && it !in holders
    {
      hide HashTab.Valid, LruLists.Valid, Slabs.Valid;
      assert Told(it, Heads()[it], Account(), holders);
    }

    /** slabs_free of an item that nobody else holds, whatever its count says. */
    method SlabsFree(it: Item, id: nat)
      requires Valid() && it in View().holders && it in View().heads && !it.flags.linked && !it.flags.slabbed && Held(View().holders, it) <= 1
      requires it !in raw && id == ClassOf(it.clsid)
      modifies `holders, slabs`freeAt, slabs.cs`slots, slabs.cs`slCurr, slabs.cs`free
      modifies it`flags, it`clsid, slabs.home.Keys`next, slabs.home.Keys`prev
      ensures Valid() && View() == old(View()).Free(it, id)
    {
      hide *;
      Open(it);
      ViewHolds();
      ShutIs(it);
      Footprint();
      AccountIs();
      ListedApart();
      FreeingIs(View(), it, id);
      ConsistentShut(Heads(), Account(), holders, it, HeadOf(it).(flags := FREE, clsid := 0));
      Unheld(raw, holders, it);
      holders := holders - {it};
      FreeParts(it, id);
      AccountIs();
      Close();
    }

    lemma ViewHolds()
      ensures View().holders == holders
    {
    }

    /** One more page for a class, as far as the chunks go: new ones are free. */
    method GrowHomes(id: nat) returns (ok: bool)
      requires slabs.Valid() && POOL < id < |slabs.cs|
      modifies slabs`home, slabs`freeAt, slabs`pageAt, slabs`mem, slabs`memLimitReached, slabs.freeAt.Keys`prev, slabs.pageAt.Keys`chunks
      modifies slabs.cs`slots, slabs.cs`slCurr, slabs.cs`free, slabs.cs`owned, slabs.cs`slabList, slabs.cs`listSize
      ensures slabs.Valid() && fresh(slabs.home.Keys - old(slabs.home.Keys))
      ensures forall x :: x in old(slabs.home) ==> x in slabs.home && slabs.home[x] == old(slabs.home)[x]
      ensures forall x :: x in slabs.home && x !in old(slabs.home) ==> x in slabs.freeAt
      ensures ok == old(slabs.PageToBeHad(id)) && if ok then slabs.cs[id].free != [] else !slabs.PageToBeHad(id)
      ensures !ok ==> slabs.home == old(slabs.home) && slabs.pageAt == old(slabs.pageAt) && slabs.Frees() == old(slabs.Frees())
    {
      hide *;
      slabs.PoolPages();
      ghost var home := slabs.home;
      ghost var p, source;
      ok, p, source := slabs.NewSlab(id);
      if ok {
        InHome(home, slabs.home, p, id);
      }
    }

    /** ... as far as the headers go: old ones are as they were. */
    method GrowHeads(id: nat) returns (ok: bool)
      requires slabs.Valid() && POOL < id < |slabs.cs|
      modifies slabs`home, slabs`freeAt, slabs`pageAt, slabs`mem, slabs`memLimitReached, slabs.freeAt.Keys`prev, slabs.pageAt.Keys`chunks
      modifies slabs.cs`slots, slabs.cs`slCurr, slabs.cs`free, slabs.cs`owned, slabs.cs`slabList, slabs.cs`listSize
      ensures slabs.Valid() && fresh(slabs.home.Keys - old(slabs.home.Keys)) && |slabs.Frees()| == |old(slabs.Frees())|
      ensures More(old(Heads()), Heads(), old(slabs.home), slabs.home)
      ensures ok == old(slabs.PageToBeHad(id)) && if ok then slabs.cs[id].free != [] else !slabs.PageToBeHad(id)
      ensures !ok ==> slabs.home == old(slabs.home) && slabs.pageAt == old(slabs.pageAt) && slabs.Frees() == old(slabs.Frees())
    {
      hide *;
      ghost var home, hs := slabs.home, Heads();
      HeadsListed();
      CountFrees();
      ok := GrowHomes(id);
      HeadsListed();
      CountFrees();
      MoreIs(hs, Heads(), home, slabs.home);
    }

    lemma HeadsListed()
      ensures Heads().Keys == slabs.home.Keys && forall x :: x in slabs.home ==> Heads()[x] == HeadOf(x)
      ensures slabs.Valid() ==> forall x :: x in slabs.freeAt ==> x in slabs.home && Heads()[x].flags == FREE
    {
      hide Slabs.Valid;
      if slabs.Valid() {
        slabs.FreeIsTagged();
      }
    }

    lemma CountFrees()
      ensures |slabs.Frees()| == |slabs.cs|
    {
    }

    lemma InHome(home: map<Item, nat>, home': map<Item, nat>, p: Page, id: nat)
      requires home' == home + slabs.Into(p, id) && ItemSet(p.chunks) !! home.Keys
      ensures forall x :: x in home ==> x in home' && home'[x] == home[x]
      ensures forall x :: x in home' && x !in home ==> x in slabs.Into(p, id)
      ensures home'.Keys - home.Keys <= ItemSet(p.chunks)
    {
    }

    method GrowParts(id: nat) returns (ok: bool)
      requires Parts() && POOL < id < |slabs.cs| && lru.where.Keys !! slabs.freeAt.Keys
      modifies slabs`home, slabs`freeAt, slabs`pageAt, slabs`mem, slabs`memLimitReached, slabs.freeAt.Keys`prev, slabs.pageAt.Keys`chunks
      modifies slabs.cs`slots, slabs.cs`slCurr, slabs.cs`free, slabs.cs`owned, slabs.cs`slabList, slabs.cs`listSize
      ensures Parts() && fresh(slabs.home.Keys - old(slabs.home.Keys)) && |slabs.Frees()| == |old(slabs.Frees())|
      ensures More(old(Heads()), Heads(), old(slabs.home), slabs.home)
      ensures ok == old(slabs.PageToBeHad(id)) && if ok then slabs.cs[id].free != [] else !slabs.PageToBeHad(id)
      ensures !ok ==> slabs.home == old(slabs.home) && slabs.pageAt == old(slabs.pageAt) && slabs.Frees() == old(slabs.Frees())
    {
      hide *;
      OpenParts();
      ok := GrowHeads(id);
      CloseParts();
    }

    /** Tries to get one more page for a class, and with it at least one free chunk. */
    method Grow(id: nat) returns (ok: bool)
      requires Valid() && POOL < id < |slabs.cs|
      modifies slabs`home, slabs`freeAt, slabs`pageAt, slabs`mem, slabs`memLimitReached, slabs.home.Keys`prev, slabs.pageAt.Keys`chunks
      modifies slabs.cs`slots, slabs.cs`slCurr, slabs.cs`free, slabs.cs`owned, slabs.cs`slabList, slabs.cs`listSize
      ensures Valid() && Grown(old(View()), View()) && fresh(slabs.home.Keys - old(slabs.home.Keys))
      ensures ok == old(slabs.PageToBeHad(id)) && if ok then slabs.cs[id].free != [] else !slabs.PageToBeHad(id)
      ensures !ok ==> View() == old(View()) && slabs.home == old(slabs.home) && slabs.pageAt == old(slabs.pageAt)
    {
      hide *;
      OpenAll();
      Footprint();
      ListedApart();
      AccountIs();
      ghost var st, hs, home, ls := View(), Heads(), slabs.home, Account();
      ok := GrowParts(id);
      AccountIs();
      GrownIs(st, tab.bindings, lru.Lists(), slabs.Frees(), Heads(), holders, home, slabs.home, ls);
      Close();
    }

    /** Room for one more page in a class's page list. */
    method GrowList(id: nat)
      requires Valid() && id < |slabs.cs|
      modifies slabs`home, slabs`freeAt, slabs`pageAt, {slabs.cs[id]}`listSize
      ensures Valid() && View() == old(View()) && |slabs.cs[id].slabList| < slabs.cs[id].listSize
      ensures slabs.home == old(slabs.home) && slabs.pageAt == old(slabs.pageAt)
    {
      hide *;
      OpenAll();
      AccountIs();
      RoomParts(id);
      AccountIs();
      Close();
    }

    method RoomParts(id: nat)
      requires Parts() && id < |slabs.cs|
      modifies slabs`home, slabs`freeAt, slabs`pageAt, {slabs.cs[id]}`listSize
      ensures Parts() && slabs.Frees() == old(slabs.Frees()) && Heads() == old(Heads()) && |slabs.cs[id].slabList| < slabs.cs[id].listSize
      ensures slabs.home == old(slabs.home) && slabs.pageAt == old(slabs.pageAt)
    {
      hide *;
      OpenParts();
      slabs.GrowList(id);
      CloseParts();
    }

    // ---------------------------------------------------------------- moving a page

    lemma NoneFree(p: Page)
      requires slabs.Valid() && forall x :: x in p.chunks ==> x in slabs.home && Heads()[x].flags == CLEARED
      ensures ItemSet(p.chunks) !! slabs.freeAt.Keys && ItemSet(p.chunks) <= slabs.home.Keys
      ensures forall x :: x in ItemSet(p.chunks) ==> Heads()[x].flags == CLEARED
    {
      hide Slabs.Valid;
      slabs.FreeIsTagged();
    }

    lemma InMoved(home: map<Item, nat>, home': map<Item, nat>, p: Page, id: nat, gone: set<Item>)
      requires home' == home - gone + slabs.Into(p, id) && ItemSet(p.chunks) !! home.Keys && gone <= home.Keys
      ensures forall x :: x in home && x !in gone ==> x in home' && home'[x] == home[x]
      ensures forall x :: x in home' && x !in home ==> x in slabs.Into(p, id)
      ensures forall x :: x in gone ==> x !in home' && x in home
      ensures home'.Keys - home.Keys <= ItemSet(p.chunks)
    {
    }

    /** The chunks of the page go, fresh free ones of the other class come. */
    method MoveHomes(s: nat, d: nat, ghost gone: set<Item>) returns (p: Page)
      requires s < |slabs.cs| && d < |slabs.cs| && s != d && slabs.cs[s].slabList != [] && |slabs.cs[d].slabList| < slabs.cs[d].listSize && slabs.Valid()
      requires gone == ItemSet(slabs.cs[s].slabList[0].chunks) && gone !! slabs.freeAt.Keys && gone <= slabs.home.Keys
      modifies slabs`home, slabs`freeAt, slabs`pageAt, slabs.freeAt.Keys`prev, {slabs.cs[s].slabList[0]}`chunks
      modifies slabs.cs`slots, slabs.cs`slCurr, slabs.cs`free, slabs.cs`owned, slabs.cs`slabList
      ensures slabs.Valid() && p == old(slabs.cs[s].slabList[0]) && fresh(slabs.home.Keys - old(slabs.home.Keys))
      ensures |slabs.PageLists()| == |slabs.cs| && slabs.PageLists() == old(slabs.PageLists())[s := old(slabs.cs[s].slabList)[1..]][d := old(slabs.cs[d].slabList) + [p]]
      ensures |slabs.Frees()| == |old(slabs.Frees())|
      ensures forall x :: x in old(slabs.home) && x !in gone ==> x in slabs.home && slabs.home[x] == old(slabs.home)[x] && HeadOf(x) == old(HeadOf(x))
      ensures forall x :: x in slabs.home && x !in old(slabs.home) ==> x in slabs.freeAt
      ensures forall x :: x in gone ==> x !in slabs.home
    {
      hide *;
      ghost var home := slabs.home;
      CountFrees();
      p := slabs.MovePage(s, d);
      CountFrees();
      InMoved(home, slabs.home, p, d, gone);
    }

    method MoveHeads(s: nat, d: nat, ghost gone: set<Item>) returns (p: Page)
      requires s < |slabs.cs| && d < |slabs.cs| && s != d && slabs.cs[s].slabList != [] && |slabs.cs[d].slabList| < slabs.cs[d].listSize && slabs.Valid()
      requires gone == ItemSet(slabs.cs[s].slabList[0].chunks)
      requires forall x :: x in slabs.cs[s].slabList[0].chunks ==> x in slabs.home && Heads()[x].flags == CLEARED
      modifies slabs`home, slabs`freeAt, slabs`pageAt, slabs.freeAt.Keys`prev, {slabs.cs[s].slabList[0]}`chunks
      modifies slabs.cs`slots, slabs.cs`slCurr, slabs.cs`free, slabs.cs`owned, slabs.cs`slabList
      ensures slabs.Valid() && p == old(slabs.cs[s].slabList[0]) && |slabs.Frees()| == |old(slabs.Frees())|
      ensures |slabs.PageLists()| == |slabs.cs| && slabs.PageLists() == old(slabs.PageLists())[s := old(slabs.cs[s].slabList)[1..]][d := old(slabs.cs[d].slabList) + [p]]
      ensures fresh(slabs.home.Keys - old(slabs.home.Keys)) && Replaced(old(Heads()), Heads(), old(slabs.home), slabs.home, gone)
    {
      hide *;
      ghost var home, hs := slabs.home, Heads();
      HeadsListed();
      NoneFree(slabs.cs[s].slabList[0]);
      p := MoveHomes(s, d, gone);
      HeadsListed();
      ReplacedIs(hs, Heads(), home, slabs.home, gone);
    }

    method MoveParts(s: nat, d: nat, ghost gone: set<Item>) returns (p: Page)
      requires s < |slabs.cs| && d < |slabs.cs| && s != d && slabs.cs[s].slabList != [] && |slabs.cs[d].slabList| < slabs.cs[d].listSize
      requires Parts() && lru.where.Keys !! slabs.freeAt.Keys && gone == ItemSet(slabs.cs[s].slabList[0].chunks)
      requires forall x :: x in slabs.cs[s].slabList[0].chunks ==> x in slabs.home && Heads()[x].flags == CLEARED
      modifies slabs`home, slabs`freeAt, slabs`pageAt, slabs.freeAt.Keys`prev, {slabs.cs[s].slabList[0]}`chunks
      modifies slabs.cs`slots, slabs.cs`slCurr, slabs.cs`free, slabs.cs`owned, slabs.cs`slabList
      ensures Parts() && p == old(slabs.cs[s].slabList[0]) && |slabs.Frees()| == |old(slabs.Frees())|
      ensures |slabs.PageLists()| == |slabs.cs| && slabs.PageLists() == old(slabs.PageLists())[s := old(slabs.cs[s].slabList)[1..]][d := old(slabs.cs[d].slabList) + [p]]
      ensures fresh(slabs.home.Keys - old(slabs.home.Keys)) && Replaced(old(Heads()), Heads(), old(slabs.home), slabs.home, gone)
    {
      hide *;
      OpenParts();
      p := MoveHeads(s, d, gone);
      CloseParts();
    }

    /** Hands the first page of a class, whose chunks are all cleared, to another class. */
    method MovePage(s: nat, d: nat) returns (p: Page)
      requires s < |slabs.cs| && d < |slabs.cs| && s != d && slabs.cs[s].slabList != [] && |slabs.cs[d].slabList| < slabs.cs[d].listSize
      requires Valid() && forall x :: x in slabs.cs[s].slabList[0].chunks ==> Cleared(View(), x)
      modifies slabs`home, slabs`freeAt, slabs`pageAt, slabs.home.Keys`prev, {slabs.cs[s].slabList[0]}`chunks
      modifies slabs.cs`slots, slabs.cs`slCurr, slabs.cs`free, slabs.cs`owned, slabs.cs`slabList
      ensures Valid() && p == old(slabs.cs[s].slabList[0])
      ensures |slabs.PageLists()| == |slabs.cs| && slabs.PageLists() == old(slabs.PageLists())[s := old(slabs.cs[s].slabList)[1..]][d := old(slabs.cs[d].slabList) + [p]]
      ensures Recut(old(View()), View(), old(ItemSet(slabs.cs[s].slabList[0].chunks)))
    {
      hide *;
      OpenAll();
      Footprint();
      ListedApart();
      AccountIs();
      ClearedHeads(slabs.cs[s].slabList[0].chunks);
      ghost var st, home, ls, gone := View(), slabs.home, Account(), ItemSet(slabs.cs[s].slabList[0].chunks);
      p := MoveParts(s, d, gone);
      AccountIs();
      RecutIs(st, tab.bindings, lru.Lists(), slabs.Frees(), Heads(), holders, home, slabs.home, ls, gone);
      Close();
    }

    lemma ClearedHeads(chunks: seq<Item>)
      requires forall x :: x in chunks ==> Cleared(View(), x)
      ensures forall x :: x in chunks ==> x in slabs.home && Heads()[x].flags == CLEARED
    {
    }

    lemma LooseIs(it: Item)
      requires Valid() && View().Loose(it)
      ensures it in slabs.home && it in View().heads && it in Heads() && !Heads()[it].flags.slabbed && !Heads()[it].flags.linked
      ensures View().bindings == tab.bindings && it in holders
    {
      hide Parts;
      assert Told(it, Heads()[it], Account(), holders);
    }
  }

  lemma Overrides(hs: map<Item, Head>, it: Item, h: Head, h': Head)
    ensures hs[it := h][it := h'] == hs[it := h']
  {
  }

  lemma LinkedFlags(f: Flags)
    ensures f.(linked := true) != FREE
  {
  }

  lemma TakeIs(st: State<Item>, id: nat, it: Item)
    requires id < |st.frees| && st.frees[id] != [] && st.At(it).flags == FREE
    ensures var h := st.At(it).(flags := st.At(it).flags.(slabbed := false), refcount := 1);
            && st.Take(id, it) == State(st.bindings, st.lists, st.frees[id := st.frees[id][1..]], st.heads[it := h], st.holders)
            && !h.flags.slabbed && !h.flags.linked
  {
  }

  lemma OwnIs(st: State<Item>, it: Item, h: Head)
    ensures st.Own(it, h) == State(st.bindings, st.lists, st.frees, st.heads[it := h], st.holders[it := h.refcount])
  {
  }

  lemma ClearIs(st: State<Item>, it: Item)
    ensures st.Clear(it) == State(st.bindings, st.lists, st.frees, st.heads[it := st.At(it).(flags := CLEARED, refcount := 0)], st.holders - {it})
  {
  }

  lemma CutIs(st: State<Item>, it: Item, id: nat)
    ensures st.CutFree(it, id) == State(st.bindings, st.lists, Left(st.frees, id, it),
                                        st.heads[it := st.At(it).(flags := CLEARED, refcount := 0)], st.holders - {it})
  {
  }

  lemma FreeingIs(st: State<Item>, it: Item, id: nat)
    ensures st.Free(it, id) == State(st.bindings, st.lists, Headed(st.frees, id, it),
                                     st.heads[it := st.At(it).(flags := FREE, clsid := 0)], st.holders - {it})
  {
  }

  /** The chunks of a set, which were cleared, are gone; the others are as they were, new ones free. */
  ghost predicate Replaced(hs: map<Item, Head>, hs': map<Item, Head>, home: map<Item, nat>, home': map<Item, nat>, gone: set<Item>) {
    && hs.Keys == home.Keys && hs'.Keys == home'.Keys
    && (forall x :: x in home && x !in gone ==> x in home' && home'[x] == home[x] && hs'[x] == hs[x])
    && (forall x :: x in home' && x !in home ==> hs'[x].flags == FREE)
    && (forall x :: x in gone ==> x in home && x !in home' && hs[x].flags == CLEARED)
  }

  lemma ReplacedIs(hs: map<Item, Head>, hs': map<Item, Head>, home: map<Item, nat>, home': map<Item, nat>, gone: set<Item>)
    requires hs.Keys == home.Keys && hs'.Keys == home'.Keys
    requires forall x :: x in home && x !in gone ==> x in home' && home'[x] == home[x] && hs'[x] == hs[x]
    requires forall x :: x in home' && x !in home ==> hs'[x].flags == FREE
    requires forall x :: x in gone ==> x in home && x !in home' && hs[x].flags == CLEARED
    ensures Replaced(hs, hs', home, home', gone)
  {
  }

  lemma RecutIs(st: State<Item>, bindings: map<Key, Item>, lists: seq<seq<Item>>, frees: seq<seq<Item>>, hs: map<Item, Head>,
                holders: map<Item, nat>, home: map<Item, nat>, home': map<Item, nat>, ls: Links<Item>, gone: set<Item>)
    requires st == State(bindings, lists, st.frees, st.heads, holders) && |frees| == |st.frees| && Replaced(st.heads, hs, home, home', gone)
    requires Consistent(st.heads, ls, holders) && ls.home == home
    requires (home'.Keys - home.Keys) !! (ls.where.Keys + ls.raw + ls.guests)
    ensures Recut(st, State(bindings, lists, frees, hs, holders), gone) && Consistent(hs, ls.(home := home'), holders)
  {
    forall x | x in home' && x !in home ensures x !in ls.where && x !in ls.raw && x !in ls.guests {
      assert x in home'.Keys - home.Keys;
    }
    ConsistentMove(st.heads, hs, ls, home', holders);
  }

  /** Old chunks are as they were, new ones free. */
  ghost predicate More(hs: map<Item, Head>, hs': map<Item, Head>, home: map<Item, nat>, home': map<Item, nat>) {
    && hs.Keys == home.Keys && hs'.Keys == home'.Keys
    && (forall x :: x in home ==> x in home' && home'[x] == home[x] && hs'[x] == hs[x])
    && (forall x :: x in home' && x !in home ==> hs'[x].flags == FREE)
  }

  lemma MoreIs(hs: map<Item, Head>, hs': map<Item, Head>, home: map<Item, nat>, home': map<Item, nat>)
    requires hs.Keys == home.Keys && hs'.Keys == home'.Keys
    requires forall x :: x in home ==> x in home' && home'[x] == home[x] && hs'[x] == hs[x]
    requires forall x :: x in home' && x !in home ==> hs'[x].flags == FREE
    ensures More(hs, hs', home, home')
  {
  }

  /** More free chunks, which nobody knew before, leave the account in order. */
  lemma GrownIs(st: State<Item>, bindings: map<Key, Item>, lists: seq<seq<Item>>, frees: seq<seq<Item>>, hs: map<Item, Head>,
                holders: map<Item, nat>, home: map<Item, nat>, home': map<Item, nat>, ls: Links<Item>)
    requires st == State(bindings, lists, st.frees, st.heads, holders) && |frees| == |st.frees| && More(st.heads, hs, home, home')
    requires Consistent(st.heads, ls, holders) && ls.home == home
    requires (home'.Keys - home.Keys) !! (ls.where.Keys + ls.raw + ls.guests)
    ensures Grown(st, State(bindings, lists, frees, hs, holders)) && Consistent(hs, ls.(home := home'), holders)
    ensures home' == home ==> hs == st.heads
  {
    forall x | x in home' && x !in home ensures x !in ls.where && x !in ls.raw && x !in ls.guests {
      assert x in home'.Keys - home.Keys;
    }
    ConsistentGrow(st.heads, hs, ls, home', holders);
  }

  lemma Unheld(raw: set<Item>, holders: map<Item, nat>, it: Item)
    ensures it !in raw ==> raw - {it} == raw
    ensures it !in holders ==> holders - {it} == holders
  {
  }

  lemma RelistIs(st: State<Item>, it: Item, id: nat)
    ensures st.Relist(it, id) == State(st.bindings, Headed(Left(st.lists, st.At(it).clsid, it), id, it), st.frees,
                                       st.heads[it := st.At(it).(clsid := id)], st.holders)
  {
  }

  lemma FlagIs(st: State<Item>, it: Item, f: Flags)
    ensures st.Flag(it, f) == State(st.bindings, st.lists, st.frees, st.heads[it := st.At(it).(flags := f)], st.holders)
  {
  }

  lemma StampIs(st: State<Item>, it: Item, now: nat)
    ensures st.Stamp(it, now) == State(st.bindings, st.lists, st.frees, st.heads[it := st.At(it).(time := now)], st.holders)
  {
  }

  lemma LinkIs(st: State<Item>, it: Item, h: Head, now: nat)
    requires h == st.At(it)
    ensures st.Link(it, now) == State(st.bindings[h.key := it], Headed(st.lists, h.clsid, it), st.frees,
                                      st.heads[it := h.Linked(now)], Settled(st.holders, it))
  {
  }

  lemma LinkedHead(h: Head, n: nat, now: nat)
    requires n == h.refcount + 1
    ensures h.Linked(now) == h.(flags := h.flags.(linked := true), time := now).(refcount := n)
  {
  }

  lemma NoNodes(tab: HashTab)
    requires tab.Valid() && tab.bindings == map[]
    ensures tab.nodes == {}
  {
  }

  lemma HoldIs(st: State<Item>, it: Item)
    ensures st.Hold(it) == State(st.bindings, st.lists, st.frees,
              st.heads[it := st.At(it).(refcount := st.At(it).refcount + 1)], Given(st.holders, it))
  {
  }

  lemma UnlinkedFlags(f: Flags)
    requires !f.slabbed
    ensures f != FREE && f.(linked := false) != FREE
  {
  }

  lemma DroppedIs(hs: map<Item, Head>, it: Item, h: Head)
    requires h.refcount > 0
    ensures h.refcount > 1 ==> h.Dropped() == h.(refcount := h.refcount - 1)
    ensures h.refcount == 1 ==> hs[it := h.(refcount := 0)][it := h.(refcount := 0).(flags := FREE, clsid := 0)] == hs[it := h.Dropped()]
  {
  }

  lemma DropIs(st: State<Item>, it: Item)
    ensures var h := st.At(it);
      st.Drop(it) == State(st.bindings, st.lists, if h.refcount <= 1 then Headed(st.frees, ClassOf(h.clsid), it) else st.frees,
                           st.heads[it := h.Dropped()], Taken(st.holders, it))
  {
  }

  lemma OutIs(st: State<Item>, it: Item)
    ensures var h := st.At(it);
      st.Out(it) == State(st.bindings - {h.key}, Left(st.lists, h.clsid, it), st.frees,
                          st.heads[it := h.(flags := h.flags.(linked := false))], Given(st.holders, it))
  {
  }

  lemma ExceptIs(nodes: set<Item>, it: Item)
    ensures Except(nodes, it) == nodes - {it}
  {
  }
}
