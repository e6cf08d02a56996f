/** All LRU lists: list id = slab class + LRU segment, as in an item's slabs_clsid. */
module LruLists {
  import opened Common
  import opened Items
  import opened LruSpec
  import opened LruList

  class LruLists {
    const ls: seq<LruList>
    ghost var where: map<Item, nat>

    constructor (ls: seq<LruList>)
      requires |ls| == LIST_COUNT && Distinct(ls) && forall i :: 0 <= i < |ls| ==> ls[i].Valid() && ls[i].s == []
      ensures Valid() && where == map[] && this.ls == ls
    {
      this.ls, where := ls, map[];
    }

    /** The lists as sequences. */
    ghost function Lists(): (ss: seq<seq<Item>>)
      reads ls
      ensures |ss| == |ls| && forall i :: 0 <= i < |ls| ==> ss[i] == ls[i].s
    {
      seq(|ls|, i requires 0 <= i < |ls| reads ls => ls[i].s)
    }

    ghost predicate Valid()
      reads this, ls, where.Keys`next, where.Keys`prev, where.Keys`key, where.Keys`nbytes
    {
      && |ls| == LIST_COUNT && Distinct(ls) && Placed(Lists(), where)
      && AllValid()
    }

    ghost predicate AllValid()
      requires Placed(Lists(), where)
      reads this, ls, where.Keys`next, where.Keys`prev, where.Keys`key, where.Keys`nbytes
    {
      forall i :: 0 <= i < |ls| ==> ls[i].Valid()
    }

    lemma Open()
      requires Valid()
      ensures |ls| == LIST_COUNT && Distinct(ls) && Placed(Lists(), where)
      ensures forall i :: 0 <= i < |ls| ==> ls[i].Valid() && Distinct(ls[i].s)
      ensures forall i, x :: 0 <= i < |ls| && x in ls[i].s ==> x in where && where[x] == i
    {
      forall i, x | 0 <= i < |ls| && x in ls[i].s ensures x in where && where[x] == i {
        assert x in Lists()[i];
      }
    }

    /** No node of another list is on list i. */
    lemma Apart(i: nat)
      requires i < |ls| && forall i, x :: 0 <= i < |ls| && x in ls[i].s ==> x in where && where[x] == i
      ensures forall j :: 0 <= j < |ls| && j != i ==> forall x :: x in ls[j].s ==> x !in ls[i].s
    {
      forall j, x | 0 <= j < |ls| && j != i && x in ls[j].s ensures x !in ls[i].s {
        assert where[x] == j;
      }
    }

    ghost method Close(w: map<Item, nat>)
      requires |ls| == LIST_COUNT && Distinct(ls) && Placed(Lists(), w)
      requires forall i :: 0 <= i < |ls| ==> ls[i].Valid()
      modifies this`where
      ensures Valid() && where == w && Lists() == old(Lists())
    {
      hide LruList.Valid, Placed;
      where := w;
      assert Lists() == old(Lists());
    }

    method LinkAt(i: nat, it: Item)
      requires i < |ls| && it !in ls[i].s && it != ls[i].crawler && Distinct(ls)
      requires forall j :: 0 <= j < |ls| ==> ls[j].Valid() && it !in ls[j].s
      requires forall j :: 0 <= j < |ls| && j != i ==> forall x :: x in ls[j].s ==> x !in ls[i].s
      modifies ls[i], it`next, it`prev, ls[i].s`prev
      ensures forall j :: 0 <= j < |ls| ==> ls[j].Valid()
      ensures Lists() == old(Lists())[i := [it] + old(ls[i].s)]
    {
      hide LruList.Valid;
      ls[i].LinkQ(it);
      forall j | 0 <= j < |ls| && j != i ensures ls[j].Valid() {
        assert old(ls[j].Valid()) && unchanged(ls[j]);
        assert forall x :: x in ls[j].s ==> x.next == old(x.next) && x.prev == old(x.prev);
      }
    }

    method UnlinkAt(i: nat, it: Item)
      requires i < |ls| && it in ls[i].s && it != ls[i].crawler && Distinct(ls)
      requires forall j :: 0 <= j < |ls| ==> ls[j].Valid()
      requires forall j :: 0 <= j < |ls| && j != i ==> forall x :: x in ls[j].s ==> x !in ls[i].s
      modifies ls[i], ls[i].s`next, ls[i].s`prev
      ensures forall j :: 0 <= j < |ls| ==> ls[j].Valid()
      ensures Lists() == old(Lists())[i := Removed(old(ls[i].s), it)]
    {
      hide LruList.Valid;
      ls[i].UnlinkQ(it);
      forall j | 0 <= j < |ls| && j != i ensures ls[j].Valid() {
        assert old(ls[j].Valid()) && unchanged(ls[j]);
        assert forall x :: x in ls[j].s ==> x.next == old(x.next) && x.prev == old(x.prev);
      }
    }

    /** Makes the item the head of the list it belongs to. */
    method LinkQ(it: Item)
      requires Valid() && it.clsid < LIST_COUNT && it !in where && it != ls[it.clsid].crawler
      modifies this`where, ls[it.clsid], it`next, it`prev, ls[it.clsid].s`prev
      ensures Valid() && where == old(where)[it := it.clsid]
      ensures Lists() == old(Lists())[it.clsid := [it] + old(ls[it.clsid].s)]
    {
      hide *;
      Open();
      Apart(it.clsid);
      PlacedAdd(Lists(), where, it.clsid, [it] + ls[it.clsid].s, it);
      LinkAt(it.clsid, it);
      Close(where[it := it.clsid]);
    }

    /** Takes the item out of the list it belongs to. */
    method UnlinkQ(it: Item)
      requires Valid() && it.clsid < LIST_COUNT && it in ls[it.clsid].s && it != ls[it.clsid].crawler
      modifies this`where, ls[it.clsid], ls[it.clsid].s`next, ls[it.clsid].s`prev
      ensures Valid() && where == old(where) - {it}
      ensures Lists() == old(Lists())[it.clsid := Removed(old(ls[it.clsid].s), it)]
    {
      hide *;
      Open();
      Apart(it.clsid);
      RemovedOnce(ls[it.clsid].s, it);
      PlacedDel(Lists(), where, it.clsid, Removed(ls[it.clsid].s, it), it);
      UnlinkAt(it.clsid, it);
      Close(where - {it});
    }

    // ---------------------------------------------------------------- the crawler of a list

    method LinkTailAt(i: nat)
      requires i < |ls| && ls[i].crawler !in ls[i].s && Distinct(ls)
      requires forall j :: 0 <= j < |ls| ==> ls[j].Valid() && ls[i].crawler !in ls[j].s
      requires forall j :: 0 <= j < |ls| && j != i ==> forall x :: x in ls[j].s ==> x !in ls[i].s
      modifies ls[i], ls[i].crawler`next, ls[i].crawler`prev, ls[i].s`next
      ensures forall j :: 0 <= j < |ls| ==> ls[j].Valid()
      ensures Lists() == old(Lists())[i := old(ls[i].s) + [ls[i].crawler]]
    {
      hide LruList.Valid;
      ls[i].LinkTailQ();
      forall j | 0 <= j < |ls| && j != i ensures ls[j].Valid() {
        assert old(ls[j].Valid()) && unchanged(ls[j]);
        assert forall x :: x in ls[j].s ==> x.next == old(x.next) && x.prev == old(x.prev);
      }
    }

    method CrawlAt(i: nat) returns (passed: Item?)
      requires i < |ls| && ls[i].crawler in ls[i].s && Distinct(ls)
      requires forall j :: 0 <= j < |ls| ==> ls[j].Valid()
      requires forall j :: 0 <= j < |ls| && j != i ==> forall x :: x in ls[j].s ==> x !in ls[i].s
      modifies ls[i], ls[i].s`next, ls[i].s`prev
      ensures forall j :: 0 <= j < |ls| ==> ls[j].Valid()
      ensures passed == match CrawlResult(old(ls[i].s), ls[i].crawler) case Some(x) => x case None => null
      ensures Lists() == old(Lists())[i := Crawled(old(ls[i].s), ls[i].crawler)]
      ensures passed == null ==> ls[i].crawler in ls[i].s || ls[i].Popped(ls[i].crawler)
    {
      hide LruList.Valid, CrawlStep, CrawlResult;
      passed := ls[i].CrawlQ();
      forall j | 0 <= j < |ls| && j != i ensures ls[j].Valid() {
        assert old(ls[j].Valid()) && unchanged(ls[j]);
        assert forall x :: x in ls[j].s ==> x.next == old(x.next) && x.prev == old(x.prev);
      }
    }

    method UnlinkTailAt(i: nat)
      requires i < |ls| && (ls[i].crawler in ls[i].s || ls[i].Popped(ls[i].crawler)) && Distinct(ls)
      requires forall j :: 0 <= j < |ls| ==> ls[j].Valid()
      requires forall j :: 0 <= j < |ls| && j != i ==> forall x :: x in ls[j].s ==> x !in ls[i].s
      modifies ls[i], ls[i].s`next, ls[i].s`prev
      ensures forall j :: 0 <= j < |ls| ==> ls[j].Valid()
      ensures Lists() == old(Lists())[i := Removed(old(ls[i].s), ls[i].crawler)]
    {
      hide LruList.Valid;
      ls[i].UnlinkTailQ();
      forall j | 0 <= j < |ls| && j != i ensures ls[j].Valid() {
        assert old(ls[j].Valid()) && unchanged(ls[j]);
        assert forall x :: x in ls[j].s ==> x.next == old(x.next) && x.prev == old(x.prev);
      }
    }

    /** The crawler of list i joins at the tail. */
    method LinkTailQ(i: nat)
      requires Valid() && i < |ls| && ls[i].crawler !in where
      modifies this`where, ls[i], ls[i].crawler`next, ls[i].crawler`prev, ls[i].s`next
      ensures Valid() && where == old(where)[ls[i].crawler := i]
      ensures Lists() == old(Lists())[i := old(ls[i].s) + [ls[i].crawler]]
    {
      hide *;
      Open();
      Apart(i);
      PlacedAdd(Lists(), where, i, ls[i].s + [ls[i].crawler], ls[i].crawler);
      LinkTailAt(i);
      Close(where[ls[i].crawler := i]);
    }

    /** One crawl step on list i. */
    method CrawlQ(i: nat) returns (passed: Item?)
      requires Valid() && i < |ls| && ls[i].crawler in ls[i].s
      modifies this`where, ls[i], ls[i].s`next, ls[i].s`prev
      ensures Valid() && where == if CrawlsOn(old(ls[i].s), ls[i].crawler) then old(where) else old(where) - {ls[i].crawler}
      ensures passed == match CrawlResult(old(ls[i].s), ls[i].crawler) case Some(x) => x case None => null
      ensures Lists() == old(Lists())[i := Crawled(old(ls[i].s), ls[i].crawler)]
      ensures passed == null ==> ls[i].crawler in ls[i].s || ls[i].Popped(ls[i].crawler)
    {
      hide *;
      Open();
      Apart(i);
      ghost var where' := if CrawlsOn(ls[i].s, ls[i].crawler) then where else where - {ls[i].crawler};
      PlacedCrawl(Lists(), where, i, ls[i].crawler);
      passed := CrawlAt(i);
      Close(where');
    }

    /** The crawler leaves list i, or has just left it at the head. */
    method UnlinkTailQ(i: nat)
      requires Valid() && i < |ls| && (ls[i].crawler in ls[i].s || ls[i].Popped(ls[i].crawler))
      modifies this`where, ls[i], ls[i].s`next, ls[i].s`prev
      ensures Valid() && where == (if ls[i].crawler in old(ls[i].s) then old(where) - {ls[i].crawler} else old(where))
      ensures Lists() == old(Lists())[i := Removed(old(ls[i].s), ls[i].crawler)]
    {
      hide *;
      Open();
      Apart(i);
      RemovedOnce(ls[i].s, ls[i].crawler);
      ghost var where' := if ls[i].crawler in ls[i].s then where - {ls[i].crawler} else where;
      PlacedDrop(Lists(), where, i, ls[i].crawler);
      UnlinkTailAt(i);
      Close(where');
    }
  }

  lemma PlacedDrop(ss: seq<seq<Item>>, where: map<Item, nat>, i: nat, c: Item)
    requires Placed(ss, where) && i < |ss| && Distinct(ss[i])
    ensures Placed(ss[i := Removed(ss[i], c)], if c in ss[i] then where - {c} else where)
  {
    RemovedOnce(ss[i], c);
    if c in ss[i] {
      PlacedDel(ss, where, i, Removed(ss[i], c), c);
    } else {
      assert ss[i := ss[i]] == ss;
    }
  }
}
