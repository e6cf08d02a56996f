/** The hash table in memory: two arrays of buckets and the items' hNext links. */
module Assoc {
  import opened Common
  import opened Items
  import opened HashTable

  /** head is the first item of s, and the hNext links run through s. */
  ghost predicate Chained(head: Item?, s: seq<Item>)
    reads s`hNext
  {
    && head == (if s == [] then null else s[0])
    && (s != [] ==> s[|s| - 1].hNext == null)
    && (forall i, j :: 0 <= i < |s| && 0 <= j < |s| && j == i + 1 ==> s[i].hNext == s[j])
  }

  ghost function Its(c: Chain<Item>): (s: seq<Item>)
    ensures |s| == |c| && forall i :: 0 <= i < |c| ==> s[i] == c[i].it
  {
    seq(|c|, i requires 0 <= i < |c| => c[i].it)
  }

  /** The items of the chain carry the chain's keys, and come from its. */
  ghost predicate Keyed(c: Chain<Item>, its: set<Item>)
    reads its`key
  {
    forall i :: 0 <= i < |c| ==> c[i].it in its && c[i].it.key == c[i].key
  }

  /** its are exactly the bound items, each under its own key. */
  ghost predicate Bound(m: map<Key, Item>, its: set<Item>)
    reads its`key
  {
    && (forall k :: k in m ==> m[k] in its && m[k].key == k)
    && (forall x :: x in its ==> x.key in m && m[x.key] == x)
  }

  lemma BoundAdd(m: map<Key, Item>, its: set<Item>, it: Item)
    requires Bound(m, its) && it.key !in m
    ensures it !in its && Bound(m[it.key := it], its + {it})
  {
  }

  /** Every bucket of the array holds its chain; items come from its.  Bucket skip is exempt. */
  ghost predicate InArray(a: array<Item?>, cs: seq<Chain<Item>>, its: set<Item>, skip: int)
    reads a, its`hNext, its`key
  {
    && a.Length == |cs|
    && (forall b :: 0 <= b < |cs| ==> Keyed(cs[b], its))
    && (forall b :: 0 <= b < |cs| && b != skip ==> Chained(a[b], Its(cs[b])))
  }

  /** Puts an item that is in no chain in front of bucket b. */
  method PushFront(a: array<Item?>, b: nat, it: Item, ghost cs: seq<Chain<Item>>, ghost its: set<Item>)
    requires InArray(a, cs, its, -1) && it !in its && b < |cs|
    modifies a, it`hNext
    ensures InArray(a, cs[b := [Entry(it.key, it)] + cs[b]], its + {it}, -1)
  {
    it.hNext := a[b];
    a[b] := it;
    ghost var c := [Entry(it.key, it)] + cs[b];
    assert Its(c) == [it] + Its(cs[b]);
    forall b' | 0 <= b' < |cs| && b' != b ensures Chained(a[b'], Its(cs[b'])) {
      assert it !in Its(cs[b']);
    }
    assert it !in Its(cs[b]);
    assert Chained(it, Its(c));
  }

  class HashTab {
    const hash: Key -> nat
    var power: nat
    var expanding: bool
    var startedExpanding: bool
    var expandBucket: nat
    var hashItems: int
    var primary: array<Item?>
    var former: array<Item?>

    ghost var t: Table<Item>
    ghost var bindings: map<Key, Item>
    ghost var nodes: set<Item>

    ghost predicate Registers(t: Table<Item>)
      reads this
    {
      && t.power == power && t.expanding == expanding && t.started == startedExpanding
      && t.cursor == expandBucket && t.count == hashItems
    }

    ghost predicate Valid()
      reads this, primary, former, nodes`hNext, nodes`key
    {
      && Represents(t, hash, false, bindings)
      && Registers(t)
      && primary != former
      && InArray(primary, t.primary, nodes, -1)
      && InArray(former, t.oldTable, nodes, -1)
      && Bound(bindings, nodes)
    }

    constructor (hash: Key -> nat, power: nat)
      ensures Valid() && bindings == map[] && this.hash == hash && this.power == power
      ensures fresh(primary) && fresh(former)
    {
      this.hash, this.power := hash, power;
      expanding, startedExpanding, expandBucket, hashItems := false, false, 0, 0;
      primary := new Item?[Pow2(power)](_ => null);
      former := new Item?[0](_ => null);
      t, bindings, nodes := Init(power), map[], {};
      new;
      InitRepresents<Item>(power, hash);
    }

    /** The bucket array and the bucket that serve hv. */
    method Bucket(hv: nat) returns (a: array<Item?>, b: nat)
      requires t.Shape() && Registers(t) && primary != former
      ensures t.Route(hv) == if a == former then Old(b) else New(b)
      ensures a == former || a == primary
    {
      if expanding && Low(hv, power - 1) >= expandBucket {
        a, b := former, Low(hv, power - 1);
      } else {
        a, b := primary, Low(hv, power);
      }
    }

    method Find(key: Key, hv: nat) returns (it: Item?)
      requires Valid() && hv == hash(key)
      ensures it == if key in bindings then bindings[key] else null
    {
      FindIsLookup(t, hash, false, bindings, key);
      hide Represents;
      var a, b := Bucket(hv);
      it := Walk(a[b], t.ChainAt(t.Route(hv)), nodes, key);
    }

    /** The first half of an insertion: the links. */
    method LinkIn(it: Item, hv: nat, ghost its: set<Item>)
      requires t.Shape() && Registers(t) && primary != former && it !in its
      requires InArray(primary, t.primary, its, -1) && InArray(former, t.oldTable, its, -1)
      modifies primary, former, it`hNext
      ensures var r := t.Insert(Entry(it.key, it), hv);
              InArray(primary, r.primary, its + {it}, -1) && InArray(former, r.oldTable, its + {it}, -1)
    {
      hide InArray;
      var a, b := Bucket(hv);
      if a == former {
        PushFront(former, b, it, t.oldTable, its);
        InArrayWithin(primary, t.primary, its, its + {it}, -1);
      } else {
        PushFront(primary, b, it, t.primary, its);
        InArrayWithin(former, t.oldTable, its, its + {it}, -1);
      }
    }

    /** The second half: the counter, and the request for an expansion. */
    method CountIn(ghost e: Entry<Item>, hv: nat)
      requires t.Shape() && Registers(t)
      modifies this`hashItems, this`startedExpanding, this`t
      ensures t == old(t).Insert(e, hv) && t.Shape() && Registers(t)
    {
      hashItems := hashItems + 1;
      if !expanding && hashItems > Pow2(power) * 3 / 2 {
        startedExpanding := true;
      }
      t := t.Insert(e, hv);
    }

    /** The key must not be bound yet. */
    method Insert(it: Item, hv: nat)
      requires Valid() && hv == hash(it.key) && it.key !in bindings
      modifies `t, `hashItems, `startedExpanding, `bindings, `nodes, primary, former, it`hNext
      ensures Valid()
      ensures t == old(t).Insert(Entry(it.key, it), hv)
      ensures bindings == old(bindings)[it.key := it] && nodes == old(nodes) + {it}
    {
      hide *;
      Open();
      ghost var e := Entry(it.key, it);
      InsertIsAdd(t, hash, false, bindings, e);
      BoundAdd(bindings, nodes, it);
      LinkIn(it, hv, nodes);
      CountIn(e, hv);
      Close(bindings[it.key := it], nodes + {it});
    }

    /** The parts of Valid, for proofs that keep them folded. */
    lemma Open()
      requires Valid()
      ensures Represents(t, hash, false, bindings) && t.Shape() && Registers(t) && primary != former
      ensures forall hv :: !InMotion(t, false, hv)
      ensures forall p :: t.HasPlace(p) ==> UniqueKeys(t.ChainAt(p))
      ensures InArray(primary, t.primary, nodes, -1) && InArray(former, t.oldTable, nodes, -1) && Bound(bindings, nodes)
    {
    }

    /** Concludes an operation: records the new bindings once everything else fits them. */
    ghost method Close(bindings': map<Key, Item>, nodes': set<Item>)
      requires Represents(t, hash, false, bindings') && Registers(t) && primary != former
      requires InArray(primary, t.primary, nodes', -1) && InArray(former, t.oldTable, nodes', -1) && Bound(bindings', nodes')
      modifies this`bindings, this`nodes
      ensures Valid() && bindings == bindings' && nodes == nodes'
    {
      hide Represents, InArray, Bound;
      bindings, nodes := bindings', nodes';
    }

    /** Two places share no item. */
    lemma PlacesApart(hv: nat, q: Place)
      requires Represents(t, hash, false, bindings)
      requires InArray(primary, t.primary, nodes, -1) && InArray(former, t.oldTable, nodes, -1)
      requires t.HasPlace(q) && q != t.Route(hv)
      ensures Apart(t.ChainAt(q), t.ChainAt(t.Route(hv)))
    {
      var p := t.Route(hv);
      assert t.HasPlace(p);
      forall i, j | 0 <= i < |t.ChainAt(q)| && 0 <= j < |t.ChainAt(p)| ensures t.ChainAt(q)[i].it != t.ChainAt(p)[j].it {
        assert t.ChainAt(q)[i] in t.ChainAt(q) && t.ChainAt(p)[j] in t.ChainAt(p);
        assert MaySit(t, false, hash(t.ChainAt(q)[i].key), q) && MaySit(t, false, hash(t.ChainAt(p)[j].key), p);
        assert Keyed(t.ChainAt(q), nodes) && Keyed(t.ChainAt(p), nodes);
      }
    }

    /** The chain that serves hv is apart from all others, in either array. */
    lemma ChainApart(hv: nat, b: nat)
      requires Valid() && t.HasPlace(t.Route(hv)) && t.Route(hv).b == b
      ensures var c := t.ChainAt(t.Route(hv));
              && UniqueKeys(c) && (forall x :: x in Its(c) ==> x in nodes)
              && (t.Route(hv).Old? ==> InArray(primary, t.primary, Without(nodes, c), -1)
                                       && forall b' :: 0 <= b' < |t.oldTable| && b' != b ==> Apart(t.oldTable[b'], c))
              && (t.Route(hv).New? ==> InArray(former, t.oldTable, Without(nodes, c), -1)
                                       && forall b' :: 0 <= b' < |t.primary| && b' != b ==> Apart(t.primary[b'], c))
    {
      var p := t.Route(hv);
      var c := t.ChainAt(p);
      assert Keyed(c, nodes);
      hide InArray, Represents, Apart;
      forall b' | 0 <= b' < |t.oldTable| && Old(b') != p ensures Apart(t.oldTable[b'], c) {
        PlacesApart(hv, Old(b'));
      }
      forall b' | 0 <= b' < |t.primary| && New(b') != p ensures Apart(t.primary[b'], c) {
        PlacesApart(hv, New(b'));
      }
      if p.Old? {
        InArrayAvoids(primary, t.primary, nodes, c);
      } else {
        InArrayAvoids(former, t.oldTable, nodes, c);
      }
    }

    /** The first half of a deletion: the links. */
    method LinkOut(key: Key, hv: nat) returns (it: Item?)
      requires Valid()
      modifies primary, former, nodes`hNext
      ensures t.Shape()
      ensures it == match t.Find(key, hv) case Some(x) => x case None => null
      ensures var r := t.Delete(key, hv);
              InArray(primary, r.primary, Except(nodes, it), -1) && InArray(former, r.oldTable, Except(nodes, it), -1)
    {
      hide Valid, Represents, InArray, UniqueKeys, Apart, Except;
      Open();
      var a, b := Bucket(hv);
      ChainApart(hv, b);
      ghost var c := t.ChainAt(t.Route(hv));
      if a == former {
        it := CutOut(former, b, key, t.oldTable, nodes);
        RestSurvives(primary, t.primary, nodes, c, it);
      } else {
        it := CutOut(primary, b, key, t.primary, nodes);
        RestSurvives(former, t.oldTable, nodes, c, it);
      }
    }

    /** The second half: the counter. */
    method CountOut(ghost key: Key, ghost hv: nat, found: bool)
      requires t.Shape() && Registers(t) && found == t.Find(key, hv).Some?
      modifies this`hashItems, this`t
      ensures t == old(t).Delete(key, hv) && t.Shape() && Registers(t)
    {
      if found {
        hashItems := hashItems - 1;
      }
      t := t.Delete(key, hv);
    }

    method TakeOut(key: Key, hv: nat) returns (it: Item?)
      requires Valid()
      modifies this`hashItems, this`t, primary, former, nodes`hNext
      ensures old(t).Shape() && t == old(t).Delete(key, hv) && Registers(t)
      ensures it == match old(t).Find(key, hv) case Some(x) => x case None => null
      ensures InArray(primary, t.primary, Except(nodes, it), -1) && InArray(former, t.oldTable, Except(nodes, it), -1)
    {
      hide Valid, Represents, InArray, Registers, Chained, Table.Delete, Table.Route, Table.Find, Table.Shape;
      Open();
      it := LinkOut(key, hv);
      CountOut(key, hv, it != null);
    }

    /** Unbinds the key; with an unbound key nothing happens. */
    method Delete(key: Key, hv: nat) returns (it: Item?)
      requires Valid() && hv == hash(key)
      modifies `t, `hashItems, `bindings, `nodes, primary, former, nodes`hNext
      ensures Valid()
      ensures t == old(t).Delete(key, hv)
      ensures it == if key in old(bindings) then old(bindings)[key] else null
      ensures bindings == old(bindings) - {key} && nodes == Except(old(nodes), it)
    {
      hide Valid, Represents, InArray, Registers, Bound, Chained, Table.Delete, Table.Route, Table.Find, Table.Shape;
      Open();
      FindIsLookup(t, hash, false, bindings, key);
      DeleteIsRemove(t, hash, false, bindings, key);
      BoundDel(bindings, nodes, key);
      it := TakeOut(key, hv);
      Close(bindings - {key}, Except(nodes, it));
    }

    /** Doubles the table: the primary array becomes the former one.  Without memory for the new array
        the table stays as it is. */
    method Expand(granted: bool)
      requires Valid() && !expanding
      modifies this
      ensures Valid() && bindings == old(bindings) && nodes == old(nodes)
      ensures granted ==> t == old(t).Expand() && fresh(primary) && former == old(primary)
      ensures !granted ==> t == old(t) && primary == old(primary) && former == old(former)
    {
      hide *;
      if granted {
        Double();
      }
    }

    method Double()
      requires Valid() && !expanding
      modifies this
      ensures Valid() && t == old(t).Expand() && bindings == old(bindings) && nodes == old(nodes)
      ensures fresh(primary) && former == old(primary)
    {
      ExpandKeepsMap(t, hash, bindings);
      hide Represents;
      former := primary;
      primary := new Item?[Pow2(power + 1)](_ => null);
      power := power + 1;
      expanding := true;
      expandBucket := 0;
      t := t.Expand();
    }

    /** Halfway through the migration of one bucket: `it` is the first of the items still to be
        moved, which make up the rest of the bucket's chain in r. */
    ghost predicate Moving(r: Table<Item>, it: Item?)
      reads this, primary, former, nodes`hNext, nodes`key
    {
      && Represents(r, hash, true, bindings) && Bound(bindings, nodes)
      && Registers(r) && primary != former
      && r.expanding && Unmoved(r, it, r.oldTable[r.cursor])
    }

    ghost predicate Unmoved(r: Table<Item>, it: Item?, c: Chain<Item>)
      requires r.Shape() && r.expanding
      reads primary, former, this, nodes`hNext, nodes`key
    {
      && Keyed(c, nodes) && Chained(it, Its(c))
      && InArray(primary, r.primary, Without(nodes, c), -1)
      && InArray(former, r.oldTable[r.cursor := []], Without(nodes, c), r.cursor)
    }

    /** The items that wait to be moved are in no other chain. */
    lemma MotionApart(r: Table<Item>, p: Place)
      requires Represents(r, hash, true, bindings) && r.HasPlace(p) && p != Old(r.cursor)
      requires Keyed(r.ChainAt(p), nodes) && Keyed(r.oldTable[r.cursor], nodes)
      ensures Apart(r.ChainAt(p), r.oldTable[r.cursor])
    {
      var d, c := r.ChainAt(p), r.oldTable[r.cursor];
      forall i, j | 0 <= i < |d| && 0 <= j < |c| ensures d[i].it != c[j].it {
        if d[i].key == c[j].key {
          var k := c[j].key;
          assert d[i] in r.ChainAt(p) && c[j] in r.ChainAt(Old(r.cursor));
          assert MaySit(r, true, hash(k), p) && MaySit(r, true, hash(k), Old(r.cursor));
          LookupFinds(d, k);
          LookupFinds(c, k);
          assert false;
        }
      }
    }

    lemma StartMoving()
      requires Valid() && expanding
      ensures Moving(t, former[expandBucket])
    {
      BeginMotion(t, hash, bindings);
      var c := t.oldTable[t.cursor];
      assert Keyed(c, nodes);
      var others := t.oldTable[t.cursor := []];
      forall b | 0 <= b < |t.primary| ensures Apart(t.primary[b], c) {
        MotionApart(t, New(b));
      }
      forall b | 0 <= b < |others| ensures Apart(others[b], c) && Keyed(others[b], Without(nodes, c)) {
        if b != t.cursor {
          MotionApart(t, Old(b));
        }
      }
      InArrayAvoids(primary, t.primary, nodes, c);
    }

    lemma MoveOneFields(r: Table<Item>)
      requires Represents(r, hash, true, bindings) && r.oldTable[r.cursor] != []
      ensures var c, r' := r.oldTable[r.cursor], r.MoveOne(hash);
              && UniqueKeys(c) && Represents(r', hash, true, bindings) && r'.Shape() && r'.expanding && r'.cursor == r.cursor
              && r'.oldTable[r'.cursor] == c[1..] && r'.oldTable[r'.cursor := []] == r.oldTable[r.cursor := []]
              && var b := Low(hash(c[0].key), r.power);
                 b < |r.primary| && r' == r.(oldTable := r'.oldTable, primary := r.primary[b := [c[0]] + r.primary[b]])
    {
      MoveOneKeepsMap(r, hash, bindings);
      assert UniqueKeys(r.ChainAt(Old(r.cursor)));
    }

    /** The links of one move: `it` goes from the front of c to the front of primary bucket b. */
    method MoveLinks(it: Item, b: nat, ghost cs: seq<Chain<Item>>, ghost os: seq<Chain<Item>>, ghost c: Chain<Item>,
                     ghost skip: nat) returns (next: Item?)
      requires primary != former && b < |cs| && UniqueKeys(c) && Keyed(c, nodes) && Chained(it, Its(c))
      requires InArray(primary, cs, Without(nodes, c), -1) && InArray(former, os, Without(nodes, c), skip)
      modifies primary, it`hNext
      ensures c != [] && c[0] == Entry(it.key, it) && Keyed(c[1..], nodes) && Chained(next, Its(c[1..]))
      ensures InArray(primary, cs[b := [c[0]] + cs[b]], Without(nodes, c[1..]), -1)
      ensures InArray(former, os, Without(nodes, c[1..]), skip)
    {
      hide InArray, UniqueKeys;
      next := it.hNext;
      RestChained(it, c, nodes);
      PushFront(primary, b, it, cs, Without(nodes, c));
      InArrayWithin(former, os, Without(nodes, c), Without(nodes, c[1..]), skip);
    }

    /** Moves one item to the head of its primary chain. */
    method MoveItem(it: Item, ghost r: Table<Item>) returns (next: Item?)
      requires Moving(r, it)
      modifies primary, it`hNext
      ensures Moving(r.MoveOne(hash), next)
    {
      ghost var c := r.oldTable[r.cursor];
      MoveOneFields(r);
      assert r.MoveOne(hash).Shape();
      hide Represents, InArray, Chained, Keyed, Bound, Table.MoveOne, UniqueKeys, Table.Shape, Pow2, Low;
      next := MoveLinks(it, Low(hash(it.key), power), r.primary, r.oldTable[r.cursor := []], c, r.cursor);
      assert Unmoved(r.MoveOne(hash), next, c[1..]);
      assert Registers(r.MoveOne(hash));
      assert Bound(bindings, nodes);
    }

    method MoveAll() returns (ghost r: Table<Item>)
      requires Valid() && expanding
      modifies primary, nodes`hNext
      ensures Moving(r, null) && r.Migrate(hash) == t.Migrate(hash)
    {
      StartMoving();
      r := t;
      var it := former[expandBucket];
      while it != null
        invariant Moving(r, it) && r.Migrate(hash) == t.Migrate(hash)
        decreases |r.oldTable[r.cursor]|
      {
        hide Represents, Registers, Bound, InArray;
        it := MoveItem(it, r);
        r := r.MoveOne(hash);
      }
    }

    lemma AllMoved(r: Table<Item>)
      requires Moving(r, null)
      ensures Represents(r.Advance(), hash, false, bindings)
      ensures r.Shape() && r.expanding && r.oldTable[r.cursor] == [] && Registers(r) && primary != former && Bound(bindings, nodes)
      ensures InArray(primary, r.primary, nodes, -1) && InArray(former, r.oldTable, nodes, r.cursor)
    {
      var c := r.oldTable[r.cursor];
      assert c == [] by {
        assert |Its(c)| == |c|;
      }
      AdvanceKeepsMap(r, hash, bindings);
      assert Without(nodes, c) == nodes;
      assert r.oldTable[r.cursor := []] == r.oldTable;
    }

    /** Clears the emptied bucket, steps the cursor, and drops the old table after its last bucket. */
    method StepPast(ghost r: Table<Item>)
      requires r.Shape() && r.expanding && r.oldTable[r.cursor] == [] && Registers(r) && primary != former
      requires InArray(primary, r.primary, nodes, -1) && InArray(former, r.oldTable, nodes, r.cursor)
      modifies this`expandBucket, this`expanding, this`former, this`t, former
      ensures t == r.Advance() && Registers(t) && primary != former && (former == old(former) || fresh(former))
      ensures InArray(primary, t.primary, nodes, -1) && InArray(former, t.oldTable, nodes, -1)
    {
      assert former.Length == |r.oldTable|;
      hide InArray, Pow2, Low;
      ClearBucket(former, expandBucket, r.oldTable, nodes);
      expandBucket := expandBucket + 1;
      if expandBucket == former.Length {
        expanding := false;
        former := new Item?[0](_ => null);
        NoBuckets(former, nodes);
      }
      t := r.Advance();
    }

    /** Migrates the bucket at the cursor and steps past it. */
    method Migrate()
      requires Valid() && expanding
      modifies this, primary, former, nodes`hNext
      ensures Valid() && t == old(t).Migrate(hash) && bindings == old(bindings) && nodes == old(nodes)
      ensures primary == old(primary) && (former == old(former) || fresh(former))
    {
      ghost var r := MoveAll();
      AllMoved(r);
      hide Represents, InArray, Registers, Bound, Unmoved;
      StepPast(r);
      Close(bindings, nodes);
    }
  }

  method ClearBucket(a: array<Item?>, b: nat, ghost cs: seq<Chain<Item>>, ghost its: set<Item>)
    requires b < |cs| && cs[b] == [] && InArray(a, cs, its, b)
    modifies a
    ensures InArray(a, cs, its, -1)
  {
    a[b] := null;
  }

  lemma NoBuckets(a: array<Item?>, its: set<Item>)
    requires a.Length == 0
    ensures InArray(a, [], its, -1)
  {
  }

  lemma RestChained(it: Item, c: Chain<Item>, its: set<Item>)
    requires Chained(it, Its(c)) && Keyed(c, its) && UniqueKeys(c)
    ensures c != [] && c[0].it == it && it !in Its(c[1..]) && Keyed(c[1..], its)
    ensures Chained(it.hNext, Its(c[1..]))
    ensures Without(its, c[1..]) == Without(its, c) + {it}
  {
    assert Its(c)[1..] == Its(c[1..]);
  }

  ghost predicate Apart(c: Chain<Item>, d: Chain<Item>) {
    forall i, j :: 0 <= i < |c| && 0 <= j < |d| ==> c[i].it != d[j].it
  }

  ghost function Except(its: set<Item>, it: Item?): set<Item> {
    set x | x in its && x != it
  }

  lemma BoundDel(m: map<Key, Item>, its: set<Item>, key: Key)
    requires Bound(m, its)
    ensures Bound(m - {key}, Except(its, if key in m then m[key] else null))
  {
  }

  ghost function Without(its: set<Item>, c: Chain<Item>): set<Item> {
    set x | x in its && x !in Its(c)
  }

  lemma InArrayWithin(a: array<Item?>, cs: seq<Chain<Item>>, its: set<Item>, its': set<Item>, skip: int)
    requires InArray(a, cs, its, skip) && its <= its'
    ensures InArray(a, cs, its', skip)
  {
  }

  lemma RestSurvives(a: array<Item?>, cs: seq<Chain<Item>>, its: set<Item>, c: Chain<Item>, it: Item?)
    requires InArray(a, cs, Without(its, c), -1) && (it != null ==> it in Its(c))
    ensures InArray(a, cs, Except(its, it), -1)
  {
    InArrayWithin(a, cs, Without(its, c), Except(its, it), -1);
  }

  lemma InArrayAvoids(a: array<Item?>, cs: seq<Chain<Item>>, its: set<Item>, c: Chain<Item>)
    requires InArray(a, cs, its, -1)
    requires forall b :: 0 <= b < |cs| ==> Apart(cs[b], c)
    ensures InArray(a, cs, Without(its, c), -1)
  {
    forall b | 0 <= b < |cs| ensures Keyed(cs[b], Without(its, c)) {
      assert Apart(cs[b], c);
    }
  }

  method Walk(head: Item?, ghost c: Chain<Item>, ghost its: set<Item>, key: Key) returns (it: Item?)
    requires Chained(head, Its(c)) && Keyed(c, its)
    ensures it == match Lookup(c, key) case Some(x) => x case None => null
  {
    it := head;
    ghost var i := 0;
    while it != null && it.key != key
      invariant 0 <= i <= |c| && it == (if i < |c| then c[i].it else null)
      invariant Lookup(c[i..], key) == Lookup(c, key)
      decreases |c| - i
    {
      it := it.hNext;
      i := i + 1;
    }
  }

  /** The first item with the key, and the item before it; null where there is none. */
  method Before(head: Item?, ghost c: Chain<Item>, ghost its: set<Item>, key: Key)
      returns (prev: Item?, it: Item?, ghost i: nat)
    requires Chained(head, Its(c)) && Keyed(c, its)
    ensures i <= |c| && forall j :: 0 <= j < i ==> c[j].key != key
    ensures it == if i < |c| then c[i].it else null
    ensures prev == if i > 0 then c[i - 1].it else null
    ensures i < |c| ==> c[i].key == key
  {
    prev, it, i := null, head, 0;
    while it != null && it.key != key
      invariant 0 <= i <= |c| && it == (if i < |c| then c[i].it else null)
      invariant prev == if i > 0 then c[i - 1].it else null
      invariant forall j :: 0 <= j < i ==> c[j].key != key
      decreases |c| - i
    {
      prev, it := it, it.hNext;
      i := i + 1;
    }
  }

  /** Unlinks the item at position i of its chain. */
  method Splice(a: array<Item?>, b: nat, prev: Item?, it: Item, ghost s: seq<Item>, ghost i: nat)
    requires b < a.Length && Chained(a[b], s) && forall j, k :: 0 <= j < k < |s| ==> s[j] != s[k]
    requires i < |s| && it == s[i] && prev == if i > 0 then s[i - 1] else null
    modifies a, it`hNext, (if prev == null then {} else {prev})`hNext
    ensures Chained(a[b], s[..i] + s[i + 1..])
    ensures forall b' :: 0 <= b' < a.Length && b' != b ==> a[b'] == old(a[b'])
  {
    var nxt := it.hNext;
    assert i + 1 < |s| ==> nxt == s[i + 1];
    it.hNext := null;
    if prev == null {
      a[b] := nxt;
    } else {
      prev.hNext := nxt;
    }
  }

  /** The same, with the other buckets of the array in view. */
  method Detach(a: array<Item?>, b: nat, prev: Item?, it: Item, ghost cs: seq<Chain<Item>>, ghost i: nat)
    requires b < |cs| == a.Length && forall j, k :: 0 <= j < k < |cs[b]| ==> Its(cs[b])[j] != Its(cs[b])[k]
    requires i < |cs[b]| && it == cs[b][i].it && prev == if i > 0 then cs[b][i - 1].it else null
    requires forall b' :: 0 <= b' < |cs| ==> Chained(a[b'], Its(cs[b']))
    requires forall b' :: 0 <= b' < |cs| && b' != b ==> it !in Its(cs[b']) && prev !in Its(cs[b'])
    modifies a, it`hNext, (if prev == null then {} else {prev})`hNext
    ensures Chained(a[b], Its(cs[b])[..i] + Its(cs[b])[i + 1..])
    ensures forall b' :: 0 <= b' < |cs| && b' != b ==> Chained(a[b'], Its(cs[b']))
  {
    Splice(a, b, prev, it, Its(cs[b]), i);
  }

  /** Takes the first item with the key out of bucket b. */
  method CutOut(a: array<Item?>, b: nat, key: Key, ghost cs: seq<Chain<Item>>, ghost its: set<Item>)
      returns (it: Item?)
    requires InArray(a, cs, its, -1) && b < |cs| && UniqueKeys(cs[b])
    requires forall b' :: 0 <= b' < |cs| && b' != b ==> Apart(cs[b'], cs[b])
    modifies a, Its(cs[b])`hNext
    ensures it == match Lookup(cs[b], key) case Some(x) => x case None => null
    ensures it != null ==> it in Its(cs[b])
    ensures InArray(a, if it == null then cs else cs[b := Remove(cs[b], key)], Except(its, it), -1)
  {
    hide Chained, Keyed;
    ghost var c := cs[b];
    var prev;
    ghost var i;
    prev, it, i := Before(a[b], c, its, key);
    FirstMatch(c, key, i);
    if it == null {
      assert cs[b := c] == cs;
      assert Except(its, it) == its;
    } else {
      ghost var d, its' := c[..i] + c[i + 1..], Except(its, it);
      CutItems(c, i, its);
      ApartFrom(cs, b, its, it);
      assert forall b' :: 0 <= b' < |cs| && b' != b ==> it !in Its(cs[b']) && (prev != null ==> prev !in Its(cs[b']));
      Detach(a, b, prev, it, cs, i);
      Patched(a, cs, b, d, its');
    }
  }

  /** A chain apart from another one has none of its items. */
  lemma ApartItems(d: Chain<Item>, c: Chain<Item>, its: set<Item>, it: Item)
    requires Apart(d, c) && Keyed(d, its) && it in Its(c)
    ensures Keyed(d, Except(its, it)) && forall x :: x in Its(c) ==> x !in Its(d)
  {
  }

  lemma ApartFrom(cs: seq<Chain<Item>>, b: nat, its: set<Item>, it: Item)
    requires b < |cs| && it in Its(cs[b]) && forall b' :: 0 <= b' < |cs| && b' != b ==> Apart(cs[b'], cs[b]) && Keyed(cs[b'], its)
    ensures forall b' :: 0 <= b' < |cs| && b' != b ==> Keyed(cs[b'], Except(its, it)) && forall x :: x in Its(cs[b]) ==> x !in Its(cs[b'])
  {
    hide Apart, Keyed;
    forall b' | 0 <= b' < |cs| && b' != b ensures Keyed(cs[b'], Except(its, it)) && forall x :: x in Its(cs[b]) ==> x !in Its(cs[b']) {
      ApartItems(cs[b'], cs[b], its, it);
    }
  }

  lemma Patched(a: array<Item?>, cs: seq<Chain<Item>>, b: nat, d: Chain<Item>, its: set<Item>)
    requires b < |cs| == a.Length && Keyed(d, its) && Chained(a[b], Its(d))
    requires forall b' :: 0 <= b' < |cs| && b' != b ==> Keyed(cs[b'], its) && Chained(a[b'], Its(cs[b']))
    ensures InArray(a, cs[b := d], its, -1)
  {
  }

  lemma CutItems(c: Chain<Item>, i: nat, its: set<Item>)
    requires i < |c| && Keyed(c, its) && UniqueKeys(c)
    ensures forall j, k :: 0 <= j < k < |c| ==> Its(c)[j] != Its(c)[k]
    ensures var d := c[..i] + c[i + 1..]; Keyed(d, Except(its, c[i].it)) && Its(d) == Its(c)[..i] + Its(c)[i + 1..]
  {
    var d := c[..i] + c[i + 1..];
    assert Its(d) == Its(c)[..i] + Its(c)[i + 1..];
    assert forall j :: 0 <= j < |d| ==> d[j] == if j < i then c[j] else c[j + 1];
  }
}
