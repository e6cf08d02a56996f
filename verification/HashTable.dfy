/** The chained hash table with its incremental expansion, as a value.  While it expands, keys
    whose old bucket is at or above the cursor live in the old table, all others in the
    primary table, which is twice as large. */
module HashTable {
  import opened Common

  datatype Entry<T> = Entry(key: Key, it: T)

  type Chain<T> = seq<Entry<T>>

  datatype Place = Old(b: nat) | New(b: nat)

  datatype Table<T> = Table(
    power: nat, expanding: bool, started: bool, cursor: nat,
    primary: seq<Chain<T>>, oldTable: seq<Chain<T>>, count: int)
  {
    predicate Shape() {
      && |primary| == Pow2(power)
      && (expanding ==> 0 < power && |oldTable| == Pow2(power - 1) && cursor < |oldTable|)
      && (!expanding ==> oldTable == [])
    }

    predicate HasPlace(p: Place) {
      match p case Old(b) => b < |oldTable| case New(b) => b < |primary|
    }

    function ChainAt(p: Place): Chain<T>
      requires HasPlace(p)
    {
      match p case Old(b) => oldTable[b] case New(b) => primary[b]
    }

    function SetChain(p: Place, c: Chain<T>): Table<T>
      requires HasPlace(p)
    {
      match p case Old(b) => this.(oldTable := oldTable[b := c]) case New(b) => this.(primary := primary[b := c])
    }

    /** Which chain serves hash value hv. */
    function Route(hv: nat): (p: Place)
      requires Shape()
      ensures HasPlace(p)
    {
      if expanding && Low(hv, power - 1) >= cursor then Old(Low(hv, power - 1)) else New(Low(hv, power))
    }

    function Find(key: Key, hv: nat): Option<T>
      requires Shape()
    {
      Lookup(ChainAt(Route(hv)), key)
    }

    function Insert(e: Entry<T>, hv: nat): Table<T>
      requires Shape()
    {
      var t := SetChain(Route(hv), [e] + ChainAt(Route(hv)));
      t.(count := count + 1,
         started := started || (!expanding && count + 1 > Pow2(power) * 3 / 2))
    }

    function Delete(key: Key, hv: nat): Table<T>
      requires Shape()
    {
      var c := ChainAt(Route(hv));
      if Lookup(c, key).None? then this
      else SetChain(Route(hv), Remove(c, key)).(count := count - 1)
    }

    /** The primary table becomes the old one; a primary table of twice the size is started. */
    function Expand(): Table<T> {
      Table(power + 1, true, started, 0, seq(Pow2(power + 1), _ => []), primary, count)
    }

    /** Moves the first entry of the bucket at the cursor to the head of its primary chain. */
    function MoveOne(h: Key -> nat): Table<T>
      requires Shape() && expanding && oldTable[cursor] != []
    {
      var e, b := oldTable[cursor][0], Low(h(oldTable[cursor][0].key), power);
      this.(oldTable := oldTable[cursor := oldTable[cursor][1..]], primary := primary[b := [e] + primary[b]])
    }

    /** Steps past the emptied bucket; past the last one the old table is dropped. */
    function Advance(): Table<T> {
      if cursor + 1 == |oldTable| then this.(cursor := cursor + 1, expanding := false, oldTable := [])
      else this.(cursor := cursor + 1)
    }

    /** One migration: all of the bucket at the cursor, then past it. */
    function Migrate(h: Key -> nat): Table<T>
      requires Shape() && expanding
      decreases |oldTable[cursor]|
    {
      if oldTable[cursor] == [] then Advance() else MoveOne(h).Migrate(h)
    }
  }

  function Init<T>(power: nat): Table<T> {
    Table(power, false, false, 0, seq(Pow2(power), _ => []), [], 0)
  }

  function Lookup<T>(c: Chain<T>, key: Key): Option<T> {
    if c == [] then None else if c[0].key == key then Some(c[0].it) else Lookup(c[1..], key)
  }

  function Remove<T>(c: Chain<T>, key: Key): Chain<T> {
    if c == [] then [] else if c[0].key == key then c[1..] else [c[0]] + Remove(c[1..], key)
  }

  // ---------------------------------------------------------------- invariants

  ghost predicate UniqueKeys<T>(c: Chain<T>) {
    forall i, j :: 0 <= i < j < |c| ==> c[i].key != c[j].key
  }

  /** True of the keys of the bucket that is being migrated right now, if one is. */
  ghost predicate InMotion<T>(t: Table<T>, moving: bool, hv: nat) {
    moving && t.expanding && 0 < t.power && Low(hv, t.power - 1) == t.cursor
  }

  /** A key may sit where it is routed to; one in motion also where it will be routed to next. */
  ghost predicate MaySit<T>(t: Table<T>, moving: bool, hv: nat, p: Place)
    requires t.Shape()
  {
    p == t.Route(hv) || (InMotion(t, moving, hv) && p == New(Low(hv, t.power)))
  }

  ghost predicate Valid<T>(t: Table<T>, h: Key -> nat, moving: bool) {
    && t.Shape()
    && (moving ==> t.expanding)
    && (forall p :: t.HasPlace(p) ==> UniqueKeys(t.ChainAt(p)))
    && (forall p, e :: t.HasPlace(p) && e in t.ChainAt(p) ==> MaySit(t, moving, h(e.key), p))
  }

  /** The binding of a key; one in motion is in one of two chains. */
  ghost function Binding<T>(t: Table<T>, h: Key -> nat, moving: bool, k: Key): Option<T>
    requires t.Shape()
  {
    var here := t.Find(k, h(k));
    if InMotion(t, moving, h(k)) then Either(here, Lookup(t.primary[Low(h(k), t.power)], k)) else here
  }

  ghost function Either<T>(a: Option<T>, b: Option<T>): Option<T> {
    if a.Some? then a else b
  }

  /** A key in motion is in only one of the two. */
  ghost predicate MovedOnce<T>(t: Table<T>, h: Key -> nat, moving: bool)
    requires t.Shape()
  {
    forall k :: InMotion(t, moving, h(k)) && t.Find(k, h(k)).Some? ==> Lookup(t.primary[Low(h(k), t.power)], k).None?
  }

  /** The table holds exactly the bindings of m, and counts them. */
  ghost predicate Represents<T>(t: Table<T>, h: Key -> nat, moving: bool, m: map<Key, T>) {
    && Valid(t, h, moving)
    && t.count == |m|
    && MovedOnce(t, h, moving)
    && forall k :: Binding(t, h, moving, k) == Get(m, k)
  }

  function Get<T>(m: map<Key, T>, k: Key): Option<T> {
    if k in m then Some(m[k]) else None
  }

  // ---------------------------------------------------------------- chains

  lemma {:induction false} LookupFinds<T>(c: Chain<T>, k: Key)
    ensures Lookup(c, k).Some? ==> Entry(k, Lookup(c, k).value) in c
    ensures Lookup(c, k).None? ==> forall e :: e in c ==> e.key != k
  {
    if c != [] && c[0].key != k {
      LookupFinds(c[1..], k);
    }
  }

  lemma {:induction false} RemoveTakesOne<T>(c: Chain<T>, k: Key, e: Entry<T>)
    requires UniqueKeys(c)
    ensures e in Remove(c, k) <==> e in c && e.key != k
  {
    if c != [] {
      assert UniqueKeys(c[1..]);
      assert e in c <==> e == c[0] || e in c[1..];
      RemoveTakesOne(c[1..], k, e);
    }
  }

  lemma {:induction false} RemoveUnique<T>(c: Chain<T>, k: Key)
    requires UniqueKeys(c)
    ensures UniqueKeys(Remove(c, k))
  {
    if c != [] {
      assert UniqueKeys(c[1..]);
      RemoveUnique(c[1..], k);
      if c[0].key != k {
        forall x | x in Remove(c[1..], k) ensures x.key != c[0].key {
          RemoveTakesOne(c[1..], k, x);
        }
        ConsUnique(c[0], Remove(c[1..], k));
      }
    }
  }

  lemma ConsUnique<T>(e: Entry<T>, c: Chain<T>)
    requires UniqueKeys(c) && forall x :: x in c ==> x.key != e.key
    ensures UniqueKeys([e] + c)
  {
  }

  lemma {:induction false} LookupAfterRemove<T>(c: Chain<T>, k: Key, k': Key)
    requires UniqueKeys(c)
    ensures Lookup(Remove(c, k), k') == if k' == k then None else Lookup(c, k')
  {
    if c != [] {
      assert UniqueKeys(c[1..]);
      LookupAfterRemove(c[1..], k, k');
      if c[0].key == k {
        LookupFinds(c[1..], k);
      }
    }
  }

  /** The first entry with the key is the one that is found and the one that is removed. */
  lemma {:induction false} FirstMatch<T>(c: Chain<T>, k: Key, i: nat)
    requires i <= |c| && forall j :: 0 <= j < i ==> c[j].key != k
    requires i < |c| ==> c[i].key == k
    ensures Lookup(c, k) == if i < |c| then Some(c[i].it) else None
    ensures Remove(c, k) == if i < |c| then c[..i] + c[i + 1..] else c
  {
    if i > 0 {
      FirstMatch(c[1..], k, i - 1);
    }
  }

  // ---------------------------------------------------------------- the map refinement

  lemma InitRepresents<T>(power: nat, h: Key -> nat)
    ensures Represents(Init<T>(power), h, false, map[])
  {
  }

  lemma FindIsLookup<T>(t: Table<T>, h: Key -> nat, moving: bool, m: map<Key, T>, k: Key)
    requires Represents(t, h, moving, m) && !InMotion(t, moving, h(k))
    ensures t.Find(k, h(k)) == Get(m, k)
  {
    assert Binding(t, h, moving, k) == Get(m, k);
  }

  /** A chain that serves a key at rest serves no key in motion. */
  lemma RestIsApart<T>(t: Table<T>, moving: bool, hv: nat, hk: nat)
    requires t.Shape() && !InMotion(t, moving, hv) && InMotion(t, moving, hk)
    ensures t.Route(hv) != t.Route(hk) && t.Route(hv) != New(Low(hk, t.power))
  {
    LowOfLow(hv, t.power - 1, t.power);
    LowOfLow(hk, t.power - 1, t.power);
  }

  /** Replacing the chain of a key at rest changes the bindings routed to it, and no others. */
  lemma SetChainRebinds<T>(t: Table<T>, t': Table<T>, h: Key -> nat, moving: bool, hv: nat, c: Chain<T>, k: Key)
    requires t.Shape() && !InMotion(t, moving, hv)
    requires t' == t.SetChain(t.Route(hv), c).(count := t'.count, started := t'.started)
    ensures t'.Shape() && t'.Route(h(k)) == t.Route(h(k)) && InMotion(t', moving, h(k)) == InMotion(t, moving, h(k))
    ensures t.Route(h(k)) == t.Route(hv) ==>
              !InMotion(t, moving, h(k)) && t'.Find(k, h(k)) == Lookup(c, k)
    ensures t.Route(h(k)) != t.Route(hv) ==>
              Binding(t', h, moving, k) == Binding(t, h, moving, k) && t'.Find(k, h(k)) == t.Find(k, h(k))
    ensures InMotion(t, moving, h(k)) ==> t'.primary[Low(h(k), t.power)] == t.primary[Low(h(k), t.power)]
  {
    if InMotion(t, moving, h(k)) {
      RestIsApart(t, moving, hv, h(k));
    }
  }

  /** Changing one chain changes no other. */
  lemma SetChainElsewhere<T>(t: Table<T>, t': Table<T>, hv: nat, c: Chain<T>)
    requires t.Shape() && t' == t.SetChain(t.Route(hv), c).(count := t'.count, started := t'.started)
    ensures t'.Shape()
    ensures forall q :: t'.HasPlace(q) ==> t.HasPlace(q) && t'.ChainAt(q) == if q == t.Route(hv) then c else t.ChainAt(q)
  {
  }

  /** Where the entries of the chains may sit afterwards. */
  lemma SetChainSits<T>(t: Table<T>, t': Table<T>, h: Key -> nat, moving: bool, hv: nat, c: Chain<T>, q: Place, e: Entry<T>)
    requires t.Shape() && t'.Shape() && !InMotion(t, moving, hv)
    requires t' == t.SetChain(t.Route(hv), c).(count := t'.count, started := t'.started)
    requires t.HasPlace(q) && (if q == t.Route(hv) then t.Route(h(e.key)) == q || MaySit(t, moving, h(e.key), q) else MaySit(t, moving, h(e.key), q))
    ensures MaySit(t', moving, h(e.key), q)
  {
  }

  /** ... and keeps the table well formed when the new chain is. */
  lemma SetChainValid<T>(t: Table<T>, t': Table<T>, h: Key -> nat, moving: bool, hv: nat, c: Chain<T>)
    requires Valid(t, h, moving) && !InMotion(t, moving, hv)
    requires t' == t.SetChain(t.Route(hv), c).(count := t'.count, started := t'.started)
    requires UniqueKeys(c) && forall e :: e in c ==> e in t.ChainAt(t.Route(hv)) || t.Route(h(e.key)) == t.Route(hv)
    ensures Valid(t', h, moving)
  {
    hide UniqueKeys, MaySit, Table.SetChain, InMotion;
    SetChainElsewhere(t, t', hv, c);
    KeepsExpanding(t, t', hv, c);
    forall q, e | t'.HasPlace(q) && e in t'.ChainAt(q)
      ensures MaySit(t', moving, h(e.key), q)
    {
      assert e in t.ChainAt(q) ==> MaySit(t, moving, h(e.key), q);
      SetChainSits(t, t', h, moving, hv, c, q, e);
    }
  }

  lemma KeepsExpanding<T>(t: Table<T>, t': Table<T>, hv: nat, c: Chain<T>)
    requires t.Shape() && t' == t.SetChain(t.Route(hv), c).(count := t'.count, started := t'.started)
    ensures t'.expanding == t.expanding
  {
  }

  lemma SetChainMovedOnce<T>(t: Table<T>, t': Table<T>, h: Key -> nat, moving: bool, hv: nat, c: Chain<T>)
    requires t.Shape() && MovedOnce(t, h, moving) && !InMotion(t, moving, hv)
    requires t' == t.SetChain(t.Route(hv), c).(count := t'.count, started := t'.started)
    ensures t'.Shape() && MovedOnce(t', h, moving)
  {
    forall k ensures InMotion(t', moving, h(k)) && t'.Find(k, h(k)).Some? ==> Lookup(t'.primary[Low(h(k), t'.power)], k).None? {
      SetChainRebinds(t, t', h, moving, hv, c, k);
      if InMotion(t, moving, h(k)) {
        RestIsApart(t, moving, hv, h(k));
      }
    }
  }

  lemma InsertIsAdd<T>(t: Table<T>, h: Key -> nat, moving: bool, m: map<Key, T>, e: Entry<T>)
    requires Represents(t, h, moving, m) && !InMotion(t, moving, h(e.key)) && e.key !in m
    ensures Represents(t.Insert(e, h(e.key)), h, moving, m[e.key := e.it])
  {
    hide UniqueKeys, MovedOnce, MaySit;
    var hv := h(e.key);
    var c := t.ChainAt(t.Route(hv));
    var r := t.Insert(e, hv);
    FindIsLookup(t, h, moving, m, e.key);
    LookupFinds(c, e.key);
    ConsUnique(e, c);
    SetChainValid(t, r, h, moving, hv, [e] + c);
    SetChainMovedOnce(t, r, h, moving, hv, [e] + c);
    forall k ensures Binding(r, h, moving, k) == Get(m[e.key := e.it], k) {
      SetChainRebinds(t, r, h, moving, hv, [e] + c, k);
      assert Binding(t, h, moving, k) == Get(m, k);
      assert ([e] + c)[1..] == c;
    }
  }

  lemma DeleteIsRemove<T>(t: Table<T>, h: Key -> nat, moving: bool, m: map<Key, T>, k: Key)
    requires Represents(t, h, moving, m) && !InMotion(t, moving, h(k))
    ensures Represents(t.Delete(k, h(k)), h, moving, m - {k})
  {
    var r, c := t.Delete(k, h(k)), t.ChainAt(t.Route(h(k)));
    FindIsLookup(t, h, moving, m, k);
    assert (m - {k}).Keys == m.Keys - {k};
    if k in m {
      RemoveUnique(c, k);
      forall e | e in Remove(c, k) ensures e in c {
        RemoveTakesOne(c, k, e);
      }
      SetChainValid(t, r, h, moving, h(k), Remove(c, k));
      SetChainMovedOnce(t, r, h, moving, h(k), Remove(c, k));
      forall k' ensures Binding(r, h, moving, k') == Get(m - {k}, k') {
        SetChainRebinds(t, r, h, moving, h(k), Remove(c, k), k');
        LookupAfterRemove(c, k, k');
        assert Binding(t, h, moving, k') == Get(m, k');
      }
    } else {
      assert m - {k} == m;
    }
  }

  /** An insertion asks for an expansion exactly if none is under way and there are now more than
      three items for two buckets. */
  lemma ExpansionAskedIff<T>(t: Table<T>, h: Key -> nat, moving: bool, m: map<Key, T>, e: Entry<T>)
    requires Represents(t, h, moving, m) && e.key !in m && !t.started
    ensures t.Insert(e, h(e.key)).started <==> !t.expanding && 2 * |m[e.key := e.it]| > 3 * |t.primary|
  {
    assert m[e.key := e.it].Keys == m.Keys + {e.key};
    assert |m[e.key := e.it]| == |m[e.key := e.it].Keys|;
    CountIs(t, h, moving, m);
  }

  lemma CountIs<T>(t: Table<T>, h: Key -> nat, moving: bool, m: map<Key, T>)
    requires Represents(t, h, moving, m)
    ensures t.count == |m| && t.Shape()
  {
  }

  /** Adding is a correct insertion exactly when the key is not bound yet. */
  lemma InsertIffAbsent<T>(t: Table<T>, h: Key -> nat, moving: bool, m: map<Key, T>, e: Entry<T>)
    requires Represents(t, h, moving, m) && !InMotion(t, moving, h(e.key))
    ensures Represents(t.Insert(e, h(e.key)), h, moving, m[e.key := e.it]) <==> e.key !in m
  {
    if e.key !in m {
      InsertIsAdd(t, h, moving, m, e);
    } else {
      assert m[e.key := e.it].Keys == m.Keys;
    }
  }

  // ---------------------------------------------------------------- expansion

  lemma ExpandKeepsMap<T>(t: Table<T>, h: Key -> nat, m: map<Key, T>)
    requires Represents(t, h, false, m) && !t.expanding
    ensures Represents(t.Expand(), h, false, m)
  {
    var r := t.Expand();
    assert forall hv :: t.Route(hv) == New(Low(hv, t.power)) && r.Route(hv) == Old(Low(hv, t.power));
    forall p | r.HasPlace(p) ensures r.ChainAt(p) == if p.Old? then t.ChainAt(New(p.b)) else [] {
    }
    forall k ensures Binding(r, h, false, k) == Get(m, k) {
      assert Binding(t, h, false, k) == Get(m, k);
    }
  }

  /** When a migration starts, no entry of its bucket is in the primary table yet. */
  lemma BeginMotion<T>(t: Table<T>, h: Key -> nat, m: map<Key, T>)
    requires Represents(t, h, false, m) && t.expanding
    ensures Represents(t, h, true, m)
  {
    forall k | InMotion(t, true, h(k)) ensures Lookup(t.primary[Low(h(k), t.power)], k).None? {
      var p := New(Low(h(k), t.power));
      LookupFinds(t.ChainAt(p), k);
      assert t.HasPlace(p);
    }
    forall k ensures Binding(t, h, true, k) == Get(m, k) {
      assert Binding(t, h, false, k) == Get(m, k);
    }
  }

  /** The entry that is moved next is bound, in motion, and not in the primary table. */
  lemma NextToMove<T>(t: Table<T>, h: Key -> nat)
    requires Valid(t, h, true) && MovedOnce(t, h, true) && t.oldTable[t.cursor] != []
    ensures var e := t.oldTable[t.cursor][0];
            && InMotion(t, true, h(e.key)) && t.Route(h(e.key)) == Old(t.cursor)
            && forall x :: x in t.primary[Low(h(e.key), t.power)] ==> x.key != e.key
  {
    var c := t.ChainAt(Old(t.cursor));
    var e := c[0];
    assert e in c && MaySit(t, true, h(e.key), Old(t.cursor));
    assert t.Find(e.key, h(e.key)) == Some(e.it);
    LookupFinds(t.primary[Low(h(e.key), t.power)], e.key);
  }

  /** The chains after one move. */
  lemma MoveOneChains<T>(t: Table<T>, h: Key -> nat, q: Place)
    requires t.Shape() && t.expanding && t.oldTable[t.cursor] != []
    ensures var r, e := t.MoveOne(h), t.oldTable[t.cursor][0];
            && r.Shape() && r.expanding && r.HasPlace(q) == t.HasPlace(q)
            && (r.HasPlace(q) ==>
                  r.ChainAt(q) == if q == New(Low(h(e.key), t.power)) then [e] + t.ChainAt(q)
                                  else if q == Old(t.cursor) then t.oldTable[t.cursor][1..] else t.ChainAt(q))
            && forall hv :: r.Route(hv) == t.Route(hv)
  {
  }

  lemma MoveOneSits<T>(t: Table<T>, h: Key -> nat, q: Place, hv: nat)
    requires t.Shape() && t.expanding && t.oldTable[t.cursor] != [] && MaySit(t, true, hv, q)
    ensures t.MoveOne(h).Shape() && MaySit(t.MoveOne(h), true, hv, q)
  {
  }

  lemma MoveOneValid<T>(t: Table<T>, h: Key -> nat)
    requires Valid(t, h, true) && MovedOnce(t, h, true) && t.oldTable[t.cursor] != []
    ensures Valid(t.MoveOne(h), h, true)
  {
    var r, c := t.MoveOne(h), t.oldTable[t.cursor];
    var e := c[0];
    var b := Low(h(e.key), t.power);
    NextToMove(t, h);
    RestUnique(c);
    assert UniqueKeys(t.ChainAt(New(b))) && UniqueKeys(t.ChainAt(Old(t.cursor)));
    ConsUnique(e, t.primary[b]);
    hide UniqueKeys, Table.MoveOne, Table.Route;
    MoveOneChains(t, h, New(b));
    forall q | r.HasPlace(q) ensures t.HasPlace(q) && UniqueKeys(r.ChainAt(q)) {
      MoveOneChains(t, h, q);
      assert t.HasPlace(q) ==> UniqueKeys(t.ChainAt(q));
    }
    forall q, x | r.HasPlace(q) && x in r.ChainAt(q) ensures MaySit(r, true, h(x.key), q) {
      MoveOneChains(t, h, q);
      assert x in t.ChainAt(q) || (x == e && q == New(b));
      assert x in t.ChainAt(q) ==> MaySit(t, true, h(x.key), q);
      MoveOneSits(t, h, q, h(x.key));
    }
  }

  lemma RestUnique<T>(c: Chain<T>)
    requires c != []
    ensures UniqueKeys(c) ==> UniqueKeys(c[1..])
  {
  }

  /** One move changes no binding: the moved key goes from one chain to the other. */
  lemma MoveOneRebinds<T>(t: Table<T>, h: Key -> nat, k: Key)
    requires Valid(t, h, true) && MovedOnce(t, h, true) && t.oldTable[t.cursor] != []
    ensures var r := t.MoveOne(h);
            && r.Shape() && InMotion(r, true, h(k)) == InMotion(t, true, h(k))
            && Binding(r, h, true, k) == Binding(t, h, true, k)
            && (InMotion(t, true, h(k)) && r.Find(k, h(k)).Some? ==> Lookup(r.primary[Low(h(k), t.power)], k).None?)
  {
    var r, c := t.MoveOne(h), t.ChainAt(Old(t.cursor));
    var e := c[0];
    var b := Low(h(e.key), t.power);
    NextToMove(t, h);
    assert t.HasPlace(Old(t.cursor)) && UniqueKeys(c);
    assert ([e] + t.primary[b])[1..] == t.primary[b];
    if !InMotion(t, true, h(k)) {
      RestIsApart(t, true, h(k), h(e.key));
    } else if k == e.key {
      LookupFinds(c[1..], k);
      LookupFinds(t.primary[b], k);
    }
  }

  lemma MoveOneKeepsMap<T>(t: Table<T>, h: Key -> nat, m: map<Key, T>)
    requires Represents(t, h, true, m) && t.oldTable[t.cursor] != []
    ensures Represents(t.MoveOne(h), h, true, m)
  {
    var r := t.MoveOne(h);
    MoveOneValid(t, h);
    forall k
      ensures Binding(r, h, true, k) == Get(m, k)
      ensures InMotion(r, true, h(k)) && r.Find(k, h(k)).Some? ==> Lookup(r.primary[Low(h(k), r.power)], k).None?
    {
      MoveOneRebinds(t, h, k);
      assert Binding(t, h, true, k) == Get(m, k);
    }
  }

  /** Past the emptied bucket the routes of its keys, and only theirs, change over. */
  lemma AdvanceRoutes<T>(t: Table<T>, hv: nat)
    requires t.Shape() && t.expanding
    ensures t.Advance().Shape()
    ensures t.Advance().Route(hv) == if InMotion(t, true, hv) then New(Low(hv, t.power)) else t.Route(hv)
  {
  }

  lemma AdvanceKeepsMap<T>(t: Table<T>, h: Key -> nat, m: map<Key, T>)
    requires Represents(t, h, true, m) && t.oldTable[t.cursor] == []
    ensures Represents(t.Advance(), h, false, m)
  {
    var r := t.Advance();
    AdvanceRoutes(t, 0);
    forall q | r.HasPlace(q) ensures t.HasPlace(q) && r.ChainAt(q) == t.ChainAt(q) && UniqueKeys(r.ChainAt(q)) {
      assert UniqueKeys(t.ChainAt(q));
    }
    forall q, e | r.HasPlace(q) && e in r.ChainAt(q) ensures MaySit(r, false, h(e.key), q) {
      assert MaySit(t, true, h(e.key), q);
      AdvanceRoutes(t, h(e.key));
    }
    forall k ensures Binding(r, h, false, k) == Get(m, k) {
      AdvanceRoutes(t, h(k));
      assert Binding(t, h, true, k) == Get(m, k);
    }
  }

  lemma {:induction false} MigrateFromMotion<T>(t: Table<T>, h: Key -> nat, m: map<Key, T>)
    requires Represents(t, h, true, m)
    ensures Represents(t.Migrate(h), h, false, m)
    ensures t.Migrate(h).power == t.power && t.Migrate(h).cursor == t.cursor + 1
    ensures t.Migrate(h).expanding <==> t.cursor + 1 < |t.oldTable|
    decreases |t.oldTable[t.cursor]|
  {
    if t.oldTable[t.cursor] == [] {
      AdvanceKeepsMap(t, h, m);
    } else {
      MoveOneKeepsMap(t, h, m);
      MigrateFromMotion(t.MoveOne(h), h, m);
    }
  }

  /** Migrating one bucket keeps the abstract map. */
  lemma MigrateKeepsMap<T>(t: Table<T>, h: Key -> nat, m: map<Key, T>)
    requires Represents(t, h, false, m) && t.expanding
    ensures Represents(t.Migrate(h), h, false, m)
    ensures t.Migrate(h).power == t.power && t.Migrate(h).cursor == t.cursor + 1
    ensures t.Migrate(h).expanding <==> t.cursor + 1 < Pow2(t.power - 1)
  {
    BeginMotion(t, h, m);
    MigrateFromMotion(t, h, m);
  }

  lemma Sits<T>(t: Table<T>, h: Key -> nat, p: Place, e: Entry<T>)
    requires Valid(t, h, false) && t.HasPlace(p) && e in t.ChainAt(p)
    ensures t.Route(h(e.key)) == p
  {
    assert MaySit(t, false, h(e.key), p);
  }

  /** What a represented table looks like in the middle of an expansion. */
  lemma HalfwayShape<T>(t: Table<T>, h: Key -> nat, m: map<Key, T>)
    requires Represents(t, h, false, m) && t.expanding
    ensures forall b :: 0 <= b < t.cursor ==> t.oldTable[b] == []
    ensures forall b :: 0 <= b < |t.primary| && Low(b, t.power - 1) >= t.cursor ==> t.primary[b] == []
  {
    forall b | 0 <= b < t.cursor ensures t.oldTable[b] == [] {
      if t.oldTable[b] != [] {
        Sits(t, h, Old(b), t.oldTable[b][0]);
      }
    }
    forall b | 0 <= b < |t.primary| && Low(b, t.power - 1) >= t.cursor ensures t.primary[b] == [] {
      if t.primary[b] != [] {
        LowOfLow(h(t.primary[b][0].key), t.power - 1, t.power);
        Sits(t, h, New(b), t.primary[b][0]);
      }
    }
  }

  /** Where an entry lands: bucket b of the old table feeds b and b + 2^(power - 1) only. */
  lemma LandsInTwoBuckets<T>(t: Table<T>, hv: nat)
    requires t.Shape() && t.expanding
    ensures var b := Low(hv, t.power - 1); Low(hv, t.power) == b || Low(hv, t.power) == b + Pow2(t.power - 1)
  {
    LowSplit(hv, t.power - 1);
  }

  /** n migrations in a row. */
  function MigrateMany<T>(t: Table<T>, h: Key -> nat, n: nat): Table<T>
    decreases n
  {
    if n == 0 || !t.Shape() || !t.expanding then t else MigrateMany(t.Migrate(h), h, n - 1)
  }

  lemma {:induction false} MigrateManyKeepsMap<T>(t: Table<T>, h: Key -> nat, m: map<Key, T>, n: nat)
    requires Represents(t, h, false, m) && t.expanding && n <= Pow2(t.power - 1) - t.cursor
    ensures var r := MigrateMany(t, h, n);
            && Represents(r, h, false, m) && r.power == t.power
            && (r.expanding <==> n < Pow2(t.power - 1) - t.cursor)
    decreases n
  {
    if n > 0 {
      MigrateKeepsMap(t, h, m);
      if n > 1 {
        MigrateManyKeepsMap(t.Migrate(h), h, m, n - 1);
      }
    }
  }

  /** An expansion is over after exactly 2^(old power) migrations, not one earlier; nothing is
      lost when the old table is dropped, and a flat table of twice the size is left. */
  lemma ExpansionEnds<T>(t: Table<T>, h: Key -> nat, m: map<Key, T>)
    requires Represents(t, h, false, m) && !t.expanding
    ensures forall n :: 0 <= n < Pow2(t.power) ==> MigrateMany(t.Expand(), h, n).expanding
    ensures var r := MigrateMany(t.Expand(), h, Pow2(t.power));
            && !r.expanding && Represents(r, h, false, m)
            && |r.primary| == 2 * |t.primary| && r.oldTable == []
  {
    ExpandKeepsMap(t, h, m);
    forall n | 0 <= n < Pow2(t.power) ensures MigrateMany(t.Expand(), h, n).expanding {
      MigrateManyKeepsMap(t.Expand(), h, m, n);
    }
    MigrateManyKeepsMap(t.Expand(), h, m, Pow2(t.power));
  }
}
