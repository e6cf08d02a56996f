/** The hash table under lock striping.  Workers hold the stripe of a key's hash while they use
    the table; the maintenance thread try-locks the stripe of the bucket it migrates, moves the
    bucket's items one at a time, steps the cursor and unlocks.  A run is any interleaving. */
module AssocStripes {
  import opened Common
  import opened HashTable

  datatype Owner = Worker(id: nat) | Maintenance

  /** `moving` is set while a bucket is half migrated; `bindings` is the history's abstract map. */
  datatype System<T> = System(t: Table<T>, moving: bool, locks: map<nat, Owner>, bindings: map<Key, T>)

  datatype Config = Config(h: Key -> nat, lockPower: nat)
  {
    function Stripe(hv: nat): nat { Low(hv, lockPower) }
  }

  datatype Step<T> =
    | Lock(w: nat, stripe: nat)
    | Unlock(w: nat, stripe: nat)
    | Insert(w: nat, e: Entry<T>)
    | Delete(w: nat, key: Key)
    | TryBegin
    | Move
    | Finish
    | Release(stripe: nat)
    | Expand

  ghost predicate Holds<T>(s: System<T>, o: Owner, stripe: nat) {
    stripe in s.locks && s.locks[stripe] == o
  }

  ghost predicate By<T>(step: Step<T>, w: nat) {
    (step.Lock? || step.Unlock? || step.Insert? || step.Delete?) && step.w == w
  }

  /** One step; a step that is not enabled changes nothing.  Expansion starts only while every
      thread is paused. */
  ghost function Next<T>(c: Config, s: System<T>, step: Step<T>): System<T> {
    if !s.t.Shape() then s
    else match step
    case Lock(w, st) =>
      if st in s.locks then s else s.(locks := s.locks[st := Worker(w)])
    case Unlock(w, st) =>
      if Holds(s, Worker(w), st) then s.(locks := s.locks - {st}) else s
    case Insert(w, e) =>
      var hv := c.h(e.key);
      if Holds(s, Worker(w), c.Stripe(hv)) && s.t.Find(e.key, hv).None?
      then s.(t := s.t.Insert(e, hv), bindings := s.bindings[e.key := e.it]) else s
    case Delete(w, k) =>
      var hv := c.h(k);
      if Holds(s, Worker(w), c.Stripe(hv)) then s.(t := s.t.Delete(k, hv), bindings := s.bindings - {k}) else s
    case TryBegin =>
      var st := c.Stripe(s.t.cursor);
      if s.t.expanding && !s.moving && st !in s.locks then s.(locks := s.locks[st := Maintenance], moving := true) else s
    case Move =>
      if s.moving && s.t.expanding && s.t.oldTable[s.t.cursor] != [] then s.(t := s.t.MoveOne(c.h)) else s
    case Finish =>
      if s.moving && s.t.expanding && s.t.oldTable[s.t.cursor] == [] then s.(t := s.t.Advance(), moving := false) else s
    case Release(st) =>
      if !s.moving && Holds(s, Maintenance, st) then s.(locks := s.locks - {st}) else s
    case Expand =>
      if !s.t.expanding && s.locks == map[] then s.(t := s.t.Expand()) else s
  }

  ghost function Run<T>(c: Config, s: System<T>, steps: seq<Step<T>>): System<T> {
    if steps == [] then s else Next(c, Run(c, s, steps[..|steps| - 1]), steps[|steps| - 1])
  }

  /** The power that the buckets migrated last, or the flat table's buckets, are numbered by. */
  function BasePower<T>(t: Table<T>): nat {
    if t.expanding && t.power > 0 then t.power - 1 else t.power
  }

  ghost predicate Inv<T>(c: Config, s: System<T>) {
    && Represents(s.t, c.h, s.moving, s.bindings)
    && c.lockPower <= BasePower(s.t)
    && (s.moving ==> Holds(s, Maintenance, c.Stripe(s.t.cursor)))
  }

  /** All keys of bucket b share the stripe of b. */
  lemma BucketSharesStripe<T>(c: Config, t: Table<T>, hv: nat)
    requires t.Shape() && c.lockPower <= BasePower(t)
    ensures c.Stripe(Low(hv, t.power)) == c.Stripe(hv)
    ensures t.expanding ==> c.Stripe(Low(hv, t.power - 1)) == c.Stripe(hv)
    ensures InMotion(t, true, hv) ==> c.Stripe(t.cursor) == c.Stripe(hv)
  {
    if t.expanding {
      LowOfLow(hv, c.lockPower, t.power - 1);
    }
    LowOfLow(hv, c.lockPower, t.power);
  }

  /** Whether every key of a bucket, of a table with 2^p of them, has the stripe of the bucket. */
  ghost predicate OneStripeABucket(c: Config, p: nat) {
    forall hv: nat :: c.Stripe(Low(hv, p)) == c.Stripe(hv)
  }

  /** Buckets have one stripe each if and only if there are no more stripes than buckets. */
  lemma StripesDivideBuckets(c: Config, p: nat)
    ensures OneStripeABucket(c, p) <==> c.lockPower <= p
  {
    if c.lockPower <= p {
      forall hv: nat ensures c.Stripe(Low(hv, p)) == c.Stripe(hv) {
        LowOfLow(hv, c.lockPower, p);
      }
    } else {
      var hv := Pow2(p);
      LowOfPow(p, p);
      LowOfPow(p, c.lockPower);
      LowOfZero(c.lockPower);
      assert c.Stripe(Low(hv, p)) != c.Stripe(hv);
    }
  }

  /** memcached_thread_init refuses a lock table as large as the flat hash table. */
  predicate StartAllowed(c: Config, hashpower: nat) {
    c.lockPower < hashpower
  }

  /** The start-up check is sufficient: in all runs from a table that passes it the invariant holds,
      and every bucket of the flat table and of every larger one, migrated or not, has one stripe.  It is
      one stricter than needed: the same is true exactly up to a lock table of the same size. */
  lemma StartCheckSuffices<T>(c: Config, hashpower: nat, steps: seq<Step<T>>)
    ensures OneStripeABucket(c, hashpower) <==> StartAllowed(c, hashpower) || c.lockPower == hashpower
    ensures OneStripeABucket(c, hashpower) ==>
              var r := Run(c, System(Init(hashpower), false, map[], map[]), steps);
              Inv(c, r) && BasePower(r.t) >= hashpower && OneStripeABucket(c, BasePower(r.t))
  {
    StripesDivideBuckets(c, hashpower);
    if OneStripeABucket(c, hashpower) {
      InitRepresents<T>(hashpower, c.h);
      RunKeepsInv(c, System(Init(hashpower), false, map[], map[]), steps);
      RunKeepsPower(c, System(Init(hashpower), false, map[], map[]), steps);
      StripesDivideBuckets(c, BasePower(Run(c, System(Init<T>(hashpower), false, map[], map[]), steps).t));
    }
  }

  lemma StepKeepsPower<T>(c: Config, s: System<T>, step: Step<T>)
    requires Inv(c, s)
    ensures BasePower(Next(c, s, step).t) >= BasePower(s.t)
  {
    ShapeOf(c, s);
    hide Represents, Table.Route, Table.ChainAt, Table.Find;
  }

  /** The table only grows. */
  lemma {:induction false} RunKeepsPower<T>(c: Config, s: System<T>, steps: seq<Step<T>>)
    requires Inv(c, s)
    ensures BasePower(Run(c, s, steps).t) >= BasePower(s.t)
  {
    if steps != [] {
      var init := steps[..|steps| - 1];
      RunKeepsPower(c, s, init);
      RunKeepsInv(c, s, init);
      hide Inv, BasePower, Next;
      StepKeepsPower(c, Run(c, s, init), steps[|steps| - 1]);
    }
  }

  lemma {:induction false} LowOfPow(k: nat, n: nat)
    ensures Low(Pow2(k), n) == if k < n then Pow2(k) else 0
  {
    if n > 0 {
      if k > 0 {
        assert Pow2(k) / 2 == Pow2(k - 1) && Pow2(k) % 2 == 0;
        LowOfPow(k - 1, n - 1);
      } else {
        LowOfZero(n - 1);
      }
    }
  }

  lemma {:induction false} LowOfZero(n: nat)
    ensures Low(0, n) == 0
  {
    if n > 0 {
      LowOfZero(n - 1);
    }
  }

  /** Two hash values served by one chain share a stripe. */
  lemma ChainSharesStripe<T>(c: Config, t: Table<T>, hv: nat, hv': nat)
    requires t.Shape() && c.lockPower <= BasePower(t) && t.Route(hv) == t.Route(hv')
    ensures c.Stripe(hv) == c.Stripe(hv')
  {
    BucketSharesStripe(c, t, hv);
    BucketSharesStripe(c, t, hv');
  }

  /** A key whose stripe a worker holds is not in motion. */
  lemma HeldIsAtRest<T>(c: Config, s: System<T>, w: nat, hv: nat)
    requires Inv(c, s) && Holds(s, Worker(w), c.Stripe(hv))
    ensures !InMotion(s.t, s.moving, hv)
  {
    BucketSharesStripe(c, s.t, hv);
  }

  lemma WorkKeepsInv<T>(c: Config, s: System<T>, step: Step<T>)
    requires Inv(c, s) && (step.Insert? || step.Delete?)
    ensures Inv(c, Next(c, s, step))
  {
    hide Represents;
    ShapeOf(c, s);
    match step
    case Insert(w, e) =>
      if Holds(s, Worker(w), c.Stripe(c.h(e.key))) && s.t.Find(e.key, c.h(e.key)).None? {
        HeldIsAtRest(c, s, w, c.h(e.key));
        FindIsLookup(s.t, c.h, s.moving, s.bindings, e.key);
        InsertIsAdd(s.t, c.h, s.moving, s.bindings, e);
      }
    case Delete(w, k) =>
      if Holds(s, Worker(w), c.Stripe(c.h(k))) {
        HeldIsAtRest(c, s, w, c.h(k));
        DeleteIsRemove(s.t, c.h, s.moving, s.bindings, k);
      }
  }

  lemma MigrationKeepsInv<T>(c: Config, s: System<T>, step: Step<T>)
    requires Inv(c, s) && (step.TryBegin? || step.Move? || step.Finish?)
    ensures Inv(c, Next(c, s, step))
  {
    hide Represents;
    ShapeOf(c, s);
    match step
    case TryBegin =>
      if s.t.expanding && !s.moving {
        BeginMotion(s.t, c.h, s.bindings);
      }
    case Move =>
      if s.moving && s.t.oldTable[s.t.cursor] != [] {
        MoveOneKeepsMap(s.t, c.h, s.bindings);
      }
    case Finish =>
      if s.moving && s.t.oldTable[s.t.cursor] == [] {
        AdvanceKeepsMap(s.t, c.h, s.bindings);
      }
  }

  lemma StepKeepsInv<T>(c: Config, s: System<T>, step: Step<T>)
    requires Inv(c, s)
    ensures Inv(c, Next(c, s, step))
  {
    hide Represents;
    ShapeOf(c, s);
    if step.Insert? || step.Delete? {
      WorkKeepsInv(c, s, step);
    } else if step.TryBegin? || step.Move? || step.Finish? {
      MigrationKeepsInv(c, s, step);
    } else if step.Expand? && !s.t.expanding && !s.moving {
      ExpandKeepsMap(s.t, c.h, s.bindings);
    }
  }

  lemma ShapeOf<T>(c: Config, s: System<T>)
    requires Inv(c, s)
    ensures s.t.Shape() && (s.moving ==> s.t.expanding)
  {
  }

  /** In every reachable state of every interleaving the table represents the abstract map. */
  lemma {:induction false} RunKeepsInv<T>(c: Config, s: System<T>, steps: seq<Step<T>>)
    requires Inv(c, s)
    ensures Inv(c, Run(c, s, steps))
  {
    if steps != [] {
      RunKeepsInv(c, s, steps[..|steps| - 1]);
      StepKeepsInv(c, Run(c, s, steps[..|steps| - 1]), steps[|steps| - 1]);
    }
  }

  /** What a worker that holds a stripe sees of it: the routes and the chains of its keys. */
  ghost predicate SameView<T>(c: Config, t: Table<T>, t': Table<T>, stripe: nat) {
    && t.Shape() && t'.Shape()
    && forall hv :: c.Stripe(hv) == stripe ==> t'.Route(hv) == t.Route(hv) && t'.ChainAt(t'.Route(hv)) == t.ChainAt(t.Route(hv))
  }

  lemma OtherChainKeepsView<T>(c: Config, t: Table<T>, t': Table<T>, hv: nat, chain: Chain<T>, stripe: nat)
    requires t.Shape() && c.lockPower <= BasePower(t) && c.Stripe(hv) != stripe
    requires t' == t.SetChain(t.Route(hv), chain).(count := t'.count, started := t'.started)
    ensures SameView(c, t, t', stripe)
  {
    forall hv' | c.Stripe(hv') == stripe
      ensures t'.Shape() && t'.Route(hv') == t.Route(hv') && t'.ChainAt(t.Route(hv')) == t.ChainAt(t.Route(hv'))
    {
      if t.Route(hv) == t.Route(hv') {
        ChainSharesStripe(c, t, hv, hv');
      }
    }
  }

  lemma MoveKeepsView<T>(c: Config, s: System<T>, w: nat, stripe: nat)
    requires Inv(c, s) && Holds(s, Worker(w), stripe) && s.moving && s.t.oldTable[s.t.cursor] != []
    ensures SameView(c, s.t, s.t.MoveOne(c.h), stripe)
  {
    NextToMove(s.t, c.h);
    var e := s.t.oldTable[s.t.cursor][0];
    forall hv | c.Stripe(hv) == stripe
      ensures var r := s.t.MoveOne(c.h);
              r.Shape() && r.Route(hv) == s.t.Route(hv) && r.ChainAt(r.Route(hv)) == s.t.ChainAt(s.t.Route(hv))
    {
      HeldIsAtRest(c, s, w, hv);
      RestIsApart(s.t, true, hv, c.h(e.key));
    }
  }

  lemma FinishKeepsView<T>(c: Config, s: System<T>, w: nat, stripe: nat)
    requires Inv(c, s) && Holds(s, Worker(w), stripe) && s.moving
    ensures SameView(c, s.t, s.t.Advance(), stripe)
  {
    forall hv | c.Stripe(hv) == stripe
      ensures var r := s.t.Advance();
              r.Shape() && r.Route(hv) == s.t.Route(hv) && r.ChainAt(r.Route(hv)) == s.t.ChainAt(s.t.Route(hv))
    {
      HeldIsAtRest(c, s, w, hv);
      AdvanceRoutes(s.t, hv);
    }
    AdvanceRoutes(s.t, 0);
  }

  /** While a worker holds a stripe, no step of anyone else, not even half a migration, reroutes
      a key of that stripe or touches the chain it uses. */
  lemma OthersKeepView<T>(c: Config, s: System<T>, w: nat, stripe: nat, step: Step<T>)
    requires Inv(c, s) && Holds(s, Worker(w), stripe) && !By(step, w)
    ensures Holds(Next(c, s, step), Worker(w), stripe)
    ensures SameView(c, s.t, Next(c, s, step).t, stripe)
  {
    ShapeOf(c, s);
    hide Represents;
    match step
    case Lock(_, _) =>
    case Unlock(_, _) =>
    case Insert(w', e) =>
      if Next(c, s, step) != s {
        OtherChainKeepsView(c, s.t, s.t.Insert(e, c.h(e.key)), c.h(e.key),
                            [e] + s.t.ChainAt(s.t.Route(c.h(e.key))), stripe);
      }
    case Delete(w', k) =>
      var hv := c.h(k);
      if Holds(s, Worker(w'), c.Stripe(hv)) && s.t.Delete(k, hv) != s.t {
        OtherChainKeepsView(c, s.t, s.t.Delete(k, hv), hv, Remove(s.t.ChainAt(s.t.Route(hv)), k), stripe);
      }
    case TryBegin =>
    case Move =>
      if s.moving && s.t.oldTable[s.t.cursor] != [] {
        MoveKeepsView(c, s, w, stripe);
      }
    case Finish =>
      if s.moving && s.t.oldTable[s.t.cursor] == [] {
        FinishKeepsView(c, s, w, stripe);
      }
    case Release(_) =>
    case Expand =>
  }

  /** The same over any number of steps. */
  lemma {:induction false} RouteIsStable<T>(c: Config, s: System<T>, w: nat, stripe: nat, steps: seq<Step<T>>)
    requires Inv(c, s) && Holds(s, Worker(w), stripe)
    requires forall i :: 0 <= i < |steps| ==> !By(steps[i], w)
    ensures var r := Run(c, s, steps); Inv(c, r) && Holds(r, Worker(w), stripe) && SameView(c, s.t, r.t, stripe)
  {
    if steps == [] {
      ShapeOf(c, s);
    } else {
      var init := steps[..|steps| - 1];
      RouteIsStable(c, s, w, stripe, init);
      StepKeepsInv(c, Run(c, s, init), steps[|steps| - 1]);
      OthersKeepView(c, Run(c, s, init), w, stripe, steps[|steps| - 1]);
    }
  }

  /** So a worker that routes a key, is interrupted, and then walks the chain it had picked still
      gets the binding of the abstract map. */
  lemma InterruptedFindIsLookup<T>(c: Config, s: System<T>, w: nat, k: Key, steps: seq<Step<T>>)
    requires Inv(c, s) && Holds(s, Worker(w), c.Stripe(c.h(k)))
    requires forall i :: 0 <= i < |steps| ==> !By(steps[i], w)
    ensures var r := Run(c, s, steps);
            && s.t.Shape() && r.t.HasPlace(s.t.Route(c.h(k)))
            && Lookup(r.t.ChainAt(s.t.Route(c.h(k))), k) == Get(r.bindings, k) == Get(s.bindings, k)
  {
    var r := Run(c, s, steps);
    RouteIsStable(c, s, w, c.Stripe(c.h(k)), steps);
    HeldIsAtRest(c, s, w, c.h(k));
    HeldIsAtRest(c, r, w, c.h(k));
    FindIsLookup(s.t, c.h, s.moving, s.bindings, k);
    FindIsLookup(r.t, c.h, r.moving, r.bindings, k);
  }
}
