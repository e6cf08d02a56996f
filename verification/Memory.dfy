/** The memory account of the slab allocator: how much was taken for pages, and the limit. */
module Memory {
  import opened Common

  const CHUNK_ALIGN := 8

  function Aligned(n: nat): (r: nat)
    ensures n <= r < n + CHUNK_ALIGN && r % CHUNK_ALIGN == 0
  {
    if n % CHUNK_ALIGN != 0 then n + CHUNK_ALIGN - n % CHUNK_ALIGN else n
  }

  datatype Source = Refused | FromPool | Fresh | Exhausted

  /** No limit stands for the limit -1.  With `base` set, all pages come out of one block of
      memory, of which `avail` bytes are left. */
  datatype Account = Account(limit: Option<nat>, base: bool, malloced: nat, avail: nat)
  {
    /** Memory for one page; sizes out of the block are rounded up. */
    function Allocate(size: nat): (Account, bool) {
      if !base then (this.(malloced := malloced + size), true)
      else if size > avail then (this, false)
      else (this.(malloced := malloced + Aligned(size),
                  avail := if Aligned(size) < avail then avail - Aligned(size) else 0), true)
    }

    predicate LimitHit(size: nat, pooled: nat) {
      limit.Some? && malloced + size > limit.value && pooled == 0
    }

    /** Where a class gets its next page of `size` bytes from, with `pooled` pages in the pool. */
    function NextPage(size: nat, pooled: nat): (Account, Source) {
      if LimitHit(size, pooled) then (this, Refused)
      else if pooled > 0 then (this, FromPool)
      else if Allocate(size).1 then (Allocate(size).0, Fresh)
      else (this, Exhausted)
    }

    predicate Within() {
      limit.Some? ==> malloced <= limit.value
    }

    /** What is left below the limit. */
    function Slack(): int
      requires limit.Some?
    {
      limit.value - malloced
    }

    /** Rounding cannot carry the account past its limit: pages do not come out of the block, or what
        is left below the limit is aligned, or the block ends before it matters. */
    predicate RoundingSafe() {
      base && limit.Some? ==> Slack() % CHUNK_ALIGN == 0 || avail <= Slack() - Slack() % CHUNK_ALIGN
    }
  }

  /** New memory is taken only when the pool is empty and the size passed the limit check. */
  lemma FreshOnlyWithinLimit(a: Account, size: nat, pooled: nat)
    ensures a.NextPage(size, pooled).1 == Fresh ==> pooled == 0 && (a.limit.Some? ==> a.malloced + size <= a.limit.value)
    ensures a.NextPage(size, pooled).1 != Fresh ==> a.NextPage(size, pooled).0 == a
    ensures pooled > 0 ==> a.NextPage(size, pooled).1 == FromPool
  {
  }

  /** The limit check does not know about rounding.  One page carries the account past the limit
      exactly if it comes out of the block, is there, and fits below the limit, but not if rounded:
      its size lies above the last aligned one that fits. */
  lemma PageWithinIff(a: Account, size: nat, pooled: nat)
    requires a.Within()
    ensures !a.NextPage(size, pooled).0.Within() <==>
            && a.limit.Some? && a.base && pooled == 0 && size <= a.avail
            && a.Slack() - a.Slack() % CHUNK_ALIGN < size <= a.Slack()
  {
  }

  datatype Request = Request(size: nat, pooled: nat)

  function Run(a: Account, rs: seq<Request>): Account {
    if rs == [] then a else Run(a, rs[..|rs| - 1]).NextPage(rs[|rs| - 1].size, rs[|rs| - 1].pooled).0
  }

  /** The sizes of the pages that a run took as new memory, one after the other. */
  function Bought(a: Account, rs: seq<Request>): seq<nat> {
    if rs == [] then []
    else
      var init, r := rs[..|rs| - 1], rs[|rs| - 1];
      Bought(a, init) + if Run(a, init).NextPage(r.size, r.pooled).1 == Fresh then [r.size] else []
  }

  function Total(sizes: seq<nat>): nat {
    if sizes == [] then 0 else Total(sizes[..|sizes| - 1]) + sizes[|sizes| - 1]
  }

  /** What pages of these sizes take: out of the block, each rounded up. */
  function Charged(sizes: seq<nat>, rounded: bool): nat {
    if sizes == [] then 0
    else
      var size := sizes[|sizes| - 1];
      Charged(sizes[..|sizes| - 1], rounded) + if rounded && size % CHUNK_ALIGN != 0 then size + CHUNK_ALIGN - size % CHUNK_ALIGN else size
  }

  lemma TotalSnoc(sizes: seq<nat>, size: nat)
    ensures Total(sizes + [size]) == Total(sizes) + size
    ensures Charged(sizes + [size], true) == Charged(sizes, true) + Aligned(size) && Charged(sizes + [size], false) == Charged(sizes, false) + size
  {
    assert (sizes + [size])[..|sizes|] == sizes;
  }

  lemma {:induction false} ChargedCovers(sizes: seq<nat>, rounded: bool)
    ensures Total(sizes) <= Charged(sizes, rounded)
  {
    if sizes != [] {
      ChargedCovers(sizes[..|sizes| - 1], rounded);
    }
  }

  /** The account counts exactly the memory taken: malloced grows by what the pages took, and what is
      left of the block shrinks by as much. */
  lemma {:induction false} RunIsCharged(a: Account, rs: seq<Request>)
    ensures var r, charge := Run(a, rs), Charged(Bought(a, rs), a.base);
            && r.malloced == a.malloced + charge && r.base == a.base && r.limit == a.limit
            && r.avail == if !a.base then a.avail else if charge < a.avail then a.avail - charge else 0
  {
    hide Account.NextPage, Charged;
    NothingCharged();
    if rs != [] {
      var init, q := rs[..|rs| - 1], rs[|rs| - 1];
      RunIsCharged(a, init);
      TotalSnoc(Bought(a, init), q.size);
      assert Bought(a, init) + [] == Bought(a, init);
      NextIsCharged(Run(a, init), q.size, q.pooled);
    }
  }

  lemma NothingCharged()
    ensures Charged([], true) == 0 == Charged([], false)
  {
  }

  lemma NextIsCharged(a: Account, size: nat, pooled: nat)
    ensures var (r, source) := a.NextPage(size, pooled);
            var charge := if source != Fresh then 0 else if a.base then Aligned(size) else size;
            && r.malloced == a.malloced + charge && r.base == a.base && r.limit == a.limit
            && r.avail == if !a.base then a.avail else if charge < a.avail then a.avail - charge else 0
  {
  }

  /** The pages that a run takes as new memory do not add up to more than the limit leaves. */
  lemma {:induction false} BoughtWithinLimit(a: Account, rs: seq<Request>)
    requires a.limit.Some? && a.Within()
    ensures Total(Bought(a, rs)) <= a.limit.value - a.malloced
  {
    hide Charged;
    if rs != [] {
      var init, q := rs[..|rs| - 1], rs[|rs| - 1];
      BoughtWithinLimit(a, init);
      RunIsCharged(a, init);
      ChargedCovers(Bought(a, init), a.base);
      TotalSnoc(Bought(a, init), q.size);
      assert Bought(a, init) + [] == Bought(a, init);
    }
  }

  /** After any run, where the next page comes from: from the pool if it has one; refused exactly if
      what was taken before leaves too little below the limit; not there exactly if the block has too
      little left; else it is new memory. */
  lemma NextPageIs(a: Account, rs: seq<Request>, size: nat, pooled: nat)
    ensures var charge, source := Charged(Bought(a, rs), a.base), Run(a, rs).NextPage(size, pooled).1;
            && (source == FromPool <==> pooled > 0)
            && (source == Refused <==> pooled == 0 && a.limit.Some? && a.limit.value < a.malloced + charge + size)
            && (source == Exhausted <==> pooled == 0 && (a.limit.Some? ==> a.malloced + charge + size <= a.limit.value)
                                         && a.base && size > 0 && a.avail < charge + size)
  {
    RunIsCharged(a, rs);
  }

  /** n pages, of these sizes, have been paid for since the start, and they keep to the limit. */
  ghost predicate Paid(a: Account, n: nat, start: Account, sizes: seq<nat>) {
    && |sizes| == n && a.malloced == start.malloced + Charged(sizes, start.base) && a.base == start.base && a.limit == start.limit
    && (start.limit.Some? ==> start.malloced + Total(sizes) <= start.limit.value)
  }

  lemma PaidOn(a: Account, n: nat, start: Account, sizes: seq<nat>, size: nat, pooled: nat)
    requires Paid(a, n, start, sizes)
    ensures var (r, source) := a.NextPage(size, pooled);
            if source == Fresh then Paid(r, n + 1, start, sizes + [size]) else Paid(r, n, start, sizes)
  {
    TotalSnoc(sizes, size);
    ChargedCovers(sizes, a.base);
    NextIsCharged(a, size, pooled);
  }

  function Repeat<T>(x: T, n: nat): seq<T> {
    if n == 0 then [] else Repeat(x, n - 1) + [x]
  }

  /** Pages of one size: with nothing in the pool a run takes as many as fit below the limit, and then
      no more. */
  lemma {:induction false} PagesOfOneSize(a: Account, size: nat, n: nat)
    requires a.limit.Some? && a.Within() && size > 0 && size % CHUNK_ALIGN == 0 && (a.base ==> a.Slack() <= a.avail)
    ensures Bought(a, Repeat(Request(size, 0), n)) == Repeat(size, if n < a.Slack() / size then n else a.Slack() / size)
  {
    hide Account.NextPage, Run, Account.Slack, Account.Within;
    var m := SlackIs(a, size);
    if n > 0 {
      var rs := Repeat(Request(size, 0), n);
      assert rs[..n - 1] == Repeat(Request(size, 0), n - 1) && rs[n - 1] == Request(size, 0) by { RepeatLast(Request(size, 0), n); }
      PagesOfOneSize(a, size, n - 1);
      var k := if n - 1 < m then n - 1 else m;
      OneMore(a, rs[..n - 1], size, k);
    }
  }

  lemma SlackIs(a: Account, size: nat) returns (m: nat)
    requires a.limit.Some? && a.Within() && size > 0
    ensures m == a.Slack() / size
  {
    m := a.Slack() / size;
  }

  lemma {:induction false} RepeatLast<T>(x: T, n: nat)
    ensures |Repeat(x, n)| == n
    ensures n > 0 ==> Repeat(x, n)[..n - 1] == Repeat(x, n - 1) && Repeat(x, n)[n - 1] == x
  {
    if n > 0 {
      RepeatLast(x, n - 1);
    }
  }

  lemma OneMore(a: Account, rs: seq<Request>, size: nat, k: nat)
    requires a.limit.Some? && a.Within() && size > 0 && size % CHUNK_ALIGN == 0 && (a.base ==> a.Slack() <= a.avail)
    requires Bought(a, rs) == Repeat(size, k) && k <= a.Slack() / size
    ensures Run(a, rs).NextPage(size, 0).1 == Fresh <==> k < a.Slack() / size
  {
    ChargedSame(k, size, a.base);
    NextPageIs(a, rs, size, 0);
    Fits(a.Slack(), size, k);
    hide Account.NextPage, Run, Charged, Repeat, Bought;
  }

  lemma Fits(slack: nat, size: nat, k: nat)
    requires size > 0 && k <= slack / size
    ensures k * size + size <= slack <==> k < slack / size
  {
    var m := slack / size;
    assert m * size <= slack < m * size + size;
    if k < m {
      assert (k + 1) * size <= m * size;
    }
  }

  lemma {:induction false} ChargedSame(k: nat, size: nat, rounded: bool)
    requires size % CHUNK_ALIGN == 0
    ensures Charged(Repeat(size, k), rounded) == k * size
  {
    if k > 0 {
      RepeatLast(size, k);
      ChargedSame(k - 1, size, rounded);
      var before := (k - 1) * size;
      assert k * size == before + size;
    }
  }

  /** From an account that rounding cannot harm, or with page sizes that need none, the account never
      passes the limit, whatever pages are asked for. */
  lemma {:induction false} RunWithin(a: Account, rs: seq<Request>)
    requires a.Within()
    requires a.RoundingSafe() || forall i :: 0 <= i < |rs| ==> rs[i].size % CHUNK_ALIGN == 0
    ensures Run(a, rs).Within() && Run(a, rs).base == a.base && Run(a, rs).limit == a.limit
    ensures a.RoundingSafe() ==> Run(a, rs).RoundingSafe()
  {
    if rs != [] {
      RunWithin(a, rs[..|rs| - 1]);
      PageWithinIff(Run(a, rs[..|rs| - 1]), rs[|rs| - 1].size, rs[|rs| - 1].pooled);
    }
  }

  /** And only from such an account: from any other, one page passes the limit. */
  lemma AllRunsWithinIff(a: Account)
    requires a.Within()
    ensures (forall rs :: Run(a, rs).Within()) <==> a.RoundingSafe()
  {
    if a.RoundingSafe() {
      forall rs ensures Run(a, rs).Within() {
        RunWithin(a, rs);
      }
    } else {
      var page := Request(a.Slack() - a.Slack() % CHUNK_ALIGN + 1, 0);
      PageWithinIff(a, page.size, 0);
      assert Run(a, [page]) == Run(a, []).NextPage(page.size, 0).0;
    }
  }

  const GIB := 1024 * 1024 * 1024

  /** The account as slabs_init leaves it: with a limit of whole GiB, all of it in the block if it is
      preallocated. */
  function Start(gigs: nat, prealloc: bool): Account {
    Account(Some(gigs * GIB), prealloc, 0, if prealloc then gigs * GIB else 0)
  }

  /** So no run of this program passes its limit, with pages of any size. */
  lemma StartNeverPasses(gigs: nat, prealloc: bool, rs: seq<Request>)
    ensures Run(Start(gigs, prealloc), rs).Within()
  {
    assert (gigs * GIB) % CHUNK_ALIGN == 0;
    RunWithin(Start(gigs, prealloc), rs);
  }

  /** An account that is not safe: it takes a limit of 9 bytes and a page of 9 bytes, neither of which
      this program has, and then reads 16. */
  lemma RoundingPassesLimit()
    ensures var a := Account(Some(9), true, 0, 9);
            a.Within() && !a.RoundingSafe() && a.NextPage(9, 0).1 == Fresh && !a.NextPage(9, 0).0.Within()
  {
  }

  /** In any case it passes the limit by less than one alignment unit. */
  lemma {:induction false} RunNearlyWithin(a: Account, rs: seq<Request>)
    requires a.limit.Some? && a.Within()
    ensures Run(a, rs).malloced < a.limit.value + CHUNK_ALIGN && Run(a, rs).limit == a.limit
  {
    if rs != [] {
      RunNearlyWithin(a, rs[..|rs| - 1]);
    }
  }
}
