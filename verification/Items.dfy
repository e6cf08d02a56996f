/** The item header.  One object is one chunk of slab memory; its links serve the hash chain
    (hNext) and either an LRU list or a freelist (next, prev). */
module Items {
  import opened Common

  /** Slab classes; class 0 is the global page pool. */
  const CLASS_COUNT := 64

  /** Slab class and LRU segment together number the LRU lists. */
  const LIST_COUNT := 256

  /** it_flags: linked 1, slabbed 4, fetched 8, active 16. */
  datatype Flags = Flags(linked: bool, slabbed: bool, fetched: bool, active: bool)

  class Item {
    var next: Item?
    var prev: Item?
    var hNext: Item?
    var time: nat
    var exptime: nat
    var nbytes: nat
    var refcount: nat
    var flags: Flags
    var clsid: nat
    var key: Key
    var value: seq<Byte>

    constructor ()
      ensures next == null && prev == null && hNext == null
      ensures time == exptime == nbytes == refcount == clsid == 0
      ensures flags == Flags(false, false, false, false) && key == [] && value == []
    {
      next, prev, hNext := null, null, null;
      time, exptime, nbytes, refcount, clsid := 0, 0, 0, 0, 0;
      flags, key, value := Flags(false, false, false, false), [], [];
    }
  }

  /** The links of consecutive items of s point at each other, the ends at nothing. */
  ghost predicate Linked(s: seq<Item>)
    reads s`next, s`prev
  {
    && (|s| > 0 ==> s[0].prev == null && s[|s| - 1].next == null)
    && forall i, j :: 0 <= i < |s| && 0 <= j < |s| && j == i + 1 ==> s[i].next == s[j] && s[j].prev == s[i]
  }

  ghost predicate Ends(head: Item?, tail: Item?, s: seq<Item>) {
    if s == [] then head == null && tail == null else head == s[0] && tail == s[|s| - 1]
  }

  /** A chunk on a freelist has just this flag; a chunk cleared for a page move has also fetched. */
  const FREE := Flags(false, true, false, false)
  const CLEARED := Flags(false, true, true, false)
}
