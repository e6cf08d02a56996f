/** How long the page list of a slab class gets, and whether a page under way will find room. */
module PageRoom {
  const FIRST_LIST_SIZE := 16

  /** grow_slab_list: a full list doubles. */
  function GrownSize(pages: nat, size: nat): nat {
    if pages < size then size else if pages == 0 then FIRST_LIST_SIZE else 2 * pages
  }

  /** The length of a page list after n more pages, for each of which it grew if it was full. */
  function Slots(pages: nat, size: nat, n: nat): nat {
    if n == 0 then size else GrownSize(pages + n - 1, Slots(pages, size, n - 1))
  }

  /** size, doubled j times. */
  function Doubled(size: nat, j: nat): nat {
    if j == 0 then size else 2 * Doubled(size, j - 1)
  }

  lemma {:induction false} DoubledGrows(size: nat, i: nat, j: nat)
    requires i <= j
    ensures Doubled(size, i) <= Doubled(size, j)
  {
    if i < j {
      DoubledGrows(size, i, j - 1);
    }
  }

  /** The list is always its first length doubled some times, and never twice as long as needed. */
  lemma {:induction false} SlotsAreDoubled(pages: nat, size: nat, n: nat) returns (j: nat)
    requires pages < size
    ensures Slots(pages, size, n) == Doubled(size, j) && pages + n <= Slots(pages, size, n)
    ensures j > 0 ==> Doubled(size, j - 1) < pages + n
  {
    if n == 0 {
      j := 0;
    } else {
      j := SlotsAreDoubled(pages, size, n - 1);
      if pages + n - 1 == Slots(pages, size, n - 1) {
        j := j + 1;
      }
    }
  }

  /** Room seen at the start of a page move is still there after n pages were added to the class,
      exactly unless these fill the list to its length, or to a doubling of it. */
  lemma RoomLastsIff(pages: nat, size: nat, n: nat)
    requires pages < size
    ensures pages + n < Slots(pages, size, n) <==> forall i: nat :: pages + n != Doubled(size, i)
  {
    var j := SlotsAreDoubled(pages, size, n);
    forall i: nat | pages + n < Slots(pages, size, n) ensures pages + n != Doubled(size, i) {
      if i < j {
        DoubledGrows(size, i, j - 1);
      } else {
        DoubledGrows(size, j, i);
      }
    }
  }

  /** With 15 pages in a list of 16 there is room for one; the next page of the class takes it. */
  lemma RoomCanGo()
    ensures 15 < Slots(15, 16, 0) && !(15 + 1 < Slots(15, 16, 1))
  {
  }
}
