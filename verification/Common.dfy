/** Shared by all modules. */
module Common {

  datatype Option<+T> = None | Some(value: T)

  type Byte = bv8

  /** Keys are compared by length and bytes. */
  type Key = seq<Byte>

  const UINT_SPAN := 0x1_0000_0000

  function Pow2(n: nat): (r: nat)
    ensures 0 < r
  {
    if n == 0 then 1 else 2 * Pow2(n - 1)
  }

  /** The low n bits of x: `x & ((1 << n) - 1)`. */
  function Low(x: nat, n: nat): (r: nat)
    ensures r < Pow2(n)
  {
    if n == 0 then 0 else 2 * Low(x / 2, n - 1) + x % 2
  }

  /** The low a bits of the low b bits are the low a bits. */
  lemma {:induction false} LowOfLow(x: nat, a: nat, b: nat)
    requires a <= b
    ensures Low(Low(x, b), a) == Low(x, a)
  {
    if a > 0 {
      LowOfLow(x / 2, a - 1, b - 1);
    }
  }

  /** A number below 2^n is its own low n bits. */
  lemma {:induction false} LowOfSmall(x: nat, n: nat)
    requires x < Pow2(n)
    ensures Low(x, n) == x
  {
    if n > 0 {
      LowOfSmall(x / 2, n - 1);
    }
  }

  /** One more bit adds 2^n or nothing. */
  lemma {:induction false} LowSplit(x: nat, n: nat)
    ensures Low(x, n + 1) == Low(x, n) || Low(x, n + 1) == Low(x, n) + Pow2(n)
  {
    if n > 0 {
      LowSplit(x / 2, n - 1);
    }
  }
}
