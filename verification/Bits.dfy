/** Bit masks on natural numbers. */
module Bits {

  /** x & y */
  function BitAnd(x: nat, y: nat): (r: nat)
    ensures r <= y
  {
    if x == 0 || y == 0 then 0 else 2 * BitAnd(x / 2, y / 2) + if x % 2 == 1 && y % 2 == 1 then 1 else 0
  }

  predicate PowerOfTwo(n: nat) {
    n == 1 || (n > 1 && n % 2 == 0 && PowerOfTwo(n / 2))
  }

  /** Masking with a power of two less one leaves the remainder: x is a multiple of it plus what the mask keeps. */
  lemma {:induction false} MaskIsRemainder(x: nat, size: nat) returns (q: nat)
    requires PowerOfTwo(size)
    ensures x == q * size + BitAnd(x, size - 1) && BitAnd(x, size - 1) < size
  {
    if size == 1 {
      q := x;
    } else if x == 0 {
      q := 0;
    } else {
      var half := size / 2;
      q := MaskIsRemainder(x / 2, half);
      assert (size - 1) / 2 == half - 1 && (size - 1) % 2 == 1;
      TwiceProduct(q, half);
    }
  }

  lemma TwiceProduct(q: nat, half: nat)
    ensures q * (2 * half) == 2 * (q * half)
  {}
}
