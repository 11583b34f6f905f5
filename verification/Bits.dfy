/** Bitwise and on bytes, and the one fact about it the flash writer rests on. */
module Bits {
  import opened Bytes

  function Pow2(n: nat): nat {
    if n == 0 then 1 else 2 * Pow2(n - 1)
  }

  /** The low n bits of a & b. */
  function AndBits(n: nat, a: nat, b: nat): (r: nat)
    ensures r < Pow2(n)
  {
    if n == 0 then 0 else (if a % 2 == 1 && b % 2 == 1 then 1 else 0) + 2 * AndBits(n - 1, a / 2, b / 2)
  }

  function And(a: byte, b: byte): byte {
    ByteRange();
    AndBits(8, a, b)
  }

  lemma ByteRange()
    ensures Pow2(8) == 256
  {
    assert Pow2(4) == 16;
    assert Pow2(6) == 64;
  }

  lemma {:induction false} OnesKeep(n: nat, b: nat)
    requires b < Pow2(n)
    ensures AndBits(n, Pow2(n) - 1, b) == b
    decreases n
  {
    if n > 0 {
      OnesKeep(n - 1, b / 2);
    }
  }

  /** Programming an erased byte stores the byte. */
  lemma AndErased(b: byte)
    ensures And(0xFF, b) == b
  {
    hide AndBits;
    ByteRange();
    OnesKeep(8, b);
  }
}
