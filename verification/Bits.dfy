/** Single bits of bytes and byte strings, lowest bit first. */
module Bits {

  function Mask(k: nat): bv8
    requires k < 8
  {
    if k == 0 then 1 else if k == 1 then 2 else if k == 2 then 4 else if k == 3 then 8
    else if k == 4 then 16 else if k == 5 then 32 else if k == 6 then 64 else 128
  }

  predicate BitOf(b: bv8, k: nat)
    requires k < 8
  {
    b & Mask(k) != 0
  }

  lemma SetBit(b: bv8, k: nat, j: nat)
    requires k < 8 && j < 8
    ensures BitOf(b | Mask(k), j) <==> j == k || BitOf(b, j)
  {
  }

  lemma ClearBit(b: bv8, k: nat, j: nat)
    requires k < 8 && j < 8
    ensures BitOf(b & !Mask(k), j) <==> j != k && BitOf(b, j)
  {
  }

  lemma ZeroBits(k: nat)
    requires k < 8
    ensures !BitOf(0, k) && BitOf(0xFF, k)
  {
  }

  /** Bit p of a byte string. */
  predicate Packed(bytes: seq<bv8>, p: nat)
    requires p < 8 * |bytes|
  {
    BitOf(bytes[p / 8], p % 8)
  }
}
