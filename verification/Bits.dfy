/**
 Bit strings kept in bytes, most significant bit first.
 */
module Bits {

  type Bytes = seq<bv8>

  function Mask(j: nat): bv8
    requires j < 8
  {
    if j == 0 then 0x80 else if j == 1 then 0x40 else if j == 2 then 0x20 else if j == 3 then 0x10
    else if j == 4 then 0x08 else if j == 5 then 0x04 else if j == 6 then 0x02 else 0x01
  }

  predicate BitIsSet(bits: Bytes, i: nat)
    requires i / 8 < |bits|
  {
    bits[i / 8] & Mask(i % 8) != 0
  }

  function BitSet(bits: Bytes, i: nat): Bytes
    requires i / 8 < |bits|
  {
    bits[i / 8 := bits[i / 8] | Mask(i % 8)]
  }

  /** Setting bit `i` sets that bit and changes no other. */
  lemma BitSetAt(bits: Bytes, i: nat, j: nat)
    requires i / 8 < |bits| && j / 8 < |bits|
    ensures BitIsSet(BitSet(bits, i), j) <==> j == i || BitIsSet(bits, j)
  {
    if i / 8 == j / 8 {
      SetMask(bits[i / 8], i % 8, j % 8);
    }
  }

  lemma BitSetAll(bits: Bytes, i: nat)
    requires i / 8 < |bits|
    ensures |BitSet(bits, i)| == |bits|
    ensures forall j :: 0 <= j < 8 * |bits| ==> (BitIsSet(BitSet(bits, i), j) <==> j == i || BitIsSet(bits, j))
  {
    forall j | 0 <= j < 8 * |bits| ensures BitIsSet(BitSet(bits, i), j) <==> j == i || BitIsSet(bits, j) {
      BitSetAt(bits, i, j);
    }
  }

  lemma SetMask(x: bv8, a: nat, b: nat)
    requires a < 8 && b < 8
    ensures (x | Mask(a)) & Mask(b) != 0 <==> a == b || x & Mask(b) != 0
  {
    assert (x | Mask(a)) & Mask(b) == (x & Mask(b)) | (Mask(a) & Mask(b));
    assert a != b ==> Mask(a) & Mask(b) == 0;
    assert Mask(b) & Mask(b) == Mask(b) != 0;
  }

  lemma NoBits(bits: Bytes)
    requires forall n :: 0 <= n < |bits| ==> bits[n] == 0
    ensures forall i :: 0 <= i < 8 * |bits| ==> !BitIsSet(bits, i)
  {
  }

  /** How many of the first `n` bits are set. */
  function Count(bitmap: Bytes, n: nat): nat
    requires n <= 8 * |bitmap|
  {
    if n == 0 then 0 else Count(bitmap, n - 1) + (if BitIsSet(bitmap, n - 1) then 1 else 0)
  }

  // ----- the bytes as numbers -----

  function Pow2(n: nat): (p: nat)
    ensures p > 0
  {
    if n == 0 then 1 else 2 * Pow2(n - 1)
  }

  lemma {:induction false} Pow2Sum(a: nat, b: nat)
    ensures Pow2(a + b) == Pow2(a) * Pow2(b)
  {
    if b > 0 { Pow2Sum(a, b - 1); }
  }

  lemma Powers()
    ensures Pow2(0) == 1 && Pow2(1) == 2 && Pow2(2) == 4 && Pow2(3) == 8
    ensures Pow2(4) == 16 && Pow2(5) == 32 && Pow2(6) == 64 && Pow2(7) == 128
  {
  }

  lemma TopDigit(x: bv8)
    ensures x & 0x80 != 0 <==> (x as int / 128) % 2 == 1
  {
  }

  lemma SixtyFours(x: bv8)
    ensures x & 0x40 != 0 <==> (x as int / 64) % 2 == 1
  {
  }

  lemma ThirtyTwos(x: bv8)
    ensures x & 0x20 != 0 <==> (x as int / 32) % 2 == 1
  {
  }

  lemma Sixteens(x: bv8)
    ensures x & 0x10 != 0 <==> (x as int / 16) % 2 == 1
  {
  }

  lemma Eights(x: bv8)
    ensures x & 0x08 != 0 <==> (x as int / 8) % 2 == 1
  {
  }

  lemma Fours(x: bv8)
    ensures x & 0x04 != 0 <==> (x as int / 4) % 2 == 1
  {
  }

  lemma Twos(x: bv8)
    ensures x & 0x02 != 0 <==> (x as int / 2) % 2 == 1
  {
  }

  lemma Ones(x: bv8)
    ensures x & 0x01 != 0 <==> x as int % 2 == 1
  {
  }

  lemma MaskValue(x: bv8, j: nat)
    requires j < 8
    ensures x & Mask(j) != 0 <==> (x as int / Pow2(7 - j)) % 2 == 1
  {
    hide Pow2;
    Powers();
    match j {
      case 0 => TopDigit(x);
      case 1 => SixtyFours(x);
      case 2 => ThirtyTwos(x);
      case 3 => Sixteens(x);
      case 4 => Eights(x);
      case 5 => Fours(x);
      case 6 => Twos(x);
      case _ => Ones(x);
    }
  }

  /** Binary digit `i` of a byte string, the first digit of a byte being the most significant. */
  function Digit(bits: Bytes, i: nat): nat
    requires i / 8 < |bits|
  {
    (bits[i / 8] as int / Pow2(7 - i % 8)) % 2
  }

  lemma BitValue(bits: Bytes, i: nat)
    requires i / 8 < |bits|
    ensures BitIsSet(bits, i) <==> Digit(bits, i) == 1
  {
    MaskValue(bits[i / 8], i % 8);
  }
}
