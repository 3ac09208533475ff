/**
 The stored form of a batch: four bitmap bytes, then the filled slots.  Bit i-1
 says slot i is filled, bit 31 that the batch is a shortcut.
 */
module Codec {
  import opened Bits
  import opened Words

  type Slots = seq<Bytes>

  /** 31 slots: a mark of one byte, then slots that are empty or 33 bytes long. */
  predicate Shaped(b: Slots) {
    |b| == 31 && (b[0] == [0] || b[0] == [1]) && forall i :: 1 <= i < 31 ==> b[i] == [] || |b[i]| == 33
  }

  /** The filled slots before slot `n`, one after the other. */
  function Body(b: Slots, n: nat): Bytes
    requires 1 <= n <= |b|
  {
    if n == 1 then [] else Body(b, n - 1) + b[n - 1]
  }

  /** The bitmap says which slots are filled. */
  predicate Mapped(b: Slots, val: Bytes)
    requires Shaped(b) && |val| >= 4
  {
    forall i :: 1 <= i < 31 ==> (BitIsSet(val, i - 1) <==> b[i] != [])
  }

  predicate Encodes(b: Slots, val: Bytes)
    requires Shaped(b)
  {
    && |val| >= 4 && val[4..] == Body(b, |b|)
    && Mapped(b, val)
    && !BitIsSet(val, 30)
    && (BitIsSet(val, 31) <==> b[0] == [1])
  }

  method SerializeBatch(b: Slots) returns (val: Bytes)
    requires Shaped(b)
    ensures Encodes(b, val)
    ensures forall i :: 1 <= i < 31 ==> (Digit(val, i - 1) == 1 <==> b[i] != [])
    ensures Digit(val, 30) == 0 && (Digit(val, 31) == 1 <==> b[0] == [1])
  {
    hide BitIsSet, BitSet, Digit;
    var serialized: Bytes := [0, 0, 0, 0];
    Zeros(serialized);
    if b[0][0] == 1 {
      SetsOne(serialized, 31);
      serialized := BitSet(serialized, 31);
      assert serialized[4..] == [];
    }
    for i := 1 to 31
      invariant |serialized| >= 4 && serialized[4..] == Body(b, i)
      invariant forall j :: 1 <= j < i ==> (BitIsSet(serialized, j - 1) <==> b[j] != [])
      invariant forall j :: i - 1 <= j < 31 ==> !BitIsSet(serialized, j)
      invariant BitIsSet(serialized, 31) <==> b[0] == [1]
    {
      if |b[i]| != 0 {
        SetsOne(serialized, i - 1);
        var next := BitSet(serialized, i - 1);
        assert (next + b[i])[4..] == next[4..] + b[i];
        SameBits(next, next + b[i]);
        serialized := next + b[i];
      }
    }
    val := serialized;
    Header(b, val);
  }

  /** The bitmap bytes as numbers. */
  lemma Header(b: Slots, val: Bytes)
    requires Shaped(b) && Encodes(b, val)
    ensures forall i :: 1 <= i < 31 ==> (Digit(val, i - 1) == 1 <==> b[i] != [])
    ensures Digit(val, 30) == 0 && (Digit(val, 31) == 1 <==> b[0] == [1])
  {
    hide BitIsSet, Pow2, Body;
    forall i | 1 <= i < 31 ensures Digit(val, i - 1) == 1 <==> b[i] != [] { BitValue(val, i - 1); }
    BitValue(val, 30);
    BitValue(val, 31);
  }

  lemma Zeros(z: Bytes)
    requires |z| == 4 && z == [0, 0, 0, 0]
    ensures forall j :: 0 <= j < 32 ==> !BitIsSet(z, j)
  {
  }

  lemma SetsOne(a: Bytes, i: nat)
    requires |a| >= 4 && i < 32
    ensures |BitSet(a, i)| == |a| && BitSet(a, i)[4..] == a[4..]
    ensures forall j :: 0 <= j < 32 ==> (BitIsSet(BitSet(a, i), j) <==> j == i || BitIsSet(a, j))
  {
    forall j | 0 <= j < 32 ensures BitIsSet(BitSet(a, i), j) <==> j == i || BitIsSet(a, j) {
      BitSetAt(a, i, j);
    }
  }

  lemma SameBits(a: Bytes, b: Bytes)
    requires |a| >= 4 && a <= b
    ensures forall j :: 0 <= j < 32 ==> (BitIsSet(a, j) <==> BitIsSet(b, j))
  {
  }

  // ----- decoding -----

  function SlotFrom(val: Bytes, i: nat): Bytes
    requires 1 <= i < 31 && |val| >= 4 && |val| >= 4 + 33 * Count(val, 30)
  {
    var j := Count(val, i - 1);
    CountGrows(val, i, 30);
    if BitIsSet(val, i - 1) then val[4 + 33 * j..4 + 33 * (j + 1)] else []
  }

  function Parsed(val: Bytes): Option<Slots> {
    if |val| < 4 then None
    else if BitIsSet(val, 31) then
      if |val| < 70 then None
      else Some([[1], val[4..37], val[37..70]] + seq(28, _ => []))
    else if |val| < 4 + 33 * Count(val, 30) then None
    else Some([[0]] + seq(30, i requires 0 <= i < 30 => SlotFrom(val, i + 1)))
  }

  lemma {:induction false} CountGrows(val: Bytes, m: nat, n: nat)
    requires m <= n <= 8 * |val|
    ensures Count(val, m) <= Count(val, n)
    decreases n
  {
    hide BitIsSet;
    if m < n {
      CountGrows(val, m, n - 1);
    }
  }

  method ParseBatch(val: Bytes) returns (r: Option<Slots>)
    ensures r == Parsed(val)
    ensures forall b :: r == Some(b) <==> Decodes(val, b)
  {
    forall b ensures Parsed(val) == Some(b) <==> Decodes(val, b) { ParsedIff(val, b); }
    if |val| < 4 {
      return None;
    }
    if BitIsSet(val, 31) {
      if |val| < 70 {
        return None;
      }
      return Some([[1], val[4..37], val[37..70]] + seq(28, _ => []));
    }
    var j := CountFilled(val);
    if |val| < 4 + 33 * j {
      return None;
    }
    var batch := FillSlots(val);
    return Some(batch);
  }

  method CountFilled(val: Bytes) returns (j: nat)
    requires |val| >= 4
    ensures j == Count(val, 30)
  {
    hide BitIsSet;
    j := 0;
    for i := 1 to 31
      invariant j == Count(val, i - 1)
    {
      if BitIsSet(val, i - 1) {
        j := j + 1;
      }
    }
  }

  method FillSlots(val: Bytes) returns (batch: Slots)
    requires |val| >= 4 && |val| >= 4 + 33 * Count(val, 30)
    ensures batch == [[0]] + seq(30, i requires 0 <= i < 30 => SlotFrom(val, i + 1))
  {
    hide BitIsSet;
    batch := [[0]] + seq(30, _ => []);
    var j := 0;
    for i := 1 to 31
      invariant |batch| == 31 && batch[0] == [0] && j == Count(val, i - 1)
      invariant forall n :: 1 <= n < i ==> batch[n] == SlotFrom(val, n)
      invariant forall n :: i <= n < 31 ==> batch[n] == []
    {
      CountGrows(val, i, 30);
      if BitIsSet(val, i - 1) {
        batch := batch[i := val[4 + 33 * j..4 + 33 * (j + 1)]];
        j := j + 1;
      }
    }
  }

  // ----- round trip -----

  /** A shortcut batch as the trie makes it: key and value, and nothing else. */
  predicate ShortcutShape(b: Slots)
    requires |b| == 31
  {
    |b[1]| == 33 && |b[2]| == 33 && forall i :: 3 <= i < 31 ==> b[i] == []
  }

  lemma {:induction false} BodyLength(b: Slots, val: Bytes, n: nat)
    requires Shaped(b) && |val| >= 4 && Mapped(b, val) && 1 <= n <= 31
    ensures |Body(b, n)| == 33 * Count(val, n - 1)
  {
    hide BitIsSet;
    if n > 1 {
      BodyLength(b, val, n - 1);
    }
  }

  lemma {:induction false} BodyPrefix(b: Slots, m: nat, n: nat)
    requires 1 <= m <= n <= |b|
    ensures Body(b, m) <= Body(b, n)
    decreases n
  {
    if m < n {
      BodyPrefix(b, m, n - 1);
    }
  }

  lemma BodyAt(b: Slots, i: nat, n: nat)
    requires 1 <= i < n <= |b|
    ensures |Body(b, i)| + |b[i]| <= |Body(b, n)|
    ensures Body(b, n)[|Body(b, i)|..|Body(b, i)| + |b[i]|] == b[i]
  {
    hide Body;
    BodyStep(b, i);
    BodyPrefix(b, i + 1, n);
    SliceBack(Body(b, i), b[i], Body(b, n));
  }

  lemma BodyStep(b: Slots, i: nat)
    requires 1 <= i < |b|
    ensures Body(b, i + 1) == Body(b, i) + b[i]
  {
  }

  lemma SliceBack(p: Bytes, x: Bytes, all: Bytes)
    requires p + x <= all
    ensures |p| + |x| <= |all| && all[|p|..|p| + |x|] == x
  {
    assert all == p + x + all[|p + x|..];
  }

  /** The length of a stored batch: the bitmap and 33 bytes for every filled slot. */
  lemma EncodedLength(b: Slots, val: Bytes)
    requires Shaped(b) && Encodes(b, val)
    ensures |val| == 4 + 33 * Count(val, 30)
  {
    hide BitIsSet;
    BodyLength(b, val, |b|);
  }

  // ----- what is decoded -----

  /** The bytes begin with the bitmap and the filled slots of the batch: of a shortcut batch
      a key and a value alone, whatever the other bits say. */
  predicate Decodes(val: Bytes, b: Slots) {
    && Shaped(b) && |val| >= 4 && (BitIsSet(val, 31) <==> b[0] == [1])
    && if b[0] == [1] then ShortcutShape(b) && b[1] + b[2] <= val[4..]
       else Mapped(b, val) && Body(b, |b|) <= val[4..]
  }

  /** Exactly such bytes are decoded, to that batch. */
  lemma ParsedIff(val: Bytes, b: Slots)
    ensures Parsed(val) == Some(b) <==> Decodes(val, b)
  {
    hide BitIsSet, Body, Count, SlotFrom;
    if |val| >= 4 {
      if BitIsSet(val, 31) { ShortcutParsed(val, b); } else { RegularParsed(val, b); }
    }
  }

  lemma RegularParsed(val: Bytes, b: Slots)
    requires |val| >= 4 && !BitIsSet(val, 31)
    ensures Parsed(val) == Some(b) <==> Decodes(val, b)
  {
    hide BitIsSet, Body, Count, SlotFrom;
    if Parsed(val) == Some(b) {
      forall i | 1 <= i < 31
        ensures b[i] == SlotFrom(val, i) && |b[i]| == (if BitIsSet(val, i - 1) then 33 else 0)
      {
        SlotKind(val, i);
      }
      BodyIs(b, val, |b|);
    }
    if Decodes(val, b) {
      BodyLength(b, val, |b|);
      forall i | 1 <= i < 31 ensures SlotFrom(val, i) == b[i] { SlotBack(b, val, i); }
      var c := seq(30, i requires 0 <= i < 30 => SlotFrom(val, i + 1));
      assert forall i :: 1 <= i < 31 ==> ([[0]] + c)[i] == c[i - 1] == b[i];
      assert [[0]] + c == b;
    }
  }

  lemma SlotKind(val: Bytes, i: nat)
    requires 1 <= i < 31 && |val| >= 4 && |val| >= 4 + 33 * Count(val, 30)
    ensures |SlotFrom(val, i)| == if BitIsSet(val, i - 1) then 33 else 0
  {
    hide BitIsSet;
    CountGrows(val, i, 30);
  }

  /** The slots that are cut out of the bytes, put together again. */
  lemma {:induction false} BodyIs(b: Slots, val: Bytes, n: nat)
    requires Shaped(b) && |val| >= 4 && |val| >= 4 + 33 * Count(val, 30) && 1 <= n <= 31
    requires forall i :: 1 <= i < 31 ==> b[i] == SlotFrom(val, i)
    ensures 4 + 33 * Count(val, n - 1) <= |val| && Body(b, n) == val[4..4 + 33 * Count(val, n - 1)]
  {
    hide BitIsSet;
    CountGrows(val, n - 1, 30);
    if n > 1 {
      BodyIs(b, val, n - 1);
    }
  }

  lemma ShortcutParsed(val: Bytes, b: Slots)
    requires |val| >= 4 && BitIsSet(val, 31)
    ensures Parsed(val) == Some(b) <==> Decodes(val, b)
  {
    hide BitIsSet, Body, Count, SlotFrom;
    if Decodes(val, b) {
      var x := b[1] + b[2];
      assert x == val[4..][..66] && val[4..][..66] == val[4..70];
      assert b[1] == x[..33] == val[4..37] && b[2] == x[33..] == val[37..70];
      assert b == [[1], val[4..37], val[37..70]] + seq(28, _ => []);
    }
    if Parsed(val) == Some(b) {
      assert b[1] + b[2] == val[4..][..66];
    }
  }

  /** Decoding what was encoded gives the batch back, exactly when it is not a shortcut
      batch or is one of a key and a value alone. */
  lemma RoundTripIff(b: Slots, val: Bytes)
    requires Shaped(b) && Encodes(b, val)
    ensures Parsed(val) == Some(b) <==> b[0] == [0] || ShortcutShape(b)
  {
    hide BitIsSet, Body, Count, SlotFrom, Parsed, Mapped;
    ParsedIff(val, b);
    if ShortcutShape(b) { ShortcutBody(b); }
  }

  lemma ShortcutBody(b: Slots)
    requires |b| == 31 && ShortcutShape(b)
    ensures b[1] + b[2] <= Body(b, |b|)
  {
    hide Body;
    BodyStep(b, 1);
    BodyStep(b, 2);
    BodyPrefix(b, 3, |b|);
    NoBody(b);
  }

  lemma NoBody(b: Slots)
    requires |b| == 31
    ensures Body(b, 1) == []
  {
  }

  lemma SlotBack(b: Slots, val: Bytes, i: nat)
    requires Shaped(b) && |val| >= 4 && Mapped(b, val) && 1 <= i < 31 && Body(b, |b|) <= val[4..]
    ensures |val| >= 4 + 33 * Count(val, 30)
    ensures SlotFrom(val, i) == b[i]
  {
    hide BitIsSet, Count, Body;
    BodyLength(b, val, i);
    BodyLength(b, val, |b|);
    BodyAt(b, i, |b|);
    CountGrows(val, i, 30);
    if b[i] != [] {
      var n := 33 * Count(val, i - 1);
      SlicePast(val, n, Body(b, |b|));
    }
  }

  lemma SlicePast(val: Bytes, n: nat, body: Bytes)
    requires |val| >= 4 && body <= val[4..] && n + 33 <= |body|
    ensures body[n..n + 33] == val[4 + n..4 + n + 33]
  {
    assert body == val[4..4 + |body|];
  }
}
