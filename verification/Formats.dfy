/**
 Batches as the byte slots the codec works on, for any 32-byte form of the digests.
 */
module Formats {
  import opened Words
  import opened Trees
  import opened Batches
  import opened Layers
  import opened Sublayers
  import opened Bits
  import opened Codec

  /** A digest and its flag byte; the mark of slot 0 is a byte alone. */
  function SlotBytes(s: Slot, bytes: Word -> Bytes): Bytes {
    match s
    case Nil => []
    case Mark(shortcut) => [if shortcut then 1 else 0]
    case Bare(w) => bytes(w)
    case Full(w, flag) => bytes(w) + [(flag % 256) as bv8]
  }

  function BatchBytes(b: Batch, bytes: Word -> Bytes): Slots {
    seq(31, i requires 0 <= i < 31 => SlotBytes(b[i], bytes))
  }

  /** Every batch a trie stores has a form that is read back as it was written. */
  lemma StoredRoundTrip(t: Tree, h: nat, bytes: Word -> Bytes, val: Bytes)
    requires Tidy(t, h) && !t.Empty? && h % 4 == 0 && forall w: Word :: |bytes(w)| == 32
    ensures Shaped(BatchBytes(BatchOf(Dig(t, h)), bytes))
    ensures Encodes(BatchBytes(BatchOf(Dig(t, h)), bytes), val) ==>
              Parsed(val) == Some(BatchBytes(BatchOf(Dig(t, h)), bytes))
  {
    hide BatchOf, Dig, Encodes, Parsed;
    var g := BatchOf(Dig(t, h));
    StoredWire(t, h);
    WireShaped(g, bytes);
    if Encodes(BatchBytes(g, bytes), val) {
      RoundTripIff(BatchBytes(g, bytes), val);
    }
  }

  /** So has every batch that can be parsed. */
  lemma WireShaped(b: Batch, bytes: Word -> Bytes)
    requires Wire(b) && forall w: Word :: |bytes(w)| == 32
    ensures var s := BatchBytes(b, bytes); Shaped(s) && (s[0] == [0] || ShortcutShape(s))
  {
    var s := BatchBytes(b, bytes);
    forall i | 1 <= i < 31 ensures s[i] == [] || |s[i]| == 33 {
      assert s[i] == SlotBytes(b[i], bytes);
    }
    assert s[0] == SlotBytes(b[0], bytes) && s[1] == SlotBytes(b[1], bytes) && s[2] == SlotBytes(b[2], bytes);
  }
}
