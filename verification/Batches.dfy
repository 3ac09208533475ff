/**
 Batches: the four top levels of a subtree in 31 slots.  Slot i has its children
 in 2i+1 and 2i+2; slots 15 to 30 hold the digests of the next batches.  A slot's
 flag byte is 0 for an interior node, 1 for a shortcut, and 2 for the key and the
 value kept below a shortcut.
 */
module Batches {
  import opened Words
  import opened Trees

  datatype Slot =
    | Nil
    | Mark(shortcut: bool)           // slot 0: is the batch root a shortcut?
    | Bare(word: Word)               // a root digest without flag, as `Root` keeps it
    | Full(word: Word, flag: nat)

  type Batch = b: seq<Slot> | |b| == 31 witness seq(31, i => Nil)

  /** The slot in which a digest is kept; `DefaultLeaf` is kept as nothing. */
  function WordSlot(w: Word): Slot {
    match w
    case LeafHash(_, _, _) => Full(w, 1)
    case NodeHash(_, _) => Full(w, 0)
    case _ => Nil
  }

  function NodeSlot(t: Tree, h: nat): Slot
    requires Tidy(t, h)
  {
    WordSlot(Dig(t, h))
  }

  /** The digest a slot stands for. */
  function SlotWord(s: Slot): Word {
    if s.Full? || s.Bare? then s.word else DefaultLeaf
  }

  /** What the digest in a slot commits its two child slots to. */
  function Child(s: Slot, right: bool): Slot {
    if s.Full? && s.flag == 0 && s.word.NodeHash? then
      WordSlot(if right then s.word.right else s.word.left)
    else if s.Full? && s.flag == 1 && s.word.LeafHash? then
      Full(if right then s.word.value else s.word.key, 2)
    else Nil
  }

  /** Every slot strictly below i holds what the node `s` commits it to. */
  predicate Below(b: Batch, i: nat, s: Slot)
    decreases 31 - i
  {
    i < 15 ==>
      && b[2 * i + 1] == Child(s, false) && Below(b, 2 * i + 1, b[2 * i + 1])
      && b[2 * i + 2] == Child(s, true) && Below(b, 2 * i + 2, b[2 * i + 2])
  }

  function SlotAt(s: Slot, i: nat): Slot {
    if i == 0 then s else Child(SlotAt(s, (i - 1) / 2), i % 2 == 0)
  }

  /** The one batch a digest commits to. */
  function BatchOf(w: Word): Batch {
    [Mark(w.LeafHash?)] + seq(30, i requires 0 <= i => SlotAt(WordSlot(w), i + 1))
  }

  /** Slot j lies strictly below slot i. */
  predicate Under(i: nat, j: nat) {
    j > i && ((j - 1) / 2 == i || Under(i, (j - 1) / 2))
  }

  predicate Linked(b: Batch, s: Slot, i: nat)
    requires i < 15
  {
    var p := if i == 0 then s else b[i];
    b[2 * i + 1] == Child(p, false) && b[2 * i + 2] == Child(p, true)
  }

  lemma {:induction false} BelowLinked(b: Batch, s: Slot, i: nat)
    requires forall j :: 0 <= j < 15 ==> Linked(b, s, j)
    ensures i < 31 ==> Below(b, i, if i == 0 then s else b[i])
    decreases 31 - i
  {
    if i < 15 {
      assert Linked(b, s, i);
      BelowLinked(b, s, 2 * i + 1);
      BelowLinked(b, s, 2 * i + 2);
    }
  }

  lemma BelowParts(b: Batch, i: nat, s: Slot)
    requires i < 15 && Below(b, i, s)
    ensures b[2 * i + 1] == Child(s, false) && Below(b, 2 * i + 1, b[2 * i + 1])
    ensures b[2 * i + 2] == Child(s, true) && Below(b, 2 * i + 2, b[2 * i + 2])
  {
  }

  lemma SlotStep(s: Slot, i: nat)
    ensures i > 0 ==> SlotAt(s, i) == Child(SlotAt(s, (i - 1) / 2), i % 2 == 0)
    ensures SlotAt(s, 0) == s
  {
  }

  lemma {:induction false} AtBelow(b: Batch, s: Slot, i: nat)
    requires 0 < i < 31 && Below(b, 0, s)
    ensures b[i] == SlotAt(s, i) && Below(b, i, b[i])
  {
    hide Below, SlotAt, Child;
    var p := (i - 1) / 2;
    if p > 0 {
      AtBelow(b, s, p);
    }
    SlotStep(s, i);
    SlotStep(s, 0);
    BelowParts(b, p, if p == 0 then s else b[p]);
    assert i == 2 * p + 1 || i == 2 * p + 2;
  }

  lemma BatchBelow(w: Word)
    ensures Below(BatchOf(w), 0, WordSlot(w))
  {
    var b, s := BatchOf(w), WordSlot(w);
    forall j | 0 <= j < 15 ensures Linked(b, s, j) {
      assert SlotAt(s, 2 * j + 1) == Child(SlotAt(s, j), false);
      assert SlotAt(s, 2 * j + 2) == Child(SlotAt(s, j), true);
    }
    BelowLinked(b, s, 0);
  }

  /** A batch with every slot in place is the one its root commits to. */
  lemma BelowIsBatch(b: Batch, w: Word)
    requires Below(b, 0, WordSlot(w)) && b[0] == Mark(w.LeafHash?)
    ensures b == BatchOf(w)
  {
    forall i | 0 < i < 31 ensures b[i] == BatchOf(w)[i] {
      AtBelow(b, WordSlot(w), i);
    }
  }

  lemma {:induction false} UnderChild(i: nat, j: nat)
    ensures Under(i, j) <==> j == 2 * i + 1 || j == 2 * i + 2 || Under(2 * i + 1, j) || Under(2 * i + 2, j)
    decreases j
  {
    if j > i && (j - 1) / 2 != i {
      UnderChild(i, (j - 1) / 2);
    }
  }

  /** Slots below two siblings are different slots. */
  lemma {:induction false} SiblingsApart(i: nat, j: nat)
    requires Under(2 * i + 1, j)
    ensures j != 2 * i + 2 && !Under(2 * i + 2, j)
    decreases j
  {
    if (j - 1) / 2 != 2 * i + 1 {
      SiblingsApart(i, (j - 1) / 2);
    }
  }

  /** `Below` looks only at slots below i. */
  lemma {:induction false} BelowFrame(b: Batch, c: Batch, i: nat, s: Slot)
    requires Below(b, i, s)
    requires forall j :: 0 <= j < 31 && Under(i, j) ==> b[j] == c[j]
    ensures Below(c, i, s)
    decreases 31 - i
  {
    if i < 15 {
      forall j { UnderChild(i, j); }
      BelowFrame(b, c, 2 * i + 1, b[2 * i + 1]);
      BelowFrame(b, c, 2 * i + 2, b[2 * i + 2]);
    }
  }

  // ----- the node table -----

  /** A table keeps under every digest the batch the digest commits to. */
  predicate Consistent(nodes: map<Word, Batch>) {
    forall w <- nodes :: nodes[w] == BatchOf(w)
  }

  /** Every batch of the subtree is among `known`; batches start at heights divisible by 4. */
  predicate Held(known: set<Word>, t: Tree, h: nat)
    requires Tidy(t, h)
    decreases t
  {
    !t.Empty? ==>
      && (h % 4 == 0 ==> Dig(t, h) in known)
      && (t.Node? ==> Held(known, t.l, h - 1) && Held(known, t.r, h - 1))
  }

  lemma {:induction false} HeldGrows(m: set<Word>, n: set<Word>, t: Tree, h: nat)
    requires Tidy(t, h) && Held(m, t, h) && m <= n
    ensures Held(n, t, h)
    decreases t
  {
    if t.Node? {
      HeldGrows(m, n, t.l, h - 1);
      HeldGrows(m, n, t.r, h - 1);
    }
  }

  // ----- nodes of trees in slots -----

  /** Slot j carries nodes of height h. */
  predicate Level(j: nat, h: nat) {
    match h % 4
    case 0 => j == 0
    case 3 => 1 <= j <= 2
    case 2 => 3 <= j <= 6
    case _ => 7 <= j <= 14
  }

  /** The root argument of `update`: a slot, or at the top the flagless `Root`. */
  predicate Rooted(root: Slot, t: Tree, h: nat)
    requires Tidy(t, h)
  {
    if h < 256 then root == NodeSlot(t, h)
    else if t.Empty? then root == Nil
    else root == Bare(Dig(t, h))
  }

  lemma ChildOf(t: Tree, h: nat)
    requires Tidy(t, h)
    ensures !t.Leaf? ==> h > 0 ==>
      && Child(NodeSlot(t, h), false) == NodeSlot(Left(t), h - 1)
      && Child(NodeSlot(t, h), true) == NodeSlot(Right(t), h - 1)
    ensures t.Leaf? ==>
      Child(NodeSlot(t, h), false) == Full(Raw(t.k), 2) && Child(NodeSlot(t, h), true) == Full(t.v, 2)
    ensures NodeSlot(t, h).Nil? <==> t.Empty?
    ensures SlotWord(NodeSlot(t, h)) == Dig(t, h)
  {
  }
}
