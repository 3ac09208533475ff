/**
 What a stored batch says about the next layer: the roots of the batches below it
 and the shortcuts it holds itself.
 */
module Sublayers {
  import opened Words
  import opened Trees
  import opened Batches
  import opened Layers

  datatype LeafNode = LeafNode(key: Word, value: Word)

  function InteriorNodes(b: Batch, i: nat): seq<Word>
    requires i < 15
    decreases 31 - i
  {
    var l, r := 2 * i + 1, 2 * i + 2;
    var below := (if Has(b, l) then InteriorNodes(b, l) else []) + (if Has(b, r) then InteriorNodes(b, r) else []);
    if Has(b, l) || Has(b, r) || Flagged(b, i) then below
    else below + (if Filled(b, l) then [SlotWord(b[l])] else []) + (if Filled(b, r) then [SlotWord(b[r])] else [])
  }

  function InteriorNodesEasy(b: Batch): seq<Word> {
    if b[0] != Mark(false) then [] else InteriorNodes(b, 0)
  }

  function FinalLeafNodes(b: Batch, i: nat): seq<LeafNode>
    requires i < 15
    decreases 31 - i
  {
    var l, r := 2 * i + 1, 2 * i + 2;
    if b[i] == Mark(true) || Flagged(b, i) then [LeafNode(SlotWord(b[l]), SlotWord(b[r]))]
    else (if Has(b, l) then FinalLeafNodes(b, l) else []) + (if Has(b, r) then FinalLeafNodes(b, r) else [])
  }

  /** Every shortcut that is reported has its key and its value. */
  predicate Reportable(b: Batch, i: nat)
    requires i < 15
    decreases 31 - i
  {
    var l, r := 2 * i + 1, 2 * i + 2;
    if b[i] == Mark(true) || Flagged(b, i) then Filled(b, l) && Filled(b, r)
    else (Has(b, l) ==> Reportable(b, l)) && (Has(b, r) ==> Reportable(b, r))
  }

  // ----- the same on trees -----

  /** The subtrees `n` levels down that are not empty, left to right. */
  function Kids(t: Tree, n: nat): seq<Tree> {
    if t.Empty? then []
    else if n == 0 then [t]
    else if t.Node? then Kids(t.l, n - 1) + Kids(t.r, n - 1)
    else []
  }

  /** The shortcuts less than `n` levels down, left to right. */
  function Tops(t: Tree, n: nat): seq<KV> {
    if n == 0 || t.Empty? then []
    else if t.Node? then Tops(t.l, n - 1) + Tops(t.r, n - 1)
    else [KV(t.k, t.v)]
  }

  function Leaves(t: Tree): seq<KV> {
    match t
    case Empty => []
    case Leaf(k, v) => [KV(k, v)]
    case Node(l, r) => Leaves(l) + Leaves(r)
  }

  function LeafNodes(s: seq<KV>): seq<LeafNode> {
    seq(|s|, i requires 0 <= i < |s| => LeafNode(Raw(s[i].k), s[i].v))
  }

  /** Slot i of the batch carries the subtree `t`; at slot 0 it is an interior node. */
  predicate Carried(b: Batch, i: nat, t: Tree, h: nat)
    requires Tidy(t, h)
  {
    && i < 31 && !t.Empty? && Below(b, i, NodeSlot(t, h))
    && if i == 0 then t.Node? && b[0] == Mark(false) else b[i] == NodeSlot(t, h)
  }

  /** What the children of a carried node look like in the batch. */
  predicate ChildView(b: Batch, i: nat, t: Tree, h: nat)
    requires i < 31 && Tidy(t, h)
  {
    if t.Empty? then b[i] == Nil && Blank(b, i) && !Has(b, i)
    else Carried(b, i, t, h) && Filled(b, i) && (Has(b, i) <==> i < 15) && SlotWord(b[i]) == Dig(t, h)
  }

  lemma {:induction false} BelowNilBlank(b: Batch, i: nat, s: Slot)
    requires Below(b, i, s) && Child(s, false) == Nil && Child(s, true) == Nil
    ensures Blank(b, i)
    decreases 31 - i
  {
    if i < 15 {
      BelowNilBlank(b, 2 * i + 1, Nil);
      BelowNilBlank(b, 2 * i + 2, Nil);
    }
  }

  lemma ChildSeen(b: Batch, i: nat, t: Tree, h: nat)
    requires 0 < i < 31 && Tidy(t, h) && b[i] == NodeSlot(t, h) && Below(b, i, b[i])
    ensures ChildView(b, i, t, h)
  {
    ChildOf(t, h);
    if t.Empty? {
      BelowNilBlank(b, i, Nil);
    } else if t.Node? {
      if t.l.Empty? { ChildOf(t.r, h - 1); } else { ChildOf(t.l, h - 1); }
    }
  }

  lemma CarriedParts(b: Batch, i: nat, t: Tree, h: nat)
    requires Tidy(t, h) && i < 15 && Carried(b, i, t, h)
    ensures var l, r := 2 * i + 1, 2 * i + 2;
            && (t.Node? ==> ChildView(b, l, t.l, h - 1) && ChildView(b, r, t.r, h - 1))
            && (Flagged(b, i) <==> t.Leaf?) && b[i] != Mark(true)
            && (t.Leaf? ==>
                  && b[l] == Full(Raw(t.k), 2) && b[r] == Full(t.v, 2)
                  && Blank(b, l) && Blank(b, r) && !Has(b, l) && !Has(b, r))
  {
    hide ChildView, Blank;
    ChildOf(t, h);
    var l, r := 2 * i + 1, 2 * i + 2;
    if t.Node? {
      ChildSeen(b, l, t.l, h - 1);
      ChildSeen(b, r, t.r, h - 1);
    } else {
      BelowNilBlank(b, l, b[l]);
      BelowNilBlank(b, r, b[r]);
    }
  }

  lemma DepthStep(i: nat)
    requires i < 15
    ensures Depth(i) < 4 && Depth(2 * i + 1) == Depth(2 * i + 2) == Depth(i) + 1
    ensures (2 * i + 1 < 15 <==> Depth(i) < 3) && (2 * i + 2 < 15 <==> Depth(i) < 3)
  {
  }

  /** The digests of the next batches' roots, left to right. */
  function KidDigs(t: Tree, h: nat, n: nat): seq<Word>
    requires Tidy(t, h) && n <= h
    decreases n
  {
    if t.Empty? then []
    else if n == 0 then [Dig(t, h)]
    else if t.Node? then KidDigs(t.l, h - 1, n - 1) + KidDigs(t.r, h - 1, n - 1)
    else []
  }

  lemma {:induction false} KidDigsAre(t: Tree, h: nat, n: nat)
    requires Tidy(t, h) && n <= h
    ensures |KidDigs(t, h, n)| == |Kids(t, n)|
    ensures forall i :: 0 <= i < |Kids(t, n)| ==>
              Tidy(Kids(t, n)[i], h - n) && !Kids(t, n)[i].Empty? && KidDigs(t, h, n)[i] == Dig(Kids(t, n)[i], h - n)
    decreases n
  {
    if n > 0 && t.Node? {
      KidDigsAre(t.l, h - 1, n - 1);
      KidDigsAre(t.r, h - 1, n - 1);
    }
  }

  /** The interior nodes reported are the roots of the next batches, left to right. */
  lemma {:induction false} InteriorNodesAre(b: Batch, i: nat, t: Tree, h: nat, n: nat)
    requires Tidy(t, h) && i < 15 && Carried(b, i, t, h) && n == 4 - Depth(i) <= h
    ensures InteriorNodes(b, i) == KidDigs(t, h, n)
    decreases 31 - i
  {
    hide Carried, Blank, Depth, Has, Flagged, Dig, Tidy, NodeSlot, KidDigs, InteriorNodes;
    var l, r := 2 * i + 1, 2 * i + 2;
    DepthStep(i);
    TidyStep(t, h);
    CarriedParts(b, i, t, h);
    CarriedNonempty(b, i, t, h);
    KidDigsStep(t, h, n);
    if t.Node? {
      if Has(b, l) { InteriorNodesAre(b, l, t.l, h - 1, n - 1); }
      if Has(b, r) { InteriorNodesAre(b, r, t.r, h - 1, n - 1); }
    }
    InteriorNodesStep(b, i);
  }

  lemma InteriorNodesStep(b: Batch, i: nat)
    requires i < 15
    ensures var l, r := 2 * i + 1, 2 * i + 2;
            var nl, nr := if Has(b, l) then InteriorNodes(b, l) else [], if Has(b, r) then InteriorNodes(b, r) else [];
            && (Has(b, l) || Has(b, r) || Flagged(b, i) ==> InteriorNodes(b, i) == nl + nr)
            && (!(Has(b, l) || Has(b, r) || Flagged(b, i)) ==>
                  InteriorNodes(b, i) == (if Filled(b, l) then [SlotWord(b[l])] else []) +
                    (if Filled(b, r) then [SlotWord(b[r])] else []))
  {
  }

  lemma KidDigsStep(t: Tree, h: nat, n: nat)
    requires Tidy(t, h) && 0 < n <= h
    ensures t.Node? ==> KidDigs(t, h, n) == KidDigs(t.l, h - 1, n - 1) + KidDigs(t.r, h - 1, n - 1)
    ensures t.Leaf? ==> KidDigs(t, h, n) == []
    ensures t.Node? && t.l.Empty? ==> KidDigs(t.l, h - 1, n - 1) == []
    ensures t.Node? && t.r.Empty? ==> KidDigs(t.r, h - 1, n - 1) == []
    ensures t.Node? && n == 1 && !t.l.Empty? ==> KidDigs(t.l, h - 1, n - 1) == [Dig(t.l, h - 1)]
    ensures t.Node? && n == 1 && !t.r.Empty? ==> KidDigs(t.r, h - 1, n - 1) == [Dig(t.r, h - 1)]
  {
  }

  lemma TidyStep(t: Tree, h: nat)
    requires Tidy(t, h)
    ensures t.Node? ==> h > 0 && Tidy(t.l, h - 1) && Tidy(t.r, h - 1)
  {
  }

  lemma CarriedNonempty(b: Batch, i: nat, t: Tree, h: nat)
    requires Tidy(t, h) && Carried(b, i, t, h)
    ensures !t.Empty?
  {
  }

  /** The leaves reported are the shortcuts the batch holds. */
  lemma {:induction false} FinalLeafNodesAre(b: Batch, i: nat, t: Tree, h: nat, n: nat)
    requires Tidy(t, h) && i < 15 && Carried(b, i, t, h) && n == 4 - Depth(i)
    ensures FinalLeafNodes(b, i) == LeafNodes(Tops(t, n))
    decreases 31 - i
  {
    hide Carried, Blank, Depth, Has, Flagged, Dig, Tidy, NodeSlot, Tops, LeafNodes, FinalLeafNodes;
    FinalLeafNodesStep(b, i);
    var l, r := 2 * i + 1, 2 * i + 2;
    DepthStep(i);
    TidyStep(t, h);
    CarriedParts(b, i, t, h);
    CarriedNonempty(b, i, t, h);
    TopsStep(t, n);
    if t.Node? {
      if Has(b, l) { FinalLeafNodesAre(b, l, t.l, h - 1, n - 1); }
      if Has(b, r) { FinalLeafNodesAre(b, r, t.r, h - 1, n - 1); }
    }
  }

  lemma FinalLeafNodesStep(b: Batch, i: nat)
    requires i < 15
    ensures var l, r := 2 * i + 1, 2 * i + 2;
            var nl := if Has(b, l) then FinalLeafNodes(b, l) else [];
            var nr := if Has(b, r) then FinalLeafNodes(b, r) else [];
            FinalLeafNodes(b, i) ==
              if b[i] == Mark(true) || Flagged(b, i) then [LeafNode(SlotWord(b[l]), SlotWord(b[r]))] else nl + nr
  {
  }

  lemma TopsStep(t: Tree, n: nat)
    requires n > 0
    ensures t.Node? ==> LeafNodes(Tops(t, n)) == LeafNodes(Tops(t.l, n - 1)) + LeafNodes(Tops(t.r, n - 1))
    ensures t.Leaf? ==> LeafNodes(Tops(t, n)) == [LeafNode(Raw(t.k), t.v)]
    ensures t.Node? && (t.l.Empty? || n == 1) ==> LeafNodes(Tops(t.l, n - 1)) == []
    ensures t.Node? && (t.r.Empty? || n == 1) ==> LeafNodes(Tops(t.r, n - 1)) == []
  {
  }

  /** A stored node is sound, complete, and hashes to its digest. */
  lemma {:induction false} StoredSound(b: Batch, i: nat, t: Tree, h: nat)
    requires Tidy(t, h) && i < 15 && Carried(b, i, t, h)
    ensures Sound(b, i, h) && Proper(b, i) && Hashed(b, i, h) == Dig(t, h)
    decreases 31 - i
  {
    hide Carried, Blank, Vacant, Depth, Has, Flagged, Tidy, NodeSlot;
    var l, r := 2 * i + 1, 2 * i + 2;
    TidyStep(t, h);
    CarriedParts(b, i, t, h);
    CarriedAt(b, i, t, h);
    DigStep(t, h);
    if t.Node? {
      if Has(b, l) { StoredSound(b, l, t.l, h - 1); }
      if Has(b, r) { StoredSound(b, r, t.r, h - 1); }
      if Blank(b, l) { BlankVacant(b, l); }
      if Blank(b, r) { BlankVacant(b, r); }
    } else {
      BlankVacant(b, l);
      BlankVacant(b, r);
    }
  }

  lemma CarriedAt(b: Batch, i: nat, t: Tree, h: nat)
    requires Tidy(t, h) && i < 15 && Carried(b, i, t, h)
    ensures !t.Empty? && (i > 0 ==> Filled(b, i)) && (i == 0 ==> t.Node?)
    ensures t.Node? ==> !(t.l.Empty? && t.r.Empty?)
  {
    ChildOf(t, h);
  }

  lemma DigStep(t: Tree, h: nat)
    requires Tidy(t, h)
    ensures t.Node? ==> h > 0 && Tidy(t.l, h - 1) && Tidy(t.r, h - 1)
    ensures t.Node? ==> Dig(t, h) == NodeHash(Dig(t.l, h - 1), Dig(t.r, h - 1))
    ensures t.Leaf? ==> Dig(t, h) == LeafHash(Raw(t.k), t.v, h % 256)
    ensures Dig(t, h) == DefaultLeaf <==> t.Empty?
  {
  }

  lemma ShortcutBatch(w: Word, i: nat)
    requires w.LeafHash? && 3 <= i < 31
    ensures BatchOf(w)[i] == Nil
  {
    hide BatchOf, Under;
    var b := BatchOf(w);
    BatchBelow(w);
    BelowNilBlank(b, 1, b[1]);
    BelowNilBlank(b, 2, b[2]);
    UnderRoot(i);
    UnderChild(0, i);
    if Under(1, i) { BlankAt(b, 1, i); } else { BlankAt(b, 2, i); }
  }

  /** The batch of a subtree as it is stored. */
  lemma StoredBatch(t: Tree, h: nat)
    requires Tidy(t, h) && !t.Empty? && h % 4 == 0
    ensures var b := BatchOf(Dig(t, h));
            && b[0] == Mark(t.Leaf?)
            && (t.Node? ==> Carried(b, 0, t, h))
            && (t.Leaf? ==> b[1] == Full(Raw(t.k), 2) && b[2] == Full(t.v, 2))
            && (t.Leaf? ==> forall i :: 3 <= i < 31 ==> b[i] == Nil)
  {
    var w := Dig(t, h);
    assert BatchOf(w)[0] == Mark(t.Leaf?);
    hide BatchOf;
    BatchBelow(w);
    ChildOf(t, h);
    if t.Leaf? {
      forall i | 3 <= i < 31 ensures BatchOf(w)[i] == Nil {
        ShortcutBatch(w, i);
      }
    }
  }

  /** The roots of the batches below the batch of `t`. */
  function NextRoots(t: Tree, h: nat): seq<Word>
    requires Tidy(t, h) && h % 4 == 0
  {
    if t.Node? then KidDigs(t, h, 4) else []
  }

  /** A batch a digest commits to is one that can be parsed. */
  lemma StoredWire(t: Tree, h: nat)
    requires Tidy(t, h) && !t.Empty? && h % 4 == 0
    ensures Wire(BatchOf(Dig(t, h)))
  {
    hide BatchOf, Dig;
    var b := BatchOf(Dig(t, h));
    StoredBatch(t, h);
    forall i | 1 <= i < 31 ensures b[i] == Nil || b[i].Full? {
      BatchSlot(Dig(t, h), i);
    }
  }

  lemma BatchSlot(w: Word, i: nat)
    requires 1 <= i < 31
    ensures BatchOf(w)[i] == Nil || BatchOf(w)[i].Full?
  {
    hide SlotAt;
    SlotStep(WordSlot(w), i);
    assert BatchOf(w)[i] == SlotAt(WordSlot(w), i);
  }

  /** Every batch of a trie is accepted at its own layer, and reports the next
      batches' roots and its own shortcuts. */
  lemma GenuineAccepted(t: Tree, layer: nat, h: nat)
    requires layer <= 64 && h == 256 - 4 * layer && Tidy(t, h) && !t.Empty?
    ensures InteriorNodesEasy(BatchOf(Dig(t, h))) == NextRoots(t, h)
    ensures Passed(VerifyBatchEasy(BatchOf(Dig(t, h)), Dig(t, h), layer))
    ensures t.Node? ==> layer < 64
    ensures Wire(BatchOf(Dig(t, h))) && Complete(BatchOf(Dig(t, h)))
    ensures FinalLeafNodes(BatchOf(Dig(t, h)), 0) == LeafNodes(Tops(t, 4))
  {
    hide Carried, VerifyBatchEasy, Sound, Hashed, Proper, InteriorNodes, KidDigs, Tops, BatchOf, LeafNodes, Dig, Wire;
    var b := BatchOf(Dig(t, h));
    StoredBatch(t, h);
    StoredWire(t, h);
    VerifyBatchIff(b, Dig(t, h), layer);
    if t.Node? {
      StoredSound(b, 0, t, h);
      InteriorNodesAre(b, 0, t, h, 4);
      FinalLeafNodesAre(b, 0, t, h, 4);
    } else {
      TopsStep(t, 4);
      DigLeaf(t, h);
    }
  }

  lemma DigLeaf(t: Tree, h: nat)
    requires t.Leaf?
    ensures Tidy(t, h) && Dig(t, h) == LeafHash(Raw(t.k), t.v, h % 256)
  {
  }

  /** The leaves of a tree with its keys on their paths are the pairs of its map, each once. */
  lemma {:induction false} LeavesOnce(t: Tree, h: nat, p: seq<bool>, e: KV)
    requires |p| + h == 256 && Homed(t, h, p)
    ensures multiset(Leaves(t))[e] == if Find(Contents(t), e.k) == Some(e.v) then 1 else 0
    decreases t
  {
    if t.Node? {
      LeavesOnce(t.l, h - 1, p + [false], e);
      LeavesOnce(t.r, h - 1, p + [true], e);
      Sides(t, h, p);
    }
  }

  lemma {:induction false} LeafNodesCount(s: seq<KV>, e: KV)
    ensures multiset(LeafNodes(s))[LeafNode(Raw(e.k), e.v)] == multiset(s)[e]
  {
    if s != [] {
      LeafNodesCount(s[1..], e);
      assert s == [s[0]] + s[1..];
      assert LeafNodes(s) == [LeafNode(Raw(s[0].k), s[0].v)] + LeafNodes(s[1..]);
    }
  }
}
