/**
 What an accepted batch is worth: it may be cut off above the last level, or carry slots
 nobody looks at, and still hash to its root.  Its shape tells.
 */
module Received {
  import opened Words
  import opened Trees
  import opened Batches
  import opened Layers
  import opened Sublayers
  import opened Reads

  /** The same digest in every slot. */
  predicate HoldsWords(b: Batch, g: Batch) {
    forall j :: 0 < j < 31 ==> SlotWord(b[j]) == SlotWord(g[j])
  }

  /** A sound node with the words of the genuine one has nothing cut off or left over. */
  lemma {:induction false} WordsProper(b: Batch, g: Batch, i: nat, u: Tree, h: nat)
    requires i < 15 && Tidy(u, h) && Carried(g, i, u, h) && HoldsWords(b, g)
    requires Sound(b, i, h) && Hashed(b, i, h) == Dig(u, h)
    ensures Proper(b, i)
    decreases 31 - i, 0
  {
    hide Carried, Blank, Vacant, Depth, Has, Flagged, Tidy, NodeSlot, HoldsWords, Dig;
    var l, r := 2 * i + 1, 2 * i + 2;
    DepthDown(b, i);
    TidyStep(u, h);
    DigStep(u, h);
    CarriedParts(g, i, u, h);
    CarriedAt(g, i, u, h);
    if Has(b, l) || Has(b, r) {
      WordsChild(b, g, l, u.l, h - 1);
      WordsChild(b, g, r, u.r, h - 1);
    } else if Flagged(b, i) {
      VacantWords(b, g, l);
      VacantWords(b, g, r);
    } else if i < 7 {
      if !u.l.Empty? { DeeperWord(b, g, l, u.l, h - 1); } else { DeeperWord(b, g, r, u.r, h - 1); }
    }
  }

  lemma WordsChild(b: Batch, g: Batch, c: nat, x: Tree, h: nat)
    requires 0 < c < 15 && Tidy(x, h) && ChildView(g, c, x, h) && HoldsWords(b, g)
    requires if Has(b, c) then Sound(b, c, h) && Hashed(b, c, h) == Dig(x, h) else Dig(x, h) == DefaultLeaf
    ensures if Has(b, c) then Proper(b, c) else SlotWord(b[c]) == DefaultLeaf && Vacant(b, c)
    decreases 31 - c, 1
  {
    hide Carried, Blank, Vacant, Has, Sound, Hashed, Dig, Proper;
    DigStep(x, h);
    if Has(b, c) {
      HashedKind(b, c, h);
      WordsProper(b, g, c, x, h);
    } else {
      VacantWords(b, g, c);
    }
  }

  lemma VacantWords(b: Batch, g: Batch, i: nat)
    requires i < 31 && Blank(g, i) && HoldsWords(b, g)
    ensures Vacant(b, i)
  {
    BlankVacant(g, i);
  }

  /** A node above the last level has a digest two levels further down. */
  lemma DeeperWord(b: Batch, g: Batch, c: nat, x: Tree, h: nat)
    requires 0 < c < 15 && Tidy(x, h) && Carried(g, c, x, h) && HoldsWords(b, g)
    ensures Has(b, c)
  {
    CarriedParts(g, c, x, h);
    CarriedAt(g, c, x, h);
    DigStep(x, h);
    if x.Node? {
      if !x.l.Empty? { DigStep(x.l, h - 1); } else { DigStep(x.r, h - 1); }
    }
    assert SlotWord(g[2 * c + 1]) != DefaultLeaf || SlotWord(g[2 * c + 2]) != DefaultLeaf;
  }

  /** An accepted batch holds the digests the trie has there exactly when nothing of it is
      cut off or left over. */
  lemma WordsIff(b: Batch, t: Tree, layer: nat, h: nat)
    requires Wire(b) && layer <= 64 && h == 256 - 4 * layer && Tidy(t, h) && !t.Empty?
    requires Passed(VerifyBatchEasy(b, Dig(t, h), layer))
    ensures HoldsWords(b, BatchOf(Dig(t, h))) <==> Complete(b)
    ensures b[0] == BatchOf(Dig(t, h))[0]
  {
    hide Carried, VerifyBatchEasy, Sound, Hashed, Proper, BatchOf, Dig, HoldsWords, InteriorNodesEasy, FinalLeafNodes;
    var g := BatchOf(Dig(t, h));
    GenuineAccepted(t, layer, h);
    VerifyBatchIff(b, Dig(t, h), layer);
    NotShortcut(b, h);
    DigStep(t, h);
    StoredBatch(t, h);
    if Complete(b) {
      CompleteWords(b, g, Dig(t, h), layer);
    }
    if b[0] == Mark(false) && HoldsWords(b, g) {
      WordsProper(b, g, 0, t, h);
    }
  }

  lemma CompleteWords(b: Batch, g: Batch, root: Word, layer: int)
    requires Wire(b) && Wire(g) && Complete(b) && Complete(g)
    requires Passed(VerifyBatchEasy(b, root, layer)) && Passed(VerifyBatchEasy(g, root, layer))
    ensures HoldsWords(b, g)
  {
    hide VerifyBatchEasy, Wire, Complete;
    forall j | 0 < j < 31 ensures SlotWord(b[j]) == SlotWord(g[j]) { AcceptedSame(b, g, root, layer, j); }
  }

  // ----- a batch that is cut off -----

  /** Two digests one level too high, with nothing below them. */
  function CutOff(x: Word, y: Word): Batch {
    [Mark(false), Full(NodeHash(x, y), 0), Nil, Full(x, 0), Full(y, 0)] + seq(26, _ => Nil)
  }

  /** It is accepted at every layer for the root it hashes to, and hands its two digests on. */
  lemma CutOffAccepted(x: Word, y: Word, layer: int)
    ensures var b := CutOff(x, y);
            && Wire(b) && !Complete(b)
            && Passed(VerifyBatchEasy(b, NodeHash(NodeHash(x, y), DefaultLeaf), layer))
            && InteriorNodesEasy(b) == [x, y] && FinalLeafNodes(b, 0) == []
  {
    hide VerifyBatchEasy, CutOff, InteriorNodes, FinalLeafNodes, Has, Wire, Sound, Hashed, Proper;
    var b := CutOff(x, y);
    CutOffSlots(x, y);
    CutOffSound(x, y, 256 - 4 * layer);
    VerifyBatchIff(b, NodeHash(NodeHash(x, y), DefaultLeaf), layer);
    CutOffReports(b, x, y, 0, 1);
  }

  lemma CutOffReports(b: Batch, x: Word, y: Word, top: nat, i: nat)
    requires top == 0 && i == 1 && b[0] == Mark(false) && b[1].Full? && b[1].flag == 0
    requires b[3] == Full(x, 0) && b[4] == Full(y, 0) && Has(b, 1) && !Has(b, 2) && !Has(b, 3) && !Has(b, 4)
    ensures InteriorNodes(b, top) == [x, y] && FinalLeafNodes(b, top) == []
  {
    hide InteriorNodes, FinalLeafNodes, Has;
    InteriorNodesStep(b, i);
    FinalLeafNodesStep(b, i);
    InteriorNodesStep(b, top);
    FinalLeafNodesStep(b, top);
  }

  lemma CutOffSound(x: Word, y: Word, h: int)
    ensures var b := CutOff(x, y);
            Sound(b, 0, h) && !Proper(b, 0) && Hashed(b, 0, h) == NodeHash(NodeHash(x, y), DefaultLeaf)
  {
    hide CutOff, Has, Vacant;
    var b := CutOff(x, y);
    CutOffSlots(x, y);
    assert Hashed(b, 1, h - 1) == NodeHash(x, y) && Sound(b, 1, h - 1) && !Proper(b, 1);
  }

  lemma CutOffSlots(x: Word, y: Word)
    ensures var b := CutOff(x, y);
            && b[0] == Mark(false) && b[1] == Full(NodeHash(x, y), 0) && b[2] == Nil
            && b[3] == Full(x, 0) && b[4] == Full(y, 0)
            && (forall i :: 5 <= i < 31 ==> b[i] == Nil)
            && Has(b, 1) && !Has(b, 2) && !Has(b, 3) && !Has(b, 4) && Wire(b)
  {
  }

  /** Where the trie has more below, the genuine batch is accepted for the same root and
      holds other digests. */
  lemma CutOffDiffers(u: Tree, v: Tree, layer: nat, h: nat)
    requires layer < 64 && h == 256 - 4 * layer && Tidy(u, h - 2) && Tidy(v, h - 2) && !u.Empty?
    ensures var t := Node(Node(u, v), Empty);
            var b := CutOff(Dig(u, h - 2), Dig(v, h - 2));
            && Tidy(t, h)
            && Passed(VerifyBatchEasy(b, Dig(t, h), layer))
            && Passed(VerifyBatchEasy(BatchOf(Dig(t, h)), Dig(t, h), layer))
            && !HoldsWords(b, BatchOf(Dig(t, h)))
  {
    hide VerifyBatchEasy, Complete, HoldsWords, CutOff, BatchOf, InteriorNodesEasy, FinalLeafNodes, Wire;
    var t := Node(Node(u, v), Empty);
    CutOffAccepted(Dig(u, h - 2), Dig(v, h - 2), layer);
    GenuineAccepted(t, layer, h);
    WordsIff(CutOff(Dig(u, h - 2), Dig(v, h - 2)), t, layer, h);
  }

  /** With it in the table reads below its digests find nothing, whatever the trie held. */
  lemma CutOffReads(nodes: map<Word, Batch>, x: Word, y: Word, k: Key, batch: Batch)
    requires !k[0]
    ensures var root := NodeHash(NodeHash(x, y), DefaultLeaf);
            Get(nodes[root := CutOff(x, y)], Bare(root), k, batch, 0, 256) == Found(None)
  {
    hide Get, CutOff, Has;
    var root := NodeHash(NodeHash(x, y), DefaultLeaf);
    var b := CutOff(x, y);
    CutOffSlots(x, y);
    var n := nodes[root := b];
    var j := if k[1] then 4 else 3;
    GetStep(n, Bare(root), k, batch, 0, 256);
    GetStep(n, b[1], k, b, 1, 255);
    GetStep(n, b[j], k, b, j, 254);
    GetStep(n, Nil, k, b, 2 * j + 1, 253);
    GetStep(n, Nil, k, b, 2 * j + 2, 253);
  }

  // ----- a batch that reads cannot tell from the genuine one -----

  /** Reads look at whether a slot is empty, at its digest, and above the last level at
      whether it is a shortcut. */
  predicate Same(b: Batch, g: Batch, j: nat)
    requires j < 31
  {
    && (b[j] == Nil <==> g[j] == Nil) && SlotWord(b[j]) == SlotWord(g[j])
    && (j < 15 ==> (Flagged(b, j) <==> Flagged(g, j)))
  }

  predicate Mirrors(b: Batch, g: Batch) {
    b[0] == g[0] && forall j :: 0 < j < 31 ==> Same(b, g, j)
  }

  /** Nothing cut off or left over, no shortcut flag above other nodes or below a shortcut,
      and no slot filled with the default digest. */
  predicate Neat(b: Batch, i: nat)
    requires i < 15
    decreases 31 - i
  {
    var l, r := 2 * i + 1, 2 * i + 2;
    if Has(b, l) || Has(b, r) then
      && (i == 0 || !Flagged(b, i))
      && (if Has(b, l) then Neat(b, l) else b[l] == Nil && Blank(b, l))
      && (if Has(b, r) then Neat(b, r) else b[r] == Nil && Blank(b, r))
    else if Flagged(b, i) then Blank(b, l) && Blank(b, r) && (l < 15 ==> !Flagged(b, l) && !Flagged(b, r))
    else
      && i >= 7
      && (Filled(b, l) ==> SlotWord(b[l]) != DefaultLeaf) && (Filled(b, r) ==> SlotWord(b[r]) != DefaultLeaf)
  }

  predicate NeatBatch(b: Batch) {
    if b[0] == Mark(true) then !Flagged(b, 1) && !Flagged(b, 2) else Neat(b, 0)
  }

  lemma NeatKind(b: Batch, i: nat, h: int)
    requires i < 15 && Neat(b, i) && (i == 0 || Has(b, i))
    ensures i > 0 ==> (Hashed(b, i, h).LeafHash? <==> Flagged(b, i))
  {
  }

  /** A sound and neat node is, to a read, the genuine one with its hash. */
  lemma {:induction false} NeatSame(b: Batch, g: Batch, i: nat, u: Tree, h: nat, j: nat)
    requires i < 15 && Tidy(u, h) && Carried(g, i, u, h) && Sound(b, i, h) && Hashed(b, i, h) == Dig(u, h)
    requires Neat(b, i) && Wire(b) && j < 31 && Under(i, j)
    ensures Same(b, g, j)
    decreases 31 - i, 0
  {
    hide Carried, Blank, Depth, Has, Tidy, NodeSlot, Dig, Wire;
    var l, r := 2 * i + 1, 2 * i + 2;
    UnderChild(i, j);
    DepthDown(b, i);
    TidyStep(u, h);
    DigStep(u, h);
    CarriedParts(g, i, u, h);
    CarriedAt(g, i, u, h);
    var c := if j == l || Under(l, j) then l else r;
    if Has(b, l) || Has(b, r) {
      NeatChild(b, g, c, if c == l then u.l else u.r, h - 1, j);
    } else if Flagged(b, i) {
      if j != c { BothBlank(b, g, c, j); }
    } else {
      if j != c { UnderBottom(c, j); }
      LastSame(b, g, c, if c == l then u.l else u.r, h - 1);
    }
  }

  lemma NeatChild(b: Batch, g: Batch, c: nat, x: Tree, h: nat, j: nat)
    requires 0 < c < 15 && Tidy(x, h) && ChildView(g, c, x, h) && Wire(b) && j < 31 && (j == c || Under(c, j))
    requires if Has(b, c) then Sound(b, c, h) && SlotWord(b[c]) == Hashed(b, c, h) == Dig(x, h) && Neat(b, c)
             else Dig(x, h) == DefaultLeaf && b[c] == Nil && Blank(b, c)
    ensures Same(b, g, j)
    decreases 31 - c, 1
  {
    hide Carried, Blank, Has, Hashed, Dig, Neat, Wire;
    DigStep(x, h);
    if Has(b, c) {
      HashedKind(b, c, h);
      if j == c {
        NeatKind(b, c, h);
        CarriedParts(g, c, x, h);
        DigStep(x, h);
      } else {
        NeatSame(b, g, c, x, h, j);
      }
    } else if j != c {
      BothBlank(b, g, c, j);
    }
  }

  lemma BothBlank(b: Batch, g: Batch, c: nat, j: nat)
    requires Blank(b, c) && Blank(g, c) && j < 31 && Under(c, j)
    ensures Same(b, g, j)
  {
    BlankAt(b, c, j);
    BlankAt(g, c, j);
  }

  lemma LastSame(b: Batch, g: Batch, c: nat, x: Tree, h: nat)
    requires 15 <= c < 31 && Tidy(x, h) && ChildView(g, c, x, h)
    requires SlotWord(b[c]) == Dig(x, h) && (Filled(b, c) ==> SlotWord(b[c]) != DefaultLeaf)
    ensures Same(b, g, c)
  {
    DigStep(x, h);
  }

  lemma {:induction false} BlankSame(b: Batch, g: Batch, i: nat)
    requires i < 31 && Blank(g, i) && Mirrors(b, g)
    ensures Blank(b, i)
    decreases 31 - i
  {
    if i < 15 {
      assert Same(b, g, 2 * i + 1) && Same(b, g, 2 * i + 2);
      BlankSame(b, g, 2 * i + 1);
      BlankSame(b, g, 2 * i + 2);
    }
  }

  lemma SameAt(b: Batch, g: Batch, j: nat)
    requires Mirrors(b, g) && 0 < j < 31
    ensures Same(b, g, j)
  {
  }

  /** A node that mirrors the genuine one is neat. */
  lemma {:induction false} MirrorNeat(b: Batch, g: Batch, i: nat, u: Tree, h: nat)
    requires i < 15 && Tidy(u, h) && Carried(g, i, u, h) && Sound(b, i, h) && Hashed(b, i, h) == Dig(u, h)
    requires Mirrors(b, g)
    ensures Neat(b, i)
    decreases 31 - i
  {
    hide Carried, Blank, Depth, Has, Tidy, NodeSlot, Dig, Mirrors, HoldsWords;
    var l, r := 2 * i + 1, 2 * i + 2;
    DepthDown(b, i);
    TidyStep(u, h);
    DigStep(u, h);
    CarriedParts(g, i, u, h);
    CarriedAt(g, i, u, h);
    SameAt(b, g, l);
    SameAt(b, g, r);
    if i > 0 { SameAt(b, g, i); }
    if Has(b, l) || Has(b, r) {
      DigStep(u.l, h - 1);
      DigStep(u.r, h - 1);
      if Has(b, l) { HashedKind(b, l, h - 1); MirrorNeat(b, g, l, u.l, h - 1); } else { BlankSame(b, g, l); }
      if Has(b, r) { HashedKind(b, r, h - 1); MirrorNeat(b, g, r, u.r, h - 1); } else { BlankSame(b, g, r); }
    } else if Flagged(b, i) {
      BlankSame(b, g, l);
      BlankSame(b, g, r);
    } else {
      DigStep(u.l, h - 1);
      DigStep(u.r, h - 1);
      if i < 7 {
        MirrorWords(b, g);
        if !u.l.Empty? { DeeperWord(b, g, l, u.l, h - 1); } else { DeeperWord(b, g, r, u.r, h - 1); }
      }
    }
  }

  lemma MirrorWords(b: Batch, g: Batch)
    requires Mirrors(b, g)
    ensures HoldsWords(b, g)
  {
    forall j | 0 < j < 31 ensures SlotWord(b[j]) == SlotWord(g[j]) { SameAt(b, g, j); }
  }

  /** An accepted batch is, to reads, the batch the trie has there exactly when it is neat. */
  lemma MirrorsIff(b: Batch, t: Tree, layer: nat, h: nat)
    requires Wire(b) && layer <= 64 && h == 256 - 4 * layer && Tidy(t, h) && !t.Empty?
    requires Passed(VerifyBatchEasy(b, Dig(t, h), layer))
    ensures Mirrors(b, BatchOf(Dig(t, h))) <==> NeatBatch(b)
  {
    hide Carried, VerifyBatchEasy, Sound, Hashed, BatchOf, Dig, Mirrors, Neat, Same, Under;
    var g := BatchOf(Dig(t, h));
    VerifyBatchIff(b, Dig(t, h), layer);
    NotShortcut(b, h);
    DigStep(t, h);
    StoredBatch(t, h);
    if b[0] == Mark(true) {
      ShortcutMirrors(b, g);
    } else {
      if Mirrors(b, g) { MirrorNeat(b, g, 0, t, h); }
      if Neat(b, 0) {
        forall j | 0 < j < 31 ensures Same(b, g, j) {
          UnderRoot(j);
          NeatSame(b, g, 0, t, h, j);
        }
        AllSame(b, g);
      }
    }
  }

  lemma AllSame(b: Batch, g: Batch)
    requires b[0] == g[0] && forall j :: 0 < j < 31 ==> Same(b, g, j)
    ensures Mirrors(b, g)
  {
  }

  lemma ShortcutMirrors(b: Batch, g: Batch)
    requires Wire(b) && b[0] == g[0] == Mark(true)
    requires g[1].Full? && g[1].flag == 2 && g[2].Full? && g[2].flag == 2 && forall i :: 3 <= i < 31 ==> g[i] == Nil
    requires SlotWord(b[1]) == SlotWord(g[1]) && SlotWord(b[2]) == SlotWord(g[2])
    ensures Mirrors(b, g) <==> NeatBatch(b)
  {
    if Mirrors(b, g) { SameAt(b, g, 1); SameAt(b, g, 2); }
    forall j | 3 <= j < 31 ensures Same(b, g, j) { }
  }

  // ----- reports and reads -----

  lemma {:induction false} MirrorReports(b: Batch, g: Batch, i: nat)
    requires i < 15 && Wire(b) && Wire(g) && Mirrors(b, g)
    ensures InteriorNodes(b, i) == InteriorNodes(g, i) && FinalLeafNodes(b, i) == FinalLeafNodes(g, i)
    decreases 31 - i
  {
    hide Mirrors, InteriorNodes, FinalLeafNodes, Wire;
    var l, r := 2 * i + 1, 2 * i + 2;
    SameAt(b, g, l);
    SameAt(b, g, r);
    MirrorHas(b, g, l);
    MirrorHas(b, g, r);
    InteriorNodesStep(b, i);
    InteriorNodesStep(g, i);
    FinalLeafNodesStep(b, i);
    FinalLeafNodesStep(g, i);
    MirrorFlag(b, g, i);
    if Has(b, l) { MirrorReports(b, g, l); }
    if Has(b, r) { MirrorReports(b, g, r); }
  }

  lemma MirrorHas(b: Batch, g: Batch, i: nat)
    requires Mirrors(b, g)
    ensures Has(b, i) <==> Has(g, i)
  {
    if i < 15 {
      SameAt(b, g, 2 * i + 1);
      SameAt(b, g, 2 * i + 2);
    }
  }

  lemma MirrorFlag(b: Batch, g: Batch, i: nat)
    requires Mirrors(b, g) && i < 15
    ensures Wire(b) && Wire(g) ==> ((b[i] == Mark(true) || Flagged(b, i)) <==> (g[i] == Mark(true) || Flagged(g, i)))
    ensures Flagged(b, i) <==> Flagged(g, i)
  {
    if i > 0 { SameAt(b, g, i); }
  }

  /** Every batch of the table is, to reads, the one its digest commits to. */
  predicate MirrorTable(nodes: map<Word, Batch>) {
    forall w <- nodes :: Mirrors(nodes[w], BatchOf(w))
  }

  lemma {:induction false} GetMirrors(nodes: map<Word, Batch>, good: map<Word, Batch>, root: Slot, root': Slot,
                                      k: Key, batch: Batch, batch': Batch, i: nat, h: nat)
    requires h <= 256 && nodes.Keys == good.Keys && forall w <- nodes :: Mirrors(nodes[w], good[w])
    requires (root == Nil <==> root' == Nil) && SlotWord(root) == SlotWord(root')
    requires h % 4 != 0 ==> Level(i, h) && Mirrors(batch, batch')
    ensures Get(nodes, root, k, batch, i, h) == Get(good, root', k, batch', i, h)
    decreases h, 1
  {
    hide Mirrors, Get, Level;
    GetStep(nodes, root, k, batch, i, h);
    GetStep(good, root', k, batch', i, h);
    if root != Nil {
      if h % 4 == 0 {
        var w := SlotWord(root);
        if w in nodes {
          LevelRoot(h);
          GetChildren(nodes, good, k, nodes[w], good[w], 0, h);
        }
      } else {
        LevelIn(i, h);
        MirrorFlag(batch, batch', i);
        GetChildren(nodes, good, k, batch, batch', i, h);
      }
    }
  }

  lemma LevelIn(i: nat, h: nat)
    requires h % 4 != 0 && Level(i, h)
    ensures 0 < i < 15
  {
  }

  /** One step of a read. */
  lemma GetStep(nodes: map<Word, Batch>, root: Slot, k: Key, batch: Batch, i: nat, h: nat)
    requires h <= 256 && (h % 4 != 0 ==> Level(i, h))
    ensures root == Nil ==> Get(nodes, root, k, batch, i, h) == Found(None)
    ensures root != Nil && h % 4 == 0 && SlotWord(root) !in nodes ==> Get(nodes, root, k, batch, i, h) == Unavailable
    ensures root != Nil && h % 4 == 0 && SlotWord(root) in nodes ==>
              var b := nodes[SlotWord(root)];
              Get(nodes, root, k, batch, i, h) == GetIn(nodes, k, b, 0, h, b[0] == Mark(true))
    ensures root != Nil && h % 4 != 0 ==>
              Get(nodes, root, k, batch, i, h) == GetIn(nodes, k, batch, i, h, i < 31 && Flagged(batch, i))
  {
    hide Get, GetIn;
    if root == Nil {
      GetNone(nodes, k, batch, i, h);
    } else if h % 4 == 0 {
      GetLoads(nodes, root, k, batch, i, h);
    } else {
      GetInside(nodes, root, k, batch, i, h);
    }
  }

  lemma GetNone(nodes: map<Word, Batch>, k: Key, batch: Batch, i: nat, h: nat)
    requires h <= 256 && (h % 4 != 0 ==> Level(i, h))
    ensures Get(nodes, Nil, k, batch, i, h) == Found(None)
  {
  }

  lemma GetLoads(nodes: map<Word, Batch>, root: Slot, k: Key, batch: Batch, i: nat, h: nat)
    requires h <= 256 && h % 4 == 0 && root != Nil
    ensures Level(0, h)
    ensures SlotWord(root) !in nodes ==> Get(nodes, root, k, batch, i, h) == Unavailable
    ensures SlotWord(root) in nodes ==>
              var b := nodes[SlotWord(root)];
              Get(nodes, root, k, batch, i, h) == GetIn(nodes, k, b, 0, h, b[0] == Mark(true))
  {
  }

  lemma GetInside(nodes: map<Word, Batch>, root: Slot, k: Key, batch: Batch, i: nat, h: nat)
    requires h <= 256 && h % 4 != 0 && Level(i, h) && root != Nil
    ensures i < 31 && Get(nodes, root, k, batch, i, h) == GetIn(nodes, k, batch, i, h, Flagged(batch, i))
  {
  }

  function GetIn(nodes: map<Word, Batch>, k: Key, b: Batch, i: nat, h: nat, isShortcut: bool): Answer
    requires h <= 256 && Level(i, h)
  {
    var l, r := 2 * i + 1, 2 * i + 2;
    if isShortcut then Found(if SlotWord(b[l]) == Raw(k) then Some(SlotWord(b[r])) else None)
    else if h == 0 then PastEnd
    else if k[256 - h] then Get(nodes, b[r], k, b, r, h - 1)
    else Get(nodes, b[l], k, b, l, h - 1)
  }

  lemma GetChildren(nodes: map<Word, Batch>, good: map<Word, Batch>, k: Key, b: Batch, g: Batch, i: nat, h: nat)
    requires h <= 256 && nodes.Keys == good.Keys && forall w <- nodes :: Mirrors(nodes[w], good[w])
    requires Level(i, h) && i < 15 && Mirrors(b, g)
    ensures b[0] == g[0] && SlotWord(b[2 * i + 1]) == SlotWord(g[2 * i + 1])
    ensures SlotWord(b[2 * i + 2]) == SlotWord(g[2 * i + 2])
    ensures h > 0 ==>
              && ((h - 1) % 4 != 0 ==> Level(2 * i + 1, h - 1) && Level(2 * i + 2, h - 1))
              && Get(nodes, b[2 * i + 1], k, b, 2 * i + 1, h - 1) == Get(good, g[2 * i + 1], k, g, 2 * i + 1, h - 1)
              && Get(nodes, b[2 * i + 2], k, b, 2 * i + 2, h - 1) == Get(good, g[2 * i + 2], k, g, 2 * i + 2, h - 1)
    decreases h, 0
  {
    hide Get;
    SameAt(b, g, 2 * i + 1);
    SameAt(b, g, 2 * i + 2);
    if h > 0 {
      GetMirrors(nodes, good, b[2 * i + 1], g[2 * i + 1], k, b, g, 2 * i + 1, h - 1);
      GetMirrors(nodes, good, b[2 * i + 2], g[2 * i + 2], k, b, g, 2 * i + 2, h - 1);
    }
  }

  lemma {:induction false} NeatReportable(b: Batch, i: nat, h: int)
    requires i < 15 && Sound(b, i, h) && Neat(b, i) && b[0] == Mark(false) && Wire(b)
    ensures Reportable(b, i)
    decreases 31 - i
  {
    hide Blank, Has, Hashed;
    DepthDown(b, i);
    if Has(b, 2 * i + 1) { NeatReportable(b, 2 * i + 1, h - 1); }
    if Has(b, 2 * i + 2) { NeatReportable(b, 2 * i + 2, h - 1); }
  }

  /** An accepted neat batch is stored as a mirror of the trie's, and reports what it reports. */
  lemma NeatAnswer(b: Batch, t: Tree, layer: nat, h: nat)
    requires layer <= 64 && h == 256 - 4 * layer && h % 4 == 0 && Tidy(t, h) && !t.Empty?
    requires Wire(b) && NeatBatch(b) && Passed(VerifyBatchEasy(b, Dig(t, h), layer))
    ensures InteriorNodesEasy(b) == NextRoots(t, h)
    ensures Mirrors(b, BatchOf(Dig(t, h))) && Reportable(b, 0)
    ensures FinalLeafNodes(b, 0) == LeafNodes(Tops(t, 4))
  {
    hide VerifyBatchEasy, Sound, Neat, Mirrors, BatchOf, Dig, InteriorNodes, FinalLeafNodes, Hashed, Tops, LeafNodes,
         Wire;
    GenuineAccepted(t, layer, h);
    MirrorsIff(b, t, layer, h);
    MirrorReports(b, BatchOf(Dig(t, h)), 0);
    MarkSame(b, BatchOf(Dig(t, h)));
    VerifyBatchIff(b, Dig(t, h), layer);
    if b[0] == Mark(false) { NeatReportable(b, 0, h); } else { ShortcutReportable(b); }
  }

  lemma MarkSame(b: Batch, g: Batch)
    requires Mirrors(b, g)
    ensures b[0] == g[0] && (Wire(b) ==> b[0].Mark?)
  {
  }

  lemma ShortcutReportable(b: Batch)
    requires Wire(b) && b[0] == Mark(true)
    ensures Reportable(b, 0)
  {
  }

  /** The trie's own batches are neat. */
  lemma GenuineNeat(t: Tree, layer: nat, h: nat)
    requires layer <= 64 && h == 256 - 4 * layer && Tidy(t, h) && !t.Empty?
    ensures NeatBatch(BatchOf(Dig(t, h)))
  {
    hide VerifyBatchEasy, BatchOf, Dig, NeatBatch, InteriorNodesEasy, FinalLeafNodes, Wire;
    GenuineAccepted(t, layer, h);
    MirrorsIff(BatchOf(Dig(t, h)), t, layer, h);
  }

  /** A table of mirrors answers every read as the table of the batches themselves. */
  lemma MirrorReads(nodes: map<Word, Batch>, t: Tree, k: Key, batch: Batch)
    requires MirrorTable(nodes) && Tidy(t, 256) && !t.Empty? && Held(nodes.Keys, t, 256)
    ensures Get(nodes, Bare(Dig(t, 256)), k, batch, 0, 256) == Found(Lookup(t, k, 256))
  {
    hide Get, Mirrors, Held, Below, BatchOf, Dig;
    var good := map w | w in nodes :: BatchOf(w);
    GetMirrors(nodes, good, Bare(Dig(t, 256)), Bare(Dig(t, 256)), k, batch, batch, 0, 256);
    assert good.Keys == nodes.Keys;
    GetIsLookup(good, Bare(Dig(t, 256)), k, batch, 0, t, 256);
  }
}
