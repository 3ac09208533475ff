/**
 Checking a batch received for a digest: `verifyBatch` rehashes its slots, level by
 level, against the digests kept in them and the root asked for.
 */
module Layers {
  import opened Words
  import opened Trees
  import opened Batches

  predicate Flagged(b: Batch, i: nat)
    requires i < 31
  {
    b[i].Full? && b[i].flag == 1
  }

  predicate Filled(b: Batch, i: nat)
    requires i < 31
  {
    b[i] != Nil
  }

  /** The slot has a filled child slot in the batch. */
  predicate Has(b: Batch, i: nat) {
    i < 15 && (Filled(b, 2 * i + 1) || Filled(b, 2 * i + 2))
  }

  /** What `parseBatch` can give: a mark, and slots that are empty or a digest with a flag;
      a shortcut batch has a key and a value and nothing else. */
  predicate Wire(b: Batch) {
    && b[0].Mark? && (forall i :: 1 <= i < 31 ==> b[i] == Nil || b[i].Full?)
    && (b[0] == Mark(true) ==> b[1].Full? && b[2].Full? && forall i :: 3 <= i < 31 ==> b[i] == Nil)
  }

  /** `verifyBatch`: the hash found and whether it is the one expected, or an index past the
      end of a slot. */
  datatype Check = Check(res: Option<Word>, ok: bool) | Panic

  predicate Passed(c: Check) {
    c.Check? && c.ok
  }

  function OrDefault(w: Option<Word>): Word {
    if w.Some? then w.value else DefaultLeaf
  }

  /** The hash of two children that were not gone into. */
  function DirectHash(b: Batch, i: nat, height: int): Option<Word>
    requires i < 15
  {
    var l, r := b[2 * i + 1], b[2 * i + 2];
    if Flagged(b, i) then Some(LeafHash(SlotWord(l), SlotWord(r), height % 256))
    else if Filled(b, 2 * i + 1) || Filled(b, 2 * i + 2) then Some(NodeHash(SlotWord(l), SlotWord(r)))
    else None
  }

  /** The hashes of the children that were gone into, against the digest expected here. */
  function Combine(b: Batch, i: nat, l: Option<Word>, r: Option<Word>, h: int, root: Word): Check
    requires i < 15
  {
    if l.None? && r.None? && (i == 0 || !Filled(b, i)) then Panic
    else if l.None? && r.None? && Flagged(b, i) && !(Filled(b, 2 * i + 1) && Filled(b, 2 * i + 2)) then Panic
    else
      var res := if l.None? && r.None? then DirectHash(b, i, h) else Some(NodeHash(OrDefault(l), OrDefault(r)));
      if i == 0 then Check(res, res == Some(root))
      else if !Filled(b, i) then Panic
      else Check(res, res == Some(SlotWord(b[i])))
  }

  function VerifyNode(b: Batch, i: nat, sub: nat, height: int, root: Word): Check
    requires i < 15
    decreases sub
  {
    if sub == 0 then Check(None, false)
    else
      var l, r := 2 * i + 1, 2 * i + 2;
      var cl := if Has(b, l) then VerifyNode(b, l, sub - 1, height, root) else Check(None, true);
      if !Passed(cl) then (if cl.Panic? then Panic else Check(None, false))
      else
        var cr := if Has(b, r) then VerifyNode(b, r, sub - 1, height, root) else Check(None, true);
        if !Passed(cr) then (if cr.Panic? then Panic else Check(None, false))
        else Combine(b, i, cl.res, cr.res, height + sub, root)
  }

  function VerifyShortcut(b: Batch, height: int, root: Word): Check {
    if exists i :: 3 <= i < 31 && b[i] != Nil then Check(None, false)
    else
      var res := LeafHash(SlotWord(b[1]), SlotWord(b[2]), height % 256);
      Check(Some(res), res == root)
  }

  function VerifyBatchEasy(b: Batch, root: Word, layer: int): Check {
    if b[0] != Mark(false) then VerifyShortcut(b, 256 - 4 * layer, root)
    else VerifyNode(b, 0, 4, 256 - 4 * (layer + 1), root)
  }

  // ----- the meaning of acceptance -----

  /** The recursive hash of slot i.  Children without children of their own are gone into
      only when neither has any; next to one that has, such a child counts as empty. */
  function Hashed(b: Batch, i: nat, h: int): Word
    requires i < 15
    decreases 31 - i
  {
    var l, r := 2 * i + 1, 2 * i + 2;
    if Has(b, l) || Has(b, r) then
      NodeHash(if Has(b, l) then Hashed(b, l, h - 1) else DefaultLeaf,
               if Has(b, r) then Hashed(b, r, h - 1) else DefaultLeaf)
    else if Flagged(b, i) then LeafHash(SlotWord(b[l]), SlotWord(b[r]), h % 256)
    else NodeHash(SlotWord(b[l]), SlotWord(b[r]))
  }

  /** Every slot with children holds their recursive hash, and no slot the hashing looks
      into is missing. */
  predicate Sound(b: Batch, i: nat, h: int)
    requires i < 15
    decreases 31 - i
  {
    var l, r := 2 * i + 1, 2 * i + 2;
    && (i > 0 ==> Filled(b, i))
    && if Has(b, l) || Has(b, r) then
         && (Has(b, l) ==> Sound(b, l, h - 1) && SlotWord(b[l]) == Hashed(b, l, h - 1))
         && (Has(b, r) ==> Sound(b, r, h - 1) && SlotWord(b[r]) == Hashed(b, r, h - 1))
       else i > 0 && (Flagged(b, i) ==> Filled(b, l) && Filled(b, r))
  }

  function Depth(i: nat): nat {
    if i == 0 then 0 else if i < 3 then 1 else if i < 7 then 2 else if i < 15 then 3 else 4
  }

  /** The check of slot i accepts for the digest `expected` exactly when the slot is sound
      and hashes to it. */
  predicate Right(b: Batch, i: nat, h: int, expected: Word, c: Check)
    requires i < 15
  {
    && (Passed(c) <==> (Sound(b, i, h) && Hashed(b, i, h) == expected))
    && (Passed(c) ==> c.res == Some(Hashed(b, i, h)))
  }

  /** Every slot the check goes into, in whatever batch. */
  lemma {:induction false} VerifyNodeIff(b: Batch, i: nat, sub: nat, height: int, root: Word)
    requires i < 15 && sub == 4 - Depth(i) && (i == 0 || Has(b, i))
    ensures Right(b, i, height + sub, if i == 0 then root else SlotWord(b[i]), VerifyNode(b, i, sub, height, root))
    decreases sub
  {
    hide Has, Flagged, Filled, Depth, Combine, Sound, Hashed;
    var l, r := 2 * i + 1, 2 * i + 2;
    DepthDown(b, i);
    var cl, cr := Check(None, true), Check(None, true);
    if Has(b, l) {
      VerifyNodeIff(b, l, sub - 1, height, root);
      cl := VerifyNode(b, l, sub - 1, height, root);
    }
    if Has(b, r) {
      VerifyNodeIff(b, r, sub - 1, height, root);
      cr := VerifyNode(b, r, sub - 1, height, root);
    }
    CombineRight(b, i, cl, cr, height + sub, root);
  }

  lemma DepthDown(b: Batch, i: nat)
    requires i < 15
    ensures Depth(i) < 4 && Depth(2 * i + 1) == Depth(i) + 1 == Depth(2 * i + 2)
    ensures Has(b, 2 * i + 1) || Has(b, 2 * i + 2) ==> i < 7
  {
  }

  lemma CombineRight(b: Batch, i: nat, cl: Check, cr: Check, h: int, root: Word)
    requires i < 15 && (i == 0 || Has(b, i))
    requires var l, r := 2 * i + 1, 2 * i + 2;
             && (if Has(b, l) then l < 15 && Right(b, l, h - 1, SlotWord(b[l]), cl) else cl == Check(None, true))
             && (if Has(b, r) then r < 15 && Right(b, r, h - 1, SlotWord(b[r]), cr) else cr == Check(None, true))
    ensures var expected := if i == 0 then root else SlotWord(b[i]);
            var c := if !Passed(cl) then cl else if !Passed(cr) then cr else Combine(b, i, cl.res, cr.res, h, root);
            && (Passed(c) <==> (Sound(b, i, h) && Hashed(b, i, h) == expected))
            && (Passed(c) ==> c.res == Some(Hashed(b, i, h)))
  {
  }

  /** `verifyBatchEasy` accepts a batch at a layer exactly when it is a shortcut batch whose
      key and value hash to the root, or is sound and hashes to it, at that layer's heights. */
  lemma VerifyBatchIff(b: Batch, root: Word, layer: int)
    requires Wire(b)
    ensures Passed(VerifyBatchEasy(b, root, layer)) <==>
              if b[0] == Mark(true) then root == LeafHash(SlotWord(b[1]), SlotWord(b[2]), (256 - 4 * layer) % 256)
              else Sound(b, 0, 256 - 4 * layer) && Hashed(b, 0, 256 - 4 * layer) == root
  {
    hide VerifyNode, Sound, Hashed;
    VerifyNodeIff(b, 0, 4, 256 - 4 * (layer + 1), root);
  }

  // ----- indices past the end of a slot -----

  predicate Intact(b: Batch, i: nat, h: int)
    requires i < 15
  {
    Sound(b, i, h) && Hashed(b, i, h) == SlotWord(b[i])
  }

  /** The slot itself is missing, or is the root of nothing, or a shortcut without its key and value. */
  predicate BreaksHere(b: Batch, i: nat)
    requires i < 15
  {
    var l, r := 2 * i + 1, 2 * i + 2;
    || (i > 0 && !Filled(b, i))
    || (!Has(b, l) && !Has(b, r) && (i == 0 || (Flagged(b, i) && !(Filled(b, l) && Filled(b, r)))))
  }

  /** Below on the left, below on the right behind an intact left side, or here with both intact. */
  predicate Breaks(b: Batch, i: nat, h: int)
    requires i < 15
    decreases 31 - i
  {
    var l, r := 2 * i + 1, 2 * i + 2;
    if Has(b, l) && !Intact(b, l, h - 1) then Breaks(b, l, h - 1)
    else if Has(b, r) && !Intact(b, r, h - 1) then Breaks(b, r, h - 1)
    else BreaksHere(b, i)
  }

  lemma {:induction false} VerifyNodePanics(b: Batch, i: nat, sub: nat, height: int, root: Word)
    requires i < 15 && sub == 4 - Depth(i) && (i == 0 || Has(b, i))
    ensures VerifyNode(b, i, sub, height, root).Panic? <==> Breaks(b, i, height + sub)
    decreases sub
  {
    hide Has, Flagged, Filled, Depth, Sound, Hashed, Combine, Breaks;
    var l, r := 2 * i + 1, 2 * i + 2;
    DepthDown(b, i);
    var cl, cr := Check(None, true), Check(None, true);
    if Has(b, l) {
      VerifyNodeIff(b, l, sub - 1, height, root);
      VerifyNodePanics(b, l, sub - 1, height, root);
      cl := VerifyNode(b, l, sub - 1, height, root);
    }
    if Has(b, r) {
      VerifyNodeIff(b, r, sub - 1, height, root);
      VerifyNodePanics(b, r, sub - 1, height, root);
      cr := VerifyNode(b, r, sub - 1, height, root);
    }
    CombinePanics(b, i, cl, cr, height + sub, root);
  }

  lemma CombinePanics(b: Batch, i: nat, cl: Check, cr: Check, h: int, root: Word)
    requires i < 15 && (i == 0 || Has(b, i))
    requires var l, r := 2 * i + 1, 2 * i + 2;
             && (if Has(b, l) then
                   l < 15 && Right(b, l, h - 1, SlotWord(b[l]), cl) && (cl.Panic? <==> Breaks(b, l, h - 1))
                 else cl == Check(None, true))
             && (if Has(b, r) then
                   r < 15 && Right(b, r, h - 1, SlotWord(b[r]), cr) && (cr.Panic? <==> Breaks(b, r, h - 1))
                 else cr == Check(None, true))
    ensures var c := if !Passed(cl) then cl else if !Passed(cr) then cr else Combine(b, i, cl.res, cr.res, h, root);
            c.Panic? <==> Breaks(b, i, h)
  {
    hide Has, Sound, Hashed;
  }

  /** Exactly when the check indexes past the end of a slot: never on a shortcut batch, and
      always on a regular one without anything two levels down. */
  lemma VerifyBatchPanics(b: Batch, root: Word, layer: int)
    requires Wire(b)
    ensures VerifyBatchEasy(b, root, layer).Panic? <==> b[0] == Mark(false) && Breaks(b, 0, 256 - 4 * layer)
    ensures b[0] == Mark(false) && !Has(b, 1) && !Has(b, 2) ==> VerifyBatchEasy(b, root, layer).Panic?
  {
    hide VerifyNode, Intact;
    VerifyNodePanics(b, 0, 4, 256 - 4 * (layer + 1), root);
  }

  // ----- batches with nothing cut off or left over -----

  /** Nothing lies strictly below slot i. */
  predicate Blank(b: Batch, i: nat)
    decreases 31 - i
  {
    i < 15 ==> b[2 * i + 1] == Nil && b[2 * i + 2] == Nil && Blank(b, 2 * i + 1) && Blank(b, 2 * i + 2)
  }

  /** No slot strictly below i stands for anything but an empty subtree. */
  predicate Vacant(b: Batch, i: nat) {
    forall j :: 0 <= j < 31 && Under(i, j) ==> SlotWord(b[j]) == DefaultLeaf
  }

  /** Interior nodes are gone into down to the last level of the batch, and nothing lies
      below shortcuts or beside the nodes. */
  predicate Proper(b: Batch, i: nat)
    requires i < 15
    decreases 31 - i
  {
    var l, r := 2 * i + 1, 2 * i + 2;
    if Has(b, l) || Has(b, r) then
      && (if Has(b, l) then Proper(b, l) else SlotWord(b[l]) == DefaultLeaf && Vacant(b, l))
      && (if Has(b, r) then Proper(b, r) else SlotWord(b[r]) == DefaultLeaf && Vacant(b, r))
    else if Flagged(b, i) then Vacant(b, l) && Vacant(b, r)
    else i >= 7
  }

  /** The same for a whole batch; a shortcut batch has nothing to cut off. */
  predicate Complete(b: Batch) {
    b[0] == Mark(true) || Proper(b, 0)
  }

  lemma UnderBottom(i: nat, j: nat)
    requires 15 <= i && j < 31
    ensures !Under(i, j)
  {
    if Under(i, j) {
      UnderDouble(i, j);
    }
  }

  lemma {:induction false} UnderDouble(i: nat, j: nat)
    requires Under(i, j)
    ensures j >= 2 * i + 1
    decreases j
  {
    if (j - 1) / 2 != i {
      UnderDouble(i, (j - 1) / 2);
    }
  }

  lemma {:induction false} BlankAt(b: Batch, i: nat, j: nat)
    requires Blank(b, i) && j < 31 && Under(i, j)
    ensures b[j] == Nil
    decreases 31 - i
  {
    UnderChild(i, j);
    if i < 15 {
      if Under(2 * i + 1, j) { BlankAt(b, 2 * i + 1, j); }
      if Under(2 * i + 2, j) { BlankAt(b, 2 * i + 2, j); }
    } else {
      UnderBottom(i, j);
    }
  }

  lemma {:induction false} UnderRoot(j: nat)
    requires 0 < j
    ensures Under(0, j)
  {
    if (j - 1) / 2 != 0 {
      UnderRoot((j - 1) / 2);
    }
  }

  lemma {:induction false} BlankVacant(b: Batch, i: nat)
    requires i < 31 && Blank(b, i)
    ensures Vacant(b, i)
  {
    forall j | 0 <= j < 31 && Under(i, j) ensures SlotWord(b[j]) == DefaultLeaf { BlankAt(b, i, j); }
  }

  lemma HashedKind(b: Batch, i: nat, h: int)
    requires i < 15
    ensures Hashed(b, i, h) != DefaultLeaf
    ensures Hashed(b, i, h).LeafHash? <==> !Has(b, 2 * i + 1) && !Has(b, 2 * i + 2) && Flagged(b, i)
  {
  }

  /** Two complete nodes with the same recursive hash hold the same words in every slot below. */
  lemma {:induction false} SameWords(b: Batch, c: Batch, i: nat, h: int, j: nat)
    requires i < 15 && j < 31 && Under(i, j)
    requires Sound(b, i, h) && Sound(c, i, h) && Proper(b, i) && Proper(c, i)
    requires Hashed(b, i, h) == Hashed(c, i, h)
    ensures SlotWord(b[j]) == SlotWord(c[j])
    decreases 31 - i
  {
    hide Has, Flagged, Filled, Vacant;
    UnderChild(i, j);
    DepthDown(b, i);
    DepthDown(c, i);
    var n := if j == 2 * i + 1 || Under(2 * i + 1, j) then 2 * i + 1 else 2 * i + 2;
    HashedKind(b, i, h);
    HashedKind(c, i, h);
    if n >= 15 { UnderBottom(n, j); }
    if Has(b, n) { HashedKind(b, n, h - 1); }
    if Has(c, n) { HashedKind(c, n, h - 1); }
    if Has(b, n) && Has(c, n) {
      if j != n { SameWords(b, c, n, h - 1, j); }
    } else if j != n && n < 15 {
      VacantAt(b, n, j);
      VacantAt(c, n, j);
    }
  }

  lemma VacantAt(b: Batch, i: nat, j: nat)
    requires j < 31 && Under(i, j)
    ensures Vacant(b, i) ==> SlotWord(b[j]) == DefaultLeaf
  {
  }

  /** Two complete batches accepted for one root at one layer have the same mark and hold the
      same words; a shortcut batch never stands in for another. */
  lemma AcceptedSame(b: Batch, c: Batch, root: Word, layer: int, j: nat)
    requires Wire(b) && Wire(c) && Complete(b) && Complete(c) && 0 < j < 31
    requires Passed(VerifyBatchEasy(b, root, layer)) && Passed(VerifyBatchEasy(c, root, layer))
    ensures b[0] == c[0] && SlotWord(b[j]) == SlotWord(c[j])
  {
    hide VerifyBatchEasy, Sound, Hashed, Under, Proper;
    VerifyBatchIff(b, root, layer);
    VerifyBatchIff(c, root, layer);
    NotShortcut(b, 256 - 4 * layer);
    NotShortcut(c, 256 - 4 * layer);
    if b[0] == Mark(false) {
      UnderRoot(j);
      SameWords(b, c, 0, 256 - 4 * layer, j);
    }
  }

  lemma NotShortcut(b: Batch, h: int)
    ensures Sound(b, 0, h) ==> !Hashed(b, 0, h).LeafHash?
  {
  }
}
