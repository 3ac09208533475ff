/**
 Reading a trie through its batches: `loadChildren`, `get` and `merkleProof`,
 and the descent in the tree that they amount to.
 */
module Reads {
  import opened Words
  import opened Trees
  import opened Batches

  /** What a read comes to: a value or none, a batch missing from the table, or a bit index past the key. */
  datatype Answer = Found(value: Option<Word>) | Unavailable | PastEnd

  datatype Children = Children(batch: Batch, i: nat, l: Slot, r: Slot, isShortcut: bool)

  /** The children of the node at slot i; at a batch boundary from the batch its digest names. */
  function LoadChildren(nodes: map<Word, Batch>, root: Slot, h: nat, i: nat, batch: Batch): Option<Children>
    requires h % 4 != 0 ==> Level(i, h)
  {
    if h % 4 == 0 then
      var w := SlotWord(root);
      if w in nodes then
        var b := nodes[w];
        Some(Children(b, 0, b[1], b[2], b[0] == Mark(true)))
      else None
    else
      Some(Children(batch, i, batch[2 * i + 1], batch[2 * i + 2], batch[i].Full? && batch[i].flag == 1))
  }

  function Get(nodes: map<Word, Batch>, root: Slot, k: Key, batch: Batch, i: nat, h: nat): Answer
    requires h <= 256 && (h % 4 != 0 ==> Level(i, h))
    decreases h
  {
    if root.Nil? then Found(None)
    else
      match LoadChildren(nodes, root, h, i, batch)
      case None => Unavailable
      case Some(c) =>
        if c.isShortcut then
          Found(if SlotWord(c.l) == Raw(k) then Some(SlotWord(c.r)) else None)
        else if h == 0 then PastEnd
        else if k[256 - h] then Get(nodes, c.r, k, c.batch, 2 * c.i + 2, h - 1)
        else Get(nodes, c.l, k, c.batch, 2 * c.i + 1, h - 1)
  }

  /** An audit path, deepest sibling first, and where it ends. */
  datatype Proof =
    | Proof(path: seq<Word>, included: bool, proofKey: Option<Word>, proofVal: Option<Word>)
    | NoProof

  function Extend(p: Proof, sibling: Slot): Proof {
    if p.NoProof? then p else p.(path := p.path + [SlotWord(sibling)])
  }

  function MerkleProof(nodes: map<Word, Batch>, root: Slot, k: Key, batch: Batch, h: nat, i: nat): Proof
    requires h <= 256 && (h % 4 != 0 ==> Level(i, h))
    decreases h
  {
    if root.Nil? then Proof([], false, None, None)
    else
      match LoadChildren(nodes, root, h, i, batch)
      case None => NoProof
      case Some(c) =>
        if c.isShortcut || h == 0 then
          if SlotWord(c.l) == Raw(k) then Proof([], true, None, Some(SlotWord(c.r)))
          else Proof([], false, Some(SlotWord(c.l)), Some(SlotWord(c.r)))
        else if k[256 - h] then Extend(MerkleProof(nodes, c.r, k, c.batch, h - 1, 2 * c.i + 2), c.l)
        else Extend(MerkleProof(nodes, c.l, k, c.batch, h - 1, 2 * c.i + 1), c.r)
  }

  // ----- the same on trees -----

  /** Where the descent for `k` ends. */
  function Reached(t: Tree, k: Key, h: nat): Tree
    requires h <= 256 && Tidy(t, h)
    decreases t
  {
    if t.Node? then Reached(if k[256 - h] then t.r else t.l, k, h - 1) else t
  }

  /** The siblings met on the way, deepest first. */
  function Path(t: Tree, k: Key, h: nat): (p: seq<Word>)
    requires h <= 256 && Tidy(t, h)
    ensures |p| <= h
    decreases t
  {
    if t.Node? then
      if k[256 - h] then Path(t.r, k, h - 1) + [Dig(t.l, h - 1)]
      else Path(t.l, k, h - 1) + [Dig(t.r, h - 1)]
    else []
  }

  function ProofOf(t: Tree, k: Key, h: nat): Proof
    requires h <= 256 && Tidy(t, h)
  {
    match Reached(t, k, h)
    case Leaf(k', v) =>
      if k' == k then Proof(Path(t, k, h), true, None, Some(v))
      else Proof(Path(t, k, h), false, Some(Raw(k')), Some(v))
    case _ => Proof(Path(t, k, h), false, None, None)
  }

  /** The table and the batch in hand carry the subtree `t`. */
  predicate Carries(nodes: map<Word, Batch>, root: Slot, batch: Batch, i: nat, t: Tree, h: nat)
    requires h <= 256 && Tidy(t, h)
  {
    && Consistent(nodes) && Held(nodes.Keys, t, h) && Rooted(root, t, h)
    && (h % 4 != 0 ==> Level(i, h) && batch[i] == root && Below(batch, i, root))
  }

  /** `c` is what `loadChildren` should give for the nonempty subtree `t`. */
  predicate Loaded(nodes: map<Word, Batch>, c: Children, t: Tree, h: nat)
    requires h <= 256 && Tidy(t, h)
  {
    && c.isShortcut == t.Leaf?
    && (t.Leaf? ==> c.l == Full(Raw(t.k), 2) && c.r == Full(t.v, 2))
    && (t.Node? ==>
          && c.l == NodeSlot(t.l, h - 1) && Carries(nodes, c.l, c.batch, 2 * c.i + 1, t.l, h - 1)
          && c.r == NodeSlot(t.r, h - 1) && Carries(nodes, c.r, c.batch, 2 * c.i + 2, t.r, h - 1))
  }

  lemma BatchLoaded(nodes: map<Word, Batch>, b: Batch, i: nat, s: Slot, t: Tree, h: nat, c: Children)
    requires h <= 256 && Tidy(t, h) && !t.Empty? && Consistent(nodes) && Held(nodes.Keys, t, h)
    requires s == NodeSlot(t, h) && Level(i, h) && Below(b, i, s)
    requires c == Children(b, i, b[2 * i + 1], b[2 * i + 2], t.Leaf?)
    ensures Loaded(nodes, c, t, h)
  {
    hide Consistent, NodeSlot, Below, Held, Carries;
    ChildOf(t, h);
    BelowParts(b, i, s);
    if t.Node? {
      HeldParts(nodes.Keys, t, h);
      ChildCarried(nodes, b, i, 2 * i + 1, t.l, h);
      ChildCarried(nodes, b, i, 2 * i + 2, t.r, h);
    }
  }

  lemma HeldParts(known: set<Word>, t: Tree, h: nat)
    requires Tidy(t, h) && Held(known, t, h) && t.Node?
    ensures Held(known, t.l, h - 1) && Held(known, t.r, h - 1)
  {
  }

  lemma ChildCarried(nodes: map<Word, Batch>, b: Batch, i: nat, j: nat, u: Tree, h: nat)
    requires 0 < h <= 256 && Tidy(u, h - 1) && Consistent(nodes) && Held(nodes.Keys, u, h - 1)
    requires Level(i, h) && i < 15 && (j == 2 * i + 1 || j == 2 * i + 2)
    requires b[j] == NodeSlot(u, h - 1) && Below(b, j, b[j])
    ensures Carries(nodes, b[j], b, j, u, h - 1)
  {
    hide Consistent, NodeSlot, Below, Held;
  }

  lemma LoadChildrenTree(nodes: map<Word, Batch>, root: Slot, batch: Batch, i: nat, t: Tree, h: nat)
    requires h <= 256 && Tidy(t, h) && Carries(nodes, root, batch, i, t, h) && !t.Empty?
    ensures var lc := LoadChildren(nodes, root, h, i, batch);
            lc.Some? && Loaded(nodes, lc.value, t, h)
  {
    hide Below, Loaded, Level;
    var s := NodeSlot(t, h);
    ChildOf(t, h);
    var c := LoadChildren(nodes, root, h, i, batch).value;
    if h % 4 == 0 {
      assert Level(0, h) by { LevelRoot(h); }
      BatchBelow(SlotWord(root));
      BatchLoaded(nodes, c.batch, 0, s, t, h, c);
    } else {
      BatchLoaded(nodes, batch, i, s, t, h, c);
    }
  }

  lemma LevelRoot(h: nat)
    requires h % 4 == 0
    ensures Level(0, h)
  {
  }

  /** A read through the batches is the descent in the tree; on a held tree it
      finds every batch and never asks for a bit past the key. */
  lemma {:induction false} GetIsLookup(nodes: map<Word, Batch>, root: Slot, k: Key, batch: Batch, i: nat, t: Tree,
                                       h: nat)
    requires h <= 256 && Tidy(t, h) && Carries(nodes, root, batch, i, t, h)
    ensures Get(nodes, root, k, batch, i, h) == Found(Lookup(t, k, h))
    decreases h
  {
    hide Below, Held, Consistent, Level, LoadChildren;
    if !t.Empty? {
      LoadChildrenTree(nodes, root, batch, i, t, h);
      if t.Node? {
        var c := LoadChildren(nodes, root, h, i, batch).value;
        if k[256 - h] {
          GetIsLookup(nodes, c.r, k, c.batch, 2 * c.i + 2, t.r, h - 1);
        } else {
          GetIsLookup(nodes, c.l, k, c.batch, 2 * c.i + 1, t.l, h - 1);
        }
      }
    }
  }

  lemma ProofStep(t: Tree, k: Key, h: nat)
    requires h <= 256 && Tidy(t, h)
    ensures t.Node? && k[256 - h] ==> ProofOf(t, k, h) == Extend(ProofOf(t.r, k, h - 1), NodeSlot(t.l, h - 1))
    ensures t.Node? && !k[256 - h] ==> ProofOf(t, k, h) == Extend(ProofOf(t.l, k, h - 1), NodeSlot(t.r, h - 1))
    ensures t.Empty? ==> ProofOf(t, k, h) == Proof([], false, None, None)
    ensures t.Leaf? && t.k == k ==> ProofOf(t, k, h) == Proof([], true, None, Some(t.v))
    ensures t.Leaf? && t.k != k ==> ProofOf(t, k, h) == Proof([], false, Some(Raw(t.k)), Some(t.v))
  {
    if t.Node? {
      ChildOf(t.l, h - 1);
      ChildOf(t.r, h - 1);
    }
  }

  /** `merkleProof` collects the siblings of the descent. */
  lemma {:induction false} MerkleProofIsPath(nodes: map<Word, Batch>, root: Slot, k: Key, batch: Batch, i: nat,
                                             t: Tree, h: nat)
    requires h <= 256 && Tidy(t, h) && Carries(nodes, root, batch, i, t, h)
    ensures MerkleProof(nodes, root, k, batch, h, i) == ProofOf(t, k, h)
    decreases h
  {
    hide Below, Held, Consistent, Level, ProofOf, Extend, LoadChildren;
    ProofStep(t, k, h);
    if !t.Empty? {
      LoadChildrenTree(nodes, root, batch, i, t, h);
      if t.Node? {
        var c := LoadChildren(nodes, root, h, i, batch).value;
        if k[256 - h] {
          MerkleProofIsPath(nodes, c.r, k, c.batch, 2 * c.i + 2, t.r, h - 1);
        } else {
          MerkleProofIsPath(nodes, c.l, k, c.batch, 2 * c.i + 1, t.l, h - 1);
        }
      }
    }
  }
}
