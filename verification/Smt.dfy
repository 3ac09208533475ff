/**
 The trie object: a root, the batches not yet committed, and the node table of the
 database.  `update` works in place on batch arrays; every method is proved against
 `Updates.Apply`, and records the accesses it makes to memory it shares.
 */
module Smt {
  import opened Words
  import opened Trees
  import opened Updates
  import opened Requests
  import opened Batches
  import opened Traces
  import opened Reads

  /** Cuts the keys where the first one has bit `d` set. */
  method SplitKeys(s: seq<KV>, d: nat) returns (n: nat)
    requires d < 256
    ensures n == SplitAt(s, d)
  {
    n := 0;
    while n < |s|
      invariant n <= |s|
      invariant SplitAt(s, d) == n + SplitAt(s[n..], d)
    {
      if s[n].k[d] {
        return;
      }
      assert s[n..][1..] == s[n + 1..];
      n := n + 1;
    }
  }

  ghost predicate Ranked(s: seq<KV>, k: Key, r: nat) {
    forall i :: 0 <= i < |s| ==>
      if i < r then Less(s[i].k, k) && !Less(k, s[i].k) && s[i].k != k
      else if i == r then !Less(s[i].k, k) && (s[i].k == k <==> !Less(k, s[i].k))
      else Less(k, s[i].k) && !Less(s[i].k, k) && s[i].k != k
  }

  lemma RankRanked(s: seq<KV>, k: Key)
    requires Sorted(s)
    ensures Ranked(s, k, Rank(s, k))
  {
    RankSplits(s, k);
    forall i | 0 <= i < |s| { LessTotal(s[i].k, k); }
  }

  /** Adds a shortcut on the way to the keys to be updated. */
  method MaybeAddShortcutToKV(s: seq<KV>, k: Key, v: Word) returns (r: seq<KV>)
    requires s != [] && Sorted(s)
    ensures r == Merge(s, k, v)
  {
    RankRanked(s, k);
    if Less(k, s[0].k) {
      r := [KV(k, v)] + s;
    } else if Less(s[|s| - 1].k, k) {
      r := s + [KV(k, v)];
    } else {
      r := MergeInside(s, k, v, Rank(s, k));
    }
  }

  /** Its loop, for a shortcut key within the range of the batch. */
  method MergeInside(s: seq<KV>, k: Key, v: Word, ghost rk: nat) returns (r: seq<KV>)
    requires rk == Rank(s, k) < |s| && Ranked(s, k, rk) && (rk == 0 ==> s[0].k == k)
    ensures r == Merge(s, k, v)
  {
    hide Less, Merge, Rank;
    MergeCases(s, k, v, rk);
    r := [];
    var higher := false;
    var i := 0;
    while i < |s|
      invariant 0 <= i <= |s|
      invariant higher <==> i > 0 && rk > 0
      invariant i <= rk ==> r == []
      invariant i > rk ==> s[rk] == KV(k, DefaultLeaf) && r == s[..rk] + s[rk + 1..]
      invariant i > rk > 0 ==> i == rk + 1
    {
      if s[i].k == k {
        if s[i].v != DefaultLeaf {
          return s;
        }
        r := r + s[..i] + s[i + 1..];
      }
      if !higher && Less(s[i].k, k) {
        higher := true;
      } else if higher && Less(k, s[i].k) {
        r := r + s[..i] + [KV(k, v)] + s[i..];
        return;
      }
      i := i + 1;
    }
  }

  lemma MergeCases(s: seq<KV>, k: Key, v: Word, rk: nat)
    requires rk == Rank(s, k) < |s|
    ensures s[rk].k != k ==> Merge(s, k, v) == s[..rk] + [KV(k, v)] + s[rk..]
    ensures s[rk].k == k && s[rk].v != DefaultLeaf ==> Merge(s, k, v) == s
    ensures s[rk] == KV(k, DefaultLeaf) && !(0 < rk < |s| - 1) ==> Merge(s, k, v) == s[..rk] + s[rk + 1..]
    ensures s[rk] == KV(k, DefaultLeaf) && 0 < rk < |s| - 1 ==>
              Merge(s, k, v) == s[..rk] + s[rk + 1..] + s[..rk + 1] + [KV(k, v)] + s[rk + 1..]
  {
    hide Rank, Less;
  }

  // ----- slots -----

  function WithChildren(b: Batch, j: nat, l: Slot, r: Slot): Batch
    requires j < 15
  {
    b[2 * j + 2 := r][2 * j + 1 := l]
  }

  lemma WithChildrenBelow(b: Batch, j: nat, l: Slot, r: Slot, s: Slot)
    requires j < 15 && l == Child(s, false) && r == Child(s, true)
    requires Below(b, 2 * j + 1, l) && Below(b, 2 * j + 2, r)
    ensures Below(WithChildren(b, j, l, r), j, s)
  {
    var c := WithChildren(b, j, l, r);
    BelowFrame(b, c, 2 * j + 1, l);
    BelowFrame(b, c, 2 * j + 2, r);
  }

  lemma BelowChildless(b: Batch, i: nat, s: Slot, s': Slot)
    requires Below(b, i, s)
    requires Child(s, false) == Child(s', false) && Child(s, true) == Child(s', true)
    ensures Below(b, i, s')
  {
  }

  lemma {:induction false} BelowEmpty(b: Batch, i: nat)
    requires forall j :: 0 < j < 31 ==> b[j] == Nil
    ensures Below(b, i, Nil)
    decreases 31 - i
  {
    if i < 15 {
      BelowEmpty(b, 2 * i + 1);
      BelowEmpty(b, 2 * i + 2);
    }
  }

  lemma LevelEdges(j: nat, h: nat)
    requires j < 15 && 0 < h && Level(j, h)
    ensures (j == 0 <==> h % 4 == 0) && (2 * j + 2 < 15 <==> (h - 1) % 4 != 0) && (2 * j + 1 < 15 <==> (h - 1) % 4 != 0)
  {
  }

  lemma ChildLevel(j: nat, i: nat, h: nat, t: Tree)
    requires j < 15 && h < 256 && Level(j, h + 1) && (i == 2 * j + 1 || i == 2 * j + 2) && Tidy(t, h)
    ensures if h % 4 == 0 then i >= 15 else Level(i, h)
    ensures Rooted(NodeSlot(t, h), t, h)
  {
  }

  lemma WritesTraced(m: Shared, i: nat, s: Slot, i': nat, s': Slot)
    requires i < 31 && i' < 31
    ensures Traced([WriteSlot(i, s), WriteSlot(i', s')], m, m.(batch := m.batch[i := s][i' := s']))
  {
    var x, y := WriteSlot(i, s), WriteSlot(i', s');
    OneTraced(x, m);
    OneTraced(y, Do(x, m));
    TracedConcat([x], [y], m, Do(x, m), Do(y, Do(x, m)));
  }

  lemma ReadsTraced(m: Shared, i: nat, i': nat)
    requires i < 31 && i' < 31
    ensures Traced([ReadSlot(i, m.batch[i]), ReadSlot(i', m.batch[i'])], m, m)
  {
    var x, y := ReadSlot(i, m.batch[i]), ReadSlot(i', m.batch[i']);
    OneTraced(x, m);
    OneTraced(y, m);
    TracedConcat([x], [y], m, m, m);
  }

  function RootOf(t: Tree): Option<Word>
    requires Tidy(t, 256)
  {
    if t.Empty? then None else Some(Dig(t, 256))
  }

  function RootSlot(r: Option<Word>): Slot {
    if r.None? then Nil else Bare(r.value)
  }

  function NewBatch(): Batch {
    seq(31, i => Nil)
  }

  /** A root with the tree it stands for, every batch of which is in the table. */
  ghost predicate Denotes(r: Option<Word>, t: Tree, known: set<Word>) {
    Tidy(t, 256) && r == RootOf(t) && Held(known, t, 256)
  }

  datatype Reply = Ok(root: Option<Word>) | Refused(why: Refusal)

  /** The root recorded at every height still denotes the map committed then. */
  ghost predicate Remembers(roots: map<nat, Option<Word>>, history: map<nat, Tree>, known: set<Word>) {
    roots.Keys == history.Keys && forall h <- roots :: Denotes(roots[h], history[h], known)
  }

  class SMT {
    var root: Option<Word>
    var prevRoot: Option<Word>
    var updatedNodes: map<Word, Batch>
    var db: map<Word, Batch>
    var commitHeight: nat
    var roots: map<nat, Option<Word>>
    ghost var tree: Tree                 // what the root denotes
    ghost var saved: Tree                // what prevRoot denotes
    ghost var history: map<nat, Tree>    // what each recorded root denotes

    /** The digests whose batches a load finds. */
    ghost function Known(): set<Word>
      reads this
    {
      db.Keys + updatedNodes.Keys
    }

    ghost predicate Valid()
      reads this
    {
      && Consistent(db) && Consistent(updatedNodes)
      && Denotes(root, tree, Known())
      && Denotes(prevRoot, saved, db.Keys)
      && Remembers(roots, history, db.Keys)
    }

    /** A trie on an existing table; no previous root is known yet. */
    constructor (r: Option<Word>, nodes: map<Word, Batch>, ghost t: Tree)
      requires Consistent(nodes) && Denotes(r, t, nodes.Keys)
      ensures Valid() && root == r && prevRoot == None && db == nodes && updatedNodes == map[]
      ensures tree == t && saved == Empty && history == map[]
    {
      root, prevRoot, updatedNodes, db := r, None, map[], nodes;
      commitHeight, roots := 0, map[];
      tree, saved, history := t, Empty, map[];
      new;
      assert Nodes() == nodes;
    }

    function Get(k: Key): Answer
      reads this
    {
      Reads.Get(db + updatedNodes, RootSlot(root), k, NewBatch(), 0, 256)
    }

    /** Reads always succeed and give what the tree holds. */
    lemma GetAnswers(k: Key)
      requires Valid()
      ensures Get(k) == Found(Lookup(tree, k, 256))
    {
      GetIsLookup(Nodes(), RootSlot(root), k, NewBatch(), 0, tree, 256);
    }

    /** On a trie with its keys on their paths they give what the map holds. */
    lemma GetIsMap(k: Key)
      requires Valid() && Homed(tree, 256, [])
      ensures Get(k) == Found(Find(Contents(tree), k))
    {
      GetAnswers(k);
      LookupIsFind(tree, 256, [], k);
    }

    /** Whatever requests led to them, two canonical tries have one root exactly when they hold one map. */
    lemma RootIsMap(other: SMT)
      requires Valid() && other.Valid() && Canon(tree, 256, []) && Canon(other.tree, 256, [])
      ensures root == other.root <==> Contents(tree) == Contents(other.tree)
    {
      hide Held, Consistent, Formed, Contents;
      RootIffContents(tree, other.tree);
      ChildOf(tree, 256);
      ChildOf(other.tree, 256);
    }

    function MerkleProof(k: Key): Proof
      reads this
    {
      Reads.MerkleProof(db + updatedNodes, RootSlot(root), k, NewBatch(), 256, 0)
    }

    lemma MerkleProofAnswers(k: Key)
      requires Valid()
      ensures MerkleProof(k) == ProofOf(tree, k, 256)
    {
      MerkleProofIsPath(Nodes(), RootSlot(root), k, NewBatch(), 0, tree, 256);
    }

    /** A root recorded at an earlier height still answers every read as it did when committed. */
    lemma HistoryAnswers(height: nat, k: Key)
      requires Valid() && height in roots
      ensures Reads.Get(db, RootSlot(roots[height]), k, NewBatch(), 0, 256) == Found(Lookup(history[height], k, 256))
    {
      GetIsLookup(db, RootSlot(roots[height]), k, NewBatch(), 0, history[height], 256);
    }

    /** The node table as a load sees it: uncommitted batches first. */
    ghost function Nodes(): map<Word, Batch>
      reads this
    {
      db + updatedNodes
    }

    /** `m` is the batch array `b` with batches the node table has. */
    ghost predicate View(b: array<Slot>, m: Shared)
      reads this, b
    {
      b.Length == 31 && m.batch == b[..] && Consistent(Nodes()) && m.known <= Known()
    }

    /** What an update leaves for the subtree `t` at slot j; a batch root (slot 0) is left in the table. */
    ghost predicate InPlace(b: array<Slot>, j: nat, h: nat, t: Tree, node: Slot, m: Shared)
      requires Tidy(t, h)
      reads this, b
    {
      && View(b, m) && node == NodeSlot(t, h) && (node.Nil? || node.Full?) && Held(m.known, t, h)
      && (j > 0 ==> Below(b[..], j, node))
    }

    method LoadBatch(w: Word) returns (b: array<Slot>)
      requires w in Known() && Consistent(Nodes())
      ensures fresh(b) && b.Length == 31 && b[..] == BatchOf(w)
    {
      var val := if w in updatedNodes then updatedNodes[w] else db[w];
      b := new Slot[31](i requires 0 <= i < 31 => val[i]);
      assert Nodes()[w] == val;
    }

    method SetChildren(b: array<Slot>, j: nat, l: Slot, r: Slot, ghost m: Shared)
      returns (ghost tr: seq<Action>, ghost m': Shared)
      requires View(b, m) && j < 15
      modifies b
      ensures View(b, m') && m' == m.(batch := WithChildren(m.batch, j, l, r))
      ensures Traced(tr, m, m') && AllInside(tr, j)
    {
      b[2 * j + 2] := r;
      b[2 * j + 1] := l;
      tr := [WriteSlot(2 * j + 2, r), WriteSlot(2 * j + 1, l)];
      WritesTraced(m, 2 * j + 2, r, 2 * j + 1, l);
      m' := m.(batch := b[..]);
    }

    /** Records a batch under its digest, unless it is the digest it came from. */
    method StoreNode(b: array<Slot>, node: Slot, oldRoot: Slot, ghost m: Shared)
      returns (ghost tr: seq<Action>, ghost m': Shared)
      requires View(b, m) && node.Full? && b[..] == BatchOf(node.word)
      requires oldRoot.Full? ==> oldRoot.word in m.known
      modifies this`updatedNodes
      ensures View(b, m') && Traced(tr, m, m') && old(updatedNodes).Keys <= updatedNodes.Keys
      ensures node.word in m'.known && (node != oldRoot ==> node.word in updatedNodes)
    {
      tr, m' := [], m;
      if node != oldRoot {
        updatedNodes := updatedNodes[node.word := b[..]];
        tr := [Traces.StoreNode(node.word)];
        OneTraced(tr[0], m);
        m' := Do(tr[0], m);
        assert Nodes() == old(Nodes())[node.word := b[..]];
      }
    }

    /** Puts the mark of a batch root in place and stores the batch. */
    method SealBatch(b: array<Slot>, node: Slot, oldRoot: Slot, ghost m: Shared)
      returns (ghost tr: seq<Action>, ghost m': Shared)
      requires View(b, m) && node.Full? && node == WordSlot(node.word) && Below(b[..], 0, node)
      requires oldRoot.Full? ==> oldRoot.word in m.known
      modifies b, this`updatedNodes
      ensures View(b, m') && Traced(tr, m, m') && old(updatedNodes).Keys <= updatedNodes.Keys
      ensures node.word in m'.known && (node != oldRoot ==> node.word in updatedNodes)
    {
      var x := Mark(node.flag == 1);
      b[0] := x;
      ghost var w := WriteSlot(0, x);
      OneTraced(w, m);
      ghost var m1 := Do(w, m);
      assert b[..] == m1.batch;
      BelowFrame(m.batch, m1.batch, 0, node);
      BelowIsBatch(b[..], node.word);
      tr, m' := StoreNode(b, node, oldRoot, m1);
      TracedConcat([w], tr, m, m1, m');
      tr := [w] + tr;
    }

    /** Writes a node's two child slots; a batch root is stored as well. */
    method WriteNode(b: array<Slot>, j: nat, node: Slot, l: Slot, r: Slot, oldRoot: Slot, ghost m: Shared)
      returns (ghost tr: seq<Action>, ghost m': Shared)
      requires View(b, m) && j < 15
      requires node.Full? && node == WordSlot(node.word) && l == Child(node, false) && r == Child(node, true)
      requires Below(b[..], 2 * j + 1, l) && Below(b[..], 2 * j + 2, r)
      requires j == 0 && oldRoot.Full? ==> oldRoot.word in m.known
      modifies b, this`updatedNodes
      ensures View(b, m') && Traced(tr, m, m') && (j > 0 ==> AllInside(tr, j)) && m.known <= m'.known
      ensures old(updatedNodes).Keys <= updatedNodes.Keys
      ensures if j > 0 then Below(b[..], j, node)
              else node.word in m'.known && (node != oldRoot ==> node.word in updatedNodes)
    {
      tr, m' := SetChildren(b, j, l, r, m);
      WithChildrenBelow(m.batch, j, l, r, node);
      if j == 0 {
        ghost var tr', m'' := SealBatch(b, node, oldRoot, m');
        TracedConcat(tr, tr', m, m', m'');
        tr, m' := tr + tr', m'';
        KnownGrows(tr, m, m');
      }
    }

    /** The key and value slots of the shortcut at slot js, from its own batch if it starts one. */
    method ShortcutPair(shortcut: Slot, b: array<Slot>, js: nat, h: nat, ghost t: Tree, ghost m: Shared)
      returns (key: Slot, val: Slot, ghost tr: seq<Action>)
      requires View(b, m) && js < 31 && (h % 4 != 0 ==> js < 15)
      requires t.Leaf? && shortcut == NodeSlot(t, h) && Held(m.known, t, h) && Below(b[..], js, shortcut)
      ensures key == Full(Raw(t.k), 2) && val == Full(t.v, 2)
      ensures Traced(tr, m, m) && AllInside(tr, js)
    {
      if h % 4 == 0 {
        var c := LoadBatch(shortcut.word);
        BatchBelow(shortcut.word);
        key, val := c[1], c[2];
        tr := [LoadNode(shortcut.word)];
        OneTraced(tr[0], m);
      } else {
        key, val := b[2 * js + 1], b[2 * js + 2];
        tr := [ReadSlot(2 * js + 1, key), ReadSlot(2 * js + 2, val)];
        ReadsTraced(m, 2 * js + 1, 2 * js + 2);
      }
    }

    /** Takes the shortcut below slot j away from slot js, leaving nothing below j's children. */
    method TakeShortcut(shortcut: Slot, b: array<Slot>, j: nat, js: nat, h: nat, ghost t: Tree, ghost m: Shared)
      returns (key: Slot, val: Slot, ghost tr: seq<Action>, ghost m': Shared)
      requires View(b, m) && j < 15 && (js == 2 * j + 1 || js == 2 * j + 2) && (h % 4 != 0 <==> js < 15)
      requires t.Leaf? && shortcut == NodeSlot(t, h) && Held(m.known, t, h)
      requires Below(b[..], js, shortcut) && Below(b[..], 4 * j + 3 - js, Nil)
      modifies b
      ensures key == Full(Raw(t.k), 2) && val == Full(t.v, 2)
      ensures Below(b[..], 2 * j + 1, key) && Below(b[..], 2 * j + 2, val)
      ensures View(b, m') && Traced(tr, m, m') && AllInside(tr, js) && m.known == m'.known
    {
      key, val, tr := ShortcutPair(shortcut, b, js, h, t, m);
      m' := m;
      if h % 4 != 0 {
        ghost var tr';
        tr', m' := SetChildren(b, js, Nil, Nil, m);
        TracedConcat(tr, tr', m, m, m');
        tr := tr + tr';
        ClearedBelow(m.batch, m'.batch, j, js, shortcut);
      }
      BelowChildless(b[..], 2 * j + 1, Nil, key);
      BelowChildless(b[..], 2 * j + 2, Nil, val);
    }

    /** Makes slot j the place of the lone shortcut below it. */
    method MoveUpShortcut(shortcut: Slot, oldRoot: Slot, b: array<Slot>, j: nat, js: nat, h: nat, ghost t: Tree,
                          ghost m: Shared)
      returns (node: Slot, ghost tr: seq<Action>, ghost m': Shared)
      requires View(b, m) && j < 15 && 0 < h && Level(j, h) && (js == 2 * j + 1 || js == 2 * j + 2)
      requires t.Leaf? && shortcut == NodeSlot(t, h - 1) && Held(m.known, t, h - 1)
      requires Below(b[..], js, shortcut) && Below(b[..], 4 * j + 3 - js, Nil)
      requires j == 0 && oldRoot.Full? ==> oldRoot.word in m.known
      modifies b, this`updatedNodes
      ensures InPlace(b, j, h, t, node, m') && old(updatedNodes).Keys <= updatedNodes.Keys
      ensures j == 0 && node != oldRoot ==> node.word in updatedNodes
      ensures Traced(tr, m, m') && (j > 0 ==> AllInside(tr, j))
    {
      hide Traced, AllInside, Below, Consistent, Under, Level;
      LevelEdges(j, h);
      var key, val;
      key, val, tr, m' := TakeShortcut(shortcut, b, j, js, h - 1, t, m);
      assert AllInside(tr, j) by { InsideParent(tr, j, js); }
      node := Full(Word.LeafHash(key.word, val.word, h % 256), 1);
      ghost var tr', m'' := WriteNode(b, j, node, key, val, oldRoot, m');
      TracedConcat(tr, tr', m, m', m'');
      InsideConcat(tr, tr', j);
      tr, m' := tr + tr', m'';
    }

    /** Two children in place, and nothing decided yet for slot j. */
    ghost predicate Children(b: array<Slot>, j: nat, h: nat, lt: Tree, rt: Tree, l: Slot, r: Slot, m: Shared)
      requires j < 15 && 0 < h && Tidy(lt, h - 1) && Tidy(rt, h - 1)
      reads this, b
    {
      && View(b, m) && l == NodeSlot(lt, h - 1) && r == NodeSlot(rt, h - 1)
      && Held(m.known, lt, h - 1) && Held(m.known, rt, h - 1)
      && Below(b[..], 2 * j + 1, l) && Below(b[..], 2 * j + 2, r)
    }

    /** Hashes two children into slot j. */
    method InteriorHash(l: Slot, r: Slot, oldRoot: Slot, b: array<Slot>, j: nat, h: nat, ghost t: Tree, ghost m: Shared)
      returns (node: Slot, ghost tr: seq<Action>, ghost m': Shared)
      requires j < 15 && 0 < h && (j == 0 <==> h % 4 == 0)
      requires t.Node? && Tidy(t, h) && Children(b, j, h, t.l, t.r, l, r, m)
      requires j == 0 && oldRoot.Full? ==> oldRoot.word in m.known
      modifies b, this`updatedNodes
      ensures InPlace(b, j, h, t, node, m') && old(updatedNodes).Keys <= updatedNodes.Keys
      ensures j == 0 && node != oldRoot ==> node.word in updatedNodes
      ensures Traced(tr, m, m') && (j > 0 ==> AllInside(tr, j))
    {
      hide Traced, AllInside, Below, Consistent, Under;
      node := Full(NodeHash(SlotWord(l), SlotWord(r)), 0);
      ChildOf(t, h);
      tr, m' := WriteNode(b, j, node, l, r, oldRoot, m);
      HeldGrows(m.known, m'.known, t.l, h - 1);
      HeldGrows(m.known, m'.known, t.r, h - 1);
    }

    /** maybeMoveUpShortcut and, when nothing moves, interiorHash. */
    method JoinChildren(l: Slot, r: Slot, del: bool, oldRoot: Slot, b: array<Slot>, j: nat, h: nat, ghost lt: Tree,
                        ghost rt: Tree, ghost m: Shared)
      returns (node: Slot, deleted: bool, ghost tr: seq<Action>, ghost m': Shared)
      requires j < 15 && 0 < h && Level(j, h)
      requires Tidy(lt, h - 1) && Tidy(rt, h - 1) && (lt.Empty? && rt.Empty? ==> del)
      requires Children(b, j, h, lt, rt, l, r, m)
      requires j == 0 && oldRoot.Full? ==> oldRoot.word in m.known
      modifies b, this`updatedNodes
      ensures var o := Join(lt, rt, del);
              Tidy(o.t, h) && deleted == o.deleted && InPlace(b, j, h, o.t, node, m')
      ensures old(updatedNodes).Keys <= updatedNodes.Keys
      ensures node.Nil? ==> l.Nil? && r.Nil? && updatedNodes == old(updatedNodes)
      ensures j == 0 && !node.Nil? && node != oldRoot ==> node.word in updatedNodes
      ensures Traced(tr, m, m') && (j > 0 ==> AllInside(tr, j))
    {
      hide Traced, AllInside, Below, Consistent, Under, Level;
      LevelEdges(j, h);
      NoTrace(m, j);
      if del {
        if l.Nil? && r.Nil? {
          tr, m' := [], m;
          if j != 0 {
            tr, m' := SetChildren(b, j, Nil, Nil, m);
            WithChildrenBelow(m.batch, j, Nil, Nil, Nil);
          }
          return Nil, true, tr, m';
        } else if l.Nil? {
          if r.flag == 1 {
            node, tr, m' := MoveUpShortcut(r, oldRoot, b, j, 2 * j + 2, h, rt, m);
            return node, true, tr, m';
          }
        } else if r.Nil? {
          if l.flag == 1 {
            node, tr, m' := MoveUpShortcut(l, oldRoot, b, j, 2 * j + 1, h, lt, m);
            return node, true, tr, m';
          }
        }
      }
      node, tr, m' := InteriorHash(l, r, oldRoot, b, j, h, Node(lt, rt), m);
      return node, false, tr, m';
    }

    /** A single entry on an empty subtree: a shortcut at slot j. */
    method LeafHash(e: KV, oldRoot: Slot, b: array<Slot>, j: nat, h: nat, ghost m: Shared)
      returns (node: Slot, ghost tr: seq<Action>, ghost m': Shared)
      requires View(b, m) && j < 15 && Level(j, h) && Below(b[..], j, Nil)
      requires j == 0 && oldRoot.Full? ==> oldRoot.word in m.known
      modifies b, this`updatedNodes
      ensures InPlace(b, j, h, Leaf(e.k, e.v), node, m') && node.Full? && old(updatedNodes).Keys <= updatedNodes.Keys
      ensures j == 0 && node != oldRoot ==> node.word in updatedNodes
      ensures Traced(tr, m, m') && (j > 0 ==> AllInside(tr, j))
    {
      node := Full(Word.LeafHash(Raw(e.k), e.v, h % 256), 1);
      var l, r := Full(Raw(e.k), 2), Full(e.v, 2);
      BelowChildless(b[..], 2 * j + 1, Nil, l);
      BelowChildless(b[..], 2 * j + 2, Nil, r);
      tr, m' := WriteNode(b, j, node, l, r, oldRoot, m);
    }

    /** `update`: the subtree `t` under slot i at height h, given the batch `s`. */
    method UpdateNode(root: Slot, s: seq<KV>, a: array<Slot>, i: nat, h: nat, ghost t: Tree, ghost m: Shared)
      returns (node: Slot, deleted: bool, ghost tr: seq<Action>, ghost m': Shared)
      requires View(a, m) && i < 31 && h <= 256 && s != [] && Tidy(t, h) && (t.Empty? || Sorted(s))
      requires Rooted(root, t, h) && Held(m.known, t, h)
      requires h % 4 != 0 ==> Level(i, h) && a[i] == root && Below(a[..], i, root)
      modifies a, this`updatedNodes
      ensures var o := Apply(t, s, h);
              deleted == o.deleted && InPlace(a, if h % 4 == 0 then 0 else i, h, o.t, node, m')
      ensures old(updatedNodes).Keys <= updatedNodes.Keys
      ensures node.Nil? ==> updatedNodes == old(updatedNodes)
      ensures h == 256 && !node.Nil? ==> node.word in updatedNodes
      ensures Traced(tr, m, m') && AllInside(tr, i)
      decreases h, 4
    {
      hide Traced, Held, Apply, Consistent, Sorted, Below, BatchOf;
      if h % 4 != 0 {
        node, deleted, tr, m' := UpdateBelow(root, s, a, i, h, t, m);
      } else {
        node, deleted, tr, m' := UpdateBatch(root, s, h, t, m);
      }
    }

    /** A batch root: a batch of its own, new or a copy of the one its digest names. */
    method UpdateBatch(root: Slot, s: seq<KV>, h: nat, ghost t: Tree, ghost m: Shared)
      returns (node: Slot, deleted: bool, ghost tr: seq<Action>, ghost m': Shared)
      requires Consistent(Nodes()) && m.known <= Known()
      requires h <= 256 && h % 4 == 0 && s != [] && Tidy(t, h) && (t.Empty? || Sorted(s))
      requires Rooted(root, t, h) && Held(m.known, t, h)
      modifies this`updatedNodes
      ensures var o := Apply(t, s, h);
              deleted == o.deleted && node == NodeSlot(o.t, h) && Held(m'.known, o.t, h)
      ensures Consistent(Nodes()) && m'.known <= Known() && old(updatedNodes).Keys <= updatedNodes.Keys
      ensures node.Nil? ==> updatedNodes == old(updatedNodes)
      ensures h == 256 && !node.Nil? ==> node.word in updatedNodes
      ensures m'.batch == m.batch && Traced(tr, m, m') && NoSlots(tr)
      decreases h, 3
    {
      hide Traced, Sorted, Apply, Below, Held, NodeSlot, Tidy, Rooted, Level, Consistent, BatchOf, NoSlots;
      BatchCases(m.known, h, t, s, root);
      var b;
      ghost var m0, tb, mb;
      if h == 0 {
        if s[0].v == DefaultLeaf {
          NoTrace(m, 0);
          return Nil, true, [], m;
        }
        b := new Slot[31](_ => Nil);
        BelowEmpty(b[..], 0);
        tr := [];
        NoTrace(m, 0);
        m0 := Shared(b[..], m.known);
        node, tb, mb := LeafHash(s[0], root, b, 0, 0, m0);
        deleted := false;
      } else {
        b, tr := OpenBatch(root, h, t, m);
        m0 := Shared(b[..], m.known);
        node, deleted, tb, mb := UpdateBelow(root, s, b, 0, h, t, m0);
      }
      m' := Shared(m.batch, mb.known);
      OwnBatch(tr, tb, m, m0, mb);
      tr := tr + NodesOnly(tb);
    }

    /** A new batch for an empty subtree, or a copy of the one its digest names. */
    method OpenBatch(root: Slot, h: nat, ghost t: Tree, ghost m: Shared) returns (b: array<Slot>, ghost tr: seq<Action>)
      requires Consistent(Nodes()) && m.known <= Known()
      requires 0 < h <= 256 && h % 4 == 0 && Tidy(t, h) && Rooted(root, t, h) && Held(m.known, t, h)
      ensures fresh(b) && b.Length == 31 && Below(b[..], 0, NodeSlot(t, h)) && b[0] == Mark(t.Leaf?)
      ensures Traced(tr, m, m) && NoSlots(tr)
    {
      hide Traced, Below, Consistent;
      NoTrace(m, 0);
      tr := [];
      if root.Nil? {
        b := new Slot[31](i => if i == 0 then Mark(false) else Nil);
        BelowEmpty(b[..], 0);
      } else {
        b := LoadBatch(root.word);
        tr := [LoadNode(root.word)];
        OneTraced(tr[0], m);
        BatchBelow(root.word);
      }
    }

    /** The node at slot j of a batch in hand: a shortcut there joins the entries. */
    method UpdateBelow(root: Slot, s: seq<KV>, b: array<Slot>, j: nat, h: nat, ghost t: Tree, ghost m: Shared)
      returns (node: Slot, deleted: bool, ghost tr: seq<Action>, ghost m': Shared)
      requires View(b, m) && j < 15 && 0 < h <= 256 && Level(j, h) && s != [] && Tidy(t, h) && (t.Empty? || Sorted(s))
      requires Rooted(root, t, h) && Held(m.known, t, h)
      requires Below(b[..], j, NodeSlot(t, h)) && b[j] == if j == 0 then Mark(t.Leaf?) else NodeSlot(t, h)
      modifies b, this`updatedNodes
      ensures var o := Apply(t, s, h);
              deleted == o.deleted && InPlace(b, j, h, o.t, node, m')
      ensures old(updatedNodes).Keys <= updatedNodes.Keys
      ensures node.Nil? ==> updatedNodes == old(updatedNodes)
      ensures h == 256 && !node.Nil? ==> node.word in updatedNodes
      ensures Traced(tr, m, m') && (j > 0 ==> AllInside(tr, j))
      decreases h, 2
    {
      hide Traced, AllInside, Sorted, Consistent, Apply, Below, Held, NodeSlot, Tidy, Spread, Level, Rooted, Merge,
           WithChildren;
      BelowCases(m, j, h, t, s, root);
      var lnode, rnode := b[2 * j + 1], b[2 * j + 2];
      var isShortcut := if j == 0 then b[0] == Mark(true) else b[j].Full? && b[j].flag == 1;
      tr := ReadTrace(m, j);
      ghost var tf;
      if isShortcut {
        var s' := MaybeAddShortcutToKV(s, lnode.word.bits, rnode.word);
        tf, m' := SetChildren(b, j, Nil, Nil, m);
        TracedConcat(tr, tf, m, m, m');
        InsideConcat(tr, tf, j);
        tr := tr + tf;
        if s' == [] {
          return Nil, true, tr, m';
        }
        ghost var m1 := m';
        node, deleted, tf, m' := UpdateFree(Nil, Nil, root, s', b, j, h, Empty, m1);
        TracedConcat(tr, tf, m, m1, m');
      } else {
        node, deleted, tf, m' := UpdateFree(lnode, rnode, root, s, b, j, h, t, m);
        TracedConcat(tr, tf, m, m, m');
      }
      InsideConcat(tr, tf, j);
      tr := tr + tf;
    }

    /** The same with no shortcut in the way: store one, or go on to the children. */
    method UpdateFree(lnode: Slot, rnode: Slot, root: Slot, s: seq<KV>, b: array<Slot>, j: nat, h: nat, ghost t: Tree,
                      ghost m: Shared)
      returns (node: Slot, deleted: bool, ghost tr: seq<Action>, ghost m': Shared)
      requires View(b, m) && j < 15 && 0 < h <= 256 && Level(j, h) && s != [] && Tidy(t, h) && (t.Empty? || Sorted(s))
      requires !t.Leaf? && Held(m.known, t, h) && Below(b[..], j, NodeSlot(t, h))
      requires lnode == b[2 * j + 1] && rnode == b[2 * j + 2]
      requires (j == 0 && root.Full? ==> root.word in m.known) && (h == 256 ==> !root.Full?)
      modifies b, this`updatedNodes
      ensures var o := Spread(t, s, h);
              deleted == o.deleted && InPlace(b, j, h, o.t, node, m')
      ensures old(updatedNodes).Keys <= updatedNodes.Keys
      ensures node.Nil? ==> updatedNodes == old(updatedNodes)
      ensures h == 256 && !node.Nil? ==> node.word in updatedNodes
      ensures Traced(tr, m, m') && (j > 0 ==> AllInside(tr, j))
      decreases h, 1
    {
      hide Traced, AllInside, Sorted, Consistent, Apply, Half, Below, Held, NodeSlot, Tidy, Spread, Join, Level,
           SplitAt, Under, Children;
      FreeCases(m, j, h, t, s);
      if lnode.Nil? && rnode.Nil? && |s| == 1 {
        if s[0].v == DefaultLeaf {
          NoTrace(m, j);
          return Nil, true, [], m;
        }
        node, tr, m' := LeafHash(s[0], root, b, j, h, m);
        return node, false, tr, m';
      }
      var n := SplitKeys(s, 256 - h);
      var l, dl, r, dr;
      ghost var tc, mc;
      l, dl, r, dr, tc, mc := UpdateParallel(lnode, rnode, s, n, b, j, h, t, m);
      ghost var lt, rt := Half(Left(t), s[..n], h - 1).t, Half(Right(t), s[n..], h - 1).t;
      node, deleted, tr, m' := JoinChildren(l, r, dl || dr, root, b, j, h, lt, rt, mc);
      TracedConcat(tc, tr, m, mc, m');
      InsideConcat(tc, tr, j);
      tr := tc + tr;
    }

    /** One child with its share of the entries; the other child's slots stay as they are. */
    method UpdateChild(root: Slot, s: seq<KV>, b: array<Slot>, j: nat, i: nat, h: nat, ghost t: Tree, ghost m: Shared,
                       ghost sibling: Slot)
      returns (node: Slot, deleted: bool, ghost tr: seq<Action>, ghost m': Shared)
      requires View(b, m) && j < 15 && h < 256 && Level(j, h + 1) && (i == 2 * j + 1 || i == 2 * j + 2)
      requires Tidy(t, h) && (t.Empty? || Sorted(s)) && Held(m.known, t, h)
      requires root == b[i] == NodeSlot(t, h) && Below(b[..], i, root) && Below(b[..], 4 * j + 3 - i, sibling)
      modifies b, this`updatedNodes
      ensures var o := Half(t, s, h);
              deleted == o.deleted && View(b, m') && node == NodeSlot(o.t, h) && Held(m'.known, o.t, h)
      ensures Below(b[..], i, node) && Below(b[..], 4 * j + 3 - i, sibling) && b[4 * j + 3 - i] == old(b[4 * j + 3 - i])
      ensures old(updatedNodes).Keys <= updatedNodes.Keys && m.known <= m'.known
      ensures node.Nil? ==> updatedNodes == old(updatedNodes)
      ensures Traced(tr, m, m') && AllInside(tr, i)
      decreases h, 5
    {
      hide Traced, AllInside, Sorted, Apply, Held, Tidy, Under, Below, Consistent, Level, NodeSlot, BatchOf, Rooted;
      ChildLevel(j, i, h, t);
      node, deleted, tr, m' := root, false, [], m;
      NoTrace(m, i);
      if s != [] {
        node, deleted, tr, m' := UpdateNode(root, s, b, i, h, t, m);
        TraceFrame(tr, m, m', i);
        SiblingKept(m.batch, m'.batch, j, i, sibling);
        BelowBottom(m'.batch, i, node);
      }
    }

    /** Both children, in whatever order the accesses of the two goroutines fall. */
    method UpdateParallel(lnode: Slot, rnode: Slot, s: seq<KV>, n: nat, b: array<Slot>, j: nat, h: nat, ghost t: Tree,
                          ghost m: Shared)
      returns (l: Slot, dl: bool, r: Slot, dr: bool, ghost tr: seq<Action>, ghost m': Shared)
      requires View(b, m) && j < 15 && 0 < h <= 256 && Level(j, h) && n <= |s| && Tidy(t, h) && (t.Empty? || Sorted(s))
      requires !t.Leaf? && Held(m.known, t, h) && Below(b[..], j, NodeSlot(t, h))
      requires lnode == b[2 * j + 1] && rnode == b[2 * j + 2]
      modifies b, this`updatedNodes
      ensures var ol, or := Half(Left(t), s[..n], h - 1), Half(Right(t), s[n..], h - 1);
              dl == ol.deleted && dr == or.deleted && Children(b, j, h, ol.t, or.t, l, r, m')
      ensures old(updatedNodes).Keys <= updatedNodes.Keys && m.known <= m'.known
      ensures l.Nil? && r.Nil? ==> updatedNodes == old(updatedNodes)
      ensures Traced(tr, m, m') && AllInside(tr, j)
      decreases h, 0
    {
      hide Traced, AllInside, Sorted, Consistent, Apply, Half, Below, Held, NodeSlot, Level, Tidy, Under;
      Parts(m, j, h, t, s, n);
      ghost var tl, ml, tr', mr;
      l, dl, tl, ml := UpdateChild(lnode, s[..n], b, j, 2 * j + 1, h - 1, Left(t), m, rnode);
      ghost var m1 := Shared(ml.batch, m.known);
      r, dr, tr', mr := UpdateChild(rnode, s[n..], b, j, 2 * j + 2, h - 1, Right(t), m1, l);
      InTurn(tl, tr');
      tr :| Shuffle(tr, tl, tr');
      m' := Shared(mr.batch, ml.known + mr.known);
      Interleaved(tr, tl, tr', j, m, ml, mr);
      HeldGrows(ml.known, m'.known, Half(Left(t), s[..n], h - 1).t, h - 1);
      HeldGrows(mr.known, m'.known, Half(Right(t), s[n..], h - 1).t, h - 1);
    }

    /** No two keys of a request are equal. */
    method KeysDistinct(keys: seq<Key>) returns (ok: bool)
      ensures ok == Distinct(keys)
    {
      hide Distinct;
      var keySet: set<Key> := {};
      DistinctNone(keys);
      for i := 0 to |keys|
        invariant forall k :: k in keySet <==> k in keys[..i]
        invariant |keySet| <= i && (|keySet| == i <==> Distinct(keys[..i]))
      {
        DistinctStep(keys, i);
        keySet := keySet + {keys[i]};
      }
      assert keys[..|keys|] == keys;
      ok := |keySet| == |keys|;
    }

    /** Reads every key of a request before anything is changed. */
    method Precheck(s: seq<KV>) returns (r: Option<Refusal>)
      requires Valid()
      ensures r == FirstRefusal(tree, s)
    {
      var i := 0;
      while i < |s|
        invariant 0 <= i <= |s| && FirstRefusal(tree, s) == FirstRefusal(tree, s[i..])
      {
        GetAnswers(s[i].k);
        var v := Get(s[i].k).value;
        assert s[i..][0] == s[i] && s[i..][1..] == s[i + 1..];
        if s[i].v == DefaultLeaf {
          if v.None? {
            return Some(MissingKey);
          }
        } else if v.Some? && v.value != s[i].v {
          return Some(ConflictingValue);
        }
        i := i + 1;
      }
      return None;
    }

    /** Applies a sorted batch of inserts and deletes, or refuses it and changes nothing. */
    method Update(keys: seq<Key>, values: seq<Word>) returns (r: Reply)
      requires Valid()
      requires tree.Empty? || InOrder(keys)
      modifies this
      ensures Valid()
      ensures unchanged(this`db, this`prevRoot, this`saved, this`roots, this`history, this`commitHeight)
      ensures old(updatedNodes).Keys <= updatedNodes.Keys
      ensures match Verdict(old(tree), keys, values)
              case Some(e) => r == Refused(e) && unchanged(this)
              case None =>
                && tree == Apply(old(tree), Entries(keys, values), 256).t
                && r == Ok(root)
                && (if root.Some? then updatedNodes != map[] else updatedNodes == old(updatedNodes))
      ensures Homed(old(tree), 256, []) ==>
                && (r.Refused? <==> TurnedAway(Contents(old(tree)), keys, values))
                && forall why :: r == Refused(why) <==> Because(Contents(old(tree)), keys, values, why)
      ensures |keys| == |values| && Verdict(old(tree), keys, values).None? ==>
                var s := Entries(keys, values);
                Homed(old(tree), 256, []) && Sorted(s) ==>
                  && Contents(tree) == Updated(Contents(old(tree)), s)
                  && (forall k: Key :: Get(k) == Found(Find(Updated(Contents(old(tree)), s), k)))
                  && (Homed(tree, 256, []) <==> Tame(old(tree), s, 256, false))
                  && (Canon(old(tree), 256, []) ==> (Canon(tree, 256, []) <==> Tame(old(tree), s, 256, true)))
    {
      hide Tame, Sorted, Formed, Apply, Held, Less, Updated, Lookup, Reads.Get, TurnedAway, Because, Contents;
      if Homed(tree, 256, []) { VerdictIff(tree, keys, values); }
      if |keys| != |values| {
        return Refused(LengthMismatch);
      }
      var distinct := KeysDistinct(keys);
      if !distinct {
        return Refused(DuplicateKey);
      }
      var s := Entries(keys, values);
      var refusal := Precheck(s);
      if refusal.Some? {
        return Refused(refusal.value);
      }
      if keys == [] {
        return Refused(NoEntries);
      }
      if InOrder(keys) { EntriesSorted(keys, values); }
      ghost var t := tree;
      if Homed(t, 256, []) && Sorted(s) {
        RequestMet(t, s);
      }
      Rebuild(s);
      forall k: Key ensures Get(k) == Found(Lookup(tree, k, 256)) { GetAnswers(k); }
      return Ok(root);
    }

    /** `Update` once the request has passed. */
    method Rebuild(s: seq<KV>)
      requires Valid() && s != [] && (tree.Empty? || Sorted(s))
      modifies this`root, this`tree, this`updatedNodes
      ensures Valid() && tree == Apply(old(tree), s, 256).t
      ensures old(updatedNodes).Keys <= updatedNodes.Keys
      ensures if root.Some? then updatedNodes != map[] else updatedNodes == old(updatedNodes)
    {
      hide Held, Below, Traced, Apply, Level, Consistent, NodeSlot, Sorted, BatchOf;
      RebuildReady(tree, root);
      ConsistentUnion(db, updatedNodes);
      var none := new Slot[31](_ => Nil);
      var node, deleted;
      ghost var tr, m;
      node, deleted, tr, m := UpdateNode(RootSlot(root), s, none, 0, 256, tree, Shared(none[..], Known()));
      tree := Apply(tree, s, 256).t;
      root := if node.Nil? then None else Some(node.word);
      ChildOf(tree, 256);
      HeldGrows(m.known, Known(), tree, 256);
      ConsistentUnion(db, updatedNodes);
    }

    /** Writes the uncommitted batches to the table and records the root for a height. */
    method Commit(height: nat) returns (r: Option<Word>)
      requires Valid()
      modifies this
      ensures Valid() && unchanged(this`root, this`tree) && r == root
      ensures db == old(db + updatedNodes) && updatedNodes == map[]
      ensures prevRoot == root && saved == tree
      ensures commitHeight == height && roots == old(roots)[height := root] && history == old(history)[height := tree]
      ensures forall k: Key :: Get(k) == old(Get(k))
    {
      hide Denotes, Consistent, Remembers, Reads.Get, RootSlot;
      ConsistentEmpty();
      CommitKeeps(db, updatedNodes, root, tree, roots, history, height);
      Flush();
      commitHeight := height;
      roots := roots[height := root];
      history := history[height := tree];
      updatedNodes := map[];
      prevRoot, saved := root, tree;
      PlusNone(db);
      return root;
    }

    /** Writes every uncommitted batch, in any order. */
    method Flush()
      modifies this`db
      ensures db == old(db) + updatedNodes
    {
      var todo := updatedNodes.Keys;
      while todo != {}
        invariant todo <= updatedNodes.Keys
        invariant db + (map w | w in todo :: updatedNodes[w]) == old(db) + updatedNodes
      {
        var w :| w in todo;
        db := db[w := updatedNodes[w]];
        todo := todo - {w};
      }
    }

    /** Goes back to the last committed root, if any batch was stored since. */
    method Discard()
      requires Valid()
      modifies this`root, this`tree, this`updatedNodes
      ensures Valid() && updatedNodes == map[]
      ensures if old(updatedNodes) != map[] then root == prevRoot && tree == saved
              else unchanged(this)
    {
      hide Denotes, Consistent;
      ConsistentEmpty();
      if |updatedNodes| > 0 {
        root, tree := prevRoot, saved;
        updatedNodes := map[];
        assert Known() == db.Keys;
      }
    }
  }

  lemma CommitKeeps(db: map<Word, Batch>, u: map<Word, Batch>, r: Option<Word>, t: Tree,
                    roots: map<nat, Option<Word>>, history: map<nat, Tree>, height: nat)
    requires Consistent(db) && Consistent(u) && Remembers(roots, history, db.Keys)
    requires Denotes(r, t, db.Keys + u.Keys)
    ensures Consistent(db + u) && Denotes(r, t, (db + u).Keys)
    ensures Remembers(roots[height := r], history[height := t], (db + u).Keys)
  {
    ConsistentUnion(db, u);
    HeldGrows(db.Keys + u.Keys, (db + u).Keys, t, 256);
    forall h | h in roots ensures Denotes(roots[h], history[h], (db + u).Keys) {
      HeldGrows(db.Keys, (db + u).Keys, history[h], 256);
    }
  }

  lemma DistinctNone(keys: seq<Key>)
    ensures Distinct(keys[..0])
  {
  }

  lemma DistinctStep(keys: seq<Key>, i: nat)
    requires i < |keys|
    ensures keys[..i + 1] == keys[..i] + [keys[i]]
    ensures Distinct(keys[..i + 1]) <==> Distinct(keys[..i]) && keys[i] !in keys[..i]
  {
    assert forall j :: 0 <= j < i ==> keys[..i + 1][j] == keys[..i][j];
    assert keys[..i + 1][i] == keys[i];
  }

  lemma PlusNone(db: map<Word, Batch>)
    ensures var none: map<Word, Batch> := map[];
            db + none == db && db.Keys + none.Keys == db.Keys
  {
  }

  lemma ConsistentEmpty()
    ensures Consistent(map[])
  {
  }

  lemma ConsistentUnion(db: map<Word, Batch>, u: map<Word, Batch>)
    requires Consistent(db)
    ensures Consistent(u) <==> Consistent(db + u)
  {
  }

  lemma RebuildReady(t: Tree, r: Option<Word>)
    requires Tidy(t, 256) && r == RootOf(t)
    ensures Rooted(RootSlot(r), t, 256)
  {
  }

  lemma Interleaved(tr: seq<Action>, l: seq<Action>, r: seq<Action>, j: nat, m: Shared, ml: Shared, n: Shared)
    requires Shuffle(tr, l, r) && AllInside(l, 2 * j + 1) && AllInside(r, 2 * j + 2)
    requires Traced(l, m, ml) && Traced(r, Shared(ml.batch, m.known), n)
    ensures Traced(tr, m, Shared(n.batch, ml.known + n.known)) && AllInside(tr, j)
  {
    hide Traced, AllInside;
    ParallelConfluent(tr, l, r, j, m, ml, Shared(ml.batch, m.known), n);
    InsideParent(l, j, 2 * j + 1);
    InsideParent(r, j, 2 * j + 2);
    ShuffleInside(tr, l, r, j);
  }

  lemma Parts(m: Shared, j: nat, h: nat, t: Tree, s: seq<KV>, n: nat)
    requires j < 15 && 0 < h && n <= |s| && Tidy(t, h) && (t.Empty? || Sorted(s))
    requires !t.Leaf? && Held(m.known, t, h) && Below(m.batch, j, NodeSlot(t, h))
    ensures Tidy(Left(t), h - 1) && Tidy(Right(t), h - 1)
    ensures Held(m.known, Left(t), h - 1) && Held(m.known, Right(t), h - 1)
    ensures m.batch[2 * j + 1] == NodeSlot(Left(t), h - 1) && Below(m.batch, 2 * j + 1, m.batch[2 * j + 1])
    ensures m.batch[2 * j + 2] == NodeSlot(Right(t), h - 1) && Below(m.batch, 2 * j + 2, m.batch[2 * j + 2])
    ensures t.Empty? || (Sorted(s[..n]) && Sorted(s[n..]))
  {
    ChildOf(t, h);
  }

  lemma BatchCases(known: set<Word>, h: nat, t: Tree, s: seq<KV>, root: Slot)
    requires h <= 256 && h % 4 == 0 && s != [] && Tidy(t, h) && Rooted(root, t, h) && Held(known, t, h)
    ensures Level(0, h) && (root.Full? ==> root.word in known) && NoSlots([])
    ensures h == 0 ==> Apply(t, s, h) == Place(s[0])
    ensures Tidy(Empty, h) && NodeSlot(Empty, h) == Nil && Held(known, Empty, h)
    ensures forall k, v :: Tidy(Leaf(k, v), h)
  {
  }

  /** What a call on a batch of its own shows of its accesses. */
  lemma OwnBatch(a: seq<Action>, b: seq<Action>, m: Shared, m0: Shared, mb: Shared)
    requires Traced(a, m, m) && NoSlots(a) && Traced(b, m0, mb) && m0.known == m.known
    ensures Traced(a + NodesOnly(b), m, Shared(m.batch, mb.known)) && NoSlots(a + NodesOnly(b))
  {
    NodesOnlyTraced(b, m0, mb, m.batch);
    TracedConcat(a, NodesOnly(b), m, m, Shared(m.batch, mb.known));
  }

  /** The slots `loadChildren` looks at. */
  lemma ReadTrace(m: Shared, j: nat) returns (tr: seq<Action>)
    requires j < 15
    ensures Traced(tr, m, m) && AllInside(tr, j)
  {
    var l, r := 2 * j + 1, 2 * j + 2;
    var x, y, z := ReadSlot(j, m.batch[j]), ReadSlot(l, m.batch[l]), ReadSlot(r, m.batch[r]);
    OneTraced(x, m);
    ReadsTraced(m, 2 * j + 1, 2 * j + 2);
    TracedConcat([x], [y, z], m, m, m);
    tr := [x] + [y, z];
  }

  lemma BelowCases(m: Shared, j: nat, h: nat, t: Tree, s: seq<KV>, root: Slot)
    requires j < 15 && 0 < h <= 256 && Level(j, h) && s != [] && Tidy(t, h)
    requires Rooted(root, t, h) && Held(m.known, t, h)
    requires Below(m.batch, j, NodeSlot(t, h)) && m.batch[j] == if j == 0 then Mark(t.Leaf?) else NodeSlot(t, h)
    ensures t.Leaf? <==> if j == 0 then m.batch[0] == Mark(true) else m.batch[j].Full? && m.batch[j].flag == 1
    ensures (j == 0 && root.Full? ==> root.word in m.known) && (h == 256 ==> !root.Full?)
    ensures t.Leaf? ==>
              var c := WithChildren(m.batch, j, Nil, Nil);
              && m.batch[2 * j + 1] == Full(Raw(t.k), 2) && m.batch[2 * j + 2] == Full(t.v, 2)
              && Below(c, j, Nil) && c[2 * j + 1] == Nil && c[2 * j + 2] == Nil
              && var e := Merge(s, t.k, t.v);
              && Apply(t, s, h) == if e == [] then Outcome(Empty, true) else Spread(Empty, e, h)
    ensures !t.Leaf? ==> Apply(t, s, h) == Spread(t, s, h)
    ensures Tidy(Empty, h) && NodeSlot(Empty, h) == Nil && Held(m.known, Empty, h)
  {
    ChildOf(t, h);
    if t.Leaf? {
      BelowChildless(m.batch, 2 * j + 1, Full(Raw(t.k), 2), Nil);
      BelowChildless(m.batch, 2 * j + 2, Full(t.v, 2), Nil);
      WithChildrenBelow(m.batch, j, Nil, Nil, Nil);
    }
  }

  lemma FreeCases(m: Shared, j: nat, h: nat, t: Tree, s: seq<KV>)
    requires j < 15 && 0 < h <= 256 && Level(j, h)
    requires s != [] && Tidy(t, h) && !t.Leaf? && Below(m.batch, j, NodeSlot(t, h))
    ensures h == 256 ==> j == 0
    ensures m.batch[2 * j + 1].Nil? && m.batch[2 * j + 2].Nil? <==> t.Empty?
    ensures t.Empty? ==> Below(m.batch, j, Nil)
    ensures t.Empty? && |s| == 1 ==> Spread(t, s, h) == Place(s[0])
    ensures Tidy(Left(t), h - 1) && Tidy(Right(t), h - 1)
    ensures !(t.Empty? && |s| == 1) ==>
              var n := SplitAt(s, 256 - h);
              var l, r := Half(Left(t), s[..n], h - 1), Half(Right(t), s[n..], h - 1);
              && Spread(t, s, h) == Join(l.t, r.t, l.deleted || r.deleted)
              && (l.t.Empty? && r.t.Empty? ==> l.deleted || r.deleted)
    ensures Tidy(Empty, h) && NodeSlot(Empty, h) == Nil && Held(m.known, Empty, h)
    ensures forall k, v :: Tidy(Leaf(k, v), h)
  {
    hide Spread, Apply, SplitAt, Half;
    ChildOf(t, h);
    SpreadCases(t, s, h);
  }

  lemma SpreadCases(t: Tree, s: seq<KV>, h: nat)
    requires 0 < h <= 256 && s != [] && Tidy(t, h) && !t.Leaf?
    ensures Tidy(Left(t), h - 1) && Tidy(Right(t), h - 1)
    ensures t.Empty? && |s| == 1 ==> Spread(t, s, h) == Place(s[0])
    ensures !(t.Empty? && |s| == 1) ==>
              var n := SplitAt(s, 256 - h);
              var l, r := Half(Left(t), s[..n], h - 1), Half(Right(t), s[n..], h - 1);
              && Spread(t, s, h) == Join(l.t, r.t, l.deleted || r.deleted)
              && (l.t.Empty? && r.t.Empty? ==> l.deleted || r.deleted)
  {
    hide Apply;
  }

  lemma InsideConcat(a: seq<Action>, b: seq<Action>, i: nat)
    ensures AllInside(a, i) && AllInside(b, i) ==> AllInside(a + b, i)
  {
  }

  lemma NoTrace(m: Shared, i: nat)
    ensures Traced([], m, m) && AllInside([], i)
  {
  }

  lemma BelowBottom(b: Batch, i: nat, s: Slot)
    ensures i >= 15 ==> Below(b, i, s)
  {
  }

  lemma SiblingKept(b: Batch, c: Batch, j: nat, i: nat, s: Slot)
    requires j < 15 && (i == 2 * j + 1 || i == 2 * j + 2)
    requires forall k :: 0 <= k < 31 && !Under(i, k) ==> b[k] == c[k]
    requires Below(b, 4 * j + 3 - i, s)
    ensures Below(c, 4 * j + 3 - i, s) && b[4 * j + 3 - i] == c[4 * j + 3 - i]
  {
    var o := 4 * j + 3 - i;
    forall k | 0 <= k < 31 && (k == o || Under(o, k)) ensures b[k] == c[k] {
      if Under(2 * j + 1, k) { SiblingsApart(j, k); }
    }
    BelowFrame(b, c, o, s);
  }

  lemma {:induction false} KnownGrows(tr: seq<Action>, m: Shared, m': Shared)
    requires Traced(tr, m, m')
    ensures m.known <= m'.known
    decreases |tr|
  {
    if tr != [] {
      KnownGrows(tr[1..], Do(tr[0], m), m');
    }
  }

  lemma UnderParent(j: nat, c: nat)
    requires c == 2 * j + 1 || c == 2 * j + 2
    ensures forall i :: Under(c, i) ==> Under(j, i)
  {
    forall i | Under(c, i) ensures Under(j, i) {
      UnderChild(j, i);
    }
  }

  lemma InsideParent(tr: seq<Action>, j: nat, c: nat)
    requires c == 2 * j + 1 || c == 2 * j + 2
    requires AllInside(tr, c)
    ensures AllInside(tr, j)
  {
    UnderParent(j, c);
  }

  lemma ClearedBelow(b: Batch, c: Batch, j: nat, js: nat, s: Slot)
    requires js < 15 && (js == 2 * j + 1 || js == 2 * j + 2)
    requires c == WithChildren(b, js, Nil, Nil) && s.Full? && s.flag == 1 && s.word.LeafHash?
    requires Below(b, js, s) && Below(b, 4 * j + 3 - js, Nil)
    ensures Below(c, js, Nil) && Below(c, 4 * j + 3 - js, Nil)
  {
    BelowChildless(b, 2 * js + 1, b[2 * js + 1], Nil);
    BelowChildless(b, 2 * js + 2, b[2 * js + 2], Nil);
    WithChildrenBelow(b, js, Nil, Nil, Nil);
    var o := 4 * j + 3 - js;
    forall i | 0 <= i < 31 && Under(o, i) ensures b[i] == c[i] {
      if o == 2 * j + 1 { SiblingsApart(j, i); }
      if Under(js, i) && js == 2 * j + 1 { SiblingsApart(j, i); }
    }
    BelowFrame(b, c, o, Nil);
  }
}
