/**
 Snapshots: `walkNodes` visits the batches reachable from a root, its workers in any
 order, and the batches visited are copied under another prefix.
 */
module Walk {
  import opened Words
  import opened Trees
  import opened Batches
  import opened Layers
  import opened Sublayers
  import opened Worklists
  import opened Reads
  import opened Smt

  /** The last slots of a batch that lead to another batch: flag 0 a batch to be walked, flag 1 a shortcut batch. */
  function Outward(b: Batch, lo: nat, hi: nat): seq<Slot>
    requires lo <= hi <= 31
  {
    if lo == hi then []
    else Outward(b, lo, hi - 1) + (if b[hi - 1].Full? && b[hi - 1].flag <= 1 then [b[hi - 1]] else [])
  }

  /** The same slots, found from slot i down. */
  function BottomsOf(b: Batch, i: nat): seq<Slot>
    requires i < 31
    decreases 31 - i
  {
    if i < 15 then BottomsOf(b, 2 * i + 1) + BottomsOf(b, 2 * i + 2)
    else if b[i].Full? && b[i].flag <= 1 then [b[i]] else []
  }

  /** The first slot of the last level below slot i. */
  function First(i: nat): nat {
    if i == 0 then 15 else if i < 3 then 8 * i + 7 else if i < 7 then 4 * i + 3 else if i < 15 then 2 * i + 1 else i
  }

  /** The slot past the last one. */
  function Past(i: nat): nat {
    if i == 0 then 31 else if i < 3 then 8 * i + 15 else if i < 7 then 4 * i + 7
    else if i < 15 then 2 * i + 3 else i + 1
  }

  lemma {:induction false} OutwardConcat(b: Batch, lo: nat, mid: nat, hi: nat)
    requires lo <= mid <= hi <= 31
    ensures Outward(b, lo, hi) == Outward(b, lo, mid) + Outward(b, mid, hi)
    decreases hi
  {
    if mid < hi {
      OutwardConcat(b, lo, mid, hi - 1);
    }
  }

  lemma LevelStep(i: nat)
    requires i < 31
    ensures First(i) <= Past(i) <= 31
    ensures i < 15 ==> First(2 * i + 1) == First(i) && Past(2 * i + 1) == First(2 * i + 2) && Past(2 * i + 2) == Past(i)
    ensures i >= 15 ==> First(i) == i && Past(i) == i + 1
  {
  }

  lemma {:induction false} BottomsInOrder(b: Batch, i: nat)
    requires i < 31
    ensures First(i) <= Past(i) <= 31 && BottomsOf(b, i) == Outward(b, First(i), Past(i))
    decreases 31 - i
  {
    hide First, Past;
    LevelStep(i);
    if i < 15 {
      BottomsInOrder(b, 2 * i + 1);
      BottomsInOrder(b, 2 * i + 2);
      OutwardConcat(b, First(i), First(2 * i + 2), Past(i));
    } else {
      assert Outward(b, i, i + 1) == Outward(b, i, i) + (if b[i].Full? && b[i].flag <= 1 then [b[i]] else []);
    }
  }

  /** The slots of the next batches' roots. */
  function KidSlots(t: Tree, h: nat, n: nat): seq<Slot>
    requires Tidy(t, h) && n <= h
    decreases n
  {
    if t.Empty? then []
    else if n == 0 then [NodeSlot(t, h)]
    else if t.Node? then KidSlots(t.l, h - 1, n - 1) + KidSlots(t.r, h - 1, n - 1)
    else []
  }

  lemma {:induction false} BlankBottoms(b: Batch, i: nat)
    requires i < 31 && Blank(b, i) && (b[i] == Nil || (b[i].Full? && b[i].flag == 2))
    ensures BottomsOf(b, i) == []
    decreases 31 - i
  {
    if i < 15 {
      BlankBottoms(b, 2 * i + 1);
      BlankBottoms(b, 2 * i + 2);
    }
  }

  lemma ViewCarried(b: Batch, i: nat, t: Tree, h: nat)
    requires i < 31 && Tidy(t, h) && ChildView(b, i, t, h)
    ensures if t.Empty? then b[i] == Nil && Blank(b, i) else Carried(b, i, t, h)
  {
  }

  lemma KidSlotsStep(t: Tree, h: nat, n: nat)
    requires Tidy(t, h) && n <= h
    ensures t.Empty? ==> KidSlots(t, h, n) == []
    ensures !t.Empty? && n == 0 ==> KidSlots(t, h, n) == [NodeSlot(t, h)]
    ensures t.Leaf? && n > 0 ==> KidSlots(t, h, n) == []
    ensures t.Node? && n > 0 ==> KidSlots(t, h, n) == KidSlots(t.l, h - 1, n - 1) + KidSlots(t.r, h - 1, n - 1)
  {
  }

  lemma {:induction false} BottomsAre(b: Batch, i: nat, t: Tree, h: nat, n: nat)
    requires Tidy(t, h) && i < 31 && n == 4 - Depth(i) <= h
    requires if i == 0 then Carried(b, i, t, h) else ChildView(b, i, t, h)
    ensures BottomsOf(b, i) == KidSlots(t, h, n)
    decreases 31 - i
  {
    hide NodeSlot, Flagged, Carried, ChildView, Dig, Blank, Tidy, KidSlots, Has, Depth, BottomsOf;
    BottomsStep(b, i);
    KidSlotsStep(t, h, n);
    if i > 0 { ViewCarried(b, i, t, h); }
    if t.Empty? && i > 0 {
      BlankBottoms(b, i);
    } else if i < 15 {
      DepthStep(i);
      TidyStep(t, h);
      CarriedParts(b, i, t, h);
      CarriedNonempty(b, i, t, h);
      if t.Node? {
        BottomsAre(b, 2 * i + 1, t.l, h - 1, n - 1);
        BottomsAre(b, 2 * i + 2, t.r, h - 1, n - 1);
      } else {
        BlankBottoms(b, 2 * i + 1);
        BlankBottoms(b, 2 * i + 2);
      }
    } else {
      DepthLast(i);
      BottomSlot(b, i, t, h);
    }
  }

  lemma BottomsStep(b: Batch, i: nat)
    requires i < 31
    ensures i < 15 ==> BottomsOf(b, i) == BottomsOf(b, 2 * i + 1) + BottomsOf(b, 2 * i + 2)
    ensures i >= 15 ==> BottomsOf(b, i) == if b[i].Full? && b[i].flag <= 1 then [b[i]] else []
  {
  }

  lemma DepthLast(i: nat)
    requires i >= 15
    ensures Depth(i) == 4
  {
  }

  lemma BottomSlot(b: Batch, i: nat, t: Tree, h: nat)
    requires Tidy(t, h) && 15 <= i < 31 && Carried(b, i, t, h)
    ensures b[i] == NodeSlot(t, h) && b[i].Full? && b[i].flag <= 1 && !t.Empty?
  {
  }

  lemma {:induction false} KidSlotsAre(t: Tree, h: nat, n: nat)
    requires Tidy(t, h) && n <= h
    ensures |KidSlots(t, h, n)| == |Kids(t, n)|
    ensures forall i :: 0 <= i < |Kids(t, n)| ==>
              var u := Kids(t, n)[i];
              Tidy(u, h - n) && !u.Empty? && KidSlots(t, h, n)[i] == NodeSlot(u, h - n)
    decreases n
  {
    if n > 0 && t.Node? {
      KidSlotsAre(t.l, h - 1, n - 1);
      KidSlotsAre(t.r, h - 1, n - 1);
    }
  }

  lemma {:induction false} OutwardNone(b: Batch, hi: nat)
    requires 15 <= hi <= 31 && forall i :: 15 <= i < 31 ==> b[i] == Nil
    ensures Outward(b, 15, hi) == []
  {
    if hi > 15 {
      OutwardNone(b, hi - 1);
    }
  }

  /** The last slots of a stored batch lead to exactly the batches below it. */
  lemma OutwardAre(x: Task, b: Batch)
    requires Good(x) && b == BatchOf(Dig(x.t, 256 - 4 * x.layer))
    ensures |Outward(b, 15, 31)| == |NextTasks(x)|
    ensures forall i :: 0 <= i < |NextTasks(x)| ==>
              var y := NextTasks(x)[i];
              Good(y) && Outward(b, 15, 31)[i] == NodeSlot(y.t, 256 - 4 * y.layer)
  {
    hide Outward, BottomsOf, KidSlots, Carried, Kids, NodeSlot, BatchOf, Dig, BatchSet, AllBatches, AllLeaves, Leaves,
         Tops, NextRoots;
    var h := 256 - 4 * x.layer;
    StepDown(x);
    StoredBatch(x.t, h);
    if x.t.Node? {
      BottomsAre(b, 0, x.t, h, 4);
      BottomsInOrder(b, 0);
      KidSlotsAre(x.t, h, 4);
    } else {
      OutwardNone(b, 31);
    }
  }

  // ----- the walk -----

  /** The batches among the slots that are walked further. */
  function Walks(s: seq<Slot>): seq<Word> {
    if s == [] then []
    else
      var x := s[|s| - 1];
      Walks(s[..|s| - 1]) + (if x.Full? && x.flag == 0 then [x.word] else [])
  }

  /** The shortcut batches among the slots, which lead no further. */
  function Shorts(s: seq<Slot>): set<Word> {
    if s == [] then {}
    else
      var x := s[|s| - 1];
      Shorts(s[..|s| - 1]) + (if x.Full? && x.flag == 1 then {x.word} else {})
  }

  /** Each pending digest is the root of the subtree its task stands for. */
  ghost predicate Pending(ws: seq<Word>, work: seq<Task>) {
    && |ws| == |work| && AllGood(work)
    && forall i :: 0 <= i < |ws| ==> ws[i] == Dig(work[i].t, 256 - 4 * work[i].layer)
  }

  lemma {:induction false} SortTasks(s: seq<Slot>, ws: seq<Task>) returns (walk: seq<Task>)
    requires AllGood(ws) && |s| == |ws|
    requires forall i :: 0 <= i < |ws| ==> s[i] == NodeSlot(ws[i].t, 256 - 4 * ws[i].layer)
    ensures Pending(Walks(s), walk) && AllBatches(ws) == Shorts(s) + AllBatches(walk) && AllSize(walk) <= AllSize(ws)
    decreases |s|
  {
    hide Dig, NodeSlot, AllBatches, BatchSet, AllSize, Good, Walks, Shorts;
    if s == [] {
      walk := [];
      NoWork(ws);
      NoSlots(s);
    } else {
      var n := |s| - 1;
      var a, x := ws[..n], ws[n];
      walk := SortTasks(s[..n], a);
      assert ws == a + [x];
      One(x, LeafNode(DefaultLeaf, DefaultLeaf));
      BatchesConcat(a, [x]);
      SizeConcat(a, [x]);
      LastTask(x);
      LastSlot(s);
      if x.t.Node? {
        BatchesConcat(walk, [x]);
        SizeConcat(walk, [x]);
        walk := walk + [x];
      }
    }
  }

  lemma NoSlots(s: seq<Slot>)
    requires s == []
    ensures Walks(s) == [] && Shorts(s) == {}
  {
  }

  lemma LastSlot(s: seq<Slot>)
    requires s != []
    ensures var x, t := s[|s| - 1], s[..|s| - 1];
            && Walks(s) == Walks(t) + (if x.Full? && x.flag == 0 then [x.word] else [])
            && Shorts(s) == Shorts(t) + (if x.Full? && x.flag == 1 then {x.word} else {})
  {
  }

  lemma NoWork(ws: seq<Task>)
    requires ws == []
    ensures AllGood(ws) && AllBatches(ws) == {} && AllSize(ws) == 0
  {
  }

  lemma LastTask(x: Task)
    requires Good(x)
    ensures var h := 256 - 4 * x.layer; var s := NodeSlot(x.t, h);
            && s == Full(Dig(x.t, h), if x.t.Node? then 0 else 1)
            && (!x.t.Node? ==> BatchSet(x.t, h) == {Dig(x.t, h)})
  {
  }

  /** `part` holds batches of `db`, unchanged. */
  predicate Copies(part: map<Word, Batch>, db: map<Word, Batch>) {
    forall w <- part :: w in db && part[w] == db[w]
  }

  lemma OutwardStep(b: Batch, j: nat)
    requires 15 <= j < 31
    ensures var s, x := Outward(b, 15, j), b[j];
            && Walks(Outward(b, 15, j + 1)) == Walks(s) + (if x.Full? && x.flag == 0 then [x.word] else [])
            && Shorts(Outward(b, 15, j + 1)) == Shorts(s) + (if x.Full? && x.flag == 1 then {x.word} else {})
  {
    var s, x := Outward(b, 15, j), b[j];
    if x.Full? && x.flag <= 1 {
      assert (s + [x])[..|s|] == s;
    } else {
      assert Outward(b, 15, j + 1) == s;
    }
  }

  lemma {:induction false} ShortsGrow(b: Batch, j: nat, k: nat)
    requires 15 <= j <= k <= 31
    ensures Shorts(Outward(b, 15, j)) <= Shorts(Outward(b, 15, k))
    decreases k
  {
    if j < k {
      ShortsGrow(b, j, k - 1);
      OutwardStep(b, k - 1);
    }
  }

  /** One worker: visits the batch of a digest and the shortcut batches it leads to. */
  method WalkOne(db: map<Word, Batch>, w: Word, visited: map<Word, Batch>)
    returns (more: seq<Word>, visited': map<Word, Batch>)
    requires w in db && Shorts(Outward(db[w], 15, 31)) <= db.Keys && Copies(visited, db)
    ensures more == Walks(Outward(db[w], 15, 31))
    ensures visited'.Keys == visited.Keys + {w} + Shorts(Outward(db[w], 15, 31)) && Copies(visited', db)
  {
    hide Outward, Walks, Shorts;
    var b := db[w];
    more, visited' := [], visited[w := b];
    NoneOutward(b);
    for j := 15 to 31
      invariant more == Walks(Outward(b, 15, j))
      invariant visited'.Keys == visited.Keys + {w} + Shorts(Outward(b, 15, j)) && Copies(visited', db)
    {
      OutwardStep(b, j);
      ShortsGrow(b, j + 1, 31);
      if b[j].Full? {
        if b[j].flag == 0 {
          more := more + [b[j].word];
        }
        if b[j].flag == 1 {
          visited' := visited'[b[j].word := db[b[j].word]];
        }
      }
    }
  }

  lemma NoneOutward(b: Batch)
    ensures Walks(Outward(b, 15, 15)) == [] && Shorts(Outward(b, 15, 15)) == {}
  {
  }

  /** One pending digest, taken out of turn or not: visited, and replaced by those below it. */
  method Visit(db: map<Word, Batch>, pending: seq<Word>, i: nat, visited: map<Word, Batch>, ghost work: seq<Task>)
    returns (pending': seq<Word>, visited': map<Word, Batch>, ghost work': seq<Task>)
    requires Consistent(db) && i < |pending| && Pending(pending, work)
    requires AllBatches(work) <= db.Keys && Copies(visited, db)
    ensures Pending(pending', work') && AllBatches(work') <= db.Keys && Copies(visited', db)
    ensures AllSize(work') < AllSize(work)
    ensures visited.Keys + AllBatches(work) == visited'.Keys + AllBatches(work')
  {
    hide AllBatches, AllSize, BatchSet, Dig, NodeSlot, Outward, Walks, Shorts, NextTasks, AllLeaves, NextRoots,
         BatchOf, Leaves, Tops, LeafNodes;
    ghost var x := work[i];
    WithoutBatches(work, i);
    WithoutLeaves(work, i, LeafNode(DefaultLeaf, DefaultLeaf));
    StepDown(x);
    OutwardAre(x, db[pending[i]]);
    ghost var walk := SortTasks(Outward(db[pending[i]], 15, 31), NextTasks(x));
    var more;
    more, visited' := WalkOne(db, pending[i], visited);
    pending' := pending[..i] + pending[i + 1..] + more;
    work' := Without(work, i) + walk;
    BatchesConcat(Without(work, i), walk);
    SizeConcat(Without(work, i), walk);
  }

  /** The whole walk: whatever the order, exactly the batches of the trie are visited. */
  method WalkNodes(db: map<Word, Batch>, root: Word, ghost t: Tree) returns (visited: map<Word, Batch>)
    requires Consistent(db) && Tidy(t, 256) && !t.Empty? && root == Dig(t, 256) && Held(db.Keys, t, 256)
    ensures visited.Keys == BatchSet(t, 256) && Copies(visited, db)
  {
    hide AllBatches, AllLeaves, AllSize, BatchSet, Dig, Held, Consistent;
    HeldIff(db.Keys, t, 256);
    var pending := [root];
    ghost var work := [Task(t, 0)];
    One(work[0], LeafNode(DefaultLeaf, DefaultLeaf));
    visited := map[];
    while pending != []
      invariant Pending(pending, work) && AllBatches(work) <= db.Keys && Copies(visited, db)
      invariant visited.Keys + AllBatches(work) == BatchSet(t, 256)
      decreases AllSize(work)
    {
      var i :| 0 <= i < |pending|;
      pending, visited, work := Visit(db, pending, i, visited, work);
    }
    NoWork(work);
  }

  /** A copy of a non-empty trie under another prefix, just committed or just opened at its
      root: the same tree, so every read is answered as in the original. */
  method SnapShot(s: SMT) returns (copy: SMT)
    requires s.Valid() && s.updatedNodes == map[] && s.root.Some?
    requires (s.prevRoot == s.root && s.saved == s.tree) || (s.prevRoot == None && s.saved == Empty)
    ensures fresh(copy) && copy.Valid() && copy.tree == s.tree && copy.saved == s.saved
    ensures copy.root == s.root && copy.prevRoot == s.prevRoot && copy.commitHeight == s.commitHeight
    ensures copy.roots == map[s.commitHeight := s.root] && copy.history == map[s.commitHeight := s.tree]
    ensures copy.db.Keys == BatchSet(s.tree, 256)
    ensures forall k: Key :: copy.Get(k) == s.Get(k)
  {
    hide Consistent, Held, Dig, Reads.Get, BatchSet, Remembers;
    assert s.Known() == s.db.Keys;
    var visited := WalkNodes(s.db, s.root.value, s.tree);
    NothingDenotes(visited.Keys);
    CopyDenotes(s.db, visited, s.root, s.tree);
    copy := new SMT(s.root, visited, s.tree);
    copy.prevRoot, copy.saved := s.prevRoot, s.saved;
    copy.commitHeight := s.commitHeight;
    copy.roots := map[s.commitHeight := s.root];
    copy.history := map[s.commitHeight := s.tree];
    RemembersOne(s.commitHeight, s.root, s.tree, visited.Keys);
    forall k: Key ensures copy.Get(k) == s.Get(k) {
      copy.GetAnswers(k);
      s.GetAnswers(k);
    }
  }

  lemma RemembersOne(height: nat, r: Option<Word>, t: Tree, known: set<Word>)
    requires Denotes(r, t, known)
    ensures Remembers(map[height := r], map[height := t], known)
  {
  }

  lemma NothingDenotes(known: set<Word>)
    ensures Denotes(None, Empty, known)
  {
  }

  lemma CopyDenotes(db: map<Word, Batch>, part: map<Word, Batch>, r: Option<Word>, t: Tree)
    requires Consistent(db) && Denotes(r, t, db.Keys) && Copies(part, db) && part.Keys == BatchSet(t, 256)
    ensures Consistent(part) && Denotes(r, t, part.Keys)
  {
    HeldIff(part.Keys, t, 256);
  }
}
