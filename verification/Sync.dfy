/**
 Fast sync: a trie rebuilt from nothing but its root, batch by batch, each checked
 against the digest it was asked for.
 */
module Sync {
  import opened Words
  import opened Trees
  import opened Batches
  import opened Layers
  import opened Sublayers
  import opened Worklists
  import opened Offers
  import opened Reads
  import opened Received
  import opened Smt

  datatype Reply =
    | Stored(next: seq<Word>, layer: int, leaves: seq<LeafNode>)
    | Invalid
    | Panicked

  /** Each outstanding item is the root of the subtree its task stands for. */
  ghost predicate Asks(todo: seq<Item>, work: seq<Task>) {
    |todo| == |work| && AllGood(work) && forall i :: 0 <= i < |todo| ==> todo[i] == ItemOf(work[i])
  }

  class Syncer {
    var db: map<Word, Batch>
    var commitHeight: nat
    var roots: map<nat, Word>

    /** Takes a batch for a digest at a layer: checked, stored, and read for what it refers to.
        No batch stands for bytes that cannot be parsed. */
    method StoreSnapShotNode(batch: Option<Batch>, root: Word, layer: int) returns (r: Reply)
      requires batch.Some? ==> Wire(batch.value)
      modifies this`db
      ensures batch.None? || layer < 0 ==> db == old(db) && r == Invalid
      ensures batch.Some? && layer >= 0 ==>
                var b, c := batch.value, VerifyBatchEasy(batch.value, root, layer);
                && db == (if Passed(c) then old(db)[root := b] else old(db))
                && r == if c.Panic? then Panicked
                        else if !c.ok then Invalid
                        else if !Reportable(b, 0) then Panicked
                        else Stored(InteriorNodesEasy(b), layer + 1, FinalLeafNodes(b, 0))
    {
      if batch.None? {
        return Invalid;
      }
      if layer != 0 && layer <= 0 {
        return Invalid;
      }
      var b := batch.value;
      var c := VerifyBatchEasy(b, root, layer);
      if c.Panic? {
        return Panicked;
      }
      if !c.ok {
        return Invalid;
      }
      db := db[root := b];
      if !Reportable(b, 0) {
        return Panicked;
      }
      return Stored(InteriorNodesEasy(b), layer + 1, FinalLeafNodes(b, 0));
    }

    method FinalizeSnapShotRoot(root: Word, height: nat)
      modifies this`commitHeight, this`roots
      ensures commitHeight == height && roots == old(roots)[height := root]
    {
      commitHeight := height;
      roots := roots[height := root];
    }

    /** An outstanding item, answered with any neat batch: refused and still outstanding, or
        stored as a mirror of the trie's own and replaced by the items below it. */
    method Answer(b: Batch, item: Item, todo: seq<Item>, ghost work: seq<Task>)
      returns (todo': seq<Item>, leaves: seq<LeafNode>)
      requires item in todo && Asks(todo, work) && Wire(b) && NeatBatch(b)
      modifies this`db
      ensures !Accepted(b, item) ==> db == old(db) && todo' == todo && leaves == []
      ensures Accepted(b, item) ==>
                && db == old(db)[item.w := b] && Mirrors(b, BatchOf(item.w))
                && Asks(todo', Descend(work, item)) && item !in todo'
                && AllSize(Descend(work, item)) < AllSize(work)
                && AllBatches(work) == {item.w} + AllBatches(Descend(work, item))
                && forall e :: AllLeaves(work, e) == multiset(leaves)[e] + AllLeaves(Descend(work, item), e)
    {
      hide AllBatches, AllLeaves, AllSize, BatchSet, Dig, VerifyBatchEasy, NextRoots, InteriorNodesEasy,
           FinalLeafNodes, LeafNodes, Leaves, Tops, NextTasks, BatchOf, Mirrors, Wire, NeatBatch, Reportable, Descend;
      var r := StoreSnapShotNode(Some(b), item.w, item.layer);
      if !Accepted(b, item) {
        return todo, [];
      }
      ghost var first :| 0 <= first < |todo| && todo[first] == item;
      Reported(b, work[first]);
      DescendTotals(work, item);
      var more := seq(|r.next|, n requires 0 <= n < |r.next| => Item(r.next[n], item.layer + 1));
      todo', leaves := [], [];
      NoneDescend(item);
      for i := 0 to |todo|
        invariant db == old(db)[item.w := b]
        invariant Asks(todo', Descend(work[..i], item)) && item !in todo'
        invariant forall e :: AllLeaves(work[..i], e) == multiset(leaves)[e] + AllLeaves(Descend(work[..i], item), e)
      {
        OneDown(b, work, i, item, todo', leaves);
        if todo[i] == item {
          todo', leaves := todo' + more, leaves + r.leaves;
        } else {
          todo' := todo' + [todo[i]];
        }
      }
      assert work[..|todo|] == work;
    }

    /** A run with batches from anybody, each offered for an item.  While every batch that is
        accepted for an outstanding item is neat, what is outstanding is what the tree says,
        and the table holds mirrors of all batches but those; nothing is left exactly when the
        offers serve the root.  The leaves handed out are then those of the trie, each as often
        as it occurs there. */
    method Receive(offers: seq<Offer>, root: Word, ghost t: Tree)
      returns (todo: seq<Item>, leaves: seq<LeafNode>, neat: bool)
      requires MirrorTable(db) && forall i :: 0 <= i < |offers| ==> Wire(offers[i].batch)
      requires Tidy(t, 256) && !t.Empty? && root == Dig(t, 256)
      modifies this`db
      ensures Good(Task(t, 0)) && AllGood([Task(t, 0)])
      ensures neat <==> AllNeat([Task(t, 0)], offers)
      ensures neat ==> Asks(todo, Remaining([Task(t, 0)], offers)) && MirrorTable(db)
      ensures neat ==> old(db).Keys + BatchSet(t, 256) == db.Keys + AllBatches(Remaining([Task(t, 0)], offers))
      ensures neat ==> forall e :: multiset(leaves)[e] + AllLeaves(Remaining([Task(t, 0)], offers), e) ==
                                     multiset(LeafNodes(Leaves(t)))[e]
      ensures neat ==> (todo == [] <==> Served(offers, Task(t, 0)))
      ensures neat && ByLayer(offers) && Covered(offers, Task(t, 0)) ==> todo == []
      ensures neat && todo == [] ==> db.Keys == old(db).Keys + BatchSet(t, 256) && Held(db.Keys, t, 256)
      ensures neat && todo == [] ==> forall e :: multiset(leaves)[e] == multiset(LeafNodes(Leaves(t)))[e]
    {
      hide AllBatches, AllLeaves, AllSize, BatchSet, Dig, LeafNodes, Leaves, Held, Mirrors, BatchOf, VerifyBatchEasy,
           Wire, NeatBatch, Good, Descend, Served, Remaining, ItemOf, Accepted, Covered, ByLayer;
      todo, leaves, neat := [Item(root, 0)], [], true;
      ghost var all := [Task(t, 0)];
      Begun(t);
      assert offers[..0] == [];
      RemainingNone(all);
      for n := 0 to |offers|
        invariant neat && MirrorTable(db) && AllGood(all) && Asks(todo, Remaining(all, offers[..n]))
        invariant forall m :: 0 <= m < n && Meets(offers[m], Remaining(all, offers[..m])) ==> NeatBatch(offers[m].batch)
        invariant old(db).Keys + BatchSet(t, 256) == db.Keys + AllBatches(Remaining(all, offers[..n]))
        invariant forall e :: multiset(leaves)[e] + AllLeaves(Remaining(all, offers[..n]), e) ==
                                multiset(LeafNodes(Leaves(t)))[e]
      {
        var o := offers[n];
        ghost var work := Remaining(all, offers[..n]);
        assert offers[..n + 1] == offers[..n] + [o];
        RemainingMore(all, offers[..n], o);
        AskedFor(todo, work, o);
        if o.item in todo && Accepted(o.batch, o.item) {
          if !NeatBatch(o.batch) {
            return todo, leaves, false;
          }
          var more;
          todo, more := Answer(o.batch, o.item, todo, work);
          leaves := leaves + more;
        }
      }
      assert offers[..|offers|] == offers;
      RemainingIff(all, offers);
      OneServed(offers, Task(t, 0));
      if ByLayer(offers) && Covered(offers, Task(t, 0)) { LayersServe(offers, Task(t, 0)); }
      if todo == [] {
        NothingLeft(Remaining(all, offers));
        HeldIff(db.Keys, t, 256);
      }
    }

    /** A whole run with genuine batches, the outstanding items taken in any order: it ends,
        every batch on the way is accepted, the leaves handed out are those of the trie, each
        as often as it occurs there, and every batch of the trie has been stored. */
    method Run(source: map<Word, Batch>, root: Word, ghost t: Tree) returns (leaves: seq<LeafNode>)
      requires Consistent(source) && Consistent(db)
      requires Tidy(t, 256) && !t.Empty? && root == Dig(t, 256) && Held(source.Keys, t, 256)
      modifies this`db
      ensures Consistent(db) && db.Keys == old(db).Keys + BatchSet(t, 256) && Held(db.Keys, t, 256)
      ensures MirrorTable(db)
      ensures forall e :: multiset(leaves)[e] == multiset(LeafNodes(Leaves(t)))[e]
    {
      hide AllBatches, AllLeaves, AllSize, BatchSet, Dig, LeafNodes, Leaves, Held, Mirrors, BatchOf, VerifyBatchEasy,
           Wire, NeatBatch, InteriorNodesEasy, FinalLeafNodes, Descend, Good, Accepted, ItemOf;
      HeldIff(source.Keys, t, 256);
      var todo := [Item(root, 0)];
      ghost var work := [Task(t, 0)];
      leaves := [];
      Begun(t);
      while todo != []
        invariant Consistent(db) && Asks(todo, work) && AllBatches(work) <= source.Keys
        invariant old(db).Keys + BatchSet(t, 256) == db.Keys + AllBatches(work)
        invariant forall e :: multiset(leaves)[e] + AllLeaves(work, e) == multiset(LeafNodes(Leaves(t)))[e]
        decreases AllSize(work)
      {
        var i :| 0 <= i < |todo|;
        var item := todo[i];
        DescendTotals(work, item);
        Genuine(work[i]);
        var more;
        todo, more := Answer(source[item.w], item, todo, work);
        work := Descend(work, item);
        leaves := leaves + more;
      }
      NothingLeft(work);
      HeldIff(db.Keys, t, 256);
      ConsistentMirrors(db);
    }
  }

  lemma Begun(t: Tree)
    requires Tidy(t, 256) && !t.Empty?
    ensures var work := [Task(t, 0)];
            && Good(Task(t, 0)) && Asks([Item(Dig(t, 256), 0)], work) && AllBatches(work) == BatchSet(t, 256)
            && forall e :: AllLeaves(work, e) == multiset(LeafNodes(Leaves(t)))[e]
  {
    hide AllBatches, AllLeaves, BatchSet, Dig, LeafNodes, Leaves;
    var work := [Task(t, 0)];
    One(work[0], LeafNode(DefaultLeaf, DefaultLeaf));
    forall e ensures AllLeaves(work, e) == multiset(LeafNodes(Leaves(t)))[e] {
      One(work[0], e);
    }
  }

  /** What an accepted neat batch reports for a task. */
  lemma Reported(b: Batch, x: Task)
    requires Good(x) && Wire(b) && NeatBatch(b) && Accepted(b, ItemOf(x))
    ensures Mirrors(b, BatchOf(ItemOf(x).w)) && Reportable(b, 0)
    ensures |InteriorNodesEasy(b)| == |NextTasks(x)| && AllGood(NextTasks(x))
    ensures forall n :: 0 <= n < |NextTasks(x)| ==>
              Item(InteriorNodesEasy(b)[n], x.layer + 1) == ItemOf(NextTasks(x)[n])
    ensures forall e :: multiset(LeafNodes(Leaves(x.t)))[e] ==
                          multiset(FinalLeafNodes(b, 0))[e] + AllLeaves(NextTasks(x), e)
  {
    hide AllBatches, AllLeaves, AllSize, BatchSet, Dig, VerifyBatchEasy, NextRoots, InteriorNodesEasy, FinalLeafNodes,
         LeafNodes, Leaves, Tops, NextTasks, BatchOf, Mirrors, Wire, NeatBatch, Reportable;
    NeatAnswer(b, x.t, x.layer, 256 - 4 * x.layer);
    StepDown(x);
  }

  /** One task of the list, met on the way through it. */
  lemma OneDown(b: Batch, work: seq<Task>, i: nat, item: Item, todo: seq<Item>, leaves: seq<LeafNode>)
    requires AllGood(work) && i < |work| && Wire(b) && NeatBatch(b) && Accepted(b, item)
    requires AllGood(work[..i]) && Asks(todo, Descend(work[..i], item)) && item !in todo
    requires forall e :: AllLeaves(work[..i], e) == multiset(leaves)[e] + AllLeaves(Descend(work[..i], item), e)
    ensures AllGood(work[..i + 1])
    ensures ItemOf(work[i]) != item ==>
              && Asks(todo + [ItemOf(work[i])], Descend(work[..i + 1], item))
              && forall e :: AllLeaves(work[..i + 1], e) ==
                               multiset(leaves)[e] + AllLeaves(Descend(work[..i + 1], item), e)
    ensures ItemOf(work[i]) == item ==>
              var next := InteriorNodesEasy(b);
              var more := seq(|next|, n requires 0 <= n < |next| => Item(next[n], item.layer + 1));
              && Asks(todo + more, Descend(work[..i + 1], item)) && item !in more
              && forall e :: AllLeaves(work[..i + 1], e) ==
                               multiset(leaves + FinalLeafNodes(b, 0))[e] + AllLeaves(Descend(work[..i + 1], item), e)
  {
    hide AllLeaves, VerifyBatchEasy, InteriorNodesEasy, FinalLeafNodes, LeafNodes, Leaves, NextTasks, BatchOf, Mirrors,
         Wire, NeatBatch, Reportable, ItemOf, Good, Accepted, Descend;
    var x := work[i];
    DescendMore(work, i, item);
    if ItemOf(x) == item { Reported(b, x); }
    One(x, LeafNode(DefaultLeaf, DefaultLeaf));
    forall e
      ensures AllLeaves(work[..i + 1], e) == AllLeaves(work[..i], e) + multiset(LeafNodes(Leaves(x.t)))[e]
      ensures AllLeaves(Descend(work[..i + 1], item), e) ==
                AllLeaves(Descend(work[..i], item), e) + AllLeaves(Beneath(x, item), e)
    {
      LeavesConcat(work[..i], [x], e);
      One(x, e);
      LeavesConcat(Descend(work[..i], item), Beneath(x, item), e);
    }
    forall e ensures AllLeaves([x], e) == multiset(LeafNodes(Leaves(x.t)))[e] { One(x, e); }
    ItemLayer(x);
  }

  lemma ItemLayer(x: Task)
    requires Good(x)
    ensures ItemOf(x).layer == x.layer
  {
  }

  lemma DescendMore(work: seq<Task>, i: nat, item: Item)
    requires AllGood(work) && i < |work|
    ensures AllGood(work[..i]) && AllGood(work[..i + 1]) && work[..i + 1] == work[..i] + [work[i]]
    ensures Descend(work[..i + 1], item) == Descend(work[..i], item) + Beneath(work[i], item)
  {
    assert work[..i + 1][..i] == work[..i];
  }

  lemma NoneDescend(item: Item)
    ensures AllGood([]) && Descend([], item) == [] && forall e :: AllLeaves([], e) == 0
  {
  }

  lemma RemainingMore(work: seq<Task>, offers: seq<Offer>, o: Offer)
    requires AllGood(work)
    ensures Remaining(work, offers + [o]) == Step(Remaining(work, offers), o)
  {
    assert (offers + [o])[..|offers|] == offers;
  }

  lemma RemainingNone(work: seq<Task>)
    requires AllGood(work)
    ensures Remaining(work, []) == work
  {
  }

  /** An offer meets what is outstanding exactly when its item is asked for; otherwise it
      changes nothing. */
  lemma AskedFor(todo: seq<Item>, work: seq<Task>, o: Offer)
    requires Asks(todo, work)
    ensures Meets(o, work) <==> o.item in todo && Accepted(o.batch, o.item)
    ensures !Meets(o, work) ==> Step(work, o) == work
  {
    hide ItemOf, Good, Accepted, Beneath, Descend;
    if o.item in todo {
      var i :| 0 <= i < |todo| && todo[i] == o.item;
      assert ItemOf(work[i]) == o.item;
    } else {
      Untouched(work, o.item);
    }
  }

  lemma {:induction false} Untouched(work: seq<Task>, item: Item)
    requires AllGood(work) && forall i :: 0 <= i < |work| ==> ItemOf(work[i]) != item
    ensures Descend(work, item) == work
  {
    hide ItemOf, Good;
    if work != [] {
      var n := |work| - 1;
      Untouched(work[..n], item);
      assert work == work[..n] + [work[n]];
    }
  }

  /** The trie's own batch for a task. */
  lemma Genuine(x: Task)
    requires Good(x)
    ensures var b := BatchOf(ItemOf(x).w); Wire(b) && NeatBatch(b) && Accepted(b, ItemOf(x))
  {
    hide BatchOf, Dig, VerifyBatchEasy, NeatBatch, InteriorNodesEasy, FinalLeafNodes, Wire;
    GenuineAccepted(x.t, x.layer, 256 - 4 * x.layer);
    GenuineNeat(x.t, x.layer, 256 - 4 * x.layer);
  }

  /** Offers of the trie's own batches are neat, whatever is outstanding. */
  lemma GenuineOffers(work: seq<Task>, offers: seq<Offer>)
    requires AllGood(work) && forall n :: 0 <= n < |offers| ==> offers[n].batch == BatchOf(offers[n].item.w)
    ensures AllNeat(work, offers)
  {
    hide BatchOf, NeatBatch, Good, Accepted, ItemOf, Remaining, Wire;
    forall n | 0 <= n < |offers| && Meets(offers[n], Remaining(work, offers[..n])) ensures NeatBatch(offers[n].batch) {
      var ws := Remaining(work, offers[..n]);
      var i :| 0 <= i < |ws| && ItemOf(ws[i]) == offers[n].item;
      Genuine(ws[i]);
    }
  }

  lemma NothingLeft(work: seq<Task>)
    requires work == []
    ensures AllGood(work) && AllBatches(work) == {} && forall e :: AllLeaves(work, e) == 0
  {
  }

  /** What a finished run handed out and stored: the pairs of the map, each once, and a
      table that answers every read with what the map holds. */
  lemma SyncedMap(db: map<Word, Batch>, t: Tree, leaves: seq<LeafNode>, e: KV)
    requires Homed(t, 256, []) && Tidy(t, 256) && !t.Empty?
    requires MirrorTable(db) && Held(db.Keys, t, 256)
    requires forall e :: multiset(leaves)[e] == multiset(LeafNodes(Leaves(t)))[e]
    ensures multiset(leaves)[LeafNode(Raw(e.k), e.v)] == if Find(Contents(t), e.k) == Some(e.v) then 1 else 0
    ensures Reads.Get(db, Bare(Dig(t, 256)), e.k, NewBatch(), 0, 256) == Found(Find(Contents(t), e.k))
  {
    hide Held, MirrorTable, Reads.Get, Dig, Leaves;
    LeavesOnce(t, 256, [], e);
    LeafNodesCount(Leaves(t), e);
    LookupIsFind(t, 256, [], e.k);
    MirrorReads(db, t, e.k, NewBatch());
  }

  /** A table of the batches themselves is one of mirrors. */
  lemma ConsistentMirrors(db: map<Word, Batch>)
    requires Consistent(db)
    ensures MirrorTable(db)
  {
    forall w | w in db ensures Mirrors(db[w], BatchOf(w)) { }
  }
}
