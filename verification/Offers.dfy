/**
 Batches offered for the outstanding digests of a trie, by anybody and in any order: what is
 still outstanding after them, and when nothing is.
 */
module Offers {
  import opened Words
  import opened Trees
  import opened Batches
  import opened Layers
  import opened Sublayers
  import opened Worklists
  import opened Received

  /** A digest asked for, with its layer. */
  datatype Item = Item(w: Word, layer: nat)

  datatype Offer = Offer(item: Item, batch: Batch)

  function ItemOf(x: Task): Item
    requires Good(x)
  {
    Item(Dig(x.t, 256 - 4 * x.layer), x.layer)
  }

  predicate Accepted(b: Batch, item: Item) {
    Passed(VerifyBatchEasy(b, item.w, item.layer))
  }

  // ----- what is outstanding -----

  function Beneath(x: Task, item: Item): (ws: seq<Task>)
    requires Good(x)
    ensures AllGood(ws)
  {
    StepDown(x);
    if ItemOf(x) == item then NextTasks(x) else [x]
  }

  /** The tasks with that item replaced by those below it. */
  function Descend(work: seq<Task>, item: Item): (ws: seq<Task>)
    requires AllGood(work)
    ensures AllGood(ws)
  {
    if work == [] then []
    else
      var n := |work| - 1;
      Descend(work[..n], item) + Beneath(work[n], item)
  }

  function Step(work: seq<Task>, o: Offer): (ws: seq<Task>)
    requires AllGood(work)
    ensures AllGood(ws)
  {
    if Accepted(o.batch, o.item) then Descend(work, o.item) else work
  }

  /** What is outstanding after some offers. */
  function Remaining(work: seq<Task>, offers: seq<Offer>): (ws: seq<Task>)
    requires AllGood(work)
    ensures AllGood(ws)
  {
    if offers == [] then work else Step(Remaining(work, offers[..|offers| - 1]), offers[|offers| - 1])
  }

  /** The offer names an outstanding item and passes the check. */
  predicate Meets(o: Offer, work: seq<Task>)
    requires AllGood(work)
  {
    Accepted(o.batch, o.item) && exists i :: 0 <= i < |work| && ItemOf(work[i]) == o.item
  }

  /** Every such offer is neat. */
  predicate AllNeat(work: seq<Task>, offers: seq<Offer>)
    requires AllGood(work)
  {
    forall n :: 0 <= n < |offers| && Meets(offers[n], Remaining(work, offers[..n])) ==> NeatBatch(offers[n].batch)
  }

  // ----- accounts -----

  lemma BeneathTotals(x: Task, item: Item)
    requires Good(x)
    ensures AllBatches(Beneath(x, item)) + {item.w} == BatchSet(x.t, 256 - 4 * x.layer) + {item.w}
    ensures ItemOf(x) == item ==> item.w in BatchSet(x.t, 256 - 4 * x.layer)
    ensures if ItemOf(x) == item then AllSize(Beneath(x, item)) < Size(x.t) else AllSize(Beneath(x, item)) == Size(x.t)
  {
    hide BatchSet, AllBatches, AllSize, Dig, Size;
    StepDown(x);
    One(x, LeafNode(DefaultLeaf, DefaultLeaf));
  }

  lemma {:induction false} DescendTotals(work: seq<Task>, item: Item)
    requires AllGood(work)
    ensures AllBatches(Descend(work, item)) + {item.w} == AllBatches(work) + {item.w}
    ensures AllSize(Descend(work, item)) <= AllSize(work)
    ensures (exists i :: 0 <= i < |work| && ItemOf(work[i]) == item) ==>
              item.w in AllBatches(work) && AllSize(Descend(work, item)) < AllSize(work)
  {
    hide Beneath, BatchSet, AllBatches, AllSize, Dig, Size, ItemOf, Good;
    if work != [] {
      var n := |work| - 1;
      var x := work[n];
      DescendTotals(work[..n], item);
      BeneathTotals(x, item);
      One(x, LeafNode(DefaultLeaf, DefaultLeaf));
      assert work == work[..n] + [x];
      BatchesConcat(work[..n], [x]);
      SizeConcat(work[..n], [x]);
      BatchesConcat(Descend(work[..n], item), Beneath(x, item));
      SizeConcat(Descend(work[..n], item), Beneath(x, item));
      if i :| 0 <= i < |work| && ItemOf(work[i]) == item {
        if i < n { assert ItemOf(work[..n][i]) == item; }
      }
    }
  }

  // ----- when nothing is left -----

  lemma BeneathSmaller(x: Task, i: nat)
    requires Good(x) && i < |NextTasks(x)|
    ensures Good(NextTasks(x)[i]) && Size(NextTasks(x)[i].t) < Size(x.t)
  {
    hide AllSize, Size, NextTasks, BatchSet, Dig, AllBatches;
    StepDown(x);
    OneOfAll(NextTasks(x), i);
  }

  lemma {:induction false} OneOfAll(ws: seq<Task>, i: nat)
    requires i < |ws|
    ensures Size(ws[i].t) <= AllSize(ws)
  {
    if i > 0 { OneOfAll(ws[1..], i - 1); }
  }

  /** Some offer answers the task, and later ones all tasks below it. */
  ghost predicate Served(offers: seq<Offer>, x: Task)
    requires Good(x)
    decreases Size(x.t), 1
  {
    exists n :: 0 <= n < |offers| && ServedAt(offers, x, n)
  }

  ghost predicate ServedAt(offers: seq<Offer>, x: Task, n: nat)
    requires Good(x) && n < |offers|
    decreases Size(x.t), 0
  {
    && offers[n].item == ItemOf(x) && Accepted(offers[n].batch, offers[n].item)
    && forall i :: 0 <= i < |NextTasks(x)| ==> (BeneathSmaller(x, i); Served(offers[n + 1..], NextTasks(x)[i]))
  }

  ghost predicate AllServed(offers: seq<Offer>, ws: seq<Task>)
    requires AllGood(ws)
  {
    forall i :: 0 <= i < |ws| ==> Served(offers, ws[i])
  }

  lemma ServedLater(offers: seq<Offer>, k: nat, x: Task)
    requires Good(x) && k <= |offers| && Served(offers[k..], x)
    ensures Served(offers, x)
  {
    hide Good, ItemOf, NextTasks;
    var n :| 0 <= n < |offers[k..]| && ServedAt(offers[k..], x, n);
    assert offers[k..][n] == offers[k + n] && offers[k..][n + 1..] == offers[k + n + 1..];
    assert ServedAt(offers, x, k + n);
  }

  lemma ServedBy(offers: seq<Offer>, x: Task) returns (n: nat)
    requires Good(x) && Served(offers, x)
    ensures n < |offers| && ServedAt(offers, x, n)
  {
    n :| 0 <= n < |offers| && ServedAt(offers, x, n);
  }

  lemma OneServed(offers: seq<Offer>, x: Task)
    requires Good(x)
    ensures AllGood([x]) && (AllServed(offers, [x]) <==> Served(offers, x))
  {
    hide Good, Served;
    assert [x][0] == x;
  }

  /** The first offer answers a task at once or not at all. */
  lemma ServedFirst(offers: seq<Offer>, x: Task)
    requires Good(x) && offers != []
    ensures AllGood(NextTasks(x))
    ensures Served(offers, x) <==>
              if offers[0].item == ItemOf(x) && Accepted(offers[0].batch, offers[0].item)
              then AllServed(offers[1..], NextTasks(x)) else Served(offers[1..], x)
  {
    hide Good, ItemOf, NextTasks, Accepted;
    StepDown(x);
    var rest, ws := offers[1..], NextTasks(x);
    if Served(rest, x) { ServedLater(offers, 1, x); }
    if AllServed(rest, ws) && offers[0].item == ItemOf(x) && Accepted(offers[0].batch, offers[0].item) {
      assert ServedAt(offers, x, 0);
    }
    if Served(offers, x) {
      var n := ServedBy(offers, x);
      forall i | 0 <= i < |ws| ensures Served(rest, ws[i]) {
        assert offers[n + 1..] == rest[n..];
        ServedLater(rest, n, ws[i]);
      }
      if n > 0 {
        assert rest[n - 1] == offers[n] && rest[n - 1 + 1..] == offers[n + 1..];
        assert ServedAt(rest, x, n - 1);
      }
    }
  }

  lemma AllServedConcat(offers: seq<Offer>, a: seq<Task>, b: seq<Task>)
    requires AllGood(a) && AllGood(b)
    ensures AllGood(a + b) && (AllServed(offers, a + b) <==> AllServed(offers, a) && AllServed(offers, b))
  {
    hide Good, Served;
    assert forall i :: 0 <= i < |a| ==> (a + b)[i] == a[i];
    assert forall i :: 0 <= i < |b| ==> (a + b)[|a| + i] == b[i];
  }

  lemma {:induction false} StepServed(offers: seq<Offer>, work: seq<Task>)
    requires AllGood(work) && offers != []
    ensures AllServed(offers, work) <==> AllServed(offers[1..], Step(work, offers[0]))
  {
    hide Good, Served, ItemOf, NextTasks, Accepted, Beneath;
    if Accepted(offers[0].batch, offers[0].item) {
      DescendServed(offers, work);
    } else {
      forall i | 0 <= i < |work| ensures Served(offers, work[i]) <==> Served(offers[1..], work[i]) {
        ServedFirst(offers, work[i]);
      }
    }
  }

  lemma {:induction false} DescendServed(offers: seq<Offer>, work: seq<Task>)
    requires AllGood(work) && offers != [] && Accepted(offers[0].batch, offers[0].item)
    ensures AllServed(offers, work) <==> AllServed(offers[1..], Descend(work, offers[0].item))
  {
    hide Good, Served, ItemOf, NextTasks, Accepted, Beneath, AllServed;
    if work == [] {
      NoneServed(offers);
      NoneServed(offers[1..]);
    } else {
      var n := |work| - 1;
      DescendServed(offers, work[..n]);
      assert work == work[..n] + [work[n]];
      AllServedConcat(offers, work[..n], [work[n]]);
      AllServedConcat(offers[1..], Descend(work[..n], offers[0].item), Beneath(work[n], offers[0].item));
      BeneathServed(offers, work[n]);
    }
  }

  lemma NoneServed(offers: seq<Offer>)
    ensures AllServed(offers, [])
  {
  }

  lemma BeneathServed(offers: seq<Offer>, x: Task)
    requires Good(x) && offers != [] && Accepted(offers[0].batch, offers[0].item)
    ensures AllGood([x]) && (AllServed(offers, [x]) <==> AllServed(offers[1..], Beneath(x, offers[0].item)))
  {
    hide Good, Served, ItemOf, NextTasks, Accepted, AllServed;
    OneServed(offers, x);
    OneServed(offers[1..], x);
    ServedFirst(offers, x);
  }

  lemma {:induction false} RemainingFirst(work: seq<Task>, offers: seq<Offer>)
    requires AllGood(work) && offers != []
    ensures Remaining(work, offers) == Remaining(Step(work, offers[0]), offers[1..])
  {
    hide Good, Step;
    var n := |offers| - 1;
    if n > 0 {
      RemainingFirst(work, offers[..n]);
      assert offers[..n][1..] == offers[1..][..n - 1];
    }
  }

  /** Nothing is left exactly when every task is served. */
  lemma {:induction false} RemainingIff(work: seq<Task>, offers: seq<Offer>)
    requires AllGood(work)
    ensures Remaining(work, offers) == [] <==> AllServed(offers, work)
    decreases |offers|
  {
    hide Good, Step, ServedAt;
    if offers != [] {
      RemainingFirst(work, offers);
      RemainingIff(Step(work, offers[0]), offers[1..]);
      StepServed(offers, work);
    } else if work != [] {
      assert !Served(offers, work[0]);
    }
  }

  // ----- offers in the order of the layers -----

  /** The batch of the task and every batch below it is among the offers. */
  ghost predicate Covered(offers: seq<Offer>, x: Task)
    requires Good(x)
    decreases Size(x.t)
  {
    && (exists n :: 0 <= n < |offers| && Answers(offers[n], x))
    && forall i :: 0 <= i < |NextTasks(x)| ==> (BeneathSmaller(x, i); Covered(offers, NextTasks(x)[i]))
  }

  predicate Answers(o: Offer, x: Task)
    requires Good(x)
  {
    o.item == ItemOf(x) && Accepted(o.batch, o.item)
  }

  predicate ByLayer(offers: seq<Offer>) {
    forall i, j :: 0 <= i < j < |offers| ==> offers[i].item.layer <= offers[j].item.layer
  }

  lemma NextLayer(x: Task, i: nat)
    requires Good(x) && i < |NextTasks(x)|
    ensures NextTasks(x)[i].layer == x.layer + 1
  {
  }

  lemma {:induction false} CoveredLater(offers: seq<Offer>, k: nat, x: Task)
    requires Good(x) && ByLayer(offers) && 0 < k <= |offers| && offers[k - 1].item.layer < x.layer && Covered(offers, x)
    ensures Covered(offers[k..], x)
    decreases Size(x.t)
  {
    hide Good, NextTasks, Accepted, Size;
    var n :| 0 <= n < |offers| && Answers(offers[n], x);
    assert offers[k..][n - k] == offers[n];
    forall i | 0 <= i < |NextTasks(x)| ensures Good(NextTasks(x)[i]) && Covered(offers[k..], NextTasks(x)[i]) {
      BeneathSmaller(x, i);
      NextLayer(x, i);
      CoveredLater(offers, k, NextTasks(x)[i]);
    }
  }

  /** Offers for every batch, in the order of their layers, serve the task. */
  lemma {:induction false} LayersServe(offers: seq<Offer>, x: Task)
    requires Good(x) && ByLayer(offers) && Covered(offers, x)
    ensures Served(offers, x)
    decreases Size(x.t)
  {
    hide Good, NextTasks, Accepted, Size;
    var n :| 0 <= n < |offers| && Answers(offers[n], x);
    forall i | 0 <= i < |NextTasks(x)| ensures Good(NextTasks(x)[i]) && Served(offers[n + 1..], NextTasks(x)[i]) {
      BeneathSmaller(x, i);
      NextLayer(x, i);
      CoveredLater(offers, n + 1, NextTasks(x)[i]);
      LayersServe(offers[n + 1..], NextTasks(x)[i]);
    }
    assert ServedAt(offers, x, n);
  }
}
