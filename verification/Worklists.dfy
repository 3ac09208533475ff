/**
 Whole runs over the batches of a trie, layer by layer: what is still to be
 visited, and what is left once everything has been.
 */
module Worklists {
  import opened Words
  import opened Trees
  import opened Batches
  import opened Sublayers

  /** A subtree whose batch is outstanding, with the layer it starts at. */
  datatype Task = Task(t: Tree, layer: nat)

  predicate Good(x: Task) {
    x.layer <= 64 && Tidy(x.t, 256 - 4 * x.layer) && !x.t.Empty?
  }

  predicate AllGood(ws: seq<Task>) {
    forall i :: 0 <= i < |ws| ==> Good(ws[i])
  }

  /** The digests of all batches of a subtree. */
  function BatchSet(t: Tree, h: nat): set<Word>
    requires Tidy(t, h)
    decreases t
  {
    if t.Empty? then {}
    else (if h % 4 == 0 then {Dig(t, h)} else {}) + Inner(t, h)
  }

  function Inner(t: Tree, h: nat): set<Word>
    requires Tidy(t, h)
    decreases t, 0
  {
    if t.Node? then BatchSet(t.l, h - 1) + BatchSet(t.r, h - 1) else {}
  }

  lemma {:induction false} HeldIff(known: set<Word>, t: Tree, h: nat)
    requires Tidy(t, h)
    ensures Held(known, t, h) <==> BatchSet(t, h) <= known
    decreases t
  {
    if t.Node? {
      HeldIff(known, t.l, h - 1);
      HeldIff(known, t.r, h - 1);
    }
  }

  function Size(t: Tree): nat {
    match t
    case Empty => 0
    case Leaf(_, _) => 1
    case Node(l, r) => 1 + Size(l) + Size(r)
  }

  // ----- totals over a worklist -----

  function AllBatches(ws: seq<Task>): set<Word>
    requires AllGood(ws)
  {
    if ws == [] then {} else BatchSet(ws[0].t, 256 - 4 * ws[0].layer) + AllBatches(ws[1..])
  }

  /** How often a leaf occurs below the tasks. */
  function AllLeaves(ws: seq<Task>, e: LeafNode): nat {
    if ws == [] then 0 else multiset(LeafNodes(Leaves(ws[0].t)))[e] + AllLeaves(ws[1..], e)
  }

  function AllSize(ws: seq<Task>): nat {
    if ws == [] then 0 else Size(ws[0].t) + AllSize(ws[1..])
  }

  lemma {:induction false} BatchesConcat(a: seq<Task>, b: seq<Task>)
    requires AllGood(a) && AllGood(b)
    ensures AllGood(a + b) && AllBatches(a + b) == AllBatches(a) + AllBatches(b)
    decreases |a|
  {
    hide Good, BatchSet;
    if a == [] {
      assert a + b == b;
    } else {
      BatchesConcat(a[1..], b);
      assert (a + b)[0] == a[0] && (a + b)[1..] == a[1..] + b;
    }
  }

  lemma {:induction false} LeavesConcat(a: seq<Task>, b: seq<Task>, e: LeafNode)
    ensures AllLeaves(a + b, e) == AllLeaves(a, e) + AllLeaves(b, e)
    decreases |a|
  {
    hide LeafNodes, Leaves;
    if a == [] {
      assert a + b == b;
    } else {
      LeavesConcat(a[1..], b, e);
      assert (a + b)[0] == a[0] && (a + b)[1..] == a[1..] + b;
    }
  }

  lemma {:induction false} SizeConcat(a: seq<Task>, b: seq<Task>)
    ensures AllSize(a + b) == AllSize(a) + AllSize(b)
    decreases |a|
  {
    hide Size;
    if a == [] {
      assert a + b == b;
    } else {
      SizeConcat(a[1..], b);
      assert (a + b)[0] == a[0] && (a + b)[1..] == a[1..] + b;
    }
  }

  lemma One(x: Task, e: LeafNode)
    requires Good(x)
    ensures AllGood([x]) && AllBatches([x]) == BatchSet(x.t, 256 - 4 * x.layer)
    ensures AllLeaves([x], e) == multiset(LeafNodes(Leaves(x.t)))[e] && AllSize([x]) == Size(x.t)
  {
    assert [x][1..] == [];
  }

  function Without(ws: seq<Task>, i: nat): seq<Task>
    requires i < |ws|
  {
    ws[..i] + ws[i + 1..]
  }

  lemma WithoutBatches(ws: seq<Task>, i: nat)
    requires i < |ws| && AllGood(ws)
    ensures AllGood(Without(ws, i))
    ensures AllBatches(ws) == AllBatches(Without(ws, i)) + BatchSet(ws[i].t, 256 - 4 * ws[i].layer)
  {
    hide AllBatches, BatchSet, Good, Dig;
    var a, x, b := ws[..i], [ws[i]], ws[i + 1..];
    assert ws == a + (x + b);
    One(ws[i], LeafNode(DefaultLeaf, DefaultLeaf));
    BatchesConcat(x, b);
    BatchesConcat(a, x + b);
    BatchesConcat(a, b);
  }

  lemma WithoutLeaves(ws: seq<Task>, i: nat, e: LeafNode)
    requires i < |ws|
    ensures AllLeaves(ws, e) == AllLeaves(Without(ws, i), e) + multiset(LeafNodes(Leaves(ws[i].t)))[e]
    ensures AllSize(ws) == AllSize(Without(ws, i)) + Size(ws[i].t)
  {
    var a, x, b := ws[..i], [ws[i]], ws[i + 1..];
    assert ws == a + (x + b) && x[1..] == [];
    hide Leaves, LeafNodes, Size;
    LeavesConcat(x, b, e);
    LeavesConcat(a, x + b, e);
    LeavesConcat(a, b, e);
    SizeConcat(x, b);
    SizeConcat(a, x + b);
    SizeConcat(a, b);
  }

  // ----- one step down -----

  function Tasks(ts: seq<Tree>, layer: nat): seq<Task> {
    seq(|ts|, i requires 0 <= i < |ts| => Task(ts[i], layer))
  }

  /** The outstanding batches below the batch of a task. */
  function NextTasks(x: Task): seq<Task> {
    if x.t.Node? then Tasks(Kids(x.t, 4), x.layer + 1) else []
  }

  lemma TasksConcat(a: seq<Tree>, b: seq<Tree>, layer: nat)
    ensures Tasks(a + b, layer) == Tasks(a, layer) + Tasks(b, layer)
  {
  }

  /** All but the root batch of a subtree lie in the subtrees `n` levels down. */
  lemma {:induction false} KidsCover(t: Tree, h: nat, n: nat, layer: nat)
    requires Tidy(t, h) && 1 <= n <= 4 && n <= h && layer <= 64 && h - n == 256 - 4 * layer
    ensures AllGood(Tasks(Kids(t, n), layer)) && AllBatches(Tasks(Kids(t, n), layer)) == Inner(t, h)
    decreases n, 0
  {
    hide BatchSet, AllBatches, Dig;
    if t.Node? {
      TasksConcat(Kids(t.l, n - 1), Kids(t.r, n - 1), layer);
      KidCover(t.l, h - 1, n - 1, layer);
      KidCover(t.r, h - 1, n - 1, layer);
      BatchesConcat(Tasks(Kids(t.l, n - 1), layer), Tasks(Kids(t.r, n - 1), layer));
    } else {
      NoBatches(layer);
    }
  }

  lemma NoBatches(layer: nat)
    ensures AllGood(Tasks([], layer)) && AllBatches(Tasks([], layer)) == {}
  {
  }

  lemma {:induction false} KidCover(t: Tree, h: nat, n: nat, layer: nat)
    requires Tidy(t, h) && n <= 3 && n <= h && layer <= 64 && h - n == 256 - 4 * layer
    ensures AllGood(Tasks(Kids(t, n), layer)) && AllBatches(Tasks(Kids(t, n), layer)) == BatchSet(t, h)
    decreases n, 1
  {
    hide AllBatches, Dig;
    if n == 0 && !t.Empty? {
      assert Tasks(Kids(t, 0), layer) == [Task(t, layer)];
      One(Task(t, layer), LeafNode(DefaultLeaf, DefaultLeaf));
    } else if n > 0 {
      KidsCover(t, h, n, layer);
    } else {
      NoBatches(layer);
    }
  }

  lemma LeafNodesConcat(a: seq<KV>, b: seq<KV>)
    ensures LeafNodes(a + b) == LeafNodes(a) + LeafNodes(b)
  {
  }

  /** The shortcuts above level `n` and the leaves below it are all the leaves. */
  lemma {:induction false} LeavesSplit(t: Tree, n: nat, layer: nat, e: LeafNode)
    ensures multiset(LeafNodes(Leaves(t)))[e] ==
              multiset(LeafNodes(Tops(t, n)))[e] + AllLeaves(Tasks(Kids(t, n), layer), e)
    decreases n
  {
    hide LeafNodes, Tasks;
    LeavesSteps(t, n, layer, e);
    if n > 0 && t.Node? {
      LeavesSplit(t.l, n - 1, layer, e);
      LeavesSplit(t.r, n - 1, layer, e);
      LeavesConcat(Tasks(Kids(t.l, n - 1), layer), Tasks(Kids(t.r, n - 1), layer), e);
    }
  }

  lemma LeavesSteps(t: Tree, n: nat, layer: nat, e: LeafNode)
    ensures n == 0 || !t.Node? ==>
      multiset(LeafNodes(Leaves(t)))[e] == multiset(LeafNodes(Tops(t, n)))[e] + AllLeaves(Tasks(Kids(t, n), layer), e)
    ensures n > 0 && t.Node? ==>
      && LeafNodes(Leaves(t)) == LeafNodes(Leaves(t.l)) + LeafNodes(Leaves(t.r))
      && LeafNodes(Tops(t, n)) == LeafNodes(Tops(t.l, n - 1)) + LeafNodes(Tops(t.r, n - 1))
      && Tasks(Kids(t, n), layer) == Tasks(Kids(t.l, n - 1), layer) + Tasks(Kids(t.r, n - 1), layer)
  {
    if n > 0 && t.Node? {
      LeafNodesConcat(Leaves(t.l), Leaves(t.r));
      LeafNodesConcat(Tops(t.l, n - 1), Tops(t.r, n - 1));
      TasksConcat(Kids(t.l, n - 1), Kids(t.r, n - 1), layer);
    } else if n == 0 && !t.Empty? {
      OneTask(t, layer, e);
    }
  }

  lemma OneTask(t: Tree, layer: nat, e: LeafNode)
    requires !t.Empty?
    ensures Tasks(Kids(t, 0), layer) == [Task(t, layer)]
    ensures AllLeaves([Task(t, layer)], e) == multiset(LeafNodes(Leaves(t)))[e] && AllSize([Task(t, layer)]) == Size(t)
  {
    assert [Task(t, layer)][1..] == [];
  }

  lemma {:induction false} KidsSmaller(t: Tree, n: nat, layer: nat)
    ensures AllSize(Tasks(Kids(t, n), layer)) <= Size(t)
    ensures n > 0 && !t.Empty? ==> AllSize(Tasks(Kids(t, n), layer)) < Size(t)
    decreases n
  {
    if n == 0 && !t.Empty? {
      OneTask(t, layer, LeafNode(DefaultLeaf, DefaultLeaf));
    } else if n > 0 && t.Node? {
      KidsSmaller(t.l, n - 1, layer);
      KidsSmaller(t.r, n - 1, layer);
      TasksConcat(Kids(t.l, n - 1), Kids(t.r, n - 1), layer);
      SizeConcat(Tasks(Kids(t.l, n - 1), layer), Tasks(Kids(t.r, n - 1), layer));
    }
  }

  /** Replacing a task by the tasks below it: its own batch and shortcuts are accounted for. */
  lemma StepDown(x: Task)
    requires Good(x)
    ensures AllGood(NextTasks(x)) && (x.t.Node? ==> x.layer < 64)
    ensures BatchSet(x.t, 256 - 4 * x.layer) == {Dig(x.t, 256 - 4 * x.layer)} + AllBatches(NextTasks(x))
    ensures forall e :: multiset(LeafNodes(Leaves(x.t)))[e] ==
                          multiset(LeafNodes(Tops(x.t, 4)))[e] + AllLeaves(NextTasks(x), e)
    ensures AllSize(NextTasks(x)) < Size(x.t)
    ensures |NextTasks(x)| == |NextRoots(x.t, 256 - 4 * x.layer)|
    ensures forall i :: 0 <= i < |NextTasks(x)| ==>
              && NextTasks(x)[i].layer == x.layer + 1 <= 64
              && NextRoots(x.t, 256 - 4 * x.layer)[i] == Dig(NextTasks(x)[i].t, 256 - 4 * (x.layer + 1))
  {
    hide AllBatches, AllLeaves, AllSize, Kids, Tops, Leaves, KidDigs, LeafNodes, Dig;
    var h := 256 - 4 * x.layer;
    forall e
      ensures multiset(LeafNodes(Leaves(x.t)))[e] ==
                multiset(LeafNodes(Tops(x.t, 4)))[e] + AllLeaves(NextTasks(x), e)
    {
      LeavesSplit(x.t, 4, x.layer + 1, e);
      if !x.t.Node? { NoTasks(x.t, x.layer + 1); }
    }
    KidsSmaller(x.t, 4, x.layer + 1);
    if x.t.Node? {
      KidsCover(x.t, h, 4, x.layer + 1);
      KidDigsAre(x.t, h, 4);
    } else {
      NoTasks(x.t, x.layer + 1);
    }
  }

  lemma NoTasks(t: Tree, layer: nat)
    requires t.Leaf?
    ensures Tasks(Kids(t, 4), layer) == [] && AllGood([]) && AllBatches([]) == {} && AllSize([]) == 0
    ensures forall e :: AllLeaves([], e) == 0
  {
  }
}
