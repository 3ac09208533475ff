/**
 The parameter store: a doubly linked list of epochs kept in a key-value table, one
 node per epoch at which something changes, with the head's epoch kept beside it.
 */
module Epochs {
  import opened Words
  import opened Params
  import opened Spans

  datatype Node = Node(thisEpoch: nat, prevEpoch: nat, nextEpoch: nat, raw: Parameters)

  datatype Error = ZeroEpoch | KeyNotPresent | InvalidNode | InvalidUpdateValue | InvalidValue

  datatype Result<+T> = Ok(value: T) | Err(error: Error)

  predicate IsValid(n: Node) {
    n.prevEpoch != 0 && n.prevEpoch <= n.thisEpoch <= n.nextEpoch
  }

  predicate IsPreValid(n: Node) {
    n.thisEpoch != 0 && n.prevEpoch == 0 && n.nextEpoch == 0
  }

  predicate IsHead(n: Node) {
    IsValid(n) && n.thisEpoch == n.nextEpoch
  }

  predicate IsTail(n: Node) {
    IsValid(n) && n.thisEpoch == n.prevEpoch
  }

  type Nodes = map<nat, Node>

  /** Nodes are stored under their own epochs, and only valid ones. */
  predicate Keyed(nodes: Nodes) {
    forall e <- nodes :: nodes[e].thisEpoch == e && IsValid(nodes[e])
  }

  // ----- lists -----

  predicate Increasing(c: seq<nat>) {
    forall i, j :: 0 <= i < j < |c| ==> c[i] < c[j]
  }

  function Last(c: seq<nat>): nat
    requires c != []
  {
    c[|c| - 1]
  }

  predicate BackedAt(nodes: Nodes, c: seq<nat>, i: nat)
    requires i < |c|
  {
    c[i] in nodes && nodes[c[i]].prevEpoch == c[if i == 0 then 0 else i - 1]
  }

  /** Walks back from the head find exactly the epochs of `c`. */
  predicate Backed(nodes: Nodes, c: seq<nat>) {
    && c != [] && c[0] > 0 && Increasing(c) && Keyed(nodes)
    && (forall i :: 0 <= i < |c| ==> BackedAt(nodes, c, i))
    && Last(c) in nodes && nodes[Last(c)].nextEpoch == Last(c)
  }

  /** The links on: to the next epoch of `c`, or to a hidden node in between that leads there. */
  predicate GapAt(nodes: Nodes, c: seq<nat>, g: seq<nat>, i: nat)
    requires i < |c| == |g|
  {
    && c[i] in nodes && nodes[c[i]].nextEpoch == g[i]
    && if i == |c| - 1 then g[i] == c[i]
       else
         && c[i] < g[i] <= c[i + 1]
         && (g[i] < c[i + 1] ==>
               g[i] in nodes && nodes[g[i]].nextEpoch == c[i + 1] && nodes[g[i]].prevEpoch == c[i])
  }

  /** The form the list has in every run. */
  predicate Gapped(nodes: Nodes, c: seq<nat>, g: seq<nat>) {
    Backed(nodes, c) && |g| == |c| && forall i :: 0 <= i < |c| ==> GapAt(nodes, c, g, i)
  }

  /** A well-formed list: nothing hidden, and no other nodes in the table. */
  predicate Linked(nodes: Nodes, c: seq<nat>) {
    && Backed(nodes, c) && (forall e <- nodes :: e in c)
    && forall i :: 0 <= i < |c| - 1 ==> c[i] in nodes && nodes[c[i]].nextEpoch == c[i + 1]
  }

  /** How many epochs of the list are at most `e`. */
  function Upto(c: seq<nat>, e: nat): (k: nat)
    ensures k <= |c|
    ensures forall i :: 0 <= i < k ==> c[i] <= e
    ensures k < |c| ==> e < c[k]
  {
    if c == [] || e < c[0] then 0 else 1 + Upto(c[1..], e)
  }

  function Insert(c: seq<nat>, e: nat): seq<nat> {
    var k := Upto(c, e);
    c[..k] + [e] + c[k..]
  }

  lemma UptoIndex(c: seq<nat>, e: nat, i: nat)
    requires Increasing(c) && i < |c|
    ensures c[i] <= e <==> i < Upto(c, e)
  {
  }

  lemma UptoIs(c: seq<nat>, e: nat, k: nat)
    requires Increasing(c) && k <= |c| && (k > 0 ==> c[k - 1] <= e) && (k < |c| ==> e < c[k])
    ensures Upto(c, e) == k
  {
    if k > 0 { UptoIndex(c, e, k - 1); }
    if k < |c| { UptoIndex(c, e, k); }
  }

  /** A node of the list. */
  lemma Located(nodes: Nodes, c: seq<nat>, i: nat)
    requires Backed(nodes, c) && i < |c|
    ensures c[i] > 0 && c[i] in nodes && IsValid(nodes[c[i]]) && nodes[c[i]].thisEpoch == c[i]
    ensures nodes[c[i]].prevEpoch == c[if i == 0 then 0 else i - 1]
    ensures IsTail(nodes[c[i]]) <==> i == 0
    ensures i == |c| - 1 ==> IsHead(nodes[c[i]])
    ensures i > 0 ==> c[i - 1] < c[i]
    ensures c[0] <= c[i] <= Last(c)
  {
    assert BackedAt(nodes, c, i);
  }

  /** Places in the list and epochs tell each other. */
  lemma Ranked(nodes: Nodes, c: seq<nat>, i: nat, k: nat)
    requires Backed(nodes, c) && i < |c| && k < |c|
    ensures c[i] < c[k] <==> i < k
    ensures c[i] == c[k] <==> i == k
  {
  }

  // ----- reading -----

  /** The walk back from the node at `cur` to the parameters in force at `e`. */
  function Load(nodes: Nodes, cur: nat, e: nat): Result<Parameters>
    requires Keyed(nodes)
    decreases cur
  {
    if cur == 0 then Err(ZeroEpoch)
    else if cur !in nodes then Err(KeyNotPresent)
    else if e >= cur then Ok(nodes[cur].raw)
    else if nodes[cur].prevEpoch == cur then Err(InvalidValue)
    else Load(nodes, nodes[cur].prevEpoch, e)
  }

  function RawAt(nodes: Nodes, c: seq<nat>, i: nat): Parameters
    requires Backed(nodes, c) && i < |c|
  {
    assert BackedAt(nodes, c, i);
    nodes[c[i]].raw
  }

  /** The walk back stops at the last node it finds at or before the epoch. */
  lemma {:induction false} LoadBacked(nodes: Nodes, c: seq<nat>, i: nat, e: nat)
    requires Backed(nodes, c) && i < |c| && c[0] <= e
    ensures Upto(c, e) > 0
    ensures Load(nodes, c[i], e) == Ok(RawAt(nodes, c, if i < Upto(c, e) then i else Upto(c, e) - 1))
    decreases i
  {
    hide Upto, Increasing;
    Places(nodes, c, e, i);
    Located(nodes, c, i);
    if e < c[i] {
      LoadBacked(nodes, c, i - 1, e);
    }
  }

  lemma Places(nodes: Nodes, c: seq<nat>, e: nat, i: nat)
    requires Backed(nodes, c) && i < |c| && c[0] <= e
    ensures Upto(c, e) > 0 && (c[i] <= e <==> i < Upto(c, e))
  {
    UptoIndex(c, e, 0);
    UptoIndex(c, e, i);
  }

  // ----- the spans of a list -----

  function SpanAt(nodes: Nodes, c: seq<nat>, g: seq<nat>, i: nat): Span
    requires Gapped(nodes, c, g) && i < |c|
  {
    assert BackedAt(nodes, c, i) && GapAt(nodes, c, g, i);
    Span(c[i], nodes[c[i]].raw,
         if i < |c| - 1 && g[i] < c[i + 1] then Some(Hidden(g[i], nodes[g[i]].raw)) else None)
  }

  function View(nodes: Nodes, c: seq<nat>, g: seq<nat>): seq<Span>
    requires Gapped(nodes, c, g)
  {
    seq(|c|, i requires 0 <= i < |c| => SpanAt(nodes, c, g, i))
  }

  lemma ViewInOrder(nodes: Nodes, c: seq<nat>, g: seq<nat>, e: nat)
    requires Gapped(nodes, c, g)
    ensures var m := View(nodes, c, g);
            && Spans.InOrder(m) && m != [] && m[0].epoch == c[0] && Begun(m, e) == Upto(c, e)
  {
    var m := View(nodes, c, g);
    assert forall i :: 0 <= i < |c| ==> m[i].epoch == c[i];
    BegunIs(m, e, Upto(c, e));
  }

  /** A walk back reads the spans. */
  lemma LoadReads(nodes: Nodes, c: seq<nat>, g: seq<nat>, e: nat)
    requires Gapped(nodes, c, g) && c[0] <= e
    ensures View(nodes, c, g) != [] && View(nodes, c, g)[0].epoch == c[0]
    ensures Load(nodes, Last(c), e) == Ok(Read(View(nodes, c, g), e))
  {
    hide Upto, Increasing, Load, Begun, GapAt;
    ViewInOrder(nodes, c, g, e);
    LoadBacked(nodes, c, |c| - 1, e);
  }

  // ----- splicing -----

  /** The table with a node added at a new epoch, its neighbours relinked. */
  function Spliced(nodes: Nodes, c: seq<nat>, e: nat, raw: Parameters): Nodes
    requires Backed(nodes, c) && c[0] < e
  {
    UptoIndex(c, e, 0);
    var k := Upto(c, e);
    var p := c[k - 1];
    assert BackedAt(nodes, c, k - 1);
    var before := nodes[p].(nextEpoch := e);
    if k == |c| then nodes[p := before][e := Node(e, p, e, raw)]
    else
      var q := c[k];
      assert BackedAt(nodes, c, k);
      nodes[p := before][q := nodes[q].(prevEpoch := e)][e := Node(e, p, q, raw)]
  }

  /** An epoch that is new to the list, and its place. */
  predicate NewAt(nodes: Nodes, c: seq<nat>, e: nat, k: nat) {
    Backed(nodes, c) && 0 < k <= |c| && c[k - 1] < e && (k < |c| ==> e < c[k])
  }

  lemma NewPlace(nodes: Nodes, c: seq<nat>, e: nat)
    requires Backed(nodes, c) && c[0] < e && e !in c
    ensures NewAt(nodes, c, e, Upto(c, e))
  {
    UptoIndex(c, e, 0);
    assert c[Upto(c, e) - 1] in c;
  }

  lemma NewHere(nodes: Nodes, c: seq<nat>, e: nat, k: nat)
    requires NewAt(nodes, c, e, k)
    ensures Upto(c, e) == k && c[0] < e && e !in c
    ensures c[k - 1] in nodes && (k < |c| ==> c[k] in nodes)
  {
    UptoIs(c, e, k);
    Located(nodes, c, k - 1);
    if k < |c| { Located(nodes, c, k); }
    forall i | 0 <= i < |c| ensures c[i] != e { UptoIndex(c, e, i); }
  }

  /** The table after a splice, node by node. */
  lemma SplicedGet(nodes: Nodes, c: seq<nat>, e: nat, raw: Parameters, k: nat, x: nat)
    requires NewAt(nodes, c, e, k)
    ensures c[0] < e && c[k - 1] in nodes && (k < |c| ==> c[k] in nodes)
    ensures var s := Spliced(nodes, c, e, raw);
            && (x in s <==> x in nodes || x == e)
            && (x in s ==>
                  s[x] == if x == e then Node(e, c[k - 1], if k == |c| then e else c[k], raw)
                          else if x == c[k - 1] then nodes[x].(nextEpoch := e)
                          else if k < |c| && x == c[k] then nodes[x].(prevEpoch := e)
                          else nodes[x])
  {
    hide Upto, Increasing, Keyed, BackedAt;
    NewHere(nodes, c, e, k);
  }

  lemma SplicedKeyed(nodes: Nodes, c: seq<nat>, e: nat, raw: Parameters, k: nat)
    requires NewAt(nodes, c, e, k)
    ensures c[0] < e && Keyed(Spliced(nodes, c, e, raw))
  {
    hide Spliced, Increasing, BackedAt;
    NewHere(nodes, c, e, k);
    var s := Spliced(nodes, c, e, raw);
    Located(nodes, c, k - 1);
    if k < |c| { Located(nodes, c, k); }
    forall x | x in s ensures s[x].thisEpoch == x && IsValid(s[x]) {
      SplicedGet(nodes, c, e, raw, k, x);
    }
  }

  lemma InsertAt(c: seq<nat>, e: nat, i: nat)
    requires i <= |c|
    ensures var k, d := Upto(c, e), Insert(c, e);
            |d| == |c| + 1 && d[i] == if i < k then c[i] else if i == k then e else c[i - 1]
  {
  }

  lemma InsertMembers(c: seq<nat>, e: nat, x: nat)
    ensures x in Insert(c, e) <==> x in c || x == e
  {
    var k := Upto(c, e);
    assert c == c[..k] + c[k..];
  }

  lemma InsertIncreasing(nodes: Nodes, c: seq<nat>, e: nat, k: nat)
    requires NewAt(nodes, c, e, k)
    ensures Increasing(Insert(c, e)) && Insert(c, e)[0] == c[0] && Insert(c, e) != []
    ensures Last(Insert(c, e)) == if k == |c| then e else Last(c)
  {
    hide Insert, Keyed, BackedAt, Upto;
    NewHere(nodes, c, e, k);
    var d := Insert(c, e);
    InsertAt(c, e, 0);
    InsertAt(c, e, |c|);
    forall i, j | 0 <= i < j < |d| ensures d[i] < d[j] {
      InsertAt(c, e, i);
      InsertAt(c, e, j);
      if i < k - 1 { Ranked(nodes, c, i, k - 1); }
      if k < |c| && k < j - 1 { Ranked(nodes, c, k, j - 1); }
      if i != k && j != k {
        Ranked(nodes, c, if i < k then i else i - 1, if j < k then j else j - 1);
      }
    }
  }

  /** A spliced list is found by walks back with exactly the new epoch added. */
  lemma SplicedBacked(nodes: Nodes, c: seq<nat>, e: nat, raw: Parameters, k: nat)
    requires NewAt(nodes, c, e, k)
    ensures c[0] < e && Backed(Spliced(nodes, c, e, raw), Insert(c, e))
  {
    hide Spliced, Insert, Increasing, Keyed, Upto;
    NewHere(nodes, c, e, k);
    SplicedKeyed(nodes, c, e, raw, k);
    InsertIncreasing(nodes, c, e, k);
    var s, d := Spliced(nodes, c, e, raw), Insert(c, e);
    InsertAt(c, e, 0);
    forall i | 0 <= i < |d| ensures BackedAt(s, d, i) {
      SplicedBackedAt(nodes, c, e, raw, k, i);
    }
    SplicedGet(nodes, c, e, raw, k, Last(d));
    Located(nodes, c, |c| - 1);
    if k < |c| - 1 { Ranked(nodes, c, k, |c| - 1); }
    if k < |c| { Ranked(nodes, c, k - 1, |c| - 1); }
  }

  lemma SplicedBackedAt(nodes: Nodes, c: seq<nat>, e: nat, raw: Parameters, k: nat, i: nat)
    requires NewAt(nodes, c, e, k) && i <= |c|
    ensures c[0] < e && |Insert(c, e)| == |c| + 1
    ensures BackedAt(Spliced(nodes, c, e, raw), Insert(c, e), i)
  {
    hide Spliced, Insert, Increasing, Keyed, Upto;
    NewHere(nodes, c, e, k);
    InsertAt(c, e, i);
    InsertAt(c, e, 0);
    if i > 0 { InsertAt(c, e, i - 1); }
    var x := Insert(c, e)[i];
    SplicedGet(nodes, c, e, raw, k, x);
    if i != k {
      var j := if i < k then i else i - 1;
      Located(nodes, c, j);
      Ranked(nodes, c, j, k - 1);
      if k < |c| { Ranked(nodes, c, j, k); }
    }
  }

  /** Splicing keeps a well-formed list well formed, with exactly the new epoch added and
      every other value kept. */
  lemma SplicedLinked(nodes: Nodes, c: seq<nat>, e: nat, raw: Parameters)
    requires Linked(nodes, c) && c[0] < e && e !in c
    ensures var s := Spliced(nodes, c, e, raw);
            && Linked(s, Insert(c, e)) && s.Keys == nodes.Keys + {e}
            && s[e].raw == raw && forall x <- nodes :: s[x].raw == nodes[x].raw
  {
    hide Spliced, Insert, Increasing, Keyed, BackedAt, Upto;
    var k := Upto(c, e);
    NewPlace(nodes, c, e);
    SplicedBacked(nodes, c, e, raw, k);
    var s, d := Spliced(nodes, c, e, raw), Insert(c, e);
    forall x ensures x in s <==> x in nodes || x == e { SplicedGet(nodes, c, e, raw, k, x); }
    SplicedGet(nodes, c, e, raw, k, e);
    forall x | x in nodes ensures s[x].raw == nodes[x].raw {
      SplicedGet(nodes, c, e, raw, k, x);
      Absent(nodes, c, e, x);
    }
    forall x | x in s ensures x in d { InsertMembers(c, e, x); }
    InsertAt(c, e, 0);
    forall i | 0 <= i < |d| - 1 ensures d[i] in s && s[d[i]].nextEpoch == d[i + 1] {
      SplicedNext(nodes, c, e, raw, k, i);
    }
  }

  lemma Absent(nodes: Nodes, c: seq<nat>, e: nat, x: nat)
    requires Linked(nodes, c) && e !in c && x in nodes
    ensures x != e
  {
  }

  lemma SplicedNext(nodes: Nodes, c: seq<nat>, e: nat, raw: Parameters, k: nat, i: nat)
    requires Linked(nodes, c) && NewAt(nodes, c, e, k) && i < |c|
    ensures c[0] < e && |Insert(c, e)| == |c| + 1
    ensures var s, d := Spliced(nodes, c, e, raw), Insert(c, e); d[i] in s && s[d[i]].nextEpoch == d[i + 1]
  {
    hide Spliced, Insert, Increasing, Keyed, BackedAt, Upto;
    NewHere(nodes, c, e, k);
    InsertAt(c, e, i);
    InsertAt(c, e, i + 1);
    SplicedGet(nodes, c, e, raw, k, Insert(c, e)[i]);
    if i != k {
      var j := if i < k then i else i - 1;
      Located(nodes, c, j);
      Ranked(nodes, c, j, k - 1);
      if k < |c| { Ranked(nodes, c, j, k); }
    }
  }

  // ----- the walk on -----

  /** The nodes a walk on from the node at c[i] meets, it included. */
  function From(c: seq<nat>, g: seq<nat>, i: nat): seq<nat>
    requires i < |c| == |g|
    decreases |c| - i, 1
  {
    [c[i]] + Rest(c, g, i)
  }

  function Rest(c: seq<nat>, g: seq<nat>, i: nat): seq<nat>
    requires i < |c| == |g|
    decreases |c| - i, 0
  {
    if i == |c| - 1 then []
    else if g[i] < c[i + 1] then [g[i]] + From(c, g, i + 1)
    else From(c, g, i + 1)
  }

  /** Links on that lead through the epochs of `f` to a node that links to itself. */
  predicate Route(nodes: Nodes, f: seq<nat>) {
    && f != [] && f[0] in nodes && nodes[f[0]].thisEpoch == f[0] && IsValid(nodes[f[0]])
    && if |f| == 1 then nodes[f[0]].nextEpoch == f[0]
       else nodes[f[0]].nextEpoch == f[1] && f[0] < f[1] && Route(nodes, f[1..])
  }

  /** The update applied to the nodes at some epochs. */
  function Touch(nodes: Nodes, f: seq<nat>, u: Update): Nodes
    requires Number(u).Some?
  {
    map e | e in nodes :: if e in f then nodes[e].(raw := Touched(nodes[e].raw, u)) else nodes[e]
  }

  lemma {:induction false} RouteAbove(nodes: Nodes, f: seq<nat>, x: nat)
    requires Route(nodes, f) && x in f
    ensures f[0] <= x
  {
    if x != f[0] {
      assert f == [f[0]] + f[1..];
      RouteAbove(nodes, f[1..], x);
    }
  }

  /** A write below a route leaves it in place. */
  lemma {:induction false} RouteKept(nodes: Nodes, f: seq<nat>, x: nat, n: Node)
    requires Route(nodes, f) && x < f[0]
    ensures Route(nodes[x := n], f)
  {
    if |f| > 1 { RouteKept(nodes, f[1..], x, n); }
  }

  /** One node of the walk. */
  lemma TouchStep(nodes: Nodes, f: seq<nat>, u: Update)
    requires Number(u).Some? && Route(nodes, f)
    ensures var s := nodes[f[0] := nodes[f[0]].(raw := Touched(nodes[f[0]].raw, u))];
            && Touch(s, f[1..], u) == Touch(nodes, f, u)
            && (|f| == 1 ==> s == Touch(nodes, f, u))
            && (|f| > 1 ==> Route(s, f[1..]) && f[1] in s && s[f[1]] == nodes[f[1]])
  {
    hide Touched, Number;
    assert f == [f[0]] + f[1..];
    if |f| > 1 {
      RouteKept(nodes, f[1..], f[0], nodes[f[0]].(raw := Touched(nodes[f[0]].raw, u)));
      if f[0] in f[1..] { RouteAbove(nodes, f[1..], f[0]); }
    }
  }

  lemma {:induction false} FromRoute(nodes: Nodes, c: seq<nat>, g: seq<nat>, i: nat)
    requires Gapped(nodes, c, g) && i < |c|
    ensures Route(nodes, From(c, g, i))
    ensures i < |c| - 1 ==> Route(nodes, Rest(c, g, i)) && Rest(c, g, i)[0] == g[i] > c[i]
    decreases |c| - i
  {
    hide Increasing, Backed;
    Onward(nodes, c, g, i);
    if i < |c| - 1 {
      FromRoute(nodes, c, g, i + 1);
      if g[i] < c[i + 1] { assert Rest(c, g, i)[1..] == From(c, g, i + 1); }
      assert From(c, g, i)[1..] == Rest(c, g, i);
    }
  }

  /** A node of the list, the gap after it, and the node hidden there. */
  lemma Onward(nodes: Nodes, c: seq<nat>, g: seq<nat>, i: nat)
    requires Gapped(nodes, c, g) && i < |c|
    ensures c[i] in nodes && nodes[c[i]].thisEpoch == c[i] && IsValid(nodes[c[i]]) && nodes[c[i]].nextEpoch == g[i]
    ensures g[i] in nodes && nodes[g[i]].thisEpoch == g[i] && IsValid(nodes[g[i]])
    ensures if i == |c| - 1 then g[i] == c[i]
            else
              && c[i] < g[i] <= c[i + 1]
              && (g[i] < c[i + 1] ==> nodes[g[i]].nextEpoch == c[i + 1] && nodes[g[i]].prevEpoch == c[i])
  {
    hide Increasing;
    Located(nodes, c, i);
    assert GapAt(nodes, c, g, i);
    if i < |c| - 1 { Located(nodes, c, i + 1); }
  }

  /** What the walk on meets: the nodes from c[i] on, and those hidden after them. */
  lemma {:induction false} FromHas(nodes: Nodes, c: seq<nat>, g: seq<nat>, i: nat, j: nat)
    requires Gapped(nodes, c, g) && i <= j < |c|
    ensures c[j] in From(c, g, i) && g[j] in From(c, g, i)
    decreases j - i
  {
    hide Backed;
    Onward(nodes, c, g, i);
    if i < j { FromHas(nodes, c, g, i + 1, j); }
    else if i < |c| - 1 { assert From(c, g, i + 1)[0] == c[i + 1]; }
  }

  lemma FromNone(nodes: Nodes, c: seq<nat>, g: seq<nat>, i: nat, x: nat)
    requires Gapped(nodes, c, g) && i < |c| && x < c[i]
    ensures x !in From(c, g, i)
  {
    FromRoute(nodes, c, g, i);
    if x in From(c, g, i) { RouteAbove(nodes, From(c, g, i), x); }
  }

  // ----- one update -----

  /** The update falls on no node of the list, and past it or where something is hidden. */
  predicate Widens(c: seq<nat>, g: seq<nat>, e: nat)
    requires |g| == |c|
  {
    var k := Upto(c, e);
    k > 0 && c[k - 1] < e && (k < |c| ==> g[k - 1] < c[k])
  }

  /** The table before the walk on: the new node spliced in, and the node after it written back
      as it was read before. */
  function Joined(nodes: Nodes, c: seq<nat>, g: seq<nat>, u: Update): Nodes
    requires Gapped(nodes, c, g) && c[0] <= u.epoch && Number(u).Some?
  {
    UptoIndex(c, u.epoch, 0);
    var k := Upto(c, u.epoch);
    if c[k - 1] == u.epoch then nodes
    else
      assert c[0] <= c[k - 1];
      var s := Spliced(nodes, c, u.epoch, Touched(RawAt(nodes, c, k - 1), u));
      if k == |c| then s
      else
        Onward(nodes, c, g, k - 1);
        s[g[k - 1] := nodes[g[k - 1]]]
  }

  /** The nodes the walk on rewrites. */
  function Path(c: seq<nat>, g: seq<nat>, e: nat): seq<nat>
    requires |g| == |c| && Upto(c, e) > 0
  {
    var k := Upto(c, e);
    if c[k - 1] == e then From(c, g, k - 1) else Rest(c, g, k - 1)
  }

  /** The table after an update. */
  function After(nodes: Nodes, c: seq<nat>, g: seq<nat>, u: Update): Nodes
    requires Gapped(nodes, c, g) && c[0] <= u.epoch && Number(u).Some?
  {
    UptoIndex(c, u.epoch, 0);
    Touch(Joined(nodes, c, g, u), Path(c, g, u.epoch), u)
  }

  function ChainAfter(c: seq<nat>, g: seq<nat>, e: nat): seq<nat>
    requires |g| == |c|
  {
    if Widens(c, g, e) then Insert(c, e) else c
  }

  function GapsAfter(c: seq<nat>, g: seq<nat>, e: nat): seq<nat>
    requires |g| == |c| && Upto(c, e) > 0
  {
    var k := Upto(c, e);
    if c[k - 1] == e then g
    else if !Widens(c, g, e) then g[k - 1 := e]
    else g[k - 1 := e][..k] + [if k == |c| then e else c[k]] + g[k..]
  }

  lemma GapsAt(c: seq<nat>, g: seq<nat>, e: nat, i: nat)
    requires |g| == |c| && Upto(c, e) > 0 && i < |c| + (if Widens(c, g, e) then 1 else 0)
    ensures var k, h := Upto(c, e), GapsAfter(c, g, e);
            && |h| == |ChainAfter(c, g, e)| == |c| + (if Widens(c, g, e) then 1 else 0)
            && h[i] == if i < k - 1 || c[k - 1] == e then g[i]
                       else if i == k - 1 then e
                       else if !Widens(c, g, e) then g[i]
                       else if i == k then if k == |c| then e else c[k]
                       else g[i - 1]
  {
    hide Upto;
  }

  lemma JoinedGet(nodes: Nodes, c: seq<nat>, g: seq<nat>, u: Update, k: nat, x: nat)
    requires Gapped(nodes, c, g) && NewAt(nodes, c, u.epoch, k) && Number(u).Some?
    ensures c[0] <= u.epoch
    ensures var b := Joined(nodes, c, g, u);
            && (x in b <==> x in nodes || x == u.epoch)
            && (x in b ==>
                  b[x] == if k < |c| && x == g[k - 1] && x in nodes then nodes[x]
                          else if x == u.epoch then
                            Node(x, c[k - 1], if k == |c| then x else c[k], Touched(RawAt(nodes, c, k - 1), u))
                          else if x !in nodes then b[x]
                          else if x == c[k - 1] then nodes[x].(nextEpoch := u.epoch)
                          else if k < |c| && x == c[k] then nodes[x].(prevEpoch := u.epoch)
                          else nodes[x])
  {
    hide Upto, Increasing, Keyed, BackedAt, Spliced, GapAt, Touched, Number;
    NewHere(nodes, c, u.epoch, k);
    Onward(nodes, c, g, k - 1);
    SplicedGet(nodes, c, u.epoch, Touched(RawAt(nodes, c, k - 1), u), k, x);
  }

  /** The other gaps lie before the place of the new epoch or after it. */
  lemma Apart(nodes: Nodes, c: seq<nat>, g: seq<nat>, k: nat, j: nat)
    requires Gapped(nodes, c, g) && 0 < k <= |c| && j < |c|
    ensures j < k - 1 ==> c[j] < g[j] <= c[j + 1] <= c[k - 1]
    ensures k <= j ==> c[k] <= c[j] <= g[j] && (k < j ==> c[k] < c[j])
    ensures j < |c| - 1 ==> c[j] < g[j] <= c[j + 1]
    ensures k < |c| ==> c[k - 1] < g[k - 1] <= c[k]
  {
    hide Increasing, GapAt, Backed;
    Onward(nodes, c, g, j);
    Onward(nodes, c, g, k - 1);
    Ranked(nodes, c, j, k - 1);
    if j < k - 1 { Ranked(nodes, c, j + 1, k - 1); }
    if k < |c| { Ranked(nodes, c, j, k); }
  }

  /** Nothing of the list or its gaps below the place changes, and above it only one link back. */
  lemma JoinedApart(nodes: Nodes, c: seq<nat>, g: seq<nat>, u: Update, k: nat, j: nat)
    requires Gapped(nodes, c, g) && NewAt(nodes, c, u.epoch, k) && Number(u).Some? && j < |c| && j != k - 1
    ensures c[0] <= u.epoch && c[j] in nodes && g[j] in nodes
    ensures var b := Joined(nodes, c, g, u);
            && c[j] in b && g[j] in b
            && b[c[j]] == (if j == k && g[k - 1] < c[k] then nodes[c[j]].(prevEpoch := u.epoch) else nodes[c[j]])
            && (j < |c| - 1 && g[j] < c[j + 1] ==> b[g[j]] == nodes[g[j]])
  {
    hide Joined, Increasing, GapAt, Backed, Touched, Number;
    Apart(nodes, c, g, k, j);
    Onward(nodes, c, g, j);
    JoinedGet(nodes, c, g, u, k, c[j]);
    JoinedGet(nodes, c, g, u, k, g[j]);
  }

  lemma JoinedHere(nodes: Nodes, c: seq<nat>, g: seq<nat>, u: Update, k: nat)
    requires Gapped(nodes, c, g) && NewAt(nodes, c, u.epoch, k) && Number(u).Some?
    ensures c[0] <= u.epoch && c[k - 1] in nodes && g[k - 1] in nodes
    ensures var b, e := Joined(nodes, c, g, u), u.epoch;
            && c[k - 1] in b && b[c[k - 1]] == nodes[c[k - 1]].(nextEpoch := e)
            && e in b
            && b[e] == Node(e, c[k - 1], if k == |c| then e else c[k],
                            if k < |c| && g[k - 1] == e then nodes[e].raw else Touched(RawAt(nodes, c, k - 1), u))
  {
    hide Joined, Increasing, GapAt, Backed, Touched, Number;
    Apart(nodes, c, g, k, k - 1);
    Onward(nodes, c, g, k - 1);
    JoinedGet(nodes, c, g, u, k, c[k - 1]);
    JoinedGet(nodes, c, g, u, k, u.epoch);
  }

  lemma JoinedKeyed(nodes: Nodes, c: seq<nat>, g: seq<nat>, u: Update, k: nat)
    requires Gapped(nodes, c, g) && NewAt(nodes, c, u.epoch, k) && Number(u).Some?
    ensures c[0] <= u.epoch && Keyed(Joined(nodes, c, g, u))
  {
    hide Spliced, Increasing, BackedAt, Touched, Number, Upto, GapAt, Backed;
    NewHere(nodes, c, u.epoch, k);
    SplicedKeyed(nodes, c, u.epoch, Touched(RawAt(nodes, c, k - 1), u), k);
    Onward(nodes, c, g, k - 1);
  }

  // ----- a new node where something was hidden, or past the list -----

  lemma WidenedAt(nodes: Nodes, c: seq<nat>, g: seq<nat>, u: Update, k: nat, i: nat)
    requires Gapped(nodes, c, g) && NewAt(nodes, c, u.epoch, k) && Number(u).Some?
    requires Widens(c, g, u.epoch) && i <= |c|
    ensures Upto(c, u.epoch) == k && c[0] <= u.epoch
    ensures var b, d, h := Joined(nodes, c, g, u), Insert(c, u.epoch), GapsAfter(c, g, u.epoch);
            |h| == |d| == |c| + 1 && BackedAt(b, d, i) && GapAt(b, d, h, i)
  {
    hide Joined, Insert, GapsAfter, Increasing, Backed, Touched, Number, Upto;
    NewHere(nodes, c, u.epoch, k);
    InsertAt(c, u.epoch, i);
    InsertAt(c, u.epoch, if i == 0 then 0 else i - 1);
    if i < |c| { InsertAt(c, u.epoch, i + 1); }
    GapsAt(c, g, u.epoch, i);
    if k - 1 <= i <= k {
      JoinedHere(nodes, c, g, u, k);
      Located(nodes, c, k - 1);
    } else {
      var j := if i < k then i else i - 1;
      JoinedApart(nodes, c, g, u, k, j);
      Located(nodes, c, j);
      Onward(nodes, c, g, j);
    }
  }

  lemma WidenedGapped(nodes: Nodes, c: seq<nat>, g: seq<nat>, u: Update, k: nat)
    requires Gapped(nodes, c, g) && NewAt(nodes, c, u.epoch, k) && Number(u).Some? && Widens(c, g, u.epoch)
    ensures Upto(c, u.epoch) == k && c[0] <= u.epoch
    ensures Gapped(Joined(nodes, c, g, u), Insert(c, u.epoch), GapsAfter(c, g, u.epoch))
  {
    hide Joined, Insert, GapsAfter, Increasing, Touched, Number, Upto, BackedAt, GapAt;
    NewHere(nodes, c, u.epoch, k);
    InsertAt(c, u.epoch, 0);
    WidenedAt(nodes, c, g, u, k, |c|);
    var b, d, h := Joined(nodes, c, g, u), Insert(c, u.epoch), GapsAfter(c, g, u.epoch);
    InsertIncreasing(nodes, c, u.epoch, k);
    JoinedKeyed(nodes, c, g, u, k);
    forall i | 0 <= i < |d| ensures |h| == |d| && BackedAt(b, d, i) && GapAt(b, d, h, i) {
      WidenedAt(nodes, c, g, u, k, i);
    }
    LastGap(b, d, h);
    Located(nodes, c, 0);
  }

  lemma LastGap(nodes: Nodes, c: seq<nat>, g: seq<nat>)
    requires |c| == |g| > 0 && GapAt(nodes, c, g, |c| - 1)
    ensures Last(c) in nodes && nodes[Last(c)].nextEpoch == Last(c)
  {
  }

  // ----- a new node in a gap -----

  lemma FilledAt(nodes: Nodes, c: seq<nat>, g: seq<nat>, u: Update, k: nat, i: nat)
    requires Gapped(nodes, c, g) && NewAt(nodes, c, u.epoch, k) && Number(u).Some?
    requires !Widens(c, g, u.epoch) && i < |c|
    ensures Upto(c, u.epoch) == k && c[0] <= u.epoch
    ensures var b, h := Joined(nodes, c, g, u), GapsAfter(c, g, u.epoch);
            |h| == |c| && BackedAt(b, c, i) && GapAt(b, c, h, i)
  {
    hide Joined, GapsAfter, Increasing, Backed, Touched, Number, Upto;
    NewHere(nodes, c, u.epoch, k);
    GapsAt(c, g, u.epoch, i);
    Located(nodes, c, i);
    Onward(nodes, c, g, k - 1);
    if i == k - 1 {
      JoinedHere(nodes, c, g, u, k);
    } else {
      JoinedApart(nodes, c, g, u, k, i);
      Onward(nodes, c, g, i);
    }
  }

  lemma FilledGapped(nodes: Nodes, c: seq<nat>, g: seq<nat>, u: Update, k: nat)
    requires Gapped(nodes, c, g) && NewAt(nodes, c, u.epoch, k) && Number(u).Some? && !Widens(c, g, u.epoch)
    ensures Upto(c, u.epoch) == k && c[0] <= u.epoch
    ensures Gapped(Joined(nodes, c, g, u), c, GapsAfter(c, g, u.epoch))
  {
    hide Joined, GapsAfter, Increasing, Touched, Number, Upto, BackedAt, GapAt;
    NewHere(nodes, c, u.epoch, k);
    FilledAt(nodes, c, g, u, k, |c| - 1);
    var b, h := Joined(nodes, c, g, u), GapsAfter(c, g, u.epoch);
    JoinedKeyed(nodes, c, g, u, k);
    forall i | 0 <= i < |c| ensures |h| == |c| && BackedAt(b, c, i) && GapAt(b, c, h, i) {
      FilledAt(nodes, c, g, u, k, i);
    }
    LastGap(b, c, h);
  }

  // ----- the form is kept -----

  lemma TouchGapped(nodes: Nodes, c: seq<nat>, g: seq<nat>, f: seq<nat>, u: Update)
    requires Gapped(nodes, c, g) && Number(u).Some?
    ensures Gapped(Touch(nodes, f, u), c, g)
  {
    hide Touched, Number, Increasing, Route;
    var t := Touch(nodes, f, u);
    forall i | 0 <= i < |c| ensures BackedAt(t, c, i) && GapAt(t, c, g, i) {
      Located(nodes, c, i);
      Onward(nodes, c, g, i);
    }
    Located(nodes, c, |c| - 1);
  }

  lemma JoinedGapped(nodes: Nodes, c: seq<nat>, g: seq<nat>, u: Update)
    requires Gapped(nodes, c, g) && c[0] <= u.epoch && Number(u).Some?
    ensures Upto(c, u.epoch) > 0
    ensures Gapped(Joined(nodes, c, g, u), ChainAfter(c, g, u.epoch), GapsAfter(c, g, u.epoch))
  {
    hide Insert, Increasing, Touched, Number, Upto, BackedAt, GapAt, Spliced;
    var k := Upto(c, u.epoch);
    UptoIndex(c, u.epoch, 0);
    if c[k - 1] < u.epoch {
      if Widens(c, g, u.epoch) { WidenedGapped(nodes, c, g, u, k); } else { FilledGapped(nodes, c, g, u, k); }
    }
  }

  /** Every update keeps the list in the form it has in every run; the first epoch stays, and
      the head is where it was or at the update. */
  lemma AfterGapped(nodes: Nodes, c: seq<nat>, g: seq<nat>, u: Update)
    requires Gapped(nodes, c, g) && c[0] <= u.epoch && Number(u).Some?
    ensures Upto(c, u.epoch) > 0
    ensures var d := ChainAfter(c, g, u.epoch);
            && Gapped(After(nodes, c, g, u), d, GapsAfter(c, g, u.epoch))
            && d != [] && d[0] == c[0] && Last(d) == if Last(c) < u.epoch then u.epoch else Last(c)
  {
    hide Insert, Increasing, Touched, Number, BackedAt, GapAt, Spliced, Touch, Path, Joined, GapsAfter, Upto;
    JoinedGapped(nodes, c, g, u);
    var k := Upto(c, u.epoch);
    TouchGapped(Joined(nodes, c, g, u), ChainAfter(c, g, u.epoch), GapsAfter(c, g, u.epoch), Path(c, g, u.epoch), u);
    Located(nodes, c, k - 1);
    UptoIndex(c, u.epoch, |c| - 1);
    if Widens(c, g, u.epoch) { InsertIncreasing(nodes, c, u.epoch, k); }
  }

  // ----- what an update does to the spans -----

  lemma PathBelow(nodes: Nodes, c: seq<nat>, g: seq<nat>, e: nat, k: nat, x: nat)
    requires Gapped(nodes, c, g) && NewAt(nodes, c, e, k) && (x <= c[k - 1] || x == e)
    ensures Upto(c, e) == k && (x in Path(c, g, e) <==> k < |c| && g[k - 1] == x)
  {
    hide Upto, Increasing, GapAt, Backed, From;
    NewHere(nodes, c, e, k);
    Onward(nodes, c, g, k - 1);
    if k < |c| { FromNone(nodes, c, g, k, x); }
  }

  lemma PathAbove(nodes: Nodes, c: seq<nat>, g: seq<nat>, e: nat, k: nat, j: nat)
    requires Gapped(nodes, c, g) && NewAt(nodes, c, e, k) && k <= j < |c|
    ensures Upto(c, e) == k && c[j] in Path(c, g, e) && g[j] in Path(c, g, e)
  {
    hide Upto, Increasing, GapAt, Backed, From;
    NewHere(nodes, c, e, k);
    FromHas(nodes, c, g, k, j);
  }

  /** A span, and the update applied to its node and to the hidden one as the path says. */
  lemma TouchSpan(nodes: Nodes, c: seq<nat>, g: seq<nat>, f: seq<nat>, u: Update, i: nat)
    requires Gapped(nodes, c, g) && Number(u).Some? && i < |c|
    ensures Gapped(Touch(nodes, f, u), c, g)
    ensures var x, y := SpanAt(nodes, c, g, i), SpanAt(Touch(nodes, f, u), c, g, i);
            && (c[i] in f && (x.hidden.Some? ==> g[i] in f) ==> y == TouchedSpan(x, u))
            && (c[i] !in f && (x.hidden.Some? ==> g[i] !in f) ==> y == x)
  {
    hide Touched, Number, Increasing, Backed, GapAt;
    TouchGapped(nodes, c, g, f, u);
    Onward(nodes, c, g, i);
  }

  lemma ViewAt(nodes: Nodes, c: seq<nat>, g: seq<nat>, e: nat, k: nat, i: nat)
    requires Gapped(nodes, c, g) && 0 < k <= |c| && Upto(c, e) == k && i < |c|
    ensures var m := View(nodes, c, g);
            && |m| == |c| && m[i] == SpanAt(nodes, c, g, i) && m[k - 1] == SpanAt(nodes, c, g, k - 1)
            && Begun(m, e) == k && m[0].epoch == c[0] <= e
            && m[k - 1].epoch == c[k - 1] && m[k - 1].raw == RawAt(nodes, c, k - 1)
            && (m[k - 1].hidden.Some? <==> k < |c| && g[k - 1] < c[k])
            && (m[k - 1].hidden.Some? ==>
                  g[k - 1] in nodes && m[k - 1].hidden.value == Hidden(g[k - 1], nodes[g[k - 1]].raw))
  {
    hide Increasing, Backed, GapAt, Begun, Upto;
    ViewInOrder(nodes, c, g, e);
    Onward(nodes, c, g, k - 1);
    Located(nodes, c, k - 1);
    UptoBelow(c, e, k - 1);
  }

  lemma UptoBelow(c: seq<nat>, e: nat, i: nat)
    requires i < Upto(c, e)
    ensures c[0] <= e && c[i] <= e
  {
  }

  lemma OnSpan(nodes: Nodes, c: seq<nat>, g: seq<nat>, u: Update, k: nat, i: nat)
    requires Gapped(nodes, c, g) && 0 < k <= |c| && c[k - 1] == u.epoch && Upto(c, u.epoch) == k && Number(u).Some?
    requires i < |c|
    ensures var m, t := View(nodes, c, g), Touch(nodes, From(c, g, k - 1), u);
            && Gapped(t, c, g) && |m| == |c| && m[0].epoch <= u.epoch
            && SpanAt(t, c, g, i) == SpanAfter(m, u, i)
  {
    hide Touched, Number, Increasing, Backed, GapAt, From, SpanAt, Touch, Upto, Begun, View;
    ViewAt(nodes, c, g, u.epoch, k, i);
    TouchSpan(nodes, c, g, From(c, g, k - 1), u, i);
    if i < k - 1 {
      Apart(nodes, c, g, k, i);
      FromNone(nodes, c, g, k - 1, c[i]);
      if SpanAt(nodes, c, g, i).hidden.Some? {
        HiddenBelow(nodes, c, g, i);
        FromNone(nodes, c, g, k - 1, g[i]);
      }
    } else {
      FromHas(nodes, c, g, k - 1, i);
    }
  }

  lemma HiddenBelow(nodes: Nodes, c: seq<nat>, g: seq<nat>, i: nat)
    requires Gapped(nodes, c, g) && i < |c|
    ensures SpanAt(nodes, c, g, i).hidden.Some? <==> i < |c| - 1 && g[i] < c[i + 1]
  {
  }

  /** The spans of the table before the walk on. */
  lemma JoinedSpan(nodes: Nodes, c: seq<nat>, g: seq<nat>, u: Update, k: nat, i: nat)
    requires Gapped(nodes, c, g) && NewAt(nodes, c, u.epoch, k) && Number(u).Some?
    requires c[0] <= u.epoch && Upto(c, u.epoch) == k
    requires Gapped(Joined(nodes, c, g, u), ChainAfter(c, g, u.epoch), GapsAfter(c, g, u.epoch))
    requires i < |ChainAfter(c, g, u.epoch)|
    ensures var x := SpanAt(Joined(nodes, c, g, u), ChainAfter(c, g, u.epoch), GapsAfter(c, g, u.epoch), i);
            var raw := RawAt(nodes, c, k - 1);
            if i < k - 1 then x == SpanAt(nodes, c, g, i)
            else if i == k - 1 then
              x == Span(c[i], raw,
                        if Widens(c, g, u.epoch) then None else Some(Hidden(u.epoch, Touched(raw, u))))
            else if !Widens(c, g, u.epoch) then x == SpanAt(nodes, c, g, i)
            else if i == k then
              x == Span(u.epoch,
                        if k < |c| && g[k - 1] == u.epoch && u.epoch in nodes then nodes[u.epoch].raw
                        else Touched(raw, u), None)
            else i - 1 < |c| && x == SpanAt(nodes, c, g, i - 1)
  {
    hide Joined, Insert, GapsAfter, Increasing, Backed, Touched, Number, Upto, GapAt;
    InsertAt(c, u.epoch, if i <= |c| then i else 0);
    if i < |c| { InsertAt(c, u.epoch, i + 1); }
    GapsAt(c, g, u.epoch, i);
    if i < |c| - 1 { GapsAt(c, g, u.epoch, i + 1); }
    Onward(nodes, c, g, k - 1);
    JoinedHere(nodes, c, g, u, k);
    if i < k - 1 || i > k || (i == k && !Widens(c, g, u.epoch)) {
      var j := if i < k || !Widens(c, g, u.epoch) then i else i - 1;
      JoinedApart(nodes, c, g, u, k, j);
      Onward(nodes, c, g, j);
    }
  }

  lemma NewSpan(nodes: Nodes, c: seq<nat>, g: seq<nat>, u: Update, k: nat, i: nat)
    requires Gapped(nodes, c, g) && NewAt(nodes, c, u.epoch, k) && Number(u).Some?
    requires c[0] <= u.epoch && Upto(c, u.epoch) == k && i < |ChainAfter(c, g, u.epoch)|
    ensures Gapped(After(nodes, c, g, u), ChainAfter(c, g, u.epoch), GapsAfter(c, g, u.epoch))
    ensures var m := View(nodes, c, g);
            && m != [] && m[0].epoch <= u.epoch
            && (FallOf(m, u) in {Past, Taken} <==> Widens(c, g, u.epoch))
            && (if Widens(c, g, u.epoch) then i <= |m| else i < |m|)
            && SpanAt(After(nodes, c, g, u), ChainAfter(c, g, u.epoch), GapsAfter(c, g, u.epoch), i)
                 == SpanAfter(m, u, i)
  {
    hide Joined, Insert, GapsAfter, Increasing, Backed, Touched, Number, Upto, GapAt, SpanAt, Path, Touch, Begun, View;
    var b, d, h, f := Joined(nodes, c, g, u), ChainAfter(c, g, u.epoch), GapsAfter(c, g, u.epoch), Path(c, g, u.epoch);
    var wide := Widens(c, g, u.epoch);
    PlaceAfter(c, g, u.epoch, k, i);
    var j := if i < k || !wide then i else i - 1;
    ViewAt(nodes, c, g, u.epoch, k, j);
    JoinedGapped(nodes, c, g, u);
    JoinedSpan(nodes, c, g, u, k, i);
    TouchSpan(b, d, h, f, u, i);
    HiddenBelow(nodes, c, g, j);
    Apart(nodes, c, g, k, j);
    if i < k || (i == k && wide) {
      PathBelow(nodes, c, g, u.epoch, k, d[i]);
      PathBelow(nodes, c, g, u.epoch, k, if i < k - 1 then g[i] else u.epoch);
    } else {
      PathAbove(nodes, c, g, u.epoch, k, j);
    }
  }

  lemma PlaceAfter(c: seq<nat>, g: seq<nat>, e: nat, k: nat, i: nat)
    requires |g| == |c| && 0 < k <= |c| && Upto(c, e) == k && c[k - 1] < e && i < |ChainAfter(c, g, e)|
    ensures var d, h, wide := ChainAfter(c, g, e), GapsAfter(c, g, e), Widens(c, g, e);
            && |h| == |d| == |c| + (if wide then 1 else 0)
            && d[i] == (if i < k || !wide then c[i] else if i == k then e else c[i - 1])
            && (i < k - 1 ==> h[i] == g[i])
            && (i == k - 1 ==> h[i] == e)
            && (i > k - 1 && !wide ==> h[i] == g[i])
            && (i > k && wide ==> h[i] == g[i - 1])
  {
    hide Upto;
    GapsAt(c, g, e, i);
    InsertAt(c, e, if i <= |c| then i else 0);
  }

  /** The list after an update is the spans after it: the walks back, the splice, the node
      written back and the walk on come to exactly one step of the spans. */
  lemma AfterView(nodes: Nodes, c: seq<nat>, g: seq<nat>, u: Update)
    requires Gapped(nodes, c, g) && c[0] <= u.epoch && Number(u).Some?
    ensures Upto(c, u.epoch) > 0 && View(nodes, c, g) != [] && View(nodes, c, g)[0].epoch == c[0]
    ensures Gapped(After(nodes, c, g, u), ChainAfter(c, g, u.epoch), GapsAfter(c, g, u.epoch))
    ensures View(After(nodes, c, g, u), ChainAfter(c, g, u.epoch), GapsAfter(c, g, u.epoch))
              == Step(View(nodes, c, g), u)
  {
    hide Joined, Insert, GapsAfter, Increasing, Backed, Touched, Number, Upto, GapAt, SpanAt, Touch, Begun, SpanAfter,
      From, Rest;
    var m := View(nodes, c, g);
    AfterGapped(nodes, c, g, u);
    var t, d, h := After(nodes, c, g, u), ChainAfter(c, g, u.epoch), GapsAfter(c, g, u.epoch);
    var k := Upto(c, u.epoch);
    ViewAt(nodes, c, g, u.epoch, k, 0);
    UptoBelow(c, u.epoch, k - 1);
    if c[k - 1] == u.epoch {
      OnAfter(nodes, c, g, u, k);
      forall i | 0 <= i < |c| ensures SpanAt(t, d, h, i) == SpanAfter(m, u, i) {
        OnSpan(nodes, c, g, u, k, i);
      }
    } else {
      NewPlaceAt(nodes, c, u.epoch, k);
      PlaceAfter(c, g, u.epoch, k, 0);
      NewSpan(nodes, c, g, u, k, 0);
      forall i | 0 <= i < |d| ensures i < |Step(m, u)| && SpanAt(t, d, h, i) == SpanAfter(m, u, i) {
        NewSpan(nodes, c, g, u, k, i);
      }
    }
  }

  lemma OnAfter(nodes: Nodes, c: seq<nat>, g: seq<nat>, u: Update, k: nat)
    requires Gapped(nodes, c, g) && c[0] <= u.epoch && Number(u).Some?
    requires 0 < k <= |c| && Upto(c, u.epoch) == k && c[k - 1] == u.epoch
    ensures After(nodes, c, g, u) == Touch(nodes, From(c, g, k - 1), u)
    ensures ChainAfter(c, g, u.epoch) == c && GapsAfter(c, g, u.epoch) == g
    ensures var m := View(nodes, c, g); m != [] && m[0].epoch <= u.epoch && FallOf(m, u) == On
  {
    hide Touch, From, Touched, Number, Increasing, Backed, GapAt, Upto, Begun;
    ViewAt(nodes, c, g, u.epoch, k, 0);
  }

  lemma NewPlaceAt(nodes: Nodes, c: seq<nat>, e: nat, k: nat)
    requires Backed(nodes, c) && 0 < k <= |c| && Upto(c, e) == k && c[k - 1] < e
    ensures NewAt(nodes, c, e, k)
  {
  }
}
