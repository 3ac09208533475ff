/**
 The memory two update goroutines share: one batch array, and the set of digests
 whose batches are in the node table.  A call is recorded as the sequence of its
 atomic accesses with the slots it saw; calls on sibling slots may be interleaved
 in any way.
 */
module Traces {
  import opened Words
  import opened Batches

  datatype Shared = Shared(batch: Batch, known: set<Word>)

  datatype Action =
    | ReadSlot(i: nat, s: Slot)
    | WriteSlot(i: nat, s: Slot)
    | LoadNode(w: Word)
    | StoreNode(w: Word)

  /** The access can happen now: a read sees the slot recorded for it, a load finds its batch. */
  predicate Enabled(x: Action, m: Shared) {
    match x
    case ReadSlot(i, s) => i < 31 && m.batch[i] == s
    case WriteSlot(i, _) => i < 31
    case LoadNode(w) => w in m.known
    case StoreNode(_) => true
  }

  function Do(x: Action, m: Shared): Shared
    requires Enabled(x, m)
  {
    match x
    case WriteSlot(i, s) => m.(batch := m.batch[i := s])
    case StoreNode(w) => m.(known := m.known + {w})
    case _ => m
  }

  predicate Runs(tr: seq<Action>, m: Shared) {
    tr == [] || (Enabled(tr[0], m) && Runs(tr[1..], Do(tr[0], m)))
  }

  function Final(tr: seq<Action>, m: Shared): Shared
    requires Runs(tr, m)
  {
    if tr == [] then m else Final(tr[1..], Do(tr[0], m))
  }

  /** The recorded accesses lead from one state of the memory to another. */
  predicate Traced(tr: seq<Action>, m: Shared, m': Shared) {
    Runs(tr, m) && Final(tr, m) == m'
  }

  lemma OneTraced(x: Action, m: Shared)
    requires Enabled(x, m)
    ensures Traced([x], m, Do(x, m))
  {
    assert [x][1..] == [];
  }

  lemma {:induction false} TracedConcat(a: seq<Action>, b: seq<Action>, m: Shared, m': Shared, m'': Shared)
    requires Traced(a, m, m') && Traced(b, m', m'')
    ensures Traced(a + b, m, m'')
    decreases |a|
  {
    if a == [] {
      assert a + b == b;
    } else {
      TracedConcat(a[1..], b, Do(a[0], m), m', m'');
      assert (a + b)[1..] == a[1..] + b;
    }
  }

  /** Which slots an access may concern: slot i to read, slots below i to read and write. */
  predicate Inside(x: Action, i: nat) {
    match x
    case ReadSlot(j, _) => j == i || Under(i, j)
    case WriteSlot(j, _) => Under(i, j)
    case _ => true
  }

  predicate AllInside(tr: seq<Action>, i: nat) {
    forall k :: 0 <= k < |tr| ==> Inside(tr[k], i)
  }

  /** A call leaves slots that are not below its own alone, and only adds to the table. */
  lemma {:induction false} TraceFrame(tr: seq<Action>, m: Shared, m': Shared, i: nat)
    requires Traced(tr, m, m') && AllInside(tr, i)
    ensures forall j :: 0 <= j < 31 && !Under(i, j) ==> m.batch[j] == m'.batch[j]
    ensures m.known <= m'.known
    decreases |tr|
  {
    if tr != [] {
      assert Inside(tr[0], i);
      TraceFrame(tr[1..], Do(tr[0], m), m', i);
    }
  }

  predicate SameAt(b: Batch, c: Batch, i: nat) {
    (i < 31 ==> b[i] == c[i]) && forall j :: 0 <= j < 31 && Under(i, j) ==> b[j] == c[j]
  }

  /** A call runs the same wherever its own slots and the batches it needs are the same. */
  lemma {:induction false} TracePortable(tr: seq<Action>, m: Shared, m': Shared, n: Shared, i: nat) returns (n': Shared)
    requires Traced(tr, m, m') && AllInside(tr, i)
    requires SameAt(m.batch, n.batch, i) && m.known <= n.known
    ensures Traced(tr, n, n')
    ensures SameAt(m'.batch, n'.batch, i) && n'.known == n.known + m'.known
    decreases |tr|
  {
    if tr == [] {
      n' := n;
    } else {
      assert Inside(tr[0], i);
      n' := TracePortable(tr[1..], Do(tr[0], m), m', Do(tr[0], n), i);
      TraceFrame(tr[1..], Do(tr[0], m), m', i);
    }
  }

  predicate NoSlots(tr: seq<Action>) {
    forall k :: 0 <= k < |tr| ==> tr[k].LoadNode? || tr[k].StoreNode?
  }

  /** The accesses to the node table alone: what a call on a batch of its own shows to others. */
  function NodesOnly(tr: seq<Action>): (r: seq<Action>)
    ensures NoSlots(r)
  {
    if tr == [] then []
    else (if tr[0].LoadNode? || tr[0].StoreNode? then [tr[0]] else []) + NodesOnly(tr[1..])
  }

  lemma {:induction false} NodesOnlyTraced(tr: seq<Action>, m: Shared, m': Shared, b: Batch)
    requires Traced(tr, m, m')
    ensures Traced(NodesOnly(tr), Shared(b, m.known), Shared(b, m'.known))
    decreases |tr|
  {
    if tr != [] {
      var n := Do(tr[0], m);
      NodesOnlyTraced(tr[1..], n, m', b);
      var o := NodesOnly(tr[1..]);
      if tr[0].LoadNode? || tr[0].StoreNode? {
        assert NodesOnly(tr)[1..] == o;
        assert Do(tr[0], Shared(b, m.known)) == Shared(b, n.known);
      } else {
        assert NodesOnly(tr) == o;
      }
    }
  }

  // ----- interleaving -----

  /** `tr` is an interleaving of `l` and `r`. */
  ghost predicate Shuffle(tr: seq<Action>, l: seq<Action>, r: seq<Action>)
    decreases |tr|
  {
    if tr == [] then l == [] && r == []
    else
      || (l != [] && l[0] == tr[0] && Shuffle(tr[1..], l[1..], r))
      || (r != [] && r[0] == tr[0] && Shuffle(tr[1..], l, r[1..]))
  }

  lemma {:induction false} InTurn(l: seq<Action>, r: seq<Action>)
    ensures Shuffle(l + r, l, r)
    decreases |l| + |r|
  {
    if l != [] {
      InTurn(l[1..], r);
      assert (l + r)[1..] == l[1..] + r;
    } else if r != [] {
      InTurn(l, r[1..]);
      assert (l + r)[1..] == l + r[1..];
    }
  }

  lemma {:induction false} ShuffleInside(tr: seq<Action>, l: seq<Action>, r: seq<Action>, i: nat)
    requires Shuffle(tr, l, r) && AllInside(l, i) && AllInside(r, i)
    ensures AllInside(tr, i)
    decreases |tr|
  {
    if tr != [] {
      if l != [] && l[0] == tr[0] && Shuffle(tr[1..], l[1..], r) {
        ShuffleInside(tr[1..], l[1..], r, i);
      } else {
        ShuffleInside(tr[1..], l, r[1..], i);
      }
      assert tr == [tr[0]] + tr[1..];
    }
  }

  /** Two accesses that may be swapped: they concern different slots. */
  predicate Apart(x: Action, y: Action) {
    (x.WriteSlot? && (y.ReadSlot? || y.WriteSlot?) ==> x.i != y.i) &&
    (y.WriteSlot? && (x.ReadSlot? || x.WriteSlot?) ==> x.i != y.i)
  }

  predicate AllApart(x: Action, tr: seq<Action>) {
    forall k :: 0 <= k < |tr| ==> Apart(x, tr[k])
  }

  lemma ApartCommute(x: Action, y: Action, m: Shared)
    requires Apart(x, y) && Enabled(x, m) && Enabled(y, m)
    ensures Enabled(y, Do(x, m)) && Enabled(x, Do(y, m))
    ensures Do(x, Do(y, m)) == Do(y, Do(x, m))
  {
    if x.WriteSlot? && y.WriteSlot? {
      assert m.batch[x.i := x.s][y.i := y.s] == m.batch[y.i := y.s][x.i := x.s];
    }
  }

  /** An access commutes with a whole trace it is apart from. */
  lemma {:induction false} CommutePast(x: Action, tr: seq<Action>, m: Shared)
    requires AllApart(x, tr) && Enabled(x, m) && Runs(tr, m)
    ensures Runs(tr, Do(x, m)) && Enabled(x, Final(tr, m))
    ensures Final(tr, Do(x, m)) == Do(x, Final(tr, m))
    decreases |tr|
  {
    if tr != [] {
      ApartCommute(x, tr[0], m);
      CommutePast(x, tr[1..], Do(tr[0], m));
    }
  }

  /** Every interleaving of two traces apart from each other runs, and ends where
      running one after the other ends. */
  lemma {:induction false} ShuffleConfluent(tr: seq<Action>, l: seq<Action>, r: seq<Action>, m: Shared)
    requires Shuffle(tr, l, r)
    requires Runs(l, m) && Runs(r, m)
    requires forall k :: 0 <= k < |l| ==> AllApart(l[k], r)
    ensures Runs(tr, m) && Runs(r, Final(l, m))
    ensures Final(tr, m) == Final(r, Final(l, m))
    decreases |tr|
  {
    if tr != [] {
      if l != [] && l[0] == tr[0] && Shuffle(tr[1..], l[1..], r) {
        CommutePast(l[0], r, m);
        ShuffleConfluent(tr[1..], l[1..], r, Do(l[0], m));
      } else {
        var y := r[0];
        forall k | 0 <= k < |l| ensures Apart(y, l[k]) {
          assert Apart(l[k], r[0]);
        }
        CommutePast(y, l, m);
        forall k | 0 <= k < |l| ensures AllApart(l[k], r[1..]) {
          assert AllApart(l[k], r);
        }
        ShuffleConfluent(tr[1..], l, r[1..], Do(y, m));
      }
    }
  }

  /** Calls on the two children of a slot touch different slots. */
  lemma SiblingsAllApart(i: nat, l: seq<Action>, r: seq<Action>)
    requires AllInside(l, 2 * i + 1) && AllInside(r, 2 * i + 2)
    ensures forall k :: 0 <= k < |l| ==> AllApart(l[k], r)
  {
    forall k, n | 0 <= k < |l| && 0 <= n < |r| ensures Apart(l[k], r[n]) {
      var x := l[k];
      if (x.ReadSlot? || x.WriteSlot?) && Under(2 * i + 1, x.i) {
        SiblingsApart(i, x.i);
      }
      assert Inside(l[k], 2 * i + 1) && Inside(r[n], 2 * i + 2);
    }
  }

  /** Any interleaving of the calls on slots 2i+1 and 2i+2, each recorded from the
      same memory, ends in the memory that running them in turn ends in. */
  lemma ParallelConfluent(tr: seq<Action>, l: seq<Action>, r: seq<Action>, i: nat,
                          m: Shared, ml: Shared, mr: Shared, n: Shared)
    requires Shuffle(tr, l, r) && AllInside(l, 2 * i + 1) && AllInside(r, 2 * i + 2)
    requires Traced(l, m, ml) && mr == Shared(ml.batch, m.known) && Traced(r, mr, n)
    ensures Traced(tr, m, Shared(n.batch, ml.known + n.known))
  {
    SiblingsAllApart(i, l, r);
    TraceFrame(l, m, ml, 2 * i + 1);
    forall j | 0 <= j < 31 && (j == 2 * i + 2 || Under(2 * i + 2, j)) ensures ml.batch[j] == m.batch[j] {
      if Under(2 * i + 1, j) { SiblingsApart(i, j); }
    }
    var _ := TracePortable(r, mr, n, m, 2 * i + 2);
    ShuffleConfluent(tr, l, r, m);
    var n' := TracePortable(r, mr, n, ml, 2 * i + 2);
    TraceFrame(r, mr, n, 2 * i + 2);
    TraceFrame(r, ml, n', 2 * i + 2);
    assert n'.batch == n.batch;
  }
}
