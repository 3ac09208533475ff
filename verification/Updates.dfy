/**
 `update` on subtrees as values: what a batch of inserts and deletes makes of a
 tree, branch for branch, and what that means for the map the tree holds.
 */
module Updates {
  import opened Words
  import opened Trees

  // ----- the map a batch asks for -----

  function Put(m: map<Key, Word>, e: KV): map<Key, Word> {
    if e.v == DefaultLeaf then m - {e.k} else m[e.k := e.v]
  }

  /** The map after the entries of `s`, in order; the reference for `Update`. */
  function Updated(m: map<Key, Word>, s: seq<KV>): map<Key, Word> {
    if s == [] then m else Put(Updated(m, s[..|s| - 1]), s[|s| - 1])
  }

  function Wanted(v: Word): Option<Word> {
    if v == DefaultLeaf then None else Some(v)
  }

  lemma {:induction false} UpdatedOther(m: map<Key, Word>, s: seq<KV>, k: Key)
    requires forall i :: 0 <= i < |s| ==> s[i].k != k
    ensures Find(Updated(m, s), k) == Find(m, k)
  {
    if s != [] {
      UpdatedOther(m, s[..|s| - 1], k);
    }
  }

  lemma {:induction false} UpdatedAt(m: map<Key, Word>, s: seq<KV>, i: nat)
    requires i < |s| && Sorted(s)
    ensures Find(Updated(m, s), s[i].k) == Wanted(s[i].v)
  {
    var n := |s| - 1;
    if i < n {
      LessTotal(s[i].k, s[n].k);
      UpdatedAt(m, s[..n], i);
    }
  }

  /** A sorted batch decides exactly the keys it names. */
  lemma UpdatedBy(m: map<Key, Word>, s: seq<KV>, k: Key)
    requires Sorted(s)
    ensures forall e :: e in s && e.k == k ==> Find(Updated(m, s), k) == Wanted(e.v)
    ensures (forall e :: e in s ==> e.k != k) ==> Find(Updated(m, s), k) == Find(m, k)
  {
    if i :| 0 <= i < |s| && s[i].k == k {
      UpdatedAt(m, s, i);
      forall e | e in s && e.k == k ensures e == s[i] {
        var j :| 0 <= j < |s| && s[j] == e;
      }
    } else {
      UpdatedOther(m, s, k);
    }
  }

  /** Deletions name keys the map holds. */
  predicate DeletesPresent(m: map<Key, Word>, s: seq<KV>) {
    forall i :: 0 <= i < |s| && s[i].v == DefaultLeaf ==> s[i].k in m
  }

  // ----- splitKeys -----

  /** The number of leading keys whose bit `d` is clear. */
  function SplitAt(s: seq<KV>, d: nat): (n: nat)
    requires d < 256
    ensures n <= |s|
    ensures forall i :: 0 <= i < n ==> !s[i].k[d]
    ensures n < |s| ==> s[n].k[d]
  {
    if s == [] || s[0].k[d] then 0 else 1 + SplitAt(s[1..], d)
  }

  lemma SplitBits(s: seq<KV>, p: seq<bool>)
    requires |p| < 256 && Sorted(s) && AllUnder(s, p)
    ensures forall i :: SplitAt(s, |p|) <= i < |s| ==> s[i].k[|p|]
  {
    var n := SplitAt(s, |p|);
    forall i | n <= i < |s| ensures s[i].k[|p|] {
      if i > n {
        assert s[n].k[..|p|] == p == s[i].k[..|p|];
        LessAtBit(s[n].k, s[i].k, |p|);
      }
    }
  }

  lemma PrefixExtends(k: Key, p: seq<bool>)
    requires |p| < 256 && p <= k
    ensures p + [k[|p|]] <= k
  {
  }

  /** On sorted keys under a common prefix the cut separates the two children. */
  lemma SplitSorted(s: seq<KV>, p: seq<bool>)
    requires |p| < 256 && Sorted(s) && AllUnder(s, p)
    ensures var n := SplitAt(s, |p|);
            && AllUnder(s[..n], p + [false]) && AllUnder(s[n..], p + [true])
            && Sorted(s[..n]) && Sorted(s[n..])
  {
    SplitBits(s, p);
    forall i | 0 <= i < |s| ensures p + [s[i].k[|p|]] <= s[i].k {
      PrefixExtends(s[i].k, p);
    }
  }

  // ----- maybeAddShortcutToKV -----

  /** How many leading keys are below `k`. */
  function Rank(s: seq<KV>, k: Key): (r: nat)
    ensures r <= |s|
    ensures forall i :: 0 <= i < r ==> Less(s[i].k, k)
    ensures r < |s| ==> !Less(s[r].k, k)
  {
    if s == [] || !Less(s[0].k, k) then 0 else 1 + Rank(s[1..], k)
  }

  /** The shortcut's own key is deleted in between a smaller and a larger key. */
  predicate Clash(s: seq<KV>, k: Key) {
    var r := Rank(s, k);
    0 < r < |s| - 1 && s[r].k == k && s[r].v == DefaultLeaf
  }

  /** The batch with a shortcut (k, v) on its way added to it; under `Clash` the
      source appends a second, partly stale copy of the batch. */
  function Merge(s: seq<KV>, k: Key, v: Word): seq<KV> {
    var r := Rank(s, k);
    if r == |s| || s[r].k != k then
      s[..r] + [KV(k, v)] + s[r..]
    else if s[r].v != DefaultLeaf then
      s
    else if Clash(s, k) then
      s[..r] + s[r + 1..] + s[..r + 1] + [KV(k, v)] + s[r + 1..]
    else
      s[..r] + s[r + 1..]
  }

  lemma RankSplits(s: seq<KV>, k: Key)
    requires Sorted(s)
    ensures forall i :: 0 <= i < |s| ==>
      (Less(s[i].k, k) <==> i < Rank(s, k)) && (s[i].k == k ==> i == Rank(s, k))
  {
    forall i | 0 <= i < |s| ensures Less(s[i].k, k) || s[i].k == k || Less(k, s[i].k) {
      LessTotal(s[i].k, k);
    }
  }

  lemma MergeSorted(s: seq<KV>, k: Key, v: Word)
    requires Sorted(s) && !Clash(s, k)
    ensures Sorted(Merge(s, k, v))
  {
    hide Num;
    RankSplits(s, k);
    forall i | 0 <= i < |s| { LessTotal(s[i].k, k); }
  }

  /** The merged batch is strictly sorted exactly when there is no clash. */
  lemma MergeSortedIff(s: seq<KV>, k: Key, v: Word)
    requires Sorted(s)
    ensures Sorted(Merge(s, k, v)) <==> !Clash(s, k)
  {
    if Clash(s, k) {
      var m, r := Merge(s, k, v), Rank(s, k);
      assert m[0] == s[0] && m[|s| - 1] == s[0];
      LessTotal(s[0].k, s[0].k);
    } else {
      MergeSorted(s, k, v);
    }
  }

  lemma SpliceMembers(s: seq<KV>, r: nat, x: KV, e: KV)
    requires r <= |s|
    ensures e in s[..r] + [x] + s[r..] <==> e in s || e == x
  {
    assert s == s[..r] + s[r..];
  }

  lemma CutMembers(s: seq<KV>, r: nat, e: KV)
    requires r < |s| && forall i :: 0 <= i < |s| && i != r ==> s[i].k != s[r].k
    ensures e in s[..r] + s[r + 1..] <==> e in s && e.k != s[r].k
    ensures e in s && e.k == s[r].k <==> e == s[r]
  {
    assert s == s[..r] + [s[r]] + s[r + 1..];
  }

  /** What a merge without clash keeps: all but the shortcut's deletion, and the
      shortcut itself when the batch does not name its key. */
  lemma MergeMembers(s: seq<KV>, k: Key, v: Word, e: KV)
    requires Sorted(s) && !Clash(s, k)
    ensures e in Merge(s, k, v) <==>
      if e.k != k then e in s
      else if exists f :: f in s && f.k == k then e in s && e.v != DefaultLeaf
      else e.v == v
  {
    var r := Rank(s, k);
    RankNames(s, k);
    SpliceMembers(s, r, KV(k, v), e);
    if r < |s| && s[r].k == k {
      CutMembers(s, r, e);
    }
  }

  lemma RankNames(s: seq<KV>, k: Key)
    requires Sorted(s)
    ensures (exists f :: f in s && f.k == k) <==> Rank(s, k) < |s| && s[Rank(s, k)].k == k
    ensures forall i :: 0 <= i < |s| && i != Rank(s, k) ==> s[i].k != k
  {
    RankSplits(s, k);
    if f :| f in s && f.k == k {
      var i :| 0 <= i < |s| && s[i] == f;
    }
  }

  lemma MergeInserts(s: seq<KV>, k: Key, v: Word)
    requires Sorted(s) && !Clash(s, k) && v != DefaultLeaf
    requires DeletesPresent(map[k := v], s)
    ensures forall e :: e in Merge(s, k, v) ==> e.v != DefaultLeaf
  {
    forall e | e in Merge(s, k, v) ensures e.v != DefaultLeaf {
      MergeMembers(s, k, v, e);
    }
  }

  /** Without a clash the merged batch does to an empty subtree what the batch does
      to the shortcut. */
  lemma MergeMeaning(s: seq<KV>, k: Key, v: Word)
    requires Sorted(s) && !Clash(s, k) && v != DefaultLeaf
    ensures Updated(map[], Merge(s, k, v)) == Updated(map[k := v], s)
  {
    var m := Merge(s, k, v);
    MergeSorted(s, k, v);
    forall x: Key ensures Find(Updated(map[], m), x) == Find(Updated(map[k := v], s), x) {
      MergeMeaningAt(s, k, v, m, x);
    }
    FindExtensional(Updated(map[], m), Updated(map[k := v], s));
  }

  lemma MergeMeaningAt(s: seq<KV>, k: Key, v: Word, m: seq<KV>, x: Key)
    requires Sorted(s) && !Clash(s, k) && v != DefaultLeaf
    requires m == Merge(s, k, v) && Sorted(m)
    ensures Find(Updated(map[], m), x) == Find(Updated(map[k := v], s), x)
  {
    forall e { MergeMembers(s, k, v, e); }
    UpdatedBy(map[], m, x);
    UpdatedBy(map[k := v], s, x);
    if e :| e in s && e.k == x {
      assert e.v == DefaultLeaf || e in m;
    } else if x == k {
      assert KV(k, v) in m;
    }
  }

  // ----- update -----

  /** A subtree after an update, and whether a shortcut may have to move up past it. */
  datatype Outcome = Outcome(t: Tree, deleted: bool)

  /** A single entry on an empty subtree becomes a shortcut there. */
  function Place(e: KV): Outcome {
    if e.v == DefaultLeaf then Outcome(Empty, true) else Outcome(Leaf(e.k, e.v), false)
  }

  /** Two updated children under one node: after a deletion a lone shortcut moves up. */
  function Join(l: Tree, r: Tree, deleted: bool): Outcome {
    if deleted && l.Empty? && !r.Node? then Outcome(r, true)
    else if deleted && r.Empty? && l.Leaf? then Outcome(l, true)
    else Outcome(Node(l, r), false)
  }

  /** `update` at height `h` on the subtree `t`. */
  function Apply(t: Tree, s: seq<KV>, h: nat): (o: Outcome)
    requires s != [] && h <= 256 && Tidy(t, h)
    ensures Tidy(o.t, h) && (o.t.Empty? ==> o.deleted)
    decreases h, 1
  {
    if h == 0 then Place(s[0])
    else if !t.Leaf? then Spread(t, s, h)
    else
      var m := Merge(s, t.k, t.v);
      if m == [] then Outcome(Empty, true) else Spread(Empty, m, h)
  }

  /** The same once no shortcut is left in the way. */
  function Spread(t: Tree, s: seq<KV>, h: nat): (o: Outcome)
    requires s != [] && 0 < h <= 256 && Tidy(t, h) && !t.Leaf?
    ensures Tidy(o.t, h) && (o.t.Empty? ==> o.deleted)
    decreases h, 0
  {
    if t.Empty? && |s| == 1 then Place(s[0])
    else
      var n := SplitAt(s, 256 - h);
      var l, r := Half(Left(t), s[..n], h - 1), Half(Right(t), s[n..], h - 1);
      Join(l.t, r.t, l.deleted || r.deleted)
  }

  /** A child with its share of the batch, which may be none. */
  function Half(t: Tree, s: seq<KV>, h: nat): (o: Outcome)
    requires h < 256 && Tidy(t, h)
    ensures Tidy(o.t, h) && (o.t.Empty? && s != [] ==> o.deleted) && (s == [] ==> o == Outcome(t, false))
    decreases h, 2
  {
    if s == [] then Outcome(t, false) else Apply(t, s, h)
  }

  /** Inserts never leave a subtree empty. */
  lemma {:induction false} InsertsStay(t: Tree, s: seq<KV>, h: nat)
    requires h <= 256 && s != [] && t.Empty? && forall i :: 0 <= i < |s| ==> s[i].v != DefaultLeaf
    ensures !Apply(t, s, h).t.Empty? && !Apply(t, s, h).deleted
    decreases h
  {
    if h > 0 && |s| > 1 {
      var n := SplitAt(s, 256 - h);
      if n > 0 { InsertsStay(t, s[..n], h - 1); }
      if n < |s| { InsertsStay(t, s[n..], h - 1); }
      var l, r := Half(t, s[..n], h - 1), Half(t, s[n..], h - 1);
      assert Apply(t, s, h) == Join(l.t, r.t, l.deleted || r.deleted);
    }
  }

  lemma UpdatedOne(m: map<Key, Word>, e: KV)
    ensures Updated(m, [e]) == Put(m, e)
  {
    assert [e][..0] == [];
  }

  lemma PutSide(ml: map<Key, Word>, mr: map<Key, Word>, e: KV, d: nat)
    requires d < 256 && Uniform(ml, d, false) && Uniform(mr, d, true)
    ensures !e.k[d] ==> Put(ml + mr, e) == Put(ml, e) + mr && Uniform(Put(ml, e), d, false)
    ensures e.k[d] ==> Put(ml + mr, e) == ml + Put(mr, e) && Uniform(Put(mr, e), d, true)
  {
  }

  /** A batch cut at bit `d` updates the two sides independently. */
  lemma {:induction false} UpdatedSplit(ml: map<Key, Word>, mr: map<Key, Word>, a: seq<KV>, b: seq<KV>, d: nat)
    requires d < 256 && Uniform(ml, d, false) && Uniform(mr, d, true)
    requires forall i :: 0 <= i < |a| ==> !a[i].k[d]
    requires forall i :: 0 <= i < |b| ==> b[i].k[d]
    ensures Uniform(Updated(ml, a), d, false) && Uniform(Updated(mr, b), d, true)
    ensures Updated(ml + mr, a + b) == Updated(ml, a) + Updated(mr, b)
    decreases |a| + |b|
  {
    var s := a + b;
    if b != [] {
      var n := |b| - 1;
      UpdatedSplit(ml, mr, a, b[..n], d);
      assert s[..|s| - 1] == a + b[..n];
      PutSide(Updated(ml, a), Updated(mr, b[..n]), b[n], d);
    } else if a != [] {
      var n := |a| - 1;
      UpdatedSplit(ml, mr, a[..n], b, d);
      assert s[..|s| - 1] == a[..n] + b;
      PutSide(Updated(ml, a[..n]), mr, a[n], d);
    }
  }

  lemma CutBits(s: seq<KV>, p: seq<bool>, a: seq<KV>, b: seq<KV>)
    requires |p| < 256 && Sorted(s) && AllUnder(s, p)
    requires a == s[..SplitAt(s, |p|)] && b == s[SplitAt(s, |p|)..]
    ensures s == a + b
    ensures forall i :: 0 <= i < |a| ==> !a[i].k[|p|]
    ensures forall i :: 0 <= i < |b| ==> b[i].k[|p|]
  {
    hide Less, Sorted, AllUnder;
    SplitBits(s, p);
  }

  lemma FirstTwo(s: seq<KV>)
    requires Sorted(s) && |s| > 1
    ensures Less(s[0].k, s[1].k)
  {
  }
}
