/**
 `Update` as a whole, on trees: which requests it refuses, and what it makes of a trie
 whose keys are on their paths otherwise.
 */
module Requests {
  import opened Words
  import opened Trees
  import opened Updates
  import opened Doubled
  import opened Clash

  /** No shortcut on the way of the batch meets a clash. */
  predicate Clean(t: Tree, s: seq<KV>, h: nat)
    requires h <= 256 && Tidy(t, h)
    decreases t
  {
    match t
    case Empty => true
    case Leaf(k, _) => !Updates.Clash(s, k)
    case Node(l, r) =>
      var n := SplitAt(s, 256 - h);
      Clean(l, s[..n], h - 1) && Clean(r, s[n..], h - 1)
  }

  /** Every clash on the way settles, in the strict sense or not. */
  predicate Tame(t: Tree, s: seq<KV>, h: nat, strict: bool)
    requires h <= 256 && Tidy(t, h)
    decreases t
  {
    match t
    case Empty => true
    case Leaf(k, _) => Updates.Clash(s, k) ==> Settles(s, k, h, strict)
    case Node(l, r) =>
      var n := SplitAt(s, 256 - h);
      Tame(l, s[..n], h - 1, strict) && Tame(r, s[n..], h - 1, strict)
  }

  lemma {:induction false} CleanTame(t: Tree, s: seq<KV>, h: nat, strict: bool)
    requires h <= 256 && Tidy(t, h) && Clean(t, s, h)
    ensures Tame(t, s, h, strict)
    decreases t
  {
    if t.Node? {
      var n := SplitAt(s, 256 - h);
      CleanTame(t.l, s[..n], h - 1, strict);
      CleanTame(t.r, s[n..], h - 1, strict);
    }
  }

  /** A batch a subtree at height `h` under prefix `p` may be given: in order, under the
      prefix, deleting keys the subtree holds. */
  predicate Fits(t: Tree, s: seq<KV>, h: nat, p: seq<bool>, strict: bool)
    requires |p| + h == 256 && Tidy(t, h)
  {
    && s != [] && Sorted(s) && AllUnder(s, p)
    && Formed(t, h, p, strict) && DeletesPresent(Contents(t), s)
  }

  /** Reads under the prefix find exactly the map of the subtree. */
  ghost predicate Readable(t: Tree, h: nat, p: seq<bool>)
    requires |p| + h == 256 && Tidy(t, h)
  {
    forall q: Key :: p <= q ==> Lookup(t, q, h) == Find(Contents(t), q)
  }

  /** The outcome holds the map the batch asks for, reads find it, and it has the form of the
      subtree before exactly when every clash settles in that sense. */
  ghost predicate Met(t: Tree, s: seq<KV>, h: nat, p: seq<bool>, o: Outcome, strict: bool)
    requires |p| + h == 256 && Tidy(t, h)
  {
    && Tidy(o.t, h) && Contents(o.t) == Updated(Contents(t), s) && Readable(o.t, h, p)
    && (Formed(o.t, h, p, strict) <==> Tame(t, s, h, strict))
    && (Formed(o.t, h, p, strict) || o.t.Node?)
    && (strict && t.Node? && !o.deleted ==> o.t.Node?)
  }

  lemma HomedReadable(t: Tree, h: nat, p: seq<bool>)
    requires |p| + h == 256 && Homed(t, h, p) && Tidy(t, h)
    ensures Readable(t, h, p)
  {
    forall q: Key ensures Lookup(t, q, h) == Find(Contents(t), q) { LookupIsFind(t, h, p, q); }
  }

  lemma PlaceMet(t: Tree, s: seq<KV>, h: nat, p: seq<bool>, strict: bool)
    requires |p| + h == 256 && Tidy(t, h) && Fits(t, s, h, p, strict)
    requires h == 0 || (t.Empty? && |s| == 1)
    ensures Met(t, s, h, p, Place(s[0]), strict)
  {
    hide Readable, Updates.Clash, Settles;
    PlaceFormed(t, s, h, p, strict);
    HomedReadable(Place(s[0]).t, h, p);
    NoClash(t, s, h, strict);
  }

  lemma NoClash(t: Tree, s: seq<KV>, h: nat, strict: bool)
    requires h <= 256 && Tidy(t, h) && |s| == 1 && !t.Node?
    ensures Tame(t, s, h, strict)
  {
  }

  lemma PlaceFormed(t: Tree, s: seq<KV>, h: nat, p: seq<bool>, strict: bool)
    requires |p| + h == 256 && Tidy(t, h) && Fits(t, s, h, p, strict)
    requires h == 0 || (t.Empty? && |s| == 1)
    ensures var o := Place(s[0]);
            Formed(o.t, h, p, strict) && Homed(o.t, h, p) && Contents(o.t) == Updated(Contents(t), s)
    ensures |s| == 1
  {
    if h == 0 { FullPrefix(s, p); }
    assert s == [s[0]];
    UpdatedOne(Contents(t), s[0]);
    if h == 0 && t.Leaf? {
      assert t.k == p == s[0].k;
    }
  }

  /** Two inserts leave more than a shortcut. */
  lemma TwoInserts(t: Tree, s: seq<KV>, h: nat, p: seq<bool>)
    requires |p| + h == 256 && Canon(t, h, p)
    requires |s| >= 2 && Sorted(s) && DeletesPresent(map[], s)
    requires Contents(t) == Updated(map[], s)
    ensures t.Node?
  {
    UpdatedAt(map[], s, 0);
    UpdatedAt(map[], s, 1);
    assert s[0].k in Contents(t) && s[1].k in Contents(t) && s[0].k != s[1].k;
  }

  lemma ChildFits(t: Tree, s: seq<KV>, h: nat, p: seq<bool>, strict: bool)
    requires h > 0 && |p| + h == 256 && Tidy(t, h) && !t.Leaf? && Fits(t, s, h, p, strict)
    ensures var n := SplitAt(s, 256 - h);
            && (n > 0 ==> Fits(Left(t), s[..n], h - 1, p + [false], strict))
            && (n < |s| ==> Fits(Right(t), s[n..], h - 1, p + [true], strict))
  {
    hide Sorted, AllUnder, DeletesPresent, Uniform;
    SplitSorted(s, p);
    FormedHomed(t, h, p, strict);
    ChildSides(t, h, p);
    ChildDeletes(Contents(Left(t)), Contents(Right(t)), s, p);
  }

  lemma ChildSides(t: Tree, h: nat, p: seq<bool>)
    requires h > 0 && |p| + h == 256 && Homed(t, h, p) && !t.Leaf?
    ensures Uniform(Contents(Left(t)), |p|, false) && Uniform(Contents(Right(t)), |p|, true)
    ensures Contents(t) == Contents(Left(t)) + Contents(Right(t))
  {
    if t.Node? { Sides(t, h, p); }
  }

  lemma ChildDeletes(ml: map<Key, Word>, mr: map<Key, Word>, s: seq<KV>, p: seq<bool>)
    requires |p| < 256 && Uniform(ml, |p|, false) && Uniform(mr, |p|, true)
    requires Sorted(s) && AllUnder(s, p) && DeletesPresent(ml + mr, s)
    ensures var n := SplitAt(s, |p|); DeletesPresent(ml, s[..n]) && DeletesPresent(mr, s[n..])
  {
    var n := SplitAt(s, |p|);
    CutBits(s, p, s[..n], s[n..]);
    DeletesSplit(ml, mr, s[..n], s[n..], |p|);
  }

  lemma ChildContents(ml: map<Key, Word>, mr: map<Key, Word>, s: seq<KV>, p: seq<bool>)
    requires |p| < 256 && Uniform(ml, |p|, false) && Uniform(mr, |p|, true)
    requires Sorted(s) && AllUnder(s, p)
    ensures var n := SplitAt(s, |p|);
            && Updated(ml + mr, s) == Updated(ml, s[..n]) + Updated(mr, s[n..])
            && Uniform(Updated(ml, s[..n]), |p|, false) && Uniform(Updated(mr, s[n..]), |p|, true)
  {
    var n := SplitAt(s, |p|);
    CutBits(s, p, s[..n], s[n..]);
    UpdatedSplit(ml, mr, s[..n], s[n..], |p|);
  }

  lemma DeletesSplit(ml: map<Key, Word>, mr: map<Key, Word>, a: seq<KV>, b: seq<KV>, d: nat)
    requires d < 256 && Uniform(ml, d, false) && Uniform(mr, d, true)
    requires DeletesPresent(ml + mr, a + b)
    requires forall i :: 0 <= i < |a| ==> !a[i].k[d]
    requires forall i :: 0 <= i < |b| ==> b[i].k[d]
    ensures DeletesPresent(ml, a) && DeletesPresent(mr, b)
  {
    forall i | 0 <= i < |a| && a[i].v == DefaultLeaf ensures a[i].k in ml {
      assert (a + b)[i] == a[i];
    }
    forall i | 0 <= i < |b| && b[i].v == DefaultLeaf ensures b[i].k in mr {
      assert (a + b)[|a| + i] == b[i];
    }
  }

  /** `l` and `r` are what the two halves of the batch make of the children. */
  ghost predicate Halves(t: Tree, s: seq<KV>, h: nat, p: seq<bool>, l: Outcome, r: Outcome, strict: bool)
    requires 0 < h && |p| + h == 256 && Tidy(t, h)
  {
    var n := SplitAt(s, 256 - h);
    && Met(Left(t), s[..n], h - 1, p + [false], l, strict)
    && Met(Right(t), s[n..], h - 1, p + [true], r, strict)
    && (if n == 0 then l == Outcome(Left(t), false) else l.t.Empty? ==> l.deleted)
    && (if n == |s| then r == Outcome(Right(t), false) else r.t.Empty? ==> r.deleted)
  }

  lemma HalvesShape(t: Tree, s: seq<KV>, h: nat, p: seq<bool>, l: Outcome, r: Outcome, strict: bool)
    requires h > 0 && |p| + h == 256 && Tidy(t, h) && !t.Leaf? && Fits(t, s, h, p, strict)
    requires !(t.Empty? && |s| == 1) && Halves(t, s, h, p, l, r, strict)
    ensures strict && !l.deleted && !r.deleted ==> (l.t.Empty? ==> r.t.Node?) && (r.t.Empty? ==> l.t.Node?)
  {
    hide Readable, Updates.Clash, Settles;
    var n := SplitAt(s, 256 - h);
    if strict && !l.deleted && !r.deleted && t.Empty? {
      if l.t.Empty? {
        assert s[n..] == s;
        TwoInserts(r.t, s, h - 1, p + [true]);
      } else if r.t.Empty? {
        assert s[..n] == s;
        TwoInserts(l.t, s, h - 1, p + [false]);
      }
    }
  }

  lemma HalvesMet(t: Tree, s: seq<KV>, h: nat, p: seq<bool>, l: Outcome, r: Outcome, strict: bool)
    requires h > 0 && |p| + h == 256 && Tidy(t, h) && !t.Leaf? && Fits(t, s, h, p, strict)
    requires !(t.Empty? && |s| == 1) && Halves(t, s, h, p, l, r, strict)
    requires Tidy(Join(l.t, r.t, l.deleted || r.deleted).t, h)
    ensures Met(t, s, h, p, Join(l.t, r.t, l.deleted || r.deleted), strict)
  {
    hide Sorted, AllUnder, DeletesPresent, Uniform, SplitAt, Readable, Contents, Updated, Formed, Tame, Fits;
    var del := l.deleted || r.deleted;
    FitsParts(t, s, h, p, strict);
    HalvesShape(t, s, h, p, l, r, strict);
    JoinFormedIff(l.t, r.t, del, h, p, strict);
    FormedHomed(t, h, p, strict);
    JoinContents(l.t, r.t, del);
    ChildSides(t, h, p);
    ChildContents(Contents(Left(t)), Contents(Right(t)), s, p);
    JoinReadable(l.t, r.t, del, h, p);
    TameHalves(t, s, h, strict);
  }

  lemma FitsParts(t: Tree, s: seq<KV>, h: nat, p: seq<bool>, strict: bool)
    requires |p| + h == 256 && Tidy(t, h) && Fits(t, s, h, p, strict)
    ensures s != [] && Sorted(s) && AllUnder(s, p) && Formed(t, h, p, strict) && DeletesPresent(Contents(t), s)
  {
  }

  lemma TameHalves(t: Tree, s: seq<KV>, h: nat, strict: bool)
    requires 0 < h <= 256 && Tidy(t, h) && !t.Leaf?
    ensures var n := SplitAt(s, 256 - h);
            Tame(t, s, h, strict) <==> Tame(Left(t), s[..n], h - 1, strict) && Tame(Right(t), s[n..], h - 1, strict)
  {
  }

  lemma JoinFormedIff(l: Tree, r: Tree, deleted: bool, h: nat, p: seq<bool>, strict: bool)
    requires h > 0 && |p| + h == 256 && Tidy(Join(l, r, deleted).t, h)
    requires Formed(l, h - 1, p + [false], strict) || l.Node?
    requires Formed(r, h - 1, p + [true], strict) || r.Node?
    requires strict && !deleted ==> (l.Empty? ==> r.Node?) && (r.Empty? ==> l.Node?)
    ensures var o := Join(l, r, deleted);
            && (Formed(o.t, h, p, strict) <==>
                  Formed(l, h - 1, p + [false], strict) && Formed(r, h - 1, p + [true], strict))
            && (Formed(o.t, h, p, strict) || o.t.Node?) && (!o.deleted ==> o.t.Node?)
  {
    assert p <= p + [false] && p <= p + [true];
  }

  lemma JoinReadable(l: Tree, r: Tree, deleted: bool, h: nat, p: seq<bool>)
    requires h > 0 && |p| + h == 256 && Tidy(l, h - 1) && Tidy(r, h - 1) && Tidy(Join(l, r, deleted).t, h)
    requires Readable(l, h - 1, p + [false]) && Readable(r, h - 1, p + [true])
    requires Uniform(Contents(l), |p|, false) && Uniform(Contents(r), |p|, true)
    ensures Readable(Join(l, r, deleted).t, h, p)
  {
    hide Join, Lookup;
    var o := Join(l, r, deleted);
    JoinContents(l, r, deleted);
    forall q: Key | p <= q ensures Lookup(o.t, q, h) == Find(Contents(o.t), q) {
      PrefixBit(p, q, q[|p|]);
      JoinLookup(l, r, deleted, q, h);
    }
  }

  lemma JoinLookup(l: Tree, r: Tree, deleted: bool, q: Key, h: nat)
    requires 0 < h <= 256 && Tidy(l, h - 1) && Tidy(r, h - 1) && Tidy(Join(l, r, deleted).t, h)
    requires Uniform(Contents(l), 256 - h, false) && Uniform(Contents(r), 256 - h, true)
    ensures Lookup(Join(l, r, deleted).t, q, h) == Lookup(if q[256 - h] then r else l, q, h - 1)
  {
    if l.Leaf? { assert l.k in Contents(l); }
    if r.Leaf? { assert r.k in Contents(r); }
    JoinReads(l, r, deleted, q, h);
  }

  lemma {:induction false} SpreadMet(t: Tree, s: seq<KV>, h: nat, p: seq<bool>, strict: bool)
    requires h > 0 && |p| + h == 256 && Tidy(t, h) && !t.Leaf? && Fits(t, s, h, p, strict)
    ensures Met(t, s, h, p, Spread(t, s, h), strict)
    decreases h, 0
  {
    hide Met, Apply, Fits, SplitAt;
    if t.Empty? && |s| == 1 {
      PlaceMet(t, s, h, p, strict);
    } else {
      var n := SplitAt(s, 256 - h);
      FitsParts(t, s, h, p, strict);
      ChildFits(t, s, h, p, strict);
      FormedChildren(t, h, p, strict);
      var l, r := Half(Left(t), s[..n], h - 1), Half(Right(t), s[n..], h - 1);
      if n > 0 {
        ApplyMet(Left(t), s[..n], h - 1, p + [false], strict);
      } else {
        NothingMet(Left(t), h - 1, p + [false], strict);
      }
      if n < |s| {
        ApplyMet(Right(t), s[n..], h - 1, p + [true], strict);
      } else {
        NothingMet(Right(t), h - 1, p + [true], strict);
      }
      HalvesMet(t, s, h, p, l, r, strict);
    }
  }

  lemma MergeFits(t: Tree, s: seq<KV>, h: nat, p: seq<bool>, strict: bool)
    requires |p| + h == 256 && Tidy(t, h) && Fits(t, s, h, p, strict) && t.Leaf?
    requires !Updates.Clash(s, t.k)
    requires Merge(s, t.k, t.v) != []
    ensures Fits(Empty, Merge(s, t.k, t.v), h, p, strict)
  {
    var m := Merge(s, t.k, t.v);
    MergeSorted(s, t.k, t.v);
    MergeInserts(s, t.k, t.v);
    forall i | 0 <= i < |m| ensures p <= m[i].k {
      MergeMembers(s, t.k, t.v, m[i]);
    }
  }

  /** `update` does to a canonical subtree, or to any with its keys on their paths, what a
      batch asks for: the map and every read are right, and the subtree keeps its form
      exactly when every clash on the way settles in that sense. */
  lemma {:induction false} ApplyMet(t: Tree, s: seq<KV>, h: nat, p: seq<bool>, strict: bool)
    requires |p| + h == 256 && Tidy(t, h) && Fits(t, s, h, p, strict)
    ensures Met(t, s, h, p, Apply(t, s, h), strict)
    decreases h, 1
  {
    hide Met, Spread, Place, Updated, Formed, Contents;
    if h == 0 {
      PlaceMet(t, s, h, p, strict);
    } else if !t.Leaf? {
      SpreadMet(t, s, h, p, strict);
    } else if Updates.Clash(s, t.k) {
      ClashMet(t, s, h, p, strict);
    } else if Merge(s, t.k, t.v) == [] {
      GoneMet(t, s, h, p, strict);
    } else {
      MergeFits(t, s, h, p, strict);
      SpreadMet(Empty, Merge(s, t.k, t.v), h, p, strict);
      MergedMet(t, s, h, p, Spread(Empty, Merge(s, t.k, t.v), h), strict);
    }
  }

  lemma ClashMet(t: Tree, s: seq<KV>, h: nat, p: seq<bool>, strict: bool)
    requires |p| + h == 256 && Tidy(t, h) && Fits(t, s, h, p, strict) && t.Leaf? && Updates.Clash(s, t.k)
    ensures Met(t, s, h, p, Apply(t, s, h), strict)
  {
    hide Apply, Settles, Updated, Lookup;
    ClashFormedIff(s, t.k, t.v, h, p, strict);
    ClashContents(s, t.k, t.v, h, p);
    forall q: Key | p <= q ensures Lookup(Apply(t, s, h).t, q, h) == Find(Updated(Contents(t), s), q) {
      ClashReads(s, t.k, t.v, h, p, q);
    }
  }

  lemma GoneMet(t: Tree, s: seq<KV>, h: nat, p: seq<bool>, strict: bool)
    requires |p| + h == 256 && Tidy(t, h) && Fits(t, s, h, p, strict) && t.Leaf? && Merge(s, t.k, t.v) == []
    ensures Met(t, s, h, p, Outcome(Empty, true), strict)
  {
    assert !Updates.Clash(s, t.k);
    MergeMeaning(s, t.k, t.v);
    HomedReadable(Empty, h, p);
  }

  lemma MergedMet(t: Tree, s: seq<KV>, h: nat, p: seq<bool>, o: Outcome, strict: bool)
    requires |p| + h == 256 && Tidy(t, h) && Fits(t, s, h, p, strict) && t.Leaf? && !Updates.Clash(s, t.k)
    requires Met(Empty, Merge(s, t.k, t.v), h, p, o, strict)
    ensures Met(t, s, h, p, o, strict)
  {
    hide Updated, Merge, Updates.Clash, Readable;
    MergeMeaning(s, t.k, t.v);
  }

  lemma NothingMet(t: Tree, h: nat, p: seq<bool>, strict: bool)
    requires |p| + h == 256 && Formed(t, h, p, strict) && Tidy(t, h)
    ensures Met(t, [], h, p, Outcome(t, false), strict)
  {
    hide Readable;
    FormedHomed(t, h, p, strict);
    HomedReadable(t, h, p);
    NothingTame(t, h, strict);
  }

  lemma {:induction false} NothingTame(t: Tree, h: nat, strict: bool)
    requires h <= 256 && Tidy(t, h)
    ensures Tame(t, [], h, strict)
    decreases t
  {
    if t.Node? {
      var n := SplitAt([], 256 - h);
      NothingTame(t.l, h - 1, strict);
      NothingTame(t.r, h - 1, strict);
    }
  }

  lemma FormedChildren(t: Tree, h: nat, p: seq<bool>, strict: bool)
    requires h > 0 && |p| + h == 256 && Formed(t, h, p, strict) && !t.Leaf?
    ensures Formed(Left(t), h - 1, p + [false], strict) && Formed(Right(t), h - 1, p + [true], strict)
  {
  }

  // ----- what Update refuses -----

  datatype Request = Request(keys: seq<Key>, values: seq<Word>)

  datatype Refusal = LengthMismatch | DuplicateKey | MissingKey | ConflictingValue | NoEntries

  function Entries(keys: seq<Key>, values: seq<Word>): (s: seq<KV>)
    requires |keys| == |values|
    ensures |s| == |keys| && forall i :: 0 <= i < |s| ==> s[i] == KV(keys[i], values[i])
  {
    seq(|keys|, i requires 0 <= i < |keys| => KV(keys[i], values[i]))
  }

  predicate Distinct(keys: seq<Key>) {
    forall i, j :: 0 <= i < j < |keys| ==> keys[i] != keys[j]
  }

  predicate InOrder(keys: seq<Key>) {
    forall i, j :: 0 <= i < j < |keys| ==> !Less(keys[j], keys[i])
  }

  lemma EntriesSorted(keys: seq<Key>, values: seq<Word>)
    requires |keys| == |values| && Distinct(keys) && InOrder(keys)
    ensures Sorted(Entries(keys, values))
  {
    forall i, j | 0 <= i < j < |keys| ensures Less(keys[i], keys[j]) {
      LessTotal(keys[i], keys[j]);
    }
  }

  /** The first entry a trie refuses: a deletion of an absent key, or another value for a present one. */
  function FirstRefusal(t: Tree, s: seq<KV>): Option<Refusal>
    requires Tidy(t, 256)
  {
    if s == [] then None
    else
      var v := Lookup(t, s[0].k, 256);
      if s[0].v == DefaultLeaf && v.None? then Some(MissingKey)
      else if s[0].v != DefaultLeaf && v.Some? && v.value != s[0].v then Some(ConflictingValue)
      else FirstRefusal(t, s[1..])
  }

  /** The answer to a whole request, by the trie it is put to. */
  function Verdict(t: Tree, keys: seq<Key>, values: seq<Word>): Option<Refusal>
    requires Tidy(t, 256)
  {
    if |keys| != |values| then Some(LengthMismatch)
    else if !Distinct(keys) then Some(DuplicateKey)
    else
      var r := FirstRefusal(t, Entries(keys, values));
      if r.None? && keys == [] then Some(NoEntries) else r
  }

  // ----- the same against a plain map -----

  /** What a plain map refuses: to delete what it does not hold, to change what it does. */
  predicate Refuses(m: map<Key, Word>, s: seq<KV>) {
    exists i :: 0 <= i < |s| && Unfit(m, s[i])
  }

  predicate Unfit(m: map<Key, Word>, e: KV) {
    if e.v == DefaultLeaf then e.k !in m else e.k in m && m[e.k] != e.v
  }

  predicate FirstUnfit(m: map<Key, Word>, s: seq<KV>, i: nat) {
    i < |s| && Unfit(m, s[i]) && forall j :: 0 <= j < i ==> !Unfit(m, s[j])
  }

  predicate Repeats(keys: seq<Key>) {
    exists i, j :: 0 <= i < j < |keys| && keys[i] == keys[j]
  }

  /** A request has to have as many values as keys, some key, none of them twice, and only
      entries that a plain map takes. */
  predicate TurnedAway(m: map<Key, Word>, keys: seq<Key>, values: seq<Word>) {
    |keys| != |values| || keys == [] || Repeats(keys) || Refuses(m, Entries(keys, values))
  }

  /** The reason given: the first that applies, and among the entries the first of them. */
  ghost predicate Because(m: map<Key, Word>, keys: seq<Key>, values: seq<Word>, why: Refusal) {
    match why
    case LengthMismatch => |keys| != |values|
    case DuplicateKey => |keys| == |values| && Repeats(keys)
    case MissingKey =>
      && |keys| == |values| && !Repeats(keys)
      && exists i: nat :: FirstUnfit(m, Entries(keys, values), i) && values[i] == DefaultLeaf
    case ConflictingValue =>
      && |keys| == |values| && !Repeats(keys)
      && exists i: nat :: FirstUnfit(m, Entries(keys, values), i) && values[i] != DefaultLeaf
    case NoEntries => keys == [] && values == []
  }

  lemma {:induction false} RefusesIff(t: Tree, s: seq<KV>) returns (i: nat)
    requires Homed(t, 256, []) && Tidy(t, 256)
    ensures FirstRefusal(t, s).None? <==> !Refuses(Contents(t), s)
    ensures FirstRefusal(t, s).Some? ==>
              && FirstUnfit(Contents(t), s, i)
              && FirstRefusal(t, s).value == if s[i].v == DefaultLeaf then MissingKey else ConflictingValue
  {
    hide Formed, Contents, Lookup;
    i := 0;
    if s != [] {
      LookupIsFind(t, 256, [], s[0].k);
      if !Unfit(Contents(t), s[0]) {
        var n := RefusesIff(t, s[1..]);
        assert forall j :: 0 < j < |s| ==> s[j] == s[1..][j - 1];
        i := n + 1;
        if FirstRefusal(t, s).Some? { assert Unfit(Contents(t), s[i]); }
      }
    }
  }

  /** On every trie with its keys on their paths, the empty one included, a request is refused
      exactly when a plain map would turn it away, and for the same reason. */
  lemma VerdictIff(t: Tree, keys: seq<Key>, values: seq<Word>)
    requires Homed(t, 256, []) && Tidy(t, 256)
    ensures Verdict(t, keys, values).Some? <==> TurnedAway(Contents(t), keys, values)
    ensures forall why :: Verdict(t, keys, values) == Some(why) <==> Because(Contents(t), keys, values, why)
  {
    hide Formed, Contents, FirstRefusal, Unfit;
    if |keys| == |values| {
      var s := Entries(keys, values);
      var n := RefusesIff(t, s);
      forall i: nat | FirstUnfit(Contents(t), s, i) ensures Refuses(Contents(t), s) && i == n {
        assert Unfit(Contents(t), s[i]);
      }
    }
  }

  /** A request that passes deletes only what the trie holds, and changes no value. */
  lemma {:induction false} PassedFits(t: Tree, s: seq<KV>)
    requires Homed(t, 256, []) && Tidy(t, 256) && FirstRefusal(t, s).None?
    ensures DeletesPresent(Contents(t), s)
    ensures forall i :: 0 <= i < |s| && s[i].k in Contents(t) ==> s[i].v == DefaultLeaf || s[i].v == Contents(t)[s[i].k]
    decreases |s|
  {
    if s != [] {
      LookupIsFind(t, 256, [], s[0].k);
      PassedFits(t, s[1..]);
      assert forall i :: 0 < i < |s| ==> s[i] == s[1..][i - 1];
    }
  }

  /** A request that passes, on any trie with its keys on their paths: the new trie holds the
      map with the entries put in order and every read finds it.  Its keys are on their paths
      exactly when every clash on the way settles, and if it was canonical it still is exactly
      when every clash settles in the strict sense. */
  lemma RequestMet(t: Tree, s: seq<KV>)
    requires Homed(t, 256, []) && Tidy(t, 256) && s != [] && Sorted(s)
    requires FirstRefusal(t, s).None?
    ensures var u := Apply(t, s, 256).t;
            && Contents(u) == Updated(Contents(t), s)
            && (forall q: Key :: Lookup(u, q, 256) == Find(Updated(Contents(t), s), q))
            && (Homed(u, 256, []) <==> Tame(t, s, 256, false))
            && (Canon(t, 256, []) ==> (Canon(u, 256, []) <==> Tame(t, s, 256, true)))
  {
    hide Apply, Lookup, Updated, Formed, Tame;
    PassedFits(t, s);
    ApplyMet(t, s, 256, [], false);
    if Canon(t, 256, []) {
      ApplyMet(t, s, 256, [], true);
    }
  }

  /** The root is the one any other history of the map leads to exactly when every clash settles. */
  lemma RootIff(t: Tree, s: seq<KV>, u: Tree)
    requires Canon(t, 256, []) && Tidy(t, 256) && s != [] && Sorted(s) && FirstRefusal(t, s).None?
    requires Canon(u, 256, []) && Tidy(u, 256) && Contents(u) == Updated(Contents(t), s)
    ensures Dig(Apply(t, s, 256).t, 256) == Dig(u, 256) <==> Tame(t, s, 256, true)
  {
    hide Apply, Updated, Formed, Tame, Dig, Contents;
    var w := Apply(t, s, 256).t;
    CanonHomed(t, 256, []);
    RequestMet(t, s);
    if Dig(w, 256) == Dig(u, 256) { DigInjective(w, u, 256); }
    if Canon(w, 256, []) { CanonUnique(w, u, 256, []); }
  }

  /** Batches of inserts alone are clean. */
  lemma {:induction false} InsertsClean(t: Tree, s: seq<KV>, h: nat)
    requires h <= 256 && Tidy(t, h) && forall i :: 0 <= i < |s| ==> s[i].v != DefaultLeaf
    ensures Clean(t, s, h)
    decreases t
  {
    if t.Node? {
      var n := SplitAt(s, 256 - h);
      InsertsClean(t.l, s[..n], h - 1);
      InsertsClean(t.r, s[n..], h - 1);
    }
  }

  /** So are batches of deletions of present keys alone. */
  lemma {:induction false} DeletesClean(t: Tree, s: seq<KV>, h: nat, p: seq<bool>)
    requires |p| + h == 256 && Homed(t, h, p) && Tidy(t, h) && Sorted(s) && AllUnder(s, p)
    requires DeletesPresent(Contents(t), s) && forall i :: 0 <= i < |s| ==> s[i].v == DefaultLeaf
    ensures Clean(t, s, h)
    decreases t
  {
    hide Sorted, AllUnder, DeletesPresent, Updates.Clash, Uniform, Formed, SplitAt, Contents;
    if t.Leaf? {
      LoneDelete(t, s);
    } else if t.Node? {
      var n := SplitAt(s, 256 - h);
      SplitSorted(s, p);
      FormedChildren(t, h, p, false);
      ChildSides(t, h, p);
      ChildDeletes(Contents(t.l), Contents(t.r), s, p);
      DeletesClean(t.l, s[..n], h - 1, p + [false]);
      DeletesClean(t.r, s[n..], h - 1, p + [true]);
    }
  }

  lemma LoneDelete(t: Tree, s: seq<KV>)
    requires t.Leaf? && Sorted(s) && DeletesPresent(Contents(t), s)
    requires forall i :: 0 <= i < |s| ==> s[i].v == DefaultLeaf
    ensures !Updates.Clash(s, t.k)
  {
    hide Sorted;
    if |s| > 1 { FirstTwo(s); }
  }
}
