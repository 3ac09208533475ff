/**
 What becomes of the doubled batch of a clash.  It is laid out on an empty subtree: a
 sorted front, which the descent keeps together along the path of its largest key, and a
 stale tail that trails behind it.
 */
module Doubled {
  import opened Words
  import opened Trees
  import opened Updates

  predicate Inserts(s: seq<KV>) {
    forall i :: 0 <= i < |s| ==> s[i].v != DefaultLeaf
  }

  /** Entries that would bring key `k` back come right behind its deletion. */
  predicate Paired(g: seq<KV>, k: Key) {
    forall i :: 0 <= i < |g| && g[i].k == k && g[i].v != DefaultLeaf ==> i > 0 && g[i - 1] == KV(k, DefaultLeaf)
  }

  // ----- any entries on an empty subtree -----

  lemma EmptyStep(g: seq<KV>, h: nat)
    requires g != [] && 0 < h <= 256
    ensures |g| == 1 ==> Apply(Empty, g, h) == Place(g[0])
    ensures |g| > 1 ==>
              var n := SplitAt(g, 256 - h);
              var l, r := Half(Empty, g[..n], h - 1), Half(Empty, g[n..], h - 1);
              Apply(Empty, g, h) == Join(l.t, r.t, l.deleted || r.deleted)
  {
  }

  lemma JoinContents(l: Tree, r: Tree, deleted: bool)
    ensures Contents(Join(l, r, deleted).t) == Contents(l) + Contents(r)
  {
  }

  lemma PairedCut(g: seq<KV>, k: Key, d: nat)
    requires d < 256 && Paired(g, k)
    ensures var n := SplitAt(g, d); Paired(g[..n], k) && Paired(g[n..], k)
  {
    var n := SplitAt(g, d);
    assert n < |g| && n > 0 ==> g[n].k != g[n - 1].k;
  }

  /** Only entries of the batch are placed, and never one of a key whose entries are paired. */
  lemma {:induction false} PlacedFrom(g: seq<KV>, k: Key, h: nat, q: Key)
    requires h <= 256 && Paired(g, k) && g != []
    ensures var m := Contents(Apply(Empty, g, h).t);
            q in m ==> q != k && KV(q, m[q]) in g && m[q] != DefaultLeaf
    decreases h
  {
    hide Apply, SplitAt, Paired, Join;
    if h == 0 || |g| == 1 {
      PlacedFirst(g, k, h);
    } else {
      EmptyStep(g, h);
      PairedCut(g, k, 256 - h);
      var n := SplitAt(g, 256 - h);
      var l, r := Half(Empty, g[..n], h - 1), Half(Empty, g[n..], h - 1);
      JoinContents(l.t, r.t, l.deleted || r.deleted);
      if n > 0 { PlacedFrom(g[..n], k, h - 1, q); }
      if n < |g| { PlacedFrom(g[n..], k, h - 1, q); }
    }
  }

  lemma PlacedFirst(g: seq<KV>, k: Key, h: nat)
    requires h <= 256 && Paired(g, k) && g != [] && (h == 0 || |g| == 1)
    ensures Apply(Empty, g, h) == Place(g[0])
    ensures g[0].k == k ==> g[0].v == DefaultLeaf
    ensures g[0] in g
  {
  }

  /** The first entry is always placed. */
  lemma {:induction false} FirstPlaced(g: seq<KV>, h: nat)
    requires h <= 256 && g != [] && g[0].v != DefaultLeaf
    ensures !Apply(Empty, g, h).t.Empty?
    decreases h
  {
    if h > 0 && |g| > 1 {
      EmptyStep(g, h);
      var n := SplitAt(g, 256 - h);
      if n > 0 { FirstPlaced(g[..n], h - 1); } else { FirstPlaced(g[n..], h - 1); }
    }
  }

  // ----- a sorted front before a stale tail -----

  /** Inserts in order, none of them of key `k`. */
  predicate Front(f: seq<KV>, k: Key, p: seq<bool>) {
    f != [] && Sorted(f) && AllUnder(f, p) && Inserts(f) && Without(f, k)
  }

  predicate Without(f: seq<KV>, k: Key) {
    forall i :: 0 <= i < |f| ==> f[i].k != k
  }

  lemma InsertsCut(f: seq<KV>, k: Key, n: nat)
    requires n <= |f| && Inserts(f) && Without(f, k)
    ensures Inserts(f[..n]) && Inserts(f[n..]) && Without(f[..n], k) && Without(f[n..], k)
  {
  }

  /** Every entry of the tail that lies under `p` is in the front, but for those of key `k`. */
  predicate Covered(t: seq<KV>, f: seq<KV>, k: Key, p: seq<bool>) {
    forall i :: 0 <= i < |t| && p <= t[i].k && t[i].k != k ==> t[i] in f
  }

  predicate Fronted(f: seq<KV>, t: seq<KV>, k: Key, p: seq<bool>) {
    Front(f, k, p) && Paired(t, k) && Covered(t, f, k, p)
  }

  lemma {:induction false} SplitConcat(a: seq<KV>, b: seq<KV>, d: nat)
    requires d < 256
    ensures SplitAt(a + b, d) == if SplitAt(a, d) < |a| then SplitAt(a, d) else |a| + SplitAt(b, d)
    decreases |a|
  {
    if a == [] {
      assert a + b == b;
    } else {
      assert (a + b)[1..] == a[1..] + b;
      SplitConcat(a[1..], b, d);
    }
  }

  lemma PrefixBit(p: seq<bool>, k: Key, bit: bool)
    requires |p| < 256
    ensures p + [bit] <= k <==> p <= k && k[|p|] == bit
  {
    if p <= k && k[|p|] == bit { PrefixExtends(k, p); }
    if p + [bit] <= k {
      assert k[|p|] == (p + [bit])[|p|];
      assert forall i :: 0 <= i < |p| ==> p[i] == (p + [bit])[i] == k[i];
    }
  }

  /** The front as the descent goes on along a set bit of its largest key. */
  lemma FrontRight(f: seq<KV>, t: seq<KV>, k: Key, p: seq<bool>)
    requires |p| < 256 && Fronted(f, t, k, p) && f[|f| - 1].k[|p|]
    ensures var n := SplitAt(f + t, |p|);
            && n == SplitAt(f, |p|) < |f|
            && (f + t)[..n] == f[..n] && (f + t)[n..] == f[n..] + t
            && (n > 0 ==> Fronted(f[..n], [], k, p + [false]))
            && Fronted(f[n..], t, k, p + [true])
  {
    hide Front, Paired, Covered, SplitAt;
    var n := SplitAt(f, |p|);
    SplitConcat(f, t, |p|);
    FrontCut(f, k, p);
    CoveredRight(t, f, k, p);
    Nothing(f[..n], k, p + [false]);
  }

  lemma FrontCut(f: seq<KV>, k: Key, p: seq<bool>)
    requires |p| < 256 && Front(f, k, p) && f[|f| - 1].k[|p|]
    ensures var n := SplitAt(f, |p|);
            n < |f| && Front(f[n..], k, p + [true]) && (n > 0 ==> Front(f[..n], k, p + [false]))
  {
    hide Sorted, AllUnder, Inserts, Without;
    SplitSorted(f, p);
    InsertsCut(f, k, SplitAt(f, |p|));
  }

  lemma Nothing(f: seq<KV>, k: Key, p: seq<bool>)
    ensures Paired([], k) && Covered([], f, k, p)
  {
  }

  lemma CoveredRight(t: seq<KV>, f: seq<KV>, k: Key, p: seq<bool>)
    requires |p| < 256 && Covered(t, f, k, p)
    ensures Covered(t, f[SplitAt(f, |p|)..], k, p + [true])
  {
    var n := SplitAt(f, |p|);
    forall i | 0 <= i < |t| && p + [true] <= t[i].k && t[i].k != k ensures t[i] in f[n..] {
      PrefixBit(p, t[i].k, true);
      var j :| 0 <= j < |f| && f[j] == t[i];
      assert f[n..][j - n] == f[j];
    }
  }

  /** The front, and what the tail leaves behind, along a clear bit. */
  lemma FrontLeft(f: seq<KV>, t: seq<KV>, k: Key, p: seq<bool>)
    requires |p| < 256 && Fronted(f, t, k, p) && !f[|f| - 1].k[|p|]
    ensures var n, j := SplitAt(f + t, |p|), SplitAt(t, |p|);
            && n == |f| + j
            && (f + t)[..n] == f + t[..j] && (f + t)[n..] == t[j..]
            && Fronted(f, t[..j], k, p + [false])
            && Paired(t[j..], k) && Stray(t[j..], k, p + [true])
  {
    hide Sorted, AllUnder, Paired, Covered, SplitAt, Stray;
    SplitConcat(f, t, |p|);
    AllLeft(f, p);
    PairedCut(t, k, |p|);
    CoveredLeft(t, f, k, p);
  }

  /** No entry but those of key `k` lies under the prefix. */
  predicate Stray(g: seq<KV>, k: Key, p: seq<bool>) {
    forall i :: 0 <= i < |g| && p <= g[i].k ==> g[i].k == k
  }

  lemma CoveredLeft(t: seq<KV>, f: seq<KV>, k: Key, p: seq<bool>)
    requires |p| < 256 && Covered(t, f, k, p) && forall i :: 0 <= i < |f| ==> !f[i].k[|p|]
    ensures var j := SplitAt(t, |p|); Covered(t[..j], f, k, p + [false]) && Stray(t[j..], k, p + [true])
  {
    forall i | 0 <= i < |t|
      ensures p + [false] <= t[i].k ==> p <= t[i].k
      ensures p + [true] <= t[i].k ==> p <= t[i].k && t[i].k[|p|]
    {
      PrefixBit(p, t[i].k, false);
      PrefixBit(p, t[i].k, true);
    }
  }

  lemma JoinReads(l: Tree, r: Tree, deleted: bool, q: Key, h: nat)
    requires 0 < h <= 256 && Tidy(l, h - 1) && Tidy(r, h - 1) && (l.Empty? && r.Empty? ==> deleted)
    requires l.Empty? && r.Leaf? ==> r.k[256 - h]
    requires r.Empty? && l.Leaf? ==> !l.k[256 - h]
    ensures Tidy(Join(l, r, deleted).t, h)
    ensures Lookup(Join(l, r, deleted).t, q, h) == Lookup(if q[256 - h] then r else l, q, h - 1)
  {
  }

  lemma {:induction false} LookupHeld(t: Tree, q: Key, h: nat)
    requires h <= 256 && Tidy(t, h)
    ensures Lookup(t, q, h).Some? ==> q in Contents(t)
    decreases t
  {
    if t.Node? {
      LookupHeld(if q[256 - h] then t.r else t.l, q, h - 1);
    }
  }

  /** Reads under the prefix find the front and nothing else, whatever the tail holds. */
  lemma {:induction false} FrontReads(f: seq<KV>, t: seq<KV>, k: Key, h: nat, p: seq<bool>, q: Key)
    requires |p| + h == 256 && Fronted(f, t, k, p) && p <= q
    ensures Lookup(Apply(Empty, f + t, h).t, q, h) == Find(Updated(map[], f), q)
    decreases h, 1
  {
    hide Apply, Fronted, SplitAt, Updated, Lookup, Join;
    FrontEnds(f, t, k, p);
    if h == 0 || |f + t| == 1 {
      FrontAlone(f, t, k, h, p, q);
    } else {
      if f[|f| - 1].k[|p|] {
        FrontReadsRight(f, t, k, h, p, q);
      } else {
        FrontReadsLeft(f, t, k, h, p, q);
      }
    }
  }

  lemma FrontEnds(f: seq<KV>, t: seq<KV>, k: Key, p: seq<bool>)
    requires Fronted(f, t, k, p)
    ensures f != [] && Sorted(f) && AllUnder(f, p) && Inserts(f) && Front(f, k, p)
    ensures Find(Updated(map[], f), f[0].k).Some?
  {
    UpdatedAt(map[], f, 0);
  }

  lemma FullPrefix(f: seq<KV>, p: seq<bool>)
    requires |p| == 256 && Sorted(f) && AllUnder(f, p) && f != []
    ensures |f| == 1
  {
    assert forall i :: 0 <= i < |f| ==> f[i].k == p;
    if |f| > 1 { FirstTwo(f); }
  }

  lemma FrontAlone(f: seq<KV>, t: seq<KV>, k: Key, h: nat, p: seq<bool>, q: Key)
    requires |p| + h == 256 && Fronted(f, t, k, p) && p <= q && (h == 0 || |f + t| == 1)
    ensures Lookup(Apply(Empty, f + t, h).t, q, h) == Find(Updated(map[], f), q)
  {
    if h == 0 { FullPrefix(f, p); }
    assert f == [f[0]] && (f + t)[0] == f[0];
    UpdatedOne(map[], f[0]);
  }

  /** The side the front went to is not empty, and if it is a shortcut it is the front's. */
  lemma FrontSide(f: seq<KV>, t: seq<KV>, k: Key, h: nat, p: seq<bool>)
    requires |p| + h == 256 && Fronted(f, t, k, p)
    ensures var u := Apply(Empty, f + t, h).t; !u.Empty? && (u.Leaf? ==> p <= u.k && f[0].k == u.k)
    decreases h, 2
  {
    FrontEnds(f, t, k, p);
    FrontReads(f, t, k, h, p, f[0].k);
  }

  lemma FrontMap(f: seq<KV>, p: seq<bool>, q: Key)
    requires |p| < 256 && Sorted(f) && AllUnder(f, p)
    ensures var n := SplitAt(f, |p|);
            Find(Updated(map[], f), q) == Find(Updated(map[], if q[|p|] then f[n..] else f[..n]), q)
  {
    var n := SplitAt(f, |p|);
    CutBits(f, p, f[..n], f[n..]);
    var none: map<Key, Word> := map[];
    assert none + none == none;
    UpdatedSplit(none, none, f[..n], f[n..], |p|);
  }

  lemma FrontReadsRight(f: seq<KV>, t: seq<KV>, k: Key, h: nat, p: seq<bool>, q: Key)
    requires h > 0 && |p| + h == 256 && Fronted(f, t, k, p) && p <= q && |f + t| > 1 && f[|f| - 1].k[|p|]
    ensures Lookup(Apply(Empty, f + t, h).t, q, h) == Find(Updated(map[], f), q)
    decreases h, 0
  {
    hide Apply, Fronted, SplitAt, Updated, Lookup, Join;
    FrontEnds(f, t, k, p);
    EmptyStep(f + t, h);
    FrontRight(f, t, k, p);
    FrontMap(f, p, q);
    var n := SplitAt(f + t, |p|);
    FrontSide(f[n..], t, k, h - 1, p + [true]);
    var l, r := Half(Empty, f[..n], h - 1), Half(Empty, f[n..] + t, h - 1);
    if n > 0 {
      FrontSide(f[..n], [], k, h - 1, p + [false]);
      assert f[..n] + [] == f[..n];
    }
    if r.t.Leaf? { PrefixBit(p, r.t.k, true); }
    JoinReads(l.t, r.t, l.deleted || r.deleted, q, h);
    PrefixBit(p, q, q[|p|]);
    if q[|p|] {
      FrontReads(f[n..], t, k, h - 1, p + [true], q);
    } else if n > 0 {
      FrontReads(f[..n], [], k, h - 1, p + [false], q);
    } else {
      NoReads(q, h - 1);
    }
  }

  lemma NoReads(q: Key, h: nat)
    requires h <= 256
    ensures Lookup(Empty, q, h) == None == Find(Updated(map[], []), q)
  {
  }

  lemma FrontReadsLeft(f: seq<KV>, t: seq<KV>, k: Key, h: nat, p: seq<bool>, q: Key)
    requires h > 0 && |p| + h == 256 && Fronted(f, t, k, p) && p <= q && |f + t| > 1 && !f[|f| - 1].k[|p|]
    ensures Lookup(Apply(Empty, f + t, h).t, q, h) == Find(Updated(map[], f), q)
    decreases h, 0
  {
    hide Apply, Fronted, SplitAt, Updated, Lookup, Join;
    FrontEnds(f, t, k, p);
    EmptyStep(f + t, h);
    FrontLeft(f, t, k, p);
    FrontMap(f, p, q);
    AllLeft(f, p);
    var j := SplitAt(t, |p|);
    FrontSide(f, t[..j], k, h - 1, p + [false]);
    var l, r := Half(Empty, f + t[..j], h - 1), Half(Empty, t[j..], h - 1);
    if l.t.Leaf? { PrefixBit(p, l.t.k, false); }
    JoinReads(l.t, r.t, l.deleted || r.deleted, q, h);
    PrefixBit(p, q, q[|p|]);
    if q[|p|] {
      NoReads(q, h - 1);
      if t[j..] != [] { Astray(t[j..], k, h - 1, p + [true], q); }
    } else {
      FrontReads(f, t[..j], k, h - 1, p + [false], q);
    }
  }

  lemma AllLeft(f: seq<KV>, p: seq<bool>)
    requires |p| < 256 && Sorted(f) && AllUnder(f, p) && f != [] && !f[|f| - 1].k[|p|]
    ensures SplitAt(f, |p|) == |f| && f[..|f|] == f && f[|f|..] == []
    ensures AllUnder(f, p + [false]) && forall i :: 0 <= i < |f| ==> !f[i].k[|p|]
  {
    SplitBits(f, p);
    SplitSorted(f, p);
    assert f[..|f|] == f;
  }

  /** Entries that are not under the prefix are not found there. */
  lemma Astray(g: seq<KV>, k: Key, h: nat, p: seq<bool>, q: Key)
    requires |p| + h == 256 && g != [] && Paired(g, k) && Stray(g, k, p) && p <= q
    ensures q !in Contents(Apply(Empty, g, h).t)
    ensures Lookup(Apply(Empty, g, h).t, q, h) == None
  {
    hide Apply, Paired;
    PlacedFrom(g, k, h, q);
    LookupHeld(Apply(Empty, g, h).t, q, h);
  }

  // ----- a front alone -----

  /** Inserts in order make a canonical, and so a homed, subtree of an empty one. */
  lemma {:induction false} FreshFormed(f: seq<KV>, k: Key, h: nat, p: seq<bool>, strict: bool)
    requires |p| + h == 256 && Front(f, k, p)
    ensures var o := Apply(Empty, f, h);
            Formed(o.t, h, p, strict) && !o.deleted && !o.t.Empty? && (o.t.Leaf? <==> |f| == 1)
    decreases h
  {
    hide Apply, Sorted, AllUnder, SplitAt;
    if h == 0 { FullPrefix(f, p); }
    if |f| == 1 {
      OneFresh(f, h, p);
    } else {
      EmptyStep(f, h);
      var n := SplitAt(f, |p|);
      if f[|f| - 1].k[|p|] {
        FrontCut(f, k, p);
        FreshFormed(f[n..], k, h - 1, p + [true], strict);
        if n > 0 { FreshFormed(f[..n], k, h - 1, p + [false], strict); }
      } else {
        AllLeft(f, p);
        FreshFormed(f, k, h - 1, p + [false], strict);
      }
    }
  }

  lemma OneFresh(f: seq<KV>, h: nat, p: seq<bool>)
    requires |p| + h == 256 && |f| == 1 && AllUnder(f, p) && Inserts(f)
    ensures Apply(Empty, f, h) == Outcome(Leaf(f[0].k, f[0].v), false) && p <= f[0].k
  {
  }

  // ----- when the doubled batch leaves a canonical or a homed subtree -----

  /** The two largest keys of the front differ in their last bit alone. */
  predicate Twin(f: seq<KV>) {
    |f| >= 2 && f[|f| - 2].k[..255] == f[|f| - 1].k[..255]
  }

  predicate Clear(s: seq<KV>, d: nat)
    requires d < 256
  {
    forall i :: 0 <= i < |s| ==> !s[i].k[d]
  }

  /** Where the key has a clear bit, so have all entries. */
  predicate Steady(c: Key, s: seq<KV>, lo: nat) {
    forall j :: lo <= j < 256 ==> c[j] || Clear(s, j)
  }

  lemma SteadyStep(c: Key, s: seq<KV>, lo: nat)
    requires lo < 256
    ensures Steady(c, s, lo) <==> (c[lo] || Clear(s, lo)) && Steady(c, s, lo + 1)
  {
  }

  lemma ClearCut(s: seq<KV>, d: nat)
    requires d < 256
    ensures Clear(s, d) <==> SplitAt(s, d) == |s|
    ensures Clear(s, d) ==> s[..SplitAt(s, d)] == s && s[SplitAt(s, d)..] == []
  {
  }

  lemma TwinCut(f: seq<KV>, k: Key, p: seq<bool>)
    requires |p| < 256 && Front(f, k, p) && f[|f| - 1].k[|p|]
    ensures var n := SplitAt(f, |p|);
            && n < |f| && f[n..][|f[n..]| - 1] == f[|f| - 1]
            && (|p| < 255 ==> (Twin(f[n..]) <==> Twin(f)))
            && (|p| == 255 ==> (Twin(f) <==> n > 0) && |f[n..]| == 1)
  {
    hide Sorted, AllUnder, Twin, Inserts;
    var n := SplitAt(f, |p|);
    FrontCut(f, k, p);
    if |p| == 255 {
      FullPrefix(f[n..], p + [true]);
      TwinLast(f, p);
    } else {
      TwinSuffix(f, n, |p|);
    }
  }

  lemma TwinLast(f: seq<KV>, p: seq<bool>)
    requires |p| == 255 && AllUnder(f, p)
    ensures Twin(f) <==> |f| >= 2
  {
    if |f| >= 2 {
      assert f[|f| - 2].k[..255] == p == f[|f| - 1].k[..255];
    }
  }

  lemma TwinSuffix(f: seq<KV>, n: nat, d: nat)
    requires n < |f| && d < 255 && f[|f| - 1].k[d] && forall i :: 0 <= i < n ==> !f[i].k[d]
    ensures Twin(f[n..]) <==> Twin(f)
  {
    if |f| >= 2 && n == |f| - 1 {
      assert f[|f| - 2].k[..255][d] != f[|f| - 1].k[..255][d];
    }
  }

  lemma TwinClear(f: seq<KV>, k: Key, p: seq<bool>)
    requires |p| == 255 && Front(f, k, p) && !f[|f| - 1].k[255]
    ensures |f| == 1 && !Twin(f)
  {
    AllLeft(f, p);
    FullPrefix(f, p + [false]);
  }

  lemma StrayNotFormed(g: seq<KV>, k: Key, h: nat, p: seq<bool>, strict: bool)
    requires |p| + h == 256 && g != [] && Paired(g, k) && Stray(g, k, p) && !Apply(Empty, g, h).t.Empty?
    ensures !Formed(Apply(Empty, g, h).t, h, p, strict)
  {
    var u := Apply(Empty, g, h).t;
    if Formed(u, h, p, strict) {
      FormedHomed(u, h, p, strict);
      var x := SomeKey(u, h);
      HomedKeys(u, h, p);
      Astray(g, k, h, p, x);
    }
  }

  /** One step along a clear bit: what of the tail goes the other way spoils the subtree
      unless it comes to nothing. */
  lemma LeftStep(f: seq<KV>, t: seq<KV>, k: Key, h: nat, p: seq<bool>, strict: bool)
    requires h > 0 && |p| + h == 256 && Fronted(f, t, k, p) && t != [] && !f[|f| - 1].k[|p|]
    ensures var j := SplitAt(t, |p|);
            var o := Apply(Empty, f + t, h);
            var l, r := Apply(Empty, f + t[..j], h - 1), Half(Empty, t[j..], h - 1);
            && Fronted(f, t[..j], k, p + [false])
            && !l.t.Empty? && o == Join(l.t, r.t, l.deleted || r.deleted)
            && (!r.t.Empty? ==> o == Outcome(Node(l.t, r.t), false) && !Formed(o.t, h, p, strict))
            && (Clear(t, |p|) ==> j == |t| && l == Apply(Empty, f + t, h - 1) && r == Outcome(Empty, false))
  {
    hide Apply, Front, Paired, Covered, SplitAt, Clear, Stray;
    var j := SplitAt(t, |p|);
    FrontEnds(f, t, k, p);
    EmptyStep(f + t, h);
    FrontLeft(f, t, k, p);
    FrontSide(f, t[..j], k, h - 1, p + [false]);
    ClearCut(t, |p|);
    if t[j..] != [] && !Apply(Empty, t[j..], h - 1).t.Empty? {
      StrayNotFormed(t[j..], k, h - 1, p + [true], strict);
    }
  }

  // ----- a tail of inserts -----

  /** Behind the front a tail of inserts keeps its largest key down at the last bit. */
  lemma {:induction false} TailInserts(f: seq<KV>, a: seq<KV>, k: Key, h: nat, p: seq<bool>, strict: bool)
    requires h > 0 && |p| + h == 256 && Fronted(f, a, k, p) && a != [] && Inserts(a)
    ensures var o := Apply(Empty, f + a, h);
            && o.t.Node? && !o.deleted
            && (Formed(o.t, h, p, strict) <==> (strict ==> Twin(f)) && Steady(f[|f| - 1].k, a, |p|))
    decreases h, 1
  {
    hide Apply, Front, Paired, Covered, SplitAt, Twin, Steady, Clear, Stray, Formed;
    FrontEnds(f, a, k, p);
    InsertsStay(Empty, f + a, h);
    SteadyStep(f[|f| - 1].k, a, |p|);
    if h == 1 { SteadyEnd(f[|f| - 1].k, a); }
    if f[|f| - 1].k[|p|] {
      InsertsRight(f, a, k, h, p, strict);
    } else {
      InsertsLeft(f, a, k, h, p, strict);
    }
  }

  lemma SteadyEnd(c: Key, s: seq<KV>)
    ensures Steady(c, s, 256)
  {
  }

  lemma InsertsRight(f: seq<KV>, a: seq<KV>, k: Key, h: nat, p: seq<bool>, strict: bool)
    requires h > 0 && |p| + h == 256 && Fronted(f, a, k, p) && a != [] && Inserts(a) && f[|f| - 1].k[|p|]
    requires !Apply(Empty, f + a, h).deleted
    ensures var o := Apply(Empty, f + a, h);
            && o.t.Node?
            && (Formed(o.t, h, p, strict) <==>
                  (strict ==> Twin(f)) && (h > 1 ==> Steady(f[|f| - 1].k, a, |p| + 1)))
    decreases h, 0
  {
    hide Apply, Front, Paired, Covered, SplitAt, Twin, Steady, Clear, Stray;
    var n := SplitAt(f, |p|);
    EmptyStep(f + a, h);
    FrontRight(f, a, k, p);
    TwinCut(f, k, p);
    if n > 0 { FreshFormed(f[..n], k, h - 1, p + [false], strict); }
    if h > 1 {
      TailInserts(f[n..], a, k, h - 1, p + [true], strict);
    } else {
      Bottom(f[n..], a, k, p + [true]);
    }
  }

  lemma InsertsLeft(f: seq<KV>, a: seq<KV>, k: Key, h: nat, p: seq<bool>, strict: bool)
    requires h > 0 && |p| + h == 256 && Fronted(f, a, k, p) && a != [] && Inserts(a) && !f[|f| - 1].k[|p|]
    requires !Apply(Empty, f + a, h).deleted
    ensures var o := Apply(Empty, f + a, h);
            && o.t.Node?
            && (Formed(o.t, h, p, strict) <==>
                  Clear(a, |p|) && (strict ==> Twin(f)) && (h > 1 ==> Steady(f[|f| - 1].k, a, |p| + 1)))
    decreases h, 0
  {
    hide Apply, Front, Paired, Covered, SplitAt, Twin, Steady, Clear, Inserts;
    LeftStep(f, a, k, h, p, strict);
    ClearCut(a, |p|);
    if !Clear(a, |p|) {
      FirstInsert(a, |p|, h - 1);
    } else if h > 1 {
      TailInserts(f, a, k, h - 1, p + [false], strict);
    } else {
      TwinClear(f, k, p);
      Bottom(f, a, k, p + [false]);
    }
  }

  lemma FirstInsert(a: seq<KV>, d: nat, h: nat)
    requires h < 256 && d < 256 && Inserts(a) && !Clear(a, d)
    ensures SplitAt(a, d) < |a| && !Half(Empty, a[SplitAt(a, d)..], h).t.Empty?
  {
    ClearCut(a, d);
    FirstPlaced(a[SplitAt(a, d)..], h);
  }

  lemma Bottom(f: seq<KV>, t: seq<KV>, k: Key, p: seq<bool>)
    requires |p| == 256 && Fronted(f, t, k, p)
    ensures Apply(Empty, f + t, 0) == Outcome(Leaf(f[0].k, f[0].v), false) && p <= f[0].k && f[0].v != DefaultLeaf
  {
    FullPrefix(f, p);
  }

  // ----- the whole tail -----

  /** What trails the front: the smaller keys, the shortcut's deletion and the shortcut, the larger keys. */
  function Tail(a: seq<KV>, k: Key, v: Word, b: seq<KV>): seq<KV> {
    a + [KV(k, DefaultLeaf), KV(k, v)] + b
  }

  /** Up to bit `hi`, where the largest key has a clear bit so have all the keys. */
  predicate Quiet(c: Key, a: seq<KV>, k: Key, b: seq<KV>, lo: nat, hi: nat)
    requires hi <= 256
  {
    forall j :: lo <= j < hi ==> c[j] || (Clear(a, j) && !k[j] && Clear(b, j))
  }

  /** At bit `d` the tail parts: the smaller keys stay with the front, and the rest comes to nothing. */
  predicate Parts(f: seq<KV>, a: seq<KV>, k: Key, b: seq<KV>, d: nat, strict: bool)
    requires f != [] && d < 256
  {
    && !f[|f| - 1].k[d] && Clear(a, d) && k[d]
    && Steady(f[|f| - 1].k, a, d + 1) && Steady(k, b, d + 1)
    && (strict ==> d == 255 || Twin(f))
  }

  /** From bit `lo` on: the tail never parts from the front, or parts from it once and comes
      to nothing.  In the strict sense the front's largest keys have to be twins as well. */
  predicate Settled(f: seq<KV>, a: seq<KV>, k: Key, b: seq<KV>, lo: nat, strict: bool)
    requires f != []
  {
    var c := f[|f| - 1].k;
    || ((strict ==> Twin(f)) && Quiet(c, a, k, b, lo, 256))
    || exists d :: lo <= d < 256 && Quiet(c, a, k, b, lo, d) && Parts(f, a, k, b, d, strict)
  }

  lemma QuietStep(c: Key, a: seq<KV>, k: Key, b: seq<KV>, lo: nat, hi: nat)
    requires lo < hi <= 256
    ensures Quiet(c, a, k, b, lo, hi) <==>
              (c[lo] || (Clear(a, lo) && !k[lo] && Clear(b, lo))) && Quiet(c, a, k, b, lo + 1, hi)
  {
  }

  lemma SettledOn(f: seq<KV>, g: seq<KV>, a: seq<KV>, k: Key, b: seq<KV>, lo: nat, strict: bool)
    requires f != [] && g != [] && f[|f| - 1] == g[|g| - 1] && (Twin(f) <==> Twin(g)) && lo < 256
    requires f[|f| - 1].k[lo] || (Clear(a, lo) && !k[lo] && Clear(b, lo))
    ensures Settled(f, a, k, b, lo, strict) <==> Settled(g, a, k, b, lo + 1, strict)
  {
    hide Quiet, Twin, Clear, Steady;
    var c := f[|f| - 1].k;
    QuietStep(c, a, k, b, lo, 256);
    forall d | lo < d < 256
      ensures Quiet(c, a, k, b, lo, d) <==> Quiet(c, a, k, b, lo + 1, d)
      ensures Parts(f, a, k, b, d, strict) <==> Parts(g, a, k, b, d, strict)
    {
      QuietStep(c, a, k, b, lo, d);
    }
    assert !Parts(f, a, k, b, lo, strict);
  }

  lemma SettledHere(f: seq<KV>, a: seq<KV>, k: Key, b: seq<KV>, lo: nat, strict: bool)
    requires f != [] && lo < 256 && !f[|f| - 1].k[lo] && !(Clear(a, lo) && !k[lo] && Clear(b, lo))
    ensures Settled(f, a, k, b, lo, strict) <==> Parts(f, a, k, b, lo, strict)
  {
    hide Twin, Clear, Steady, Parts;
    assert Quiet(f[|f| - 1].k, a, k, b, lo, lo);
  }

  /** At the last bit. */
  lemma SettledLast(f: seq<KV>, a: seq<KV>, k: Key, b: seq<KV>, strict: bool)
    requires f != [] && (f[|f| - 1].k[255] || (Clear(a, 255) && !k[255] && Clear(b, 255)))
    ensures Settled(f, a, k, b, 255, strict) <==> (strict ==> Twin(f))
  {
    hide Twin, Clear, Steady;
    var c := f[|f| - 1].k;
    assert !Parts(f, a, k, b, 255, strict);
    QuietStep(c, a, k, b, 255, 256);
    assert Quiet(c, a, k, b, 256, 256);
  }

  lemma TailClear(a: seq<KV>, k: Key, v: Word, b: seq<KV>, d: nat)
    requires d < 256
    ensures Clear(Tail(a, k, v, b), d) <==> Clear(a, d) && !k[d] && Clear(b, d)
  {
    var t := Tail(a, k, v, b);
    assert t[|a|].k == k;
    assert forall i :: 0 <= i < |a| ==> t[i] == a[i];
    assert forall i :: 0 <= i < |b| ==> t[|a| + 2 + i] == b[i];
  }

  lemma PairSplit(k: Key, v: Word, b: seq<KV>, d: nat)
    requires d < 256
    ensures var g := [KV(k, DefaultLeaf), KV(k, v)] + b;
            && SplitAt(g, d) == (if k[d] then 0 else 2 + SplitAt(b, d))
            && g[..0] == [] && g[0..] == g
            && g[2 + SplitAt(b, d)..] == b[SplitAt(b, d)..]
  {
    var x := [KV(k, DefaultLeaf), KV(k, v)];
    SplitConcat(x, b, d);
    assert SplitAt(x[1..], d) == if k[d] then 0 else 1;
  }

  /** The deletion with what follows it comes to nothing exactly when it is never parted from it. */
  lemma {:induction false} Cancel(k: Key, v: Word, b: seq<KV>, h: nat)
    requires h <= 256 && Inserts(b)
    ensures Apply(Empty, [KV(k, DefaultLeaf), KV(k, v)] + b, h).t.Empty? <==> Steady(k, b, 256 - h)
    decreases h
  {
    hide Apply, SplitAt, Clear, Steady, Inserts;
    var g := [KV(k, DefaultLeaf), KV(k, v)] + b;
    if h == 0 {
      SteadyEnd(k, b);
      PlaceAtEnd(g);
    } else {
      var d := 256 - h;
      EmptyStep(g, h);
      SteadyStep(k, b, d);
      PairSplit(k, v, b, d);
      ClearCut(b, d);
      if k[d] || Clear(b, d) {
        assert !k[d] ==> g[..2 + SplitAt(b, d)] == g;
        Cancel(k, v, b, h - 1);
      } else {
        FirstInsert(b, d, h - 1);
      }
    }
  }

  lemma PlaceAtEnd(g: seq<KV>)
    requires g != []
    ensures Apply(Empty, g, 0) == Place(g[0])
  {
  }

  /** Where the tail is cut. */
  lemma TailCut(a: seq<KV>, k: Key, v: Word, b: seq<KV>, d: nat)
    requires d < 256 && Inserts(a) && Inserts(b) && !(Clear(a, d) && !k[d] && Clear(b, d))
    ensures var t := Tail(a, k, v, b);
            var j := SplitAt(t, d);
            && j < |t|
            && (Clear(a, d) && k[d] ==> t[..j] == a && t[j..] == [KV(k, DefaultLeaf), KV(k, v)] + b)
            && (!(Clear(a, d) && k[d]) ==> t[j].v != DefaultLeaf)
  {
    hide Clear;
    var x := [KV(k, DefaultLeaf), KV(k, v)];
    var t, j := Tail(a, k, v, b), SplitAt(Tail(a, k, v, b), d);
    assert t == a + (x + b);
    SplitConcat(a, x + b, d);
    PairSplit(k, v, b, d);
    ClearCut(a, d);
    ClearCut(b, d);
    if !Clear(a, d) {
      assert t[j] == a[j];
    } else if !k[d] {
      assert t[j] == b[SplitAt(b, d)];
    }
  }

  /** The tail of a clash behind its front. */
  predicate Trails(f: seq<KV>, a: seq<KV>, k: Key, v: Word, b: seq<KV>, p: seq<bool>) {
    a != [] && b != [] && Inserts(a) && Inserts(b) && Fronted(f, Tail(a, k, v, b), k, p)
  }

  /** What the front and the whole tail make of an empty subtree: it is canonical, or homed,
      exactly when the tail settles in that sense. */
  lemma {:induction false} TailSettles(f: seq<KV>, a: seq<KV>, k: Key, v: Word, b: seq<KV>, h: nat, p: seq<bool>,
                                       strict: bool)
    requires h > 0 && |p| + h == 256 && Trails(f, a, k, v, b, p)
    ensures Result(f, a, k, v, b, h, p, strict)
    decreases h, 1
  {
    hide Trails, Result, Front, Paired, Covered, Clear, Tail;
    TrailsFront(f, a, k, v, b, p);
    if f[|f| - 1].k[|p|] {
      TailRight(f, a, k, v, b, h, p, strict);
    } else if Clear(a, |p|) && !k[|p|] && Clear(b, |p|) {
      TailLeft(f, a, k, v, b, h, p, strict);
    } else {
      TailParts(f, a, k, v, b, h, p, strict);
    }
  }

  predicate Result(f: seq<KV>, a: seq<KV>, k: Key, v: Word, b: seq<KV>, h: nat, p: seq<bool>, strict: bool)
    requires f != [] && 0 < h && |p| + h == 256
  {
    var o := Apply(Empty, f + Tail(a, k, v, b), h);
    !o.t.Empty? && (o.t.Leaf? <==> o.deleted) && (o.t.Leaf? ==> Formed(o.t, h, p, strict))
    && (Formed(o.t, h, p, strict) <==> Settled(f, a, k, b, |p|, strict))
  }

  lemma TrailsFront(f: seq<KV>, a: seq<KV>, k: Key, v: Word, b: seq<KV>, p: seq<bool>)
    requires Trails(f, a, k, v, b, p)
    ensures f != [] && Front(f, k, p) && Fronted(f, Tail(a, k, v, b), k, p) && |Tail(a, k, v, b)| > 1
  {
  }

  lemma TailRight(f: seq<KV>, a: seq<KV>, k: Key, v: Word, b: seq<KV>, h: nat, p: seq<bool>, strict: bool)
    requires h > 0 && |p| + h == 256 && Trails(f, a, k, v, b, p) && f[|f| - 1].k[|p|]
    ensures Result(f, a, k, v, b, h, p, strict)
    decreases h, 0
  {
    hide Apply, Front, Paired, Covered, SplitAt, Twin, Clear, Settled, Tail, Inserts;
    var t := Tail(a, k, v, b);
    TrailsFront(f, a, k, v, b, p);
    var n := SplitAt(f, |p|);
    EmptyStep(f + t, h);
    FrontRight(f, t, k, p);
    TwinCut(f, k, p);
    if n > 0 { FreshFormed(f[..n], k, h - 1, p + [false], strict); }
    if h > 1 {
      TailSettles(f[n..], a, k, v, b, h - 1, p + [true], strict);
      SettledOn(f, f[n..], a, k, b, |p|, strict);
      var r, o := Apply(Empty, f[n..] + t, h - 1), Apply(Empty, f + t, h);
      if r.t.Leaf? { PrefixBit(p, r.t.k, true); }
      assert Formed(o.t, h, p, strict) <==> Formed(r.t, h - 1, p + [true], strict);
    } else {
      Bottom(f[n..], t, k, p + [true]);
      SettledLast(f, a, k, b, strict);
      assert Formed(Apply(Empty, f + t, h).t, h, p, strict) <==> (strict ==> n > 0);
    }
  }

  lemma TailLeft(f: seq<KV>, a: seq<KV>, k: Key, v: Word, b: seq<KV>, h: nat, p: seq<bool>, strict: bool)
    requires h > 0 && |p| + h == 256 && Trails(f, a, k, v, b, p) && !f[|f| - 1].k[|p|]
    requires Clear(a, |p|) && !k[|p|] && Clear(b, |p|)
    ensures Result(f, a, k, v, b, h, p, strict)
    decreases h, 0
  {
    hide Apply, Front, Paired, Covered, SplitAt, Twin, Clear, Settled, Tail, Inserts;
    var t := Tail(a, k, v, b);
    TrailsFront(f, a, k, v, b, p);
    TailClear(a, k, v, b, |p|);
    LeftStep(f, t, k, h, p, strict);
    if h > 1 {
      assert t[..SplitAt(t, |p|)] == t;
      TailSettles(f, a, k, v, b, h - 1, p + [false], strict);
      SettledOn(f, f, a, k, b, |p|, strict);
      var l, o := Apply(Empty, f + t, h - 1), Apply(Empty, f + t, h);
      if l.t.Leaf? { PrefixBit(p, l.t.k, false); }
      assert Formed(o.t, h, p, strict) <==> Formed(l.t, h - 1, p + [false], strict);
    } else {
      assert t[..SplitAt(t, |p|)] == t;
      TwinClear(f, k, p);
      Bottom(f, t, k, p + [false]);
      SettledLast(f, a, k, b, strict);
      assert Formed(Apply(Empty, f + t, h).t, h, p, strict) <==> !strict;
    }
  }

  lemma TailParts(f: seq<KV>, a: seq<KV>, k: Key, v: Word, b: seq<KV>, h: nat, p: seq<bool>, strict: bool)
    requires h > 0 && |p| + h == 256 && Trails(f, a, k, v, b, p) && !f[|f| - 1].k[|p|]
    requires !(Clear(a, |p|) && !k[|p|] && Clear(b, |p|))
    ensures Result(f, a, k, v, b, h, p, strict)
  {
    hide Apply, Front, Paired, Covered, SplitAt, Twin, Clear, Settled, Tail, Inserts, Steady;
    var t := Tail(a, k, v, b);
    var j := SplitAt(t, |p|);
    TrailsFront(f, a, k, v, b, p);
    SettledHere(f, a, k, b, |p|, strict);
    LeftStep(f, t, k, h, p, strict);
    TailCut(a, k, v, b, |p|);
    if Clear(a, |p|) && k[|p|] {
      Cancel(k, v, b, h - 1);
      var l, r := Apply(Empty, f + a, h - 1), Half(Empty, t[j..], h - 1);
      assert r.t.Empty? <==> Steady(k, b, |p| + 1);
      if h > 1 {
        TailInserts(f, a, k, h - 1, p + [false], strict);
        assert r.t.Empty? ==> Apply(Empty, f + t, h) == Outcome(Node(l.t, Empty), false);
        assert r.t.Empty? ==> (Formed(Node(l.t, Empty), h, p, strict) <==> Formed(l.t, h - 1, p + [false], strict));
      } else {
        Bottom(f, a, k, p + [false]);
        SteadyEnd(f[|f| - 1].k, a);
        PrefixBit(p, f[0].k, false);
      }
    } else {
      FirstPlaced(t[j..], h - 1);
    }
  }
}
