/**
 The clash: a batch that deletes a shortcut's key in between a smaller and a larger key is
 merged twice.  Reads never notice.  The canonical form survives exactly when the batch
 settles, which its keys tell.
 */
module Clash {
  import opened Words
  import opened Trees
  import opened Updates
  import opened Doubled

  /** The condition on the keys of a batch with a clash at a shortcut of height `h`: in the
      strict sense for the canonical form, otherwise for the keys' staying on their paths. */
  predicate Settles(s: seq<KV>, k: Key, h: nat, strict: bool)
    requires Updates.Clash(s, k) && h <= 256
  {
    var r := Rank(s, k);
    Settled(s[..r] + s[r + 1..], s[..r], k, s[r + 1..], 256 - h, strict)
  }

  /** A batch that may be given to a shortcut, and clashes with it. */
  predicate Clashing(s: seq<KV>, k: Key, v: Word, p: seq<bool>) {
    Sorted(s) && AllUnder(s, p) && v != DefaultLeaf && DeletesPresent(map[k := v], s) && Updates.Clash(s, k)
  }

  /** The doubled batch as a front and a tail. */
  lemma ClashTrails(s: seq<KV>, k: Key, v: Word, p: seq<bool>)
    requires Clashing(s, k, v, p)
    ensures var r := Rank(s, k);
            var a, b := s[..r], s[r + 1..];
            && Merge(s, k, v) == a + b + Tail(a, k, v, b)
            && Trails(a + b, a, k, v, b, p)
  {
    hide Sorted, AllUnder, Rank, Paired, Covered;
    var r := Rank(s, k);
    var a, b := s[..r], s[r + 1..];
    assert s[..r + 1] == a + [KV(k, DefaultLeaf)];
    ClashFront(s, k, v, p);
    PairedTail(a, k, v, b);
    CoveredTail(a, k, v, b, p);
  }

  lemma ClashFront(s: seq<KV>, k: Key, v: Word, p: seq<bool>)
    requires Clashing(s, k, v, p)
    ensures var r := Rank(s, k);
            && Front(s[..r] + s[r + 1..], k, p)
            && Inserts(s[..r]) && Inserts(s[r + 1..]) && Without(s[..r], k) && Without(s[r + 1..], k)
  {
    hide Less, Rank;
    var r := Rank(s, k);
    RankNames(s, k);
    var f := s[..r] + s[r + 1..];
    assert forall i :: 0 <= i < |f| ==> f[i] == s[if i < r then i else i + 1];
    assert forall i :: 0 <= i < |s| && i != r ==> s[i].k != k && s[i].v != DefaultLeaf;
    SortedCut(s, r);
  }

  lemma SortedCut(s: seq<KV>, r: nat)
    requires Sorted(s) && r < |s|
    ensures Sorted(s[..r] + s[r + 1..])
  {
    hide Less;
  }

  lemma PairedTail(a: seq<KV>, k: Key, v: Word, b: seq<KV>)
    requires Without(a, k) && Without(b, k)
    ensures Paired(Tail(a, k, v, b), k)
  {
    var t := Tail(a, k, v, b);
    assert forall i :: 0 <= i < |a| ==> t[i] == a[i];
    assert forall i :: |a| + 2 <= i < |t| ==> t[i] == b[i - |a| - 2];
    assert t[|a|] == KV(k, DefaultLeaf);
  }

  lemma CoveredTail(a: seq<KV>, k: Key, v: Word, b: seq<KV>, p: seq<bool>)
    ensures Covered(Tail(a, k, v, b), a + b, k, p)
  {
    var t := Tail(a, k, v, b);
    forall i | 0 <= i < |t| && t[i].k != k ensures t[i] in a + b {
      assert i < |a| ==> t[i] == a[i];
      assert i >= |a| + 2 ==> t[i] == b[i - |a| - 2];
    }
  }

  /** The map the batch asks for is the one its front makes. */
  lemma FrontMeaning(s: seq<KV>, k: Key, v: Word, p: seq<bool>)
    requires Clashing(s, k, v, p)
    ensures var r := Rank(s, k); Updated(map[], s[..r] + s[r + 1..]) == Updated(map[k := v], s)
  {
    hide Updated, AllUnder;
    var r := Rank(s, k);
    var f := s[..r] + s[r + 1..];
    ClashFront(s, k, v, p);
    forall x: Key ensures Find(Updated(map[], f), x) == Find(Updated(map[k := v], s), x) {
      FrontMeaningAt(s, k, v, f, x);
    }
    FindExtensional(Updated(map[], f), Updated(map[k := v], s));
  }

  lemma FrontMeaningAt(s: seq<KV>, k: Key, v: Word, f: seq<KV>, x: Key)
    requires Sorted(s) && Updates.Clash(s, k) && f == s[..Rank(s, k)] + s[Rank(s, k) + 1..] && Sorted(f)
    ensures Find(Updated(map[], f), x) == Find(Updated(map[k := v], s), x)
  {
    hide Updated, Sorted;
    var r := Rank(s, k);
    RankNames(s, k);
    forall e { CutMembers(s, r, e); }
    UpdatedBy(map[], f, x);
    UpdatedBy(map[k := v], s, x);
    if x == k {
      assert s[r] in s;
    } else if e :| e in s && e.k == x {
      assert e in f;
    }
  }

  lemma ApplyDoubled(s: seq<KV>, k: Key, v: Word, h: nat)
    requires 0 < h <= 256 && Updates.Clash(s, k)
    ensures Merge(s, k, v) != [] && Apply(Leaf(k, v), s, h) == Apply(Empty, Merge(s, k, v), h)
  {
  }

  lemma ClashHeight(s: seq<KV>, k: Key, v: Word, h: nat, p: seq<bool>)
    requires |p| + h == 256 && Clashing(s, k, v, p)
    ensures h > 0
  {
    if h == 0 { FullPrefix(s, p); }
  }

  /** A clash keeps the canonical form, and keeps every key on its path, exactly when the
      batch settles in that sense. */
  lemma ClashFormedIff(s: seq<KV>, k: Key, v: Word, h: nat, p: seq<bool>, strict: bool)
    requires |p| + h == 256 && Clashing(s, k, v, p)
    ensures var o := Apply(Leaf(k, v), s, h);
            && !o.t.Empty? && (Formed(o.t, h, p, strict) <==> Settles(s, k, h, strict))
            && (!Formed(o.t, h, p, strict) ==> o.t.Node?)
  {
    hide Apply, Settled, Trails, Merge;
    var r := Rank(s, k);
    ClashHeight(s, k, v, h, p);
    ClashTrails(s, k, v, p);
    ApplyDoubled(s, k, v, h);
    TailSettles(s[..r] + s[r + 1..], s[..r], k, v, s[r + 1..], h, p, strict);
  }

  /** Every read under the prefix finds what the batch asks for, settled or not. */
  lemma ClashReads(s: seq<KV>, k: Key, v: Word, h: nat, p: seq<bool>, q: Key)
    requires |p| + h == 256 && Clashing(s, k, v, p) && p <= q
    ensures Lookup(Apply(Leaf(k, v), s, h).t, q, h) == Find(Updated(map[k := v], s), q)
  {
    hide Apply, Merge, Trails, Updated, Lookup;
    var r := Rank(s, k);
    var a, b := s[..r], s[r + 1..];
    ClashHeight(s, k, v, h, p);
    ClashTrails(s, k, v, p);
    ApplyDoubled(s, k, v, h);
    TrailsFront(a + b, a, k, v, b, p);
    FrontReads(a + b, Tail(a, k, v, b), k, h, p, q);
    FrontMeaning(s, k, v, p);
  }

  /** So does the map of the subtree. */
  lemma ClashContents(s: seq<KV>, k: Key, v: Word, h: nat, p: seq<bool>)
    requires |p| + h == 256 && Clashing(s, k, v, p)
    ensures Contents(Apply(Leaf(k, v), s, h).t) == Updated(map[k := v], s)
  {
    hide Apply, Updated;
    var m := Contents(Apply(Leaf(k, v), s, h).t);
    forall x: Key ensures Find(m, x) == Find(Updated(map[k := v], s), x) {
      ClashContentsAt(s, k, v, h, p, x);
    }
    FindExtensional(m, Updated(map[k := v], s));
  }

  lemma ClashContentsAt(s: seq<KV>, k: Key, v: Word, h: nat, p: seq<bool>, x: Key)
    requires |p| + h == 256 && Clashing(s, k, v, p)
    ensures Find(Contents(Apply(Leaf(k, v), s, h).t), x) == Find(Updated(map[k := v], s), x)
  {
    hide Apply, Updated, Merge, Lookup, Trails, Front, Paired, Covered;
    var r := Rank(s, k);
    var a, b := s[..r], s[r + 1..];
    var u := Apply(Leaf(k, v), s, h).t;
    ClashHeight(s, k, v, h, p);
    ClashTrails(s, k, v, p);
    ApplyDoubled(s, k, v, h);
    ClashPlaced(s, k, v, h, p, x);
    RankNames(s, k);
    UpdatedBy(map[k := v], s, x);
    if x in Contents(u) {
      assert KV(x, Contents(u)[x]) in s;
    } else if e :| e in s && e.k == x {
      var i :| 0 <= i < |s| && s[i] == e;
      ClashReads(s, k, v, h, p, x);
      LookupHeld(u, x, h);
    } else {
      assert x != k by { assert s[r] in s; }
    }
  }

  lemma ClashPlaced(s: seq<KV>, k: Key, v: Word, h: nat, p: seq<bool>, x: Key)
    requires 0 < h && |p| + h == 256 && Clashing(s, k, v, p)
    ensures var m := Contents(Apply(Leaf(k, v), s, h).t);
            x in m ==> x != k && KV(x, m[x]) in s && m[x] != DefaultLeaf
  {
    hide Apply, Contents, Sorted, AllUnder;
    var r := Rank(s, k);
    ApplyDoubled(s, k, v, h);
    DoubledPaired(s, k, v, p);
    PlacedFrom(Merge(s, k, v), k, h, x);
    DoubledMembers(s, k, v);
  }

  lemma DoubledMembers(s: seq<KV>, k: Key, v: Word)
    requires Updates.Clash(s, k)
    ensures forall e :: e in Merge(s, k, v) && e.k != k ==> e in s
  {
  }

  lemma DoubledPaired(s: seq<KV>, k: Key, v: Word, p: seq<bool>)
    requires Clashing(s, k, v, p)
    ensures Paired(Merge(s, k, v), k)
  {
    hide Merge;
    var r := Rank(s, k);
    var a, b := s[..r], s[r + 1..];
    ClashTrails(s, k, v, p);
    ClashFront(s, k, v, p);
    PairedBehind(a + b, Tail(a, k, v, b), k);
  }

  lemma PairedBehind(f: seq<KV>, t: seq<KV>, k: Key)
    requires Without(f, k) && Paired(t, k)
    ensures Paired(f + t, k)
  {
    var g := f + t;
    assert forall i :: 0 <= i < |f| ==> g[i] == f[i];
    assert forall i :: |f| <= i < |g| ==> g[i] == t[i - |f|];
  }

  // ----- both sides, on a trie of one key -----

  lemma ThreeClash(a: KV, k: Key, v: Word, c: KV)
    requires a.v != DefaultLeaf && c.v != DefaultLeaf && v != DefaultLeaf && Less(a.k, k) && Less(k, c.k)
    ensures var s := [a, KV(k, DefaultLeaf), c];
            && Clashing(s, k, v, []) && Rank(s, k) == 1
            && forall strict :: Settles(s, k, 256, strict) <==> Settled([a, c], [a], k, [c], 0, strict)
  {
    hide Settled;
    var s := [a, KV(k, DefaultLeaf), c];
    assert Sorted(s);
    RankNames(s, k);
    assert Rank(s, k) == 1;
    assert s[..1] == [a] && s[2..] == [c] && s[..1] + s[2..] == [a, c];
  }

  predicate OnesFrom(k: Key, d: nat) {
    forall i :: d <= i < 256 ==> k[i]
  }

  predicate ZerosBetween(k: Key, lo: nat, hi: nat)
    requires hi <= 256
  {
    forall i :: lo <= i < hi ==> !k[i]
  }

  /** A clash whose largest key is all ones leaves that key far below its place. */
  lemma ClashCanBreak(a: KV, k: Key, v: Word, c: KV)
    requires a.v != DefaultLeaf && c.v != DefaultLeaf && v != DefaultLeaf
    requires Less(a.k, k) && Less(k, c.k) && !a.k[0] && OnesFrom(c.k, 0)
    ensures var s := [a, KV(k, DefaultLeaf), c];
            && Sorted(s) && DeletesPresent(Contents(Leaf(k, v)), s)
            && !Canon(Apply(Leaf(k, v), s, 256).t, 256, [])
  {
    hide Apply, Formed, Rank;
    var s := [a, KV(k, DefaultLeaf), c];
    ThreeClash(a, k, v, c);
    ClashFormedIff(s, k, v, 256, [], true);
    assert a.k[..255][0] != c.k[..255][0];
    assert !Twin([a, c]);
  }

  /** With a largest key of a single one, and a shortcut that differs from the smallest in
      the last bit, a clash leaves the form as it should be. */
  lemma ClashCanBeHarmless(a: KV, k: Key, v: Word, c: KV)
    requires a.v != DefaultLeaf && c.v != DefaultLeaf && v != DefaultLeaf
    requires ZerosBetween(a.k, 0, 256) && ZerosBetween(c.k, 1, 256) && c.k[0]
    requires ZerosBetween(k, 0, 255) && k[255]
    ensures var s := [a, KV(k, DefaultLeaf), c];
            Updates.Clash(s, k) && Canon(Apply(Leaf(k, v), s, 256).t, 256, [])
  {
    hide Apply, Formed, Rank, Less;
    NumAtBit(a.k, k, 255, 256);
    NumAtBit(k, c.k, 0, 256);
    assert Less(a.k, k) && Less(k, c.k) by { Ordered(a.k, k); Ordered(k, c.k); }
    ThreeClash(a, k, v, c);
    ClashFormedIff([a, KV(k, DefaultLeaf), c], k, v, 256, [], true);
    assert Parts([a, c], [a], k, [c], 255, true);
    assert Quiet(c.k, [a], k, [c], 0, 255);
  }

  lemma Ordered(a: Key, b: Key)
    requires Num(a, 256) < Num(b, 256)
    ensures Less(a, b)
  {
  }
}
