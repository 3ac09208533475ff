/**
 What a clash that does not settle leads to: a copy of a key lies off its path.  The next
 reads are right, but a later request can lose a deletion or an insert.
 */
module Strays {
  import opened Words
  import opened Trees
  import opened Updates
  import opened Doubled
  import opened Clash
  import opened Requests
  import opened Runs

  /** A shortcut left at the bottom of a path of set bits. */
  function Chain(c: KV, h: nat): (t: Tree)
    ensures Tidy(t, h) && !t.Empty?
  {
    if h == 0 then Leaf(c.k, c.v) else Node(Empty, Chain(c, h - 1))
  }

  lemma NodeStep(t: Tree, s: seq<KV>, h: nat)
    requires t.Node? && Tidy(t, h) && 0 < h <= 256 && s != []
    ensures var n := SplitAt(s, 256 - h);
            var l, r := Half(t.l, s[..n], h - 1), Half(t.r, s[n..], h - 1);
            Apply(t, s, h) == Join(l.t, r.t, l.deleted || r.deleted)
  {
  }

  lemma {:induction false} ChainMade(c: KV, e: KV, h: nat)
    requires h <= 256 && c.v != DefaultLeaf && OnesFrom(c.k, 256 - h)
    ensures Apply(Empty, [c, e], h) == Outcome(Chain(c, h), false)
  {
    if h > 0 {
      var g := [c, e];
      EmptyStep(g, h);
      assert SplitAt(g, 256 - h) == 0 && g[..0] == [] && g[0..] == g;
      ChainMade(c, e, h - 1);
    }
  }

  lemma {:induction false} ChainGone(c: KV, h: nat)
    requires h <= 256 && OnesFrom(c.k, 256 - h)
    ensures Apply(Chain(c, h), [KV(c.k, DefaultLeaf)], h) == Outcome(Empty, true)
  {
    if h > 0 {
      var g := [KV(c.k, DefaultLeaf)];
      NodeStep(Chain(c, h), g, h);
      assert SplitAt(g, 256 - h) == 0 && g[..0] == [] && g[0..] == g;
      ChainGone(c, h - 1);
    }
  }

  lemma {:induction false} ChainReads(c: KV, h: nat, q: Key)
    requires h <= 256
    ensures q != c.k ==> Lookup(Chain(c, h), q, h) == None
    ensures OnesFrom(c.k, 256 - h) ==> Lookup(Chain(c, h), c.k, h) == Some(c.v)
  {
    if h > 0 {
      ChainReads(c, h - 1, q);
    }
  }

  /** A batch of two inserts around the deletion of a shortcut's key: their bits begin with
      00, 010 and 10, the last one going on with ones. */
  predicate Straying(a: KV, k: Key, v: Word, c: KV) {
    && a.v != DefaultLeaf && c.v != DefaultLeaf && v != DefaultLeaf
    && !a.k[0] && !a.k[1] && !k[0] && k[1] && !k[2] && c.k[0] && !c.k[1] && OnesFrom(c.k, 2)
  }

  function Strayed(a: KV, c: KV): (t: Tree)
    ensures Tidy(t, 256)
  {
    var r := Node(Chain(c, 254), Leaf(c.k, c.v));
    assert Tidy(r.l, 254) && Tidy(r, 255);
    Node(Leaf(a.k, a.v), r)
  }

  /** Such a batch clashes with the shortcut and leaves a copy of its largest key off its path. */
  lemma StrayedOutcome(a: KV, k: Key, v: Word, c: KV)
    requires Straying(a, k, v, c)
    ensures Clashing([a, KV(k, DefaultLeaf), c], k, v, [])
    ensures Apply(Leaf(k, v), [a, KV(k, DefaultLeaf), c], 256).t == Strayed(a, c)
    ensures !Homed(Strayed(a, c), 256, [])
  {
    hide Apply, Chain, Formed;
    var s := [a, KV(k, DefaultLeaf), c];
    ThreeInOrder(a, k, c);
    ThreeClash(a, k, v, c);
    ApplyDoubled(s, k, v, 256);
    var m := [a, c, a, KV(k, DefaultLeaf), KV(k, v), c];
    assert Merge(s, k, v) == m by { assert s[..1] == [a] && s[2..] == [c] && s[..2] == [a, KV(k, DefaultLeaf)]; }
    EmptyStep(m, 256);
    EmptyStep([a], 255);
    FirstCut(a, k, v, c);
    OffPath(a, k, v, c);
    NotHomed(a, c);
  }

  lemma NotHomed(a: KV, c: KV)
    requires !c.k[1]
    ensures !Homed(Strayed(a, c), 256, [])
  {
    hide Chain;
    var p := [] + [true] + [true];
    assert p[1] && !(p <= c.k);
    var r := Strayed(a, c).r;
    assert !Formed(r.r, 254, p, false);
    assert !Formed(r, 255, [] + [true], false);
  }

  lemma ThreeInOrder(a: KV, k: Key, c: KV)
    requires !a.k[0] && !a.k[1] && !k[0] && k[1] && c.k[0]
    ensures Less(a.k, k) && Less(k, c.k)
  {
    assert a.k[..1] == k[..1] && k[..0] == c.k[..0];
    LessAtBit(a.k, k, 1);
    LessAtBit(k, c.k, 0);
  }

  lemma FirstCut(a: KV, k: Key, v: Word, c: KV)
    requires Straying(a, k, v, c)
    ensures var m := [a, c, a, KV(k, DefaultLeaf), KV(k, v), c];
            SplitAt(m, 0) == 1 && m[..1] == [a] && m[1..] == [c, a, KV(k, DefaultLeaf), KV(k, v), c]
  {
    var m := [a, c, a, KV(k, DefaultLeaf), KV(k, v), c];
    assert SplitAt(m[1..], 0) == 0;
  }

  /** What of the doubled batch goes right at the first bit. */
  lemma OffPath(a: KV, k: Key, v: Word, c: KV)
    requires Straying(a, k, v, c)
    ensures Apply(Empty, [c, a, KV(k, DefaultLeaf), KV(k, v), c], 255) ==
              Outcome(Node(Chain(c, 254), Leaf(c.k, c.v)), false)
  {
    hide Apply, Chain, SplitAt;
    var m := [c, a, KV(k, DefaultLeaf), KV(k, v), c];
    EmptyStep(m, 255);
    SecondCut(a, k, v, c);
    ChainMade(c, a, 254);
    MovedUp(k, v, c);
  }

  lemma SecondCut(a: KV, k: Key, v: Word, c: KV)
    requires Straying(a, k, v, c)
    ensures var m := [c, a, KV(k, DefaultLeaf), KV(k, v), c];
            SplitAt(m, 1) == 2 && m[..2] == [c, a] && m[2..] == [KV(k, DefaultLeaf), KV(k, v), c]
  {
    var m := [c, a, KV(k, DefaultLeaf), KV(k, v), c];
    assert SplitAt(m[1..][1..], 1) == 0;
    assert SplitAt(m[1..], 1) == 1;
  }

  /** The rest of it comes down to the stray copy. */
  lemma MovedUp(k: Key, v: Word, c: KV)
    requires c.v != DefaultLeaf && !k[2] && c.k[2]
    ensures Apply(Empty, [KV(k, DefaultLeaf), KV(k, v), c], 254) == Outcome(Leaf(c.k, c.v), true)
  {
    hide Apply, SplitAt, Steady;
    var x, g := [KV(k, DefaultLeaf), KV(k, v), c], [KV(k, DefaultLeaf), KV(k, v)];
    EmptyStep(x, 254);
    ThirdCut(k, v, c);
    assert g == g + [];
    Cancel(k, v, [], 253);
    NoneSteady(k, 3);
    EmptyStep([c], 253);
  }

  lemma ThirdCut(k: Key, v: Word, c: KV)
    requires !k[2] && c.k[2]
    ensures var x := [KV(k, DefaultLeaf), KV(k, v), c];
            SplitAt(x, 2) == 2 && x[..2] == [KV(k, DefaultLeaf), KV(k, v)] && x[2..] == [c]
  {
    var x := [KV(k, DefaultLeaf), KV(k, v), c];
    assert SplitAt(x[1..][1..], 2) == 0;
    assert SplitAt(x[1..], 2) == 1;
  }

  lemma NoneSteady(k: Key, lo: nat)
    ensures Steady(k, [], lo)
  {
  }

  /** The trie still answers every read as it should, yet the next request to delete that key
      is accepted, meets no clash, and leaves the key in the trie. */
  lemma DeletionLost(a: KV, k: Key, v: Word, c: KV)
    requires Straying(a, k, v, c)
    ensures var t, d := Apply(Leaf(k, v), [a, KV(k, DefaultLeaf), c], 256).t, [KV(c.k, DefaultLeaf)];
            && Accepted(t, Request([c.k], [DefaultLeaf])) && Clean(t, d, 256)
            && Lookup(Apply(t, d, 256).t, c.k, 256) == Some(c.v)
  {
    hide Apply, Chain, Clean;
    var t, d := Strayed(a, c), [KV(c.k, DefaultLeaf)];
    StrayedOutcome(a, k, v, c);
    StrayedReads(a, c, c.k);
    AcceptsOne(t, d[0]);
    assert SplitAt(d, 0) == 0 && SplitAt(d, 1) == 1 && d[..0] == [] && d[0..] == d && d[..1] == d && d[1..] == [];
    NodeStep(t, d, 256);
    NodeStep(t.r, d, 255);
    ChainGone(c, 254);
    assert Apply(t, d, 256).t == Node(Leaf(a.k, a.v), Leaf(c.k, c.v));
    OneClean(t, d, 256);
  }

  lemma StrayedReads(a: KV, c: KV, q: Key)
    requires c.k[0] && !c.k[1] && OnesFrom(c.k, 2)
    ensures Lookup(Strayed(a, c), c.k, 256) == Some(c.v)
    ensures q[0] && q != c.k ==> Lookup(Strayed(a, c), q, 256) == None
  {
    hide Chain;
    ChainReads(c, 254, q);
    var t := Strayed(a, c);
    assert Lookup(t.r, c.k, 255) == Lookup(t.r.l, c.k, 254);
    assert Lookup(t.r, q, 255) == Lookup(if q[1] then t.r.r else t.r.l, q, 254);
  }

  lemma AcceptsOne(t: Tree, e: KV)
    requires Tidy(t, 256)
    requires Lookup(t, e.k, 256).None? <==> e.v != DefaultLeaf
    ensures Accepted(t, Request([e.k], [e.v])) && Entries([e.k], [e.v]) == [e]
  {
    assert FirstRefusal(t, [e][1..]) == None;
    assert Entries([e.k], [e.v]) == [e];
  }

  lemma {:induction false} OneClean(t: Tree, s: seq<KV>, h: nat)
    requires h <= 256 && Tidy(t, h) && |s| <= 1
    ensures Clean(t, s, h)
    decreases t
  {
    if t.Node? {
      var n := SplitAt(s, 256 - h);
      OneClean(t.l, s[..n], h - 1);
      OneClean(t.r, s[n..], h - 1);
    }
  }

  /** And an accepted insert under the stray copy is never found. */
  lemma InsertLost(a: KV, k: Key, v: Word, c: KV, e: KV)
    requires Straying(a, k, v, c) && e.v != DefaultLeaf && e.k[0] && e.k[1]
    ensures var t := Apply(Leaf(k, v), [a, KV(k, DefaultLeaf), c], 256).t;
            && Accepted(t, Request([e.k], [e.v])) && Clean(t, [e], 256)
            && Lookup(Apply(t, [e], 256).t, e.k, 256) == None
  {
    hide Apply, Chain, Clean;
    var t, d := Strayed(a, c), [e];
    StrayedOutcome(a, k, v, c);
    StrayedReads(a, c, e.k);
    AcceptsOne(t, e);
    assert SplitAt(d, 0) == 0 && SplitAt(d, 1) == 0 && d[..0] == [] && d[0..] == d;
    NodeStep(t, d, 256);
    NodeStep(t.r, d, 255);
    MergedBehind(c, e);
    ChainReads(c, 254, e.k);
    assert Apply(t, d, 256).t == Node(Leaf(a.k, a.v), Node(Chain(c, 254), Chain(c, 254)));
    OneClean(t, d, 256);
  }

  lemma MergedBehind(c: KV, e: KV)
    requires c.v != DefaultLeaf && c.k[0] && !c.k[1] && OnesFrom(c.k, 2) && e.k[0] && e.k[1]
    ensures Apply(Leaf(c.k, c.v), [e], 254) == Outcome(Chain(c, 254), false)
  {
    assert c.k[..1] == e.k[..1];
    LessAtBit(c.k, e.k, 1);
    assert Rank([e], c.k) == 0;
    assert Merge([e], c.k, c.v) == [c, e];
    ChainMade(c, e, 254);
  }
}
