/**
 Subtrees of the trie as values.  `Leaf` is a shortcut: a subtree with a single
 key, wherever it sits.  `Canon` is the form every trie should be in, each
 shortcut at its highest point; `Dig` is the digest a subtree has at a height.
 */
module Trees {
  import opened Words

  datatype Tree = Empty | Leaf(k: Key, v: Word) | Node(l: Tree, r: Tree)

  function Left(t: Tree): Tree { if t.Node? then t.l else Empty }
  function Right(t: Tree): Tree { if t.Node? then t.r else Empty }

  /** No interior node at height 0, and none with two empty children. */
  predicate Tidy(t: Tree, h: nat) {
    t.Node? ==> h > 0 && Tidy(t.l, h - 1) && Tidy(t.r, h - 1) && !(t.l.Empty? && t.r.Empty?)
  }

  /** Keys lie under the prefix `p` that leads to the subtree; in the strict form no subtree
      holding fewer than two keys is an interior node either. */
  predicate Formed(t: Tree, h: nat, p: seq<bool>, strict: bool)
    requires |p| + h == 256
    decreases t
  {
    match t
    case Empty => true
    case Leaf(k, v) => p <= k && v != DefaultLeaf
    case Node(l, r) =>
      && h > 0
      && Formed(l, h - 1, p + [false], strict)
      && Formed(r, h - 1, p + [true], strict)
      && !(l.Empty? && r.Empty?)
      && (strict ==> (l.Empty? ==> r.Node?) && (r.Empty? ==> l.Node?))
  }

  /** The form every trie should be in. */
  predicate Canon(t: Tree, h: nat, p: seq<bool>)
    requires |p| + h == 256
  {
    Formed(t, h, p, true)
  }

  /** Every shortcut lies on the path of its key, if not at its highest point. */
  predicate Homed(t: Tree, h: nat, p: seq<bool>)
    requires |p| + h == 256
  {
    Formed(t, h, p, false)
  }

  function Contents(t: Tree): map<Key, Word> {
    match t
    case Empty => map[]
    case Leaf(k, v) => map[k := v]
    case Node(l, r) => Contents(l) + Contents(r)
  }

  /** The digest of a subtree at height `h`; an empty one counts as `DefaultLeaf`. */
  function Dig(t: Tree, h: nat): Word
    requires Tidy(t, h)
    decreases t
  {
    match t
    case Empty => DefaultLeaf
    case Leaf(k, v) => LeafHash(Raw(k), v, h % 256)
    case Node(l, r) => NodeHash(Dig(l, h - 1), Dig(r, h - 1))
  }

  /** The descent of a read: bit 256 - h decides at height h, so `Tidy` keeps it inside the key. */
  function Lookup(t: Tree, k: Key, h: nat): Option<Word>
    requires h <= 256 && Tidy(t, h)
    decreases t
  {
    match t
    case Empty => None
    case Leaf(k', v) => if k' == k then Some(v) else None
    case Node(l, r) => Lookup(if k[256 - h] then r else l, k, h - 1)
  }

  lemma {:induction false} FormedHomed(t: Tree, h: nat, p: seq<bool>, strict: bool)
    requires |p| + h == 256 && Formed(t, h, p, strict)
    ensures Tidy(t, h) && Homed(t, h, p)
    decreases t
  {
    if t.Node? {
      FormedHomed(t.l, h - 1, p + [false], strict);
      FormedHomed(t.r, h - 1, p + [true], strict);
    }
  }

  lemma CanonHomed(t: Tree, h: nat, p: seq<bool>)
    requires |p| + h == 256 && Canon(t, h, p)
    ensures Tidy(t, h) && Homed(t, h, p)
  {
    FormedHomed(t, h, p, true);
  }

  lemma {:induction false} HomedKeys(t: Tree, h: nat, p: seq<bool>)
    requires |p| + h == 256 && Homed(t, h, p)
    ensures forall k <- Contents(t) :: p <= k && Contents(t)[k] != DefaultLeaf
    decreases t
  {
    if t.Node? {
      HomedKeys(t.l, h - 1, p + [false]);
      HomedKeys(t.r, h - 1, p + [true]);
      assert Contents(t) == Contents(t.l) + Contents(t.r);
      forall k | k in Contents(t.l) ensures p <= k { PrefixUp(p, false, k); }
      forall k | k in Contents(t.r) ensures p <= k { PrefixUp(p, true, k); }
    }
  }

  lemma PrefixUp(p: seq<bool>, bit: bool, k: Key)
    requires p + [bit] <= k
    ensures p <= k
  {
    assert forall i :: 0 <= i < |p| ==> p[i] == (p + [bit])[i];
  }

  predicate Uniform(m: map<Key, Word>, d: nat, side: bool)
    requires d < 256
  {
    forall k <- m :: k[d] == side
  }

  /** The two sides of an interior node never hold the same key: bit |p| tells them apart. */
  lemma Sides(t: Tree, h: nat, p: seq<bool>)
    requires |p| + h == 256 && Homed(t, h, p) && t.Node?
    ensures Uniform(Contents(t.l), |p|, false) && Uniform(Contents(t.r), |p|, true)
  {
    HomedKeys(t.l, h - 1, p + [false]);
    HomedKeys(t.r, h - 1, p + [true]);
    assert forall k <- Contents(t.l) :: k[|p|] == (p + [false])[|p|];
    assert forall k <- Contents(t.r) :: k[|p|] == (p + [true])[|p|];
  }

  lemma {:induction false} LookupIsFind(t: Tree, h: nat, p: seq<bool>, k: Key)
    requires |p| + h == 256 && Homed(t, h, p) && Tidy(t, h)
    ensures Lookup(t, k, h) == Find(Contents(t), k)
    decreases t
  {
    if t.Node? {
      Sides(t, h, p);
      if k[|p|] {
        LookupIsFind(t.r, h - 1, p + [true], k);
      } else {
        LookupIsFind(t.l, h - 1, p + [false], k);
      }
    }
  }

  lemma {:induction false} SomeKey(t: Tree, h: nat) returns (k: Key)
    requires Tidy(t, h) && !t.Empty?
    ensures k in Contents(t)
    decreases t
  {
    if t.Leaf? {
      k := t.k;
    } else if !t.l.Empty? {
      k := SomeKey(t.l, h - 1);
    } else {
      k := SomeKey(t.r, h - 1);
    }
  }

  lemma TwoKeys(t: Tree, h: nat, p: seq<bool>) returns (a: Key, b: Key)
    requires |p| + h == 256 && Canon(t, h, p) && t.Node?
    ensures a in Contents(t) && b in Contents(t) && a != b
    decreases t
  {
    if t.l.Empty? {
      a, b := TwoKeys(t.r, h - 1, p + [true]);
    } else if t.r.Empty? {
      a, b := TwoKeys(t.l, h - 1, p + [false]);
    } else {
      CanonHomed(t, h, p);
      a := SomeKey(t.l, h - 1);
      b := SomeKey(t.r, h - 1);
      Sides(t, h, p);
    }
  }

  lemma ShapeBySize(t: Tree, h: nat, p: seq<bool>)
    requires |p| + h == 256 && Canon(t, h, p)
    ensures t.Empty? <==> Contents(t) == map[]
    ensures t.Node? ==> forall k, v :: Contents(t) != map[k := v]
  {
    if !t.Empty? {
      CanonHomed(t, h, p);
      var _ := SomeKey(t, h);
    }
    if t.Node? {
      var a, b := TwoKeys(t, h, p);
    }
  }

  lemma SideEqual(t: Tree, u: Tree, d: nat)
    requires d < 256 && t.Node? && u.Node? && Contents(t) == Contents(u)
    requires Uniform(Contents(t.l), d, false) && Uniform(Contents(t.r), d, true)
    requires Uniform(Contents(u.l), d, false) && Uniform(Contents(u.r), d, true)
    ensures Contents(t.l) == Contents(u.l) && Contents(t.r) == Contents(u.r)
  {
    hide Uniform;
    BySide(Contents(t.l), Contents(t.r), d);
    BySide(Contents(u.l), Contents(u.r), d);
  }

  lemma BySide(l: map<Key, Word>, r: map<Key, Word>, d: nat)
    requires d < 256 && Uniform(l, d, false) && Uniform(r, d, true)
    ensures l == (map k | k in l + r && !k[d] :: (l + r)[k])
    ensures r == (map k | k in l + r && k[d] :: (l + r)[k])
  {
  }

  /** History independence: a map has one canonical tree. */
  lemma {:induction false} CanonUnique(t: Tree, u: Tree, h: nat, p: seq<bool>)
    requires |p| + h == 256 && Canon(t, h, p) && Canon(u, h, p)
    requires Contents(t) == Contents(u)
    ensures t == u
    decreases t
  {
    ShapeBySize(t, h, p);
    ShapeBySize(u, h, p);
    if t.Leaf? {
      assert u.Leaf? && t.k in Contents(u);
    } else if t.Node? {
      assert u.Node?;
      CanonHomed(t, h, p);
      CanonHomed(u, h, p);
      Sides(t, h, p);
      Sides(u, h, p);
      SideEqual(t, u, |p|);
      CanonUnique(t.l, u.l, h - 1, p + [false]);
      CanonUnique(t.r, u.r, h - 1, p + [true]);
    }
  }

  /** Equal digests at one height come from equal trees. */
  lemma {:induction false} DigInjective(t: Tree, u: Tree, h: nat)
    requires Tidy(t, h) && Tidy(u, h) && Dig(t, h) == Dig(u, h)
    ensures t == u
    decreases t
  {
    if t.Node? {
      assert u.Node?;
      DigInjective(t.l, u.l, h - 1);
      DigInjective(t.r, u.r, h - 1);
    }
  }

  /** Two canonical tries have the same root exactly when they hold the same map. */
  lemma RootIffContents(t: Tree, u: Tree)
    requires Canon(t, 256, []) && Canon(u, 256, [])
    ensures Tidy(t, 256) && Tidy(u, 256)
    ensures Dig(t, 256) == Dig(u, 256) <==> Contents(t) == Contents(u)
  {
    CanonHomed(t, 256, []);
    CanonHomed(u, 256, []);
    if Dig(t, 256) == Dig(u, 256) {
      DigInjective(t, u, 256);
    }
    if Contents(t) == Contents(u) {
      CanonUnique(t, u, 256, []);
    }
  }
}
