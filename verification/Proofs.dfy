/**
 Merkle proofs: the checks of inclusion and absence, complete for every proof
 `merkleProof` produces and sound for every path of at most 256 words.
 */
module Proofs {
  import opened Words
  import opened Trees
  import opened Reads
  import opened Smt

  /** The root obtained by hashing a leaf up its audit path, from bit `i` on. */
  function Climb(ap: seq<Word>, i: nat, k: Key, leaf: Word): Word
    requires i <= |ap| <= 256
    decreases |ap| - i
  {
    if i == |ap| then leaf
    else if k[i] then NodeHash(ap[|ap| - i - 1], Climb(ap, i + 1, k, leaf))
    else NodeHash(Climb(ap, i + 1, k, leaf), ap[|ap| - i - 1])
  }

  function LeafAt(k: Key, v: Word, depth: nat): Word
    requires depth <= 256
  {
    LeafHash(Raw(k), v, (256 - depth) % 256)
  }

  predicate VerifyInclusion(root: Option<Word>, ap: seq<Word>, k: Key, v: Word)
    requires |ap| <= 256
  {
    root == Some(Climb(ap, 0, k, LeafAt(k, v, |ap|)))
  }

  /** Absence: an empty subtree on the path of `k`, or the shortcut of `proofKey`. */
  predicate NonInclusion(root: Option<Word>, ap: seq<Word>, k: Key, v: Word, proofKey: Option<Key>)
    requires |ap| <= 256
  {
    match proofKey
    case None => root == Some(Climb(ap, 0, k, DefaultLeaf))
    case Some(pk) => VerifyInclusion(root, ap, pk, v) && pk[..|ap|] == k[..|ap|]
  }

  method VerifyNonInclusion(root: Option<Word>, ap: seq<Word>, k: Key, v: Word, proofKey: Option<Key>)
    returns (ok: bool)
    requires |ap| <= 256
    ensures ok == NonInclusion(root, ap, k, v, proofKey)
  {
    if proofKey.None? {
      return root == Some(Climb(ap, 0, k, DefaultLeaf));
    }
    var pk := proofKey.value;
    if !VerifyInclusion(root, ap, pk, v) {
      return false;
    }
    var b := 0;
    while b < |ap|
      invariant 0 <= b <= |ap| && pk[..b] == k[..b]
    {
      if k[b] != pk[b] {
        assert pk[..|ap|][b] != k[..|ap|][b];
        return false;
      }
      b := b + 1;
    }
    return true;
  }

  // ----- completeness -----

  lemma {:induction false} ClimbTree(t: Tree, k: Key, h: nat, ap: seq<Word>)
    requires h <= 256 && Tidy(t, h) && 256 - h <= |ap| <= 256
    requires ap[..|ap| - (256 - h)] == Path(t, k, h)
    ensures Tidy(Reached(t, k, h), 256 - |ap|)
    ensures Climb(ap, 256 - h, k, Dig(Reached(t, k, h), 256 - |ap|)) == Dig(t, h)
    decreases t
  {
    hide Path, Reached;
    PathStep(t, k, h);
    if t.Node? {
      var d := 256 - h;
      LastOf(ap, |ap| - d, Path(if k[d] then t.r else t.l, k, h - 1), Dig(if k[d] then t.l else t.r, h - 1));
      ClimbTree(if k[d] then t.r else t.l, k, h - 1, ap);
    }
  }

  lemma PathStep(t: Tree, k: Key, h: nat)
    requires h <= 256 && Tidy(t, h)
    ensures !t.Node? ==> Path(t, k, h) == [] && Reached(t, k, h) == t
    ensures t.Node? ==>
              var c, o := if k[256 - h] then t.r else t.l, if k[256 - h] then t.l else t.r;
              Path(t, k, h) == Path(c, k, h - 1) + [Dig(o, h - 1)] && Reached(t, k, h) == Reached(c, k, h - 1)
  {
  }

  lemma LastOf(ap: seq<Word>, n: nat, p: seq<Word>, w: Word)
    requires n <= |ap| && ap[..n] == p + [w]
    ensures n > 0 && ap[n - 1] == w && ap[..n - 1] == p
  {
    assert |ap[..n]| == |p| + 1;
    assert ap[..n - 1] == ap[..n][..n - 1];
    assert ap[n - 1] == ap[..n][n - 1];
  }

  /** What a descent that ends at `t` finds. */
  function Ends(t: Tree, k: Key): Option<Word> {
    if t.Leaf? && t.k == k then Some(t.v) else None
  }

  lemma {:induction false} ReachedLookup(t: Tree, k: Key, h: nat)
    requires h <= 256 && Tidy(t, h)
    ensures !Reached(t, k, h).Node?
    ensures Lookup(t, k, h) == Ends(Reached(t, k, h), k)
    decreases t
  {
    if t.Node? {
      ReachedLookup(if k[256 - h] then t.r else t.l, k, h - 1);
    }
  }

  /** A shortcut on its path lies under the bits the descent followed. */
  lemma {:induction false} ReachedPrefix(t: Tree, k: Key, h: nat, p: seq<bool>)
    requires |p| + h == 256 && Tidy(t, h) && Homed(t, h, p) && p <= k
    ensures var u := Reached(t, k, h); var n := |p| + |Path(t, k, h)|;
            n <= 256 && (u.Leaf? ==> u.k[..n] == k[..n])
    decreases t
  {
    if t.Node? {
      if k[256 - h] {
        ReachedPrefix(t.r, k, h - 1, p + [true]);
      } else {
        ReachedPrefix(t.l, k, h - 1, p + [false]);
      }
    } else if t.Leaf? {
      assert t.k[..|p|] == p == k[..|p|];
    }
  }

  lemma {:induction false} ClimbOnBits(k: Key, k': Key, ap: seq<Word>, i: nat, leaf: Word)
    requires i <= |ap| <= 256 && k[..|ap|] == k'[..|ap|]
    ensures Climb(ap, i, k, leaf) == Climb(ap, i, k', leaf)
    decreases |ap| - i
  {
    if i < |ap| {
      assert k[i] == k[..|ap|][i] == k'[i];
      ClimbOnBits(k, k', ap, i + 1, leaf);
    }
  }

  /** The proof of a present key verifies. */
  lemma InclusionComplete(t: Tree, k: Key, v: Word)
    requires Tidy(t, 256) && Lookup(t, k, 256) == Some(v)
    ensures ProofOf(t, k, 256) == Proof(Path(t, k, 256), true, None, Some(v))
    ensures VerifyInclusion(RootOf(t), Path(t, k, 256), k, v)
  {
    var ap := Path(t, k, 256);
    ReachedLookup(t, k, 256);
    assert ap[..|ap|] == ap;
    ClimbTree(t, k, 256, ap);
  }

  /** The proof of an absent key verifies exactly when the trie is not empty. */
  lemma NonInclusionComplete(t: Tree, k: Key)
    requires Tidy(t, 256) && Homed(t, 256, []) && Lookup(t, k, 256).None?
    ensures var p := ProofOf(t, k, 256);
            && p.Proof? && !p.included && |p.path| <= 256
            && (p.proofKey.None? || (p.proofKey.value.Raw? && p.proofVal.Some? && p.proofKey.value.bits != k))
            && var v := if p.proofVal.Some? then p.proofVal.value else DefaultLeaf;
            var pk := if p.proofKey.Some? then Some(p.proofKey.value.bits) else None;
            NonInclusion(RootOf(t), p.path, k, v, pk) <==> !t.Empty?
  {
    var ap := Path(t, k, 256);
    var u := Reached(t, k, 256);
    ReachedLookup(t, k, 256);
    ReachedPrefix(t, k, 256, []);
    assert ap[..|ap|] == ap;
    ClimbTree(t, k, 256, ap);
    if u.Leaf? {
      ClimbOnBits(k, u.k, ap, 0, LeafAt(u.k, u.v, |ap|));
    }
  }

  // ----- soundness -----

  /** The subtree `n` steps down the path of `k`, if there are that many interior nodes. */
  function Descend(t: Tree, k: Key, h: nat, n: nat): Option<Tree>
    requires h <= 256 && Tidy(t, h) && n <= h
    decreases n
  {
    if n == 0 then Some(t)
    else if !t.Node? then None
    else Descend(if k[256 - h] then t.r else t.l, k, h - 1, n - 1)
  }

  /** Whatever the path holds, a climb that ends in the digest of a tree started at
      the digest of the subtree at its depth. */
  lemma {:induction false} ClimbSound(t: Tree, k: Key, h: nat, ap: seq<Word>, leaf: Word)
    requires h <= 256 && Tidy(t, h) && 256 - h <= |ap| <= 256
    requires Climb(ap, 256 - h, k, leaf) == Dig(t, h)
    ensures var u := Descend(t, k, h, |ap| - (256 - h));
            u.Some? && Tidy(u.value, 256 - |ap|) && Dig(u.value, 256 - |ap|) == leaf
    decreases h
  {
    if 256 - h < |ap| {
      ClimbSound(if k[256 - h] then t.r else t.l, k, h - 1, ap, leaf);
    }
  }

  lemma {:induction false} DescendLookup(t: Tree, k: Key, k': Key, h: nat, n: nat)
    requires h <= 256 && Tidy(t, h) && n <= h
    requires k[..256 - h + n] == k'[..256 - h + n]
    requires Descend(t, k', h, n).Some? && !Descend(t, k', h, n).value.Node?
    ensures Lookup(t, k, h) == Ends(Descend(t, k', h, n).value, k)
    decreases n
  {
    if n > 0 {
      var d := 256 - h;
      assert k[d] == k[..d + n][d] == k'[d];
      DescendLookup(if k[d] then t.r else t.l, k, k', h - 1, n - 1);
    }
  }

  /** An accepted inclusion proof tells the value of the key. */
  lemma InclusionSound(t: Tree, ap: seq<Word>, k: Key, v: Word)
    requires Tidy(t, 256) && |ap| <= 256 && VerifyInclusion(RootOf(t), ap, k, v)
    ensures Lookup(t, k, 256) == Some(v)
  {
    ClimbSound(t, k, 256, ap, LeafAt(k, v, |ap|));
    DescendLookup(t, k, k, 256, |ap|);
  }

  /** An accepted absence proof means absence exactly when the proof key is another key:
      the check never compares the two. */
  lemma NonInclusionSoundIff(t: Tree, ap: seq<Word>, k: Key, v: Word, proofKey: Option<Key>)
    requires Tidy(t, 256) && |ap| <= 256 && NonInclusion(RootOf(t), ap, k, v, proofKey)
    ensures Lookup(t, k, 256).None? <==> proofKey != Some(k)
  {
    if proofKey.None? {
      ClimbSound(t, k, 256, ap, DefaultLeaf);
      DescendLookup(t, k, k, 256, |ap|);
    } else {
      ClimbSound(t, proofKey.value, 256, ap, LeafAt(proofKey.value, v, |ap|));
      DescendLookup(t, k, proofKey.value, 256, |ap|);
    }
  }

  /** Every present key has an accepted proof of its own absence, itself being the proof key. */
  lemma PresentKeyPassesAsAbsent(t: Tree, k: Key, v: Word)
    requires Tidy(t, 256) && Lookup(t, k, 256) == Some(v)
    ensures NonInclusion(RootOf(t), Path(t, k, 256), k, v, Some(k))
  {
    InclusionComplete(t, k, v);
  }
}
