/**
 Compressed audit paths: a bitmap says which siblings are not `DefaultLeaf`, and
 only those are kept.
 */
module Compress {
  import opened Words
  import opened Bits
  import opened Proofs

  /** The siblings that are kept. */
  function Kept(ap: seq<Word>): seq<Word> {
    if ap == [] then []
    else Kept(ap[..|ap| - 1]) + (if ap[|ap| - 1] != DefaultLeaf then [ap[|ap| - 1]] else [])
  }

  /** The full path a compressed one stands for. */
  function Expand(bitmap: Bytes, mp: seq<Word>, n: nat): (ap: seq<Word>)
    requires n <= 8 * |bitmap| && Count(bitmap, n) <= |mp|
    ensures |ap| == n
  {
    if n == 0 then []
    else if BitIsSet(bitmap, n - 1) then Expand(bitmap, mp[..|mp| - 1], n - 1) + [mp[|mp| - 1]]
    else Expand(bitmap, mp, n - 1) + [DefaultLeaf]
  }

  method CompressPath(ap: seq<Word>) returns (bitmap: Bytes, mp: seq<Word>)
    ensures |bitmap| == |ap| / 8 + 1 && mp == Kept(ap)
    ensures forall i :: 0 <= i < |ap| ==> (BitIsSet(bitmap, i) <==> ap[i] != DefaultLeaf)
    ensures forall i :: 0 <= i < 8 * |bitmap| ==> (Digit(bitmap, i) == 1 <==> i < |ap| && ap[i] != DefaultLeaf)
  {
    hide Digit, BitSet, BitIsSet;
    bitmap, mp := seq(|ap| / 8 + 1, _ => 0), [];
    NoBits(bitmap);
    assert |ap| < 8 * |bitmap|;
    for i := 0 to |ap|
      invariant |bitmap| == |ap| / 8 + 1 && mp == Kept(ap[..i])
      invariant forall j :: 0 <= j < 8 * |bitmap| ==> (BitIsSet(bitmap, j) <==> j < i && ap[j] != DefaultLeaf)
    {
      assert ap[..i + 1][..i] == ap[..i];
      if ap[i] != DefaultLeaf {
        BitSetAll(bitmap, i);
        bitmap := BitSet(bitmap, i);
        mp := mp + [ap[i]];
      }
    }
    assert ap[..|ap|] == ap;
    forall i | 0 <= i < 8 * |bitmap| ensures Digit(bitmap, i) == 1 <==> BitIsSet(bitmap, i) { BitValue(bitmap, i); }
  }

  predicate Marks(bitmap: Bytes, ap: seq<Word>) {
    |ap| <= 8 * |bitmap| && forall i :: 0 <= i < |ap| ==> (BitIsSet(bitmap, i) <==> ap[i] != DefaultLeaf)
  }

  lemma {:induction false} KeptCount(bitmap: Bytes, ap: seq<Word>)
    requires Marks(bitmap, ap)
    ensures Count(bitmap, |ap|) == |Kept(ap)|
  {
    hide BitIsSet;
    if ap != [] {
      KeptCount(bitmap, ap[..|ap| - 1]);
    }
  }

  /** Compressing loses nothing. */
  lemma {:induction false} ExpandKept(bitmap: Bytes, ap: seq<Word>)
    requires Marks(bitmap, ap)
    ensures Count(bitmap, |ap|) <= |Kept(ap)| && Expand(bitmap, Kept(ap), |ap|) == ap
  {
    hide BitIsSet;
    KeptCount(bitmap, ap);
    if ap != [] {
      var n := |ap| - 1;
      ExpandKept(bitmap, ap[..n]);
      assert ap == ap[..n] + [ap[n]];
      if ap[n] != DefaultLeaf {
        assert Kept(ap)[..|Kept(ap)| - 1] == Kept(ap[..n]);
      } else {
        assert Kept(ap) == Kept(ap[..n]);
      }
    }
  }

  /** `verifyInclusionC`: the climb along a compressed path, `j` of whose kept siblings are used up. */
  function ClimbC(bitmap: Bytes, k: Key, leaf: Word, mp: seq<Word>, length: nat, i: nat, j: nat): Word
    requires i <= length <= 256 && length <= 8 * |bitmap| && j + Count(bitmap, length - i) <= |mp|
    decreases length - i
  {
    if i == length then leaf
    else
      var b := length - i - 1;
      if k[i] then
        if BitIsSet(bitmap, b) then NodeHash(mp[|mp| - j - 1], ClimbC(bitmap, k, leaf, mp, length, i + 1, j + 1))
        else NodeHash(DefaultLeaf, ClimbC(bitmap, k, leaf, mp, length, i + 1, j))
      else
        if BitIsSet(bitmap, b) then NodeHash(ClimbC(bitmap, k, leaf, mp, length, i + 1, j + 1), mp[|mp| - j - 1])
        else NodeHash(ClimbC(bitmap, k, leaf, mp, length, i + 1, j), DefaultLeaf)
  }

  lemma {:induction false} ClimbCFrom(bitmap: Bytes, k: Key, leaf: Word, mp: seq<Word>, length: nat, i: nat, j: nat,
                                      ap: seq<Word>)
    requires i <= length <= 256 && length <= 8 * |bitmap| && j + Count(bitmap, length - i) <= |mp|
    requires |ap| == length && ap[..length - i] == Expand(bitmap, mp[..|mp| - j], length - i)
    ensures ClimbC(bitmap, k, leaf, mp, length, i, j) == Climb(ap, i, k, leaf)
    decreases length - i
  {
    hide BitIsSet;
    if i < length {
      var n := length - i;
      var left := mp[..|mp| - j];
      assert ap[n - 1] == ap[..n][n - 1];
      assert ap[..n - 1] == ap[..n][..n - 1];
      if BitIsSet(bitmap, n - 1) {
        assert left[..|left| - 1] == mp[..|mp| - (j + 1)];
        ClimbCFrom(bitmap, k, leaf, mp, length, i + 1, j + 1, ap);
      } else {
        ClimbCFrom(bitmap, k, leaf, mp, length, i + 1, j, ap);
      }
    }
  }

  /** Checking a compressed path is checking the full path it stands for, whatever it holds. */
  lemma ClimbCExpands(bitmap: Bytes, k: Key, leaf: Word, mp: seq<Word>, length: nat)
    requires length <= 256 && length <= 8 * |bitmap| && Count(bitmap, length) <= |mp|
    ensures ClimbC(bitmap, k, leaf, mp, length, 0, 0) == Climb(Expand(bitmap, mp, length), 0, k, leaf)
  {
    var ap := Expand(bitmap, mp, length);
    assert mp[..|mp|] == mp && ap[..length] == ap;
    ClimbCFrom(bitmap, k, leaf, mp, length, 0, 0, ap);
  }

  predicate VerifyInclusionC(root: Option<Word>, bitmap: Bytes, k: Key, v: Word, mp: seq<Word>, length: nat)
    requires length <= 256 && length <= 8 * |bitmap| && Count(bitmap, length) <= |mp|
  {
    root == Some(ClimbC(bitmap, k, LeafAt(k, v, length), mp, length, 0, 0))
  }

  predicate NonInclusionC(root: Option<Word>, mp: seq<Word>, length: nat, bitmap: Bytes, k: Key, v: Word,
                          proofKey: Option<Key>)
    requires length <= 256 && length <= 8 * |bitmap| && Count(bitmap, length) <= |mp|
  {
    match proofKey
    case None => root == Some(ClimbC(bitmap, k, DefaultLeaf, mp, length, 0, 0))
    case Some(pk) => VerifyInclusionC(root, bitmap, pk, v, mp, length) && pk[..length] == k[..length]
  }

  method VerifyNonInclusionC(root: Option<Word>, mp: seq<Word>, length: nat, bitmap: Bytes, k: Key, v: Word,
                             proofKey: Option<Key>)
    returns (ok: bool)
    requires length <= 256 && length <= 8 * |bitmap| && Count(bitmap, length) <= |mp|
    ensures ok == NonInclusion(root, Expand(bitmap, mp, length), k, v, proofKey)
  {
    VerdictsC(root, mp, length, bitmap, k, v, proofKey);
    if proofKey.None? {
      return root == Some(ClimbC(bitmap, k, DefaultLeaf, mp, length, 0, 0));
    }
    var pk := proofKey.value;
    if !VerifyInclusionC(root, bitmap, pk, v, mp, length) {
      return false;
    }
    var b := 0;
    while b < length
      invariant 0 <= b <= length && pk[..b] == k[..b]
    {
      if k[b] != pk[b] {
        assert pk[..length][b] != k[..length][b];
        return false;
      }
      b := b + 1;
    }
    return true;
  }

  /** The compressed checks accept what the plain ones accept. */
  lemma VerdictsC(root: Option<Word>, mp: seq<Word>, length: nat, bitmap: Bytes, k: Key, v: Word, proofKey: Option<Key>)
    requires length <= 256 && length <= 8 * |bitmap| && Count(bitmap, length) <= |mp|
    ensures VerifyInclusionC(root, bitmap, k, v, mp, length) <==>
              VerifyInclusion(root, Expand(bitmap, mp, length), k, v)
    ensures NonInclusionC(root, mp, length, bitmap, k, v, proofKey) <==>
              NonInclusion(root, Expand(bitmap, mp, length), k, v, proofKey)
  {
    ClimbCExpands(bitmap, k, LeafAt(k, v, length), mp, length);
    ClimbCExpands(bitmap, k, DefaultLeaf, mp, length);
    if proofKey.Some? {
      ClimbCExpands(bitmap, proofKey.value, LeafAt(proofKey.value, v, length), mp, length);
    }
  }

  /** Compressing any path keeps the root it leads to, for every key and leaf. */
  lemma CompressedClimb(bitmap: Bytes, ap: seq<Word>, k: Key, leaf: Word)
    requires |ap| <= 256 && Marks(bitmap, ap)
    ensures Count(bitmap, |ap|) <= |Kept(ap)|
    ensures ClimbC(bitmap, k, leaf, Kept(ap), |ap|, 0, 0) == Climb(ap, 0, k, leaf)
  {
    ExpandKept(bitmap, ap);
    ClimbCExpands(bitmap, k, leaf, Kept(ap), |ap|);
  }
}
