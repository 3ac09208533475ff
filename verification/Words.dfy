/**
 The 32-byte strings the trie is made of, with hashing taken as a free
 constructor: two hashes are equal only when their inputs are.  A key is a
 string whose 256 bits are visible (`Raw`); values and siblings are any word.
 `LeafHash` carries the height byte, so the root height 256 is recorded as 0.
 */
module Words {

  type Key = k: seq<bool> | |k| == 256 witness seq(256, i => false)

  datatype Word =
    | Raw(bits: Key)
    | DefaultLeaf
    | LeafHash(key: Word, value: Word, height: nat)
    | NodeHash(left: Word, right: Word)

  datatype Option<+T> = None | Some(value: T)

  /** A key with the value it is to be given; `DefaultLeaf` asks for its deletion. */
  datatype KV = KV(k: Key, v: Word)

  /** The first `n` bits of a key as a big-endian number. */
  function Num(k: Key, n: nat): nat
    requires n <= 256
  {
    if n == 0 then 0 else 2 * Num(k, n - 1) + (if k[n - 1] then 1 else 0)
  }

  /** Byte-wise comparison of equally long keys compares them as numbers. */
  predicate Less(a: Key, b: Key) {
    Num(a, 256) < Num(b, 256)
  }

  lemma {:induction false} NumInjective(a: Key, b: Key, n: nat)
    requires n <= 256 && Num(a, n) == Num(b, n)
    ensures forall i :: 0 <= i < n ==> a[i] == b[i]
  {
    if n > 0 {
      NumInjective(a, b, n - 1);
    }
  }

  lemma {:induction false} NumPrefix(a: Key, b: Key, n: nat)
    requires n <= 256 && forall i :: 0 <= i < n ==> a[i] == b[i]
    ensures Num(a, n) == Num(b, n)
  {
    if n > 0 {
      NumPrefix(a, b, n - 1);
    }
  }

  /** The first differing bit decides. */
  lemma {:induction false} NumAtBit(a: Key, b: Key, d: nat, n: nat)
    requires d < n <= 256 && !a[d] && b[d]
    requires forall i :: 0 <= i < d ==> a[i] == b[i]
    ensures Num(a, n) < Num(b, n)
  {
    if d < n - 1 {
      NumAtBit(a, b, d, n - 1);
    } else {
      NumPrefix(a, b, d);
    }
  }

  lemma LessTotal(a: Key, b: Key)
    ensures a != b ==> Less(a, b) || Less(b, a)
  {
    if Num(a, 256) == Num(b, 256) {
      NumInjective(a, b, 256);
    }
  }

  /** Below a common prefix the next bit decides the order. */
  lemma LessAtBit(a: Key, b: Key, d: nat)
    requires d < 256 && a[..d] == b[..d]
    ensures !a[d] && b[d] ==> Less(a, b)
    ensures Less(a, b) && a[d] ==> b[d]
  {
    assert forall i :: 0 <= i < d ==> a[i] == a[..d][i] == b[i];
    if !a[d] && b[d] {
      NumAtBit(a, b, d, 256);
    } else if a[d] && !b[d] {
      NumAtBit(b, a, d, 256);
    }
  }

  /** Strictly increasing keys. */
  predicate Sorted(s: seq<KV>) {
    forall i, j :: 0 <= i < j < |s| ==> Less(s[i].k, s[j].k)
  }

  predicate AllUnder(s: seq<KV>, p: seq<bool>) {
    forall i :: 0 <= i < |s| ==> p <= s[i].k
  }

  function Find(m: map<Key, Word>, k: Key): Option<Word> {
    if k in m then Some(m[k]) else None
  }

  lemma FindExtensional(m: map<Key, Word>, n: map<Key, Word>)
    requires forall k: Key :: Find(m, k) == Find(n, k)
    ensures m == n
  {
    forall k: Key ensures k in m <==> k in n {
      assert Find(m, k) == Find(n, k);
    }
    forall k | k in m ensures m[k] == n[k] {
      assert Find(m, k) == Find(n, k);
    }
  }
}
