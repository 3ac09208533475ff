/**
 Trying requests on a committed trie and discarding them again: `Discard` goes by whether
 any batch was stored, and a request that empties the trie stores none.
 */
module Rollback {
  import opened Words
  import opened Trees
  import opened Updates
  import opened Requests
  import opened Runs
  import opened Smt

  /** Some request is accepted. */
  predicate Changes(t: Tree, qs: seq<Request>)
    requires Tidy(t, 256)
  {
    var n := |qs| - 1;
    qs != [] && (Changes(t, qs[..n]) || Accepted(After(t, qs[..n]), qs[n]))
  }

  /** Some request is accepted and leaves a key in the trie. */
  predicate Leaves(t: Tree, qs: seq<Request>)
    requires Tidy(t, 256)
  {
    var n := |qs| - 1;
    qs != [] && (Leaves(t, qs[..n]) || (Accepted(After(t, qs[..n]), qs[n]) && !After(t, qs).Empty?))
  }

  /** Requests none of which leaves a key change nothing or empty the trie. */
  lemma {:induction false} NoneLeft(t: Tree, qs: seq<Request>)
    requires Tidy(t, 256) && !Leaves(t, qs)
    ensures After(t, qs) == if Changes(t, qs) then Empty else t
  {
    if qs != [] {
      NoneLeft(t, qs[..|qs| - 1]);
    }
  }

  /** Commits, puts any requests to the trie, and discards: the committed trie is back unless
      requests were accepted and none of them left a key. */
  method TryAndDiscard(s: SMT, height: nat, qs: seq<Request>)
    requires s.Valid() && AllInOrder(qs)
    modifies s
    ensures s.Valid() && s.updatedNodes == map[]
    ensures s.tree == if Changes(old(s.tree), qs) && !Leaves(old(s.tree), qs) then Empty else old(s.tree)
    ensures s.root == old(s.root) <==> old(s.tree).Empty? || !Changes(old(s.tree), qs) || Leaves(old(s.tree), qs)
  {
    hide Apply, Verdict, Dig;
    ghost var t := s.tree;
    var _ := s.Commit(height);
    for i := 0 to |qs|
      invariant s.Valid() && s.saved == t && s.tree == After(t, qs[..i])
      invariant s.updatedNodes != map[] <==> Leaves(t, qs[..i])
    {
      assert qs[..i + 1][..i] == qs[..i];
      assert InOrder(qs[i].keys);
      var _ := s.Update(qs[i].keys, qs[i].values);
    }
    assert qs[..|qs|] == qs;
    if !Leaves(t, qs) { NoneLeft(t, qs); }
    s.Discard();
  }

  // ----- which requests empty a trie -----

  /** Every entry is a deletion, and every key of the map is named. */
  predicate Wipes(m: map<Key, Word>, s: seq<KV>) {
    (forall e <- s :: e.v == DefaultLeaf) && forall k <- m :: exists e :: e in s && e.k == k
  }

  lemma WipesIff(m: map<Key, Word>, s: seq<KV>)
    requires Sorted(s)
    ensures Updated(m, s) == map[] <==> Wipes(m, s)
  {
    hide Updated, Sorted;
    var u := Updated(m, s);
    forall k: Key
      ensures forall e :: e in s && e.k == k ==> Find(u, k) == Wanted(e.v)
      ensures (forall e :: e in s ==> e.k != k) ==> Find(u, k) == Find(m, k)
    {
      UpdatedBy(m, s, k);
    }
    if u == map[] {
      forall e | e in s ensures e.v == DefaultLeaf { assert Find(u, e.k) == Wanted(e.v); }
      forall k | k in m ensures exists e :: e in s && e.k == k { assert Find(u, k) == None; }
    }
    if Wipes(m, s) {
      forall k: Key ensures k !in u {
        if e :| e in s && e.k == k {
          assert Find(u, k) == Wanted(e.v);
        } else {
          assert Find(u, k) == Find(m, k);
        }
      }
    }
  }

  /** An accepted request empties a trie with its keys on their paths exactly when it deletes
      every key and inserts none. */
  lemma EmptiesIff(t: Tree, s: seq<KV>)
    requires Homed(t, 256, []) && Tidy(t, 256) && s != [] && Sorted(s) && FirstRefusal(t, s).None?
    ensures Apply(t, s, 256).t.Empty? <==> Wipes(Contents(t), s)
  {
    hide Apply, Updated, Formed, Wipes, Contents, Lookup;
    var u := Apply(t, s, 256).t;
    RequestMet(t, s);
    WipesIff(Contents(t), s);
    if !u.Empty? { var k := SomeKey(u, 256); } else { EmptyHolds(u); }
  }

  lemma EmptyHolds(t: Tree)
    requires t.Empty?
    ensures Contents(t) == map[]
  {
  }

  /** One request on a committed trie with its keys on their paths: `Discard` brings the
      committed root back exactly when the request is refused or does not wipe a trie that
      had keys. */
  lemma OneRequest(t: Tree, q: Request)
    requires Homed(t, 256, []) && Tidy(t, 256) && |q.keys| == |q.values| && Sorted(Entries(q.keys, q.values))
    ensures Changes(t, [q]) && !Leaves(t, [q]) <==> Accepted(t, q) && Wipes(Contents(t), Entries(q.keys, q.values))
  {
    hide Wipes, Apply, Formed, Contents;
    assert [q][..0] == [];
    if Accepted(t, q) { EmptiesIff(t, Entries(q.keys, q.values)); }
  }

  /** The deletion of its only key is not rolled back. */
  method DiscardKeepsNothing(k: Key, v: Word) returns (s: SMT)
    requires v != DefaultLeaf
    ensures fresh(s) && s.Valid() && s.root == None && s.prevRoot == RootOf(Leaf(k, v)) != None
  {
    hide Apply, Verdict;
    s := new SMT(None, map[], Empty);
    Placed(k, v, 256);
    OneEntry(s.tree, [k], [v]);
    var _ := s.Update([k], [v]);
    var _ := s.Commit(1);
    OneEntry(s.tree, [k], [DefaultLeaf]);
    var _ := s.Update([k], [DefaultLeaf]);
    s.Discard();
  }

  lemma OneEntry(t: Tree, keys: seq<Key>, values: seq<Word>)
    requires Tidy(t, 256) && |keys| == |values| == 1
    requires Lookup(t, keys[0], 256).None? <==> values[0] != DefaultLeaf
    ensures Verdict(t, keys, values) == None && Entries(keys, values) == [KV(keys[0], values[0])]
  {
    var s := Entries(keys, values);
    assert FirstRefusal(t, s[1..]) == None;
  }

  lemma Placed(k: Key, v: Word, h: nat)
    requires 0 < h <= 256 && v != DefaultLeaf
    ensures Apply(Empty, [KV(k, v)], h).t == Leaf(k, v) && Apply(Leaf(k, v), [KV(k, DefaultLeaf)], h).t == Empty
  {
    var d := [KV(k, DefaultLeaf)];
    assert Rank(d, k) == 0 && Merge(d, k, v) == [];
  }
}
