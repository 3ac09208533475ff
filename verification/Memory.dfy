/**
 The in-memory trie that computes the root of one batch and forgets it again.
 */
module Memory {
  import opened Words
  import opened Trees
  import opened Updates
  import opened Requests
  import opened Smt

  /** The reply to a batch put to an empty trie. */
  function FreshReply(keys: seq<Key>, values: seq<Word>): Reply {
    match Verdict(Empty, keys, values)
    case Some(e) => Refused(e)
    case None => Ok(RootOf(Apply(Empty, Entries(keys, values), 256).t))
  }

  // ----- what the reply says -----

  /** The map a batch of inserts names. */
  ghost predicate Names(keys: seq<Key>, values: seq<Word>, m: map<Key, Word>) {
    && |keys| == |values| && (forall i :: 0 <= i < |keys| ==> Find(m, keys[i]) == Some(values[i]))
    && forall k <- m :: k in keys
  }

  ghost predicate Holds(u: Tree, keys: seq<Key>, values: seq<Word>) {
    Canon(u, 256, []) && Tidy(u, 256) && !u.Empty? && Names(keys, values, Contents(u))
  }

  /** A batch is refused as by an empty map; the reply to any other, if its keys are in order, is
      the root of the trie in canonical form that holds what the batch names. */
  ghost predicate Replies(r: Reply, keys: seq<Key>, values: seq<Word>) {
    && (r.Refused? <==> TurnedAway(map[], keys, values))
    && (forall why :: r == Refused(why) <==> Because(map[], keys, values, why))
    && (r.Ok? && InOrder(keys) ==>
          && (exists u :: Holds(u, keys, values))
          && forall u :: Holds(u, keys, values) ==> r == Ok(Some(Dig(u, 256))))
  }

  lemma {:induction false} FreshInserts(s: seq<KV>)
    requires FirstRefusal(Empty, s).None?
    ensures forall i :: 0 <= i < |s| ==> s[i].v != DefaultLeaf
  {
    if s != [] {
      FreshInserts(s[1..]);
      assert forall i :: 0 < i < |s| ==> s[i] == s[1..][i - 1];
    }
  }

  lemma FreshReplies(keys: seq<Key>, values: seq<Word>)
    ensures Replies(FreshReply(keys, values), keys, values)
  {
    hide Formed, Apply, Contents, Dig, TurnedAway, Because, InOrder, Names, Verdict;
    NothingHeld();
    VerdictIff(Empty, keys, values);
    if Verdict(Empty, keys, values).None? && InOrder(keys) {
      Passed(keys, values);
      FreshHolds(keys, values);
      var w := Apply(Empty, Entries(keys, values), 256).t;
      forall u | Holds(u, keys, values) ensures Dig(u, 256) == Dig(w, 256) { OneTrie(u, w, keys, values); }
    }
  }

  lemma NothingHeld()
    ensures Homed(Empty, 256, []) && Canon(Empty, 256, []) && Contents(Empty) == map[]
  {
  }

  lemma Passed(keys: seq<Key>, values: seq<Word>)
    requires Verdict(Empty, keys, values).None? && InOrder(keys)
    ensures |keys| == |values| > 0 && Sorted(Entries(keys, values)) && FirstRefusal(Empty, Entries(keys, values)).None?
  {
    EntriesSorted(keys, values);
  }

  /** The trie made of a batch of inserts is canonical and holds what the batch names. */
  lemma FreshHolds(keys: seq<Key>, values: seq<Word>)
    requires |keys| == |values| > 0 && Sorted(Entries(keys, values)) && FirstRefusal(Empty, Entries(keys, values)).None?
    ensures Holds(Apply(Empty, Entries(keys, values), 256).t, keys, values)
  {
    hide Formed, Apply, Contents, Sorted, Tame, Updated, Clean, FirstRefusal;
    var s := Entries(keys, values);
    NothingHeld();
    FreshInserts(s);
    InsertsStay(Empty, s, 256);
    InsertsClean(Empty, s, 256);
    CleanTame(Empty, s, 256, true);
    RequestMet(Empty, s);
    UpdatedNames(keys, values);
  }

  lemma UpdatedNames(keys: seq<Key>, values: seq<Word>)
    requires |keys| == |values| && Sorted(Entries(keys, values))
    requires forall i :: 0 <= i < |values| ==> values[i] != DefaultLeaf
    ensures Names(keys, values, Updated(map[], Entries(keys, values)))
  {
    hide Sorted, Updated;
    var s := Entries(keys, values);
    var m := Updated(map[], s);
    forall i | 0 <= i < |keys| ensures Find(m, keys[i]) == Some(values[i]) {
      UpdatedBy(map[], s, keys[i]);
      assert s[i] in s;
    }
    forall k | k in m ensures k in keys {
      UpdatedBy(map[], s, k);
      assert forall e <- s :: e.k in keys;
    }
  }

  lemma SameNamed(keys: seq<Key>, values: seq<Word>, a: map<Key, Word>, b: map<Key, Word>)
    requires Names(keys, values, a) && Names(keys, values, b)
    ensures a == b
  {
    forall k: Key ensures Find(a, k) == Find(b, k) {
      if i :| 0 <= i < |keys| && keys[i] == k { }
    }
    assert forall k: Key :: k in a <==> Find(a, k).Some?;
    assert forall k: Key :: k in b <==> Find(b, k).Some?;
  }

  lemma OneTrie(u: Tree, w: Tree, keys: seq<Key>, values: seq<Word>)
    requires Holds(u, keys, values) && Holds(w, keys, values)
    ensures u == w
  {
    hide Formed, Contents, Names;
    SameNamed(keys, values, Contents(u), Contents(w));
    CanonUnique(u, w, 256, []);
  }

  /** Two batches get the same root exactly when they name the same map. */
  lemma SameReplyIff(keys: seq<Key>, values: seq<Word>, r: Reply, keys': seq<Key>, values': seq<Word>, r': Reply)
    requires Replies(r, keys, values) && r.Ok? && InOrder(keys)
    requires Replies(r', keys', values') && r'.Ok? && InOrder(keys')
    ensures r == r' <==> exists m :: Names(keys, values, m) && Names(keys', values', m)
  {
    hide Formed, Contents, Names, InOrder, TurnedAway, Because, Dig;
    var u :| Holds(u, keys, values);
    var w :| Holds(w, keys', values');
    if r == r' {
      DigInjective(u, w, 256);
    }
    if m :| Names(keys, values, m) && Names(keys', values', m) {
      SameNamed(keys, values, m, Contents(u));
      SameNamed(keys', values', m, Contents(w));
      CanonUnique(u, w, 256, []);
    }
  }

  class MemoryTrie {
    const smt: SMT

    ghost predicate Valid()
      reads this, smt
    {
      && smt.Valid() && smt.tree == smt.saved == Empty
      && smt.updatedNodes == map[] && smt.db == map[]
    }

    constructor ()
      ensures Valid() && fresh(smt)
    {
      var s := new SMT(None, map[], Empty);
      smt := s;
    }

    /** The reply depends on the arguments alone, whatever was asked before. */
    method Update(keys: seq<Key>, values: seq<Word>) returns (r: Reply)
      requires Valid()
      modifies smt
      ensures Valid() && r == FreshReply(keys, values) && Replies(r, keys, values)
    {
      hide Replies;
      FreshReplies(keys, values);
      r := smt.Update(keys, values);
      if r.Ok? {
        FreshInserts(Entries(keys, values));
        InsertsStay(Empty, Entries(keys, values), 256);
        smt.Discard();
      }
    }
  }
}
