/**
 Runs of requests.  While every clash settles, a run does to the trie, and answers, what it
 does to a plain map and what that would answer.
 */
module Runs {
  import opened Words
  import opened Trees
  import opened Updates
  import opened Requests
  import opened Reads
  import opened Smt

  predicate Accepted(t: Tree, q: Request)
    requires Tidy(t, 256)
  {
    Verdict(t, q.keys, q.values).None?
  }

  function Next(t: Tree, q: Request): (u: Tree)
    requires Tidy(t, 256)
    ensures Tidy(u, 256)
  {
    if Accepted(t, q) then Apply(t, Entries(q.keys, q.values), 256).t else t
  }

  function After(t: Tree, qs: seq<Request>): (u: Tree)
    requires Tidy(t, 256)
    ensures Tidy(u, 256)
  {
    if qs == [] then t else Next(After(t, qs[..|qs| - 1]), qs[|qs| - 1])
  }

  predicate AllInOrder(qs: seq<Request>) {
    forall i :: 0 <= i < |qs| ==> InOrder(qs[i].keys)
  }

  /** What the same requests do to a plain map. */
  function MapNext(m: map<Key, Word>, q: Request): map<Key, Word> {
    if TurnedAway(m, q.keys, q.values) then m else Updated(m, Entries(q.keys, q.values))
  }

  function MapRun(m: map<Key, Word>, qs: seq<Request>): map<Key, Word> {
    if qs == [] then m else MapNext(MapRun(m, qs[..|qs| - 1]), qs[|qs| - 1])
  }

  /** Every clash of every request that is accepted settles. */
  predicate TameRun(t: Tree, qs: seq<Request>, strict: bool)
    requires Tidy(t, 256)
  {
    var n := |qs| - 1;
    qs != [] ==> TameRun(t, qs[..n], strict) && TameStep(After(t, qs[..n]), qs[n], strict)
  }

  predicate TameStep(t: Tree, q: Request, strict: bool)
    requires Tidy(t, 256)
  {
    Accepted(t, q) ==> Tame(t, Entries(q.keys, q.values), 256, strict)
  }

  /** One request, accepted or not, against the plain map. */
  lemma StepIsMap(t: Tree, q: Request)
    requires Homed(t, 256, []) && Tidy(t, 256) && InOrder(q.keys)
    ensures Contents(Next(t, q)) == MapNext(Contents(t), q)
    ensures Homed(Next(t, q), 256, []) <==> TameStep(t, q, false)
    ensures Canon(t, 256, []) && TameStep(t, q, true) ==> Canon(Next(t, q), 256, [])
  {
    hide Formed, Apply, Tame, Contents, Updated, Sorted, Less, InOrder, Refuses, FirstRefusal;
    VerdictIff(t, q.keys, q.values);
    if Accepted(t, q) {
      EntriesSorted(q.keys, q.values);
      RequestMet(t, Entries(q.keys, q.values));
    }
  }

  /** A run whose clashes settle does to a trie, and to every read of it, what it does to a
      plain map; if they settle in the strict sense, a canonical trie stays canonical. */
  lemma {:induction false} RunIsMap(t: Tree, qs: seq<Request>)
    requires Homed(t, 256, []) && Tidy(t, 256) && AllInOrder(qs) && TameRun(t, qs, false)
    ensures var u := After(t, qs);
            && Homed(u, 256, []) && Contents(u) == MapRun(Contents(t), qs)
            && (forall k: Key :: Lookup(u, k, 256) == Find(MapRun(Contents(t), qs), k))
            && (Canon(t, 256, []) && TameRun(t, qs, true) ==> Canon(u, 256, []))
  {
    hide Formed, TameStep, Contents, Lookup, Next, MapNext, InOrder;
    if qs != [] {
      RunIsMap(t, qs[..|qs| - 1]);
      StepIsMap(After(t, qs[..|qs| - 1]), qs[|qs| - 1]);
    }
    var u := After(t, qs);
    forall k: Key ensures Lookup(u, k, 256) == Find(Contents(u), k) { LookupIsFind(u, 256, [], k); }
  }

  /** The keys lie on their paths after every request of the run. */
  predicate HomedRun(t: Tree, qs: seq<Request>)
    requires Tidy(t, 256)
  {
    Homed(After(t, qs), 256, []) && (qs != [] ==> HomedRun(t, qs[..|qs| - 1]))
  }

  /** They do exactly when every clash settles. */
  lemma {:induction false} HomedRunIff(t: Tree, qs: seq<Request>)
    requires Homed(t, 256, []) && Tidy(t, 256) && AllInOrder(qs)
    ensures HomedRun(t, qs) <==> TameRun(t, qs, false)
  {
    hide Formed, TameStep, Next, InOrder;
    if qs != [] {
      HomedRunIff(t, qs[..|qs| - 1]);
      var u := After(t, qs[..|qs| - 1]);
      if Homed(u, 256, []) { StepIsMap(u, qs[|qs| - 1]); }
    }
  }

  /** The reply to a request is what a plain map says: refused for its reason, or not. */
  ghost predicate Answers(r: Reply, m: map<Key, Word>, q: Request) {
    && (r.Refused? <==> TurnedAway(m, q.keys, q.values))
    && forall why :: r == Refused(why) <==> Because(m, q.keys, q.values, why)
  }

  ghost predicate Answered(rs: seq<Reply>, m: map<Key, Word>, qs: seq<Request>) {
    |rs| == |qs| && forall i :: 0 <= i < |qs| ==> Answers(rs[i], MapRun(m, qs[..i]), qs[i])
  }

  lemma AnsweredMore(rs: seq<Reply>, m: map<Key, Word>, qs: seq<Request>, q: Request, r: Reply)
    requires Answered(rs, m, qs) && Answers(r, MapRun(m, qs), q)
    ensures Answered(rs + [r], m, qs + [q])
  {
    hide Answers, MapRun;
    forall i | 0 <= i <= |qs| ensures Answers((rs + [r])[i], MapRun(m, (qs + [q])[..i]), (qs + [q])[i]) {
      assert (qs + [q])[..i] == qs[..i];
      if i == |qs| { assert qs[..i] == qs; }
    }
  }

  lemma AfterMore(t: Tree, qs: seq<Request>, q: Request)
    requires Tidy(t, 256)
    ensures After(t, qs + [q]) == Next(After(t, qs), q)
  {
    assert (qs + [q])[..|qs|] == qs;
  }

  /** A trie object put through any run of requests whose clashes settle answers, to requests
      and to reads, as a plain map does. */
  method Serve(s: SMT, qs: seq<Request>) returns (rs: seq<Reply>)
    requires s.Valid() && Homed(s.tree, 256, []) && AllInOrder(qs) && TameRun(s.tree, qs, false)
    modifies s
    ensures s.Valid() && Answered(rs, Contents(old(s.tree)), qs)
    ensures forall k: Key :: s.Get(k) == Found(Find(MapRun(Contents(old(s.tree)), qs), k))
    ensures Canon(old(s.tree), 256, []) && TameRun(old(s.tree), qs, true) ==>
              Rooted(s.root, MapRun(Contents(old(s.tree)), qs))
  {
    hide Formed, Tame, TameStep, Contents, Lookup, InOrder, Apply, Verdict, TurnedAway, Because, Reads.Get, Updated,
         After, MapRun, TameRun, Answered, Find, Rooted;
    rs := [];
    ghost var t := s.tree;
    Nothing(t);
    for i := 0 to |qs|
      invariant s.Valid() && s.tree == After(t, qs[..i]) && Answered(rs, Contents(t), qs[..i])
    {
      assert qs[..i + 1] == qs[..i] + [qs[i]];
      TamePrefix(t, qs, i);
      RunIsMap(t, qs[..i]);
      assert InOrder(qs[i].keys);
      AfterMore(t, qs[..i], qs[i]);
      var r := s.Update(qs[i].keys, qs[i].values);
      AnsweredMore(rs, Contents(t), qs[..i], qs[i], r);
      rs := rs + [r];
    }
    assert qs[..|qs|] == qs;
    RunIsMap(t, qs);
    if Canon(s.tree, 256, []) { RootedAt(s.tree); }
    forall k: Key ensures s.Get(k) == Found(Find(MapRun(Contents(t), qs), k)) { s.GetAnswers(k); }
  }

  /** The root of the canonical trie of a map. */
  ghost predicate Rooted(root: Option<Word>, m: map<Key, Word>) {
    forall u :: Canon(u, 256, []) && Tidy(u, 256) && Contents(u) == m ==> root == RootOf(u)
  }

  lemma RootedAt(t: Tree)
    requires Canon(t, 256, []) && Tidy(t, 256)
    ensures Rooted(RootOf(t), Contents(t))
  {
    hide Formed, Contents, Dig;
    forall u | Canon(u, 256, []) && Tidy(u, 256) && Contents(u) == Contents(t) ensures RootOf(u) == RootOf(t) {
      CanonUnique(u, t, 256, []);
    }
  }

  lemma Nothing(t: Tree)
    requires Tidy(t, 256)
    ensures After(t, []) == t && Answered([], Contents(t), [])
  {
  }

  lemma {:induction false} TamePrefix(t: Tree, qs: seq<Request>, i: nat)
    requires Tidy(t, 256) && AllInOrder(qs) && TameRun(t, qs, false) && i <= |qs|
    ensures TameRun(t, qs[..i], false) && AllInOrder(qs[..i])
  {
    hide TameStep, InOrder;
    if i < |qs| {
      var n := |qs| - 1;
      TamePrefix(t, qs[..n], i);
      assert qs[..n][..i] == qs[..i];
    } else {
      assert qs[..i] == qs;
    }
  }
}
