/**
 What the parameter list amounts to in every run: spans of epochs with their parameters,
 each followed by at most one hidden node.  An update strictly between two nodes makes a
 node that no walk back finds; a second one in the same gap makes one that is found.
 */
module Spans {
  import opened Words
  import opened Numerals
  import opened Params

  datatype Hidden = Hidden(epoch: nat, raw: Parameters)

  /** A node that walks back find, and the node hidden behind it, if any. */
  datatype Span = Span(epoch: nat, raw: Parameters, hidden: Option<Hidden>)

  predicate InOrder(m: seq<Span>) {
    forall i, j :: 0 <= i < j < |m| ==> m[i].epoch < m[j].epoch
  }

  /** How many spans have begun by epoch `e`. */
  function Begun(m: seq<Span>, e: nat): (k: nat)
    ensures k <= |m|
    ensures forall i :: 0 <= i < k ==> m[i].epoch <= e
    ensures k < |m| ==> e < m[k].epoch
  {
    if m == [] || e < m[0].epoch then 0 else 1 + Begun(m[1..], e)
  }

  lemma BegunIndex(m: seq<Span>, e: nat, i: nat)
    requires InOrder(m) && i < |m|
    ensures m[i].epoch <= e <==> i < Begun(m, e)
  {
  }

  /** The parameters of the last span begun. */
  function Read(m: seq<Span>, e: nat): Parameters
    requires m != [] && m[0].epoch <= e
  {
    m[Begun(m, e) - 1].raw
  }

  // ----- one update -----

  function Touched(r: Parameters, u: Update): Parameters
    requires Number(u).Some?
  {
    Put(r, u.field, Number(u).value)
  }

  function TouchedSpan(x: Span, u: Update): Span
    requires Number(u).Some?
  {
    Span(x.epoch, Touched(x.raw, u),
         if x.hidden.None? then None else Some(Hidden(x.hidden.value.epoch, Touched(x.hidden.value.raw, u))))
  }

  /** An update falls on a span, past the last one, into a gap, or into a gap where something
      is hidden already. */
  datatype Fall = On | Past | Gap | Taken

  function FallOf(m: seq<Span>, u: Update): Fall
    requires m != [] && m[0].epoch <= u.epoch
  {
    var k := Begun(m, u.epoch);
    if m[k - 1].epoch == u.epoch then On
    else if k == |m| then Past
    else if m[k - 1].hidden.None? then Gap
    else Taken
  }

  /** On a span it changes that one and all after it; past the last one it adds a span.  Into
      a gap it is hidden, and changes all after it; where something is hidden already it adds
      a span and drops what was hidden, unless that has the same epoch. */
  function SpanAfter(m: seq<Span>, u: Update, i: nat): Span
    requires m != [] && m[0].epoch <= u.epoch && Number(u).Some?
    requires i < |m| || (i == |m| && FallOf(m, u) in {Past, Taken})
  {
    var k := Begun(m, u.epoch);
    var p := m[k - 1];
    match FallOf(m, u)
    case On => if i < k - 1 then m[i] else TouchedSpan(m[i], u)
    case Past => if i < k then m[i] else Span(u.epoch, Touched(p.raw, u), None)
    case Gap =>
      if i < k - 1 then m[i]
      else if i == k - 1 then p.(hidden := Some(Hidden(u.epoch, Touched(p.raw, u))))
      else TouchedSpan(m[i], u)
    case Taken =>
      var x := p.hidden.value;
      if i < k - 1 then m[i]
      else if i == k - 1 then p.(hidden := None)
      else if i == k then Span(u.epoch, Touched(if x.epoch == u.epoch then x.raw else p.raw, u), None)
      else TouchedSpan(m[i - 1], u)
  }

  function Step(m: seq<Span>, u: Update): seq<Span>
    requires m != [] && m[0].epoch <= u.epoch && Number(u).Some?
  {
    var n := if FallOf(m, u) in {Past, Taken} then |m| + 1 else |m|;
    seq(n, i requires 0 <= i < n => SpanAfter(m, u, i))
  }

  /** What a read gives after an update, against what it gave before. */
  function Heard(m: seq<Span>, u: Update, e: nat): Parameters
    requires m != [] && m[0].epoch <= u.epoch && m[0].epoch <= e && Number(u).Some?
  {
    var k := Begun(m, u.epoch);
    if e < u.epoch then Read(m, e)
    else if k < |m| && e < m[k].epoch && FallOf(m, u) == Gap then Read(m, e)
    else if k < |m| && e < m[k].epoch && FallOf(m, u) == Taken && m[k - 1].hidden.value.epoch == u.epoch then
      Touched(m[k - 1].hidden.value.raw, u)
    else Touched(Read(m, e), u)
  }

  lemma BegunIs(m: seq<Span>, e: nat, k: nat)
    requires InOrder(m) && k <= |m| && (k > 0 ==> m[k - 1].epoch <= e) && (k < |m| ==> e < m[k].epoch)
    ensures Begun(m, e) == k
  {
    if k > 0 { BegunIndex(m, e, k - 1); }
    if k < |m| { BegunIndex(m, e, k); }
  }

  /** The first epoch, and the order of the spans, are kept. */
  lemma StepInOrder(m: seq<Span>, u: Update)
    requires InOrder(m) && m != [] && m[0].epoch <= u.epoch && Number(u).Some?
    ensures InOrder(Step(m, u)) && Step(m, u) != [] && Step(m, u)[0].epoch == m[0].epoch
  {
    hide Touched;
  }

  /** Reads after an update, at every epoch. */
  lemma StepReads(m: seq<Span>, u: Update, e: nat)
    requires InOrder(m) && m != [] && m[0].epoch <= u.epoch && m[0].epoch <= e && Number(u).Some?
    ensures Step(m, u) != [] && Step(m, u)[0].epoch == m[0].epoch
    ensures Read(Step(m, u), e) == Heard(m, u, e)
  {
    hide Touched, InOrder, Begun, SpanAfter, Heard;
    StepInOrder(m, u);
    var n, s := Begun(m, e), Step(m, u);
    BegunOrder(m, u.epoch, e);
    var j := if |s| > |m| && u.epoch <= e then n + 1 else n;
    StepEpoch(m, u, e, j - 1);
    if j < |s| { StepEpoch(m, u, e, j); }
    BegunIs(s, e, j);
    StepRaw(m, u, e, j - 1);
  }

  /** Which spans of a step have begun by an epoch. */
  lemma StepEpoch(m: seq<Span>, u: Update, e: nat, i: nat)
    requires InOrder(m) && m != [] && m[0].epoch <= u.epoch && m[0].epoch <= e && Number(u).Some? && i < |Step(m, u)|
    ensures Step(m, u)[i].epoch <= e <==>
              i < if |Step(m, u)| > |m| && u.epoch <= e then Begun(m, e) + 1 else Begun(m, e)
  {
    hide Touched, InOrder, Begun;
    BegunOrder(m, u.epoch, e);
  }

  lemma StepRaw(m: seq<Span>, u: Update, e: nat, i: nat)
    requires InOrder(m) && m != [] && m[0].epoch <= u.epoch && m[0].epoch <= e && Number(u).Some? && i < |Step(m, u)|
    requires i + 1 == if |Step(m, u)| > |m| && u.epoch <= e then Begun(m, e) + 1 else Begun(m, e)
    ensures Step(m, u)[i].raw == Heard(m, u, e)
  {
    hide Touched, InOrder, Begun;
    BegunOrder(m, u.epoch, e);
  }

  lemma BegunOrder(m: seq<Span>, a: nat, b: nat)
    requires InOrder(m) && m != [] && m[0].epoch <= a && m[0].epoch <= b
    ensures 0 < Begun(m, a) && 0 < Begun(m, b) && (a <= b ==> Begun(m, a) <= Begun(m, b))
    ensures b < a ==> Begun(m, b) <= Begun(m, a) && (m[Begun(m, a) - 1].epoch == a ==> Begun(m, b) < Begun(m, a))
    ensures forall i :: 0 <= i < |m| ==> (m[i].epoch <= a <==> i < Begun(m, a))
    ensures forall i :: 0 <= i < |m| ==> (m[i].epoch <= b <==> i < Begun(m, b))
  {
    forall i | 0 <= i < |m|
      ensures (m[i].epoch <= a <==> i < Begun(m, a)) && (m[i].epoch <= b <==> i < Begun(m, b))
    {
      BegunIndex(m, a, i);
      BegunIndex(m, b, i);
    }
  }

  // ----- whole runs -----

  predicate Due(log: seq<Update>) {
    forall i :: 0 <= i < |log| ==> log[i].epoch > 0 && Number(log[i]).Some?
  }

  /** The spans any run of updates leads to, from the standard parameters at epoch 1. */
  function Machine(log: seq<Update>): (m: seq<Span>)
    requires Due(log)
    ensures InOrder(m) && m != [] && m[0].epoch == 1
  {
    if log == [] then [Span(1, Standard(), None)]
    else
      var n := |log| - 1;
      StepInOrder(Machine(log[..n]), log[n]);
      Step(Machine(log[..n]), log[n])
  }

  /** Every epoch is answered with the log replayed up to it. */
  ghost predicate Answers(m: seq<Span>, log: seq<Update>)
    requires m != [] && m[0].epoch == 1
  {
    forall e: nat :: e >= 1 ==> Read(m, e) == Replay(log, e)
  }

  lemma ReplayNext(log: seq<Update>, u: Update, e: nat)
    requires Number(u).Some?
    ensures Replay(log + [u], e) == if u.epoch <= e then Touched(Replay(log, e), u) else Replay(log, e)
  {
    assert (log + [u])[..|log|] == log;
  }

  /** The update takes effect from its own epoch on: it does not fall into a gap, or changes
      nothing there; and what it uncovers, if anything, comes to the same. */
  predicate Understood(m: seq<Span>, u: Update)
    requires m != [] && m[0].epoch <= u.epoch && Number(u).Some?
  {
    var p := m[Begun(m, u.epoch) - 1];
    match FallOf(m, u)
    case On => true
    case Past => true
    case Gap => Touched(p.raw, u) == p.raw
    case Taken => p.hidden.value.epoch == u.epoch ==> Touched(p.hidden.value.raw, u) == Touched(p.raw, u)
  }

  lemma HeardIff(m: seq<Span>, u: Update)
    requires InOrder(m) && m != [] && m[0].epoch == 1 && u.epoch > 0 && Number(u).Some?
    ensures Understood(m, u) <==>
              forall e: nat :: e >= 1 ==> Heard(m, u, e) == if u.epoch <= e then Touched(Read(m, e), u) else Read(m, e)
  {
    hide Touched, InOrder, Begun;
    var k := Begun(m, u.epoch);
    forall e: nat | e >= 1
      ensures k < |m| && u.epoch <= e < m[k].epoch ==> Read(m, e) == m[k - 1].raw
    {
      BegunOrder(m, u.epoch, e);
    }
    BegunOrder(m, u.epoch, u.epoch);
    assert Heard(m, u, u.epoch) == Touched(Read(m, u.epoch), u) <==> Understood(m, u);
  }

  /** One update in any run whose answers were right so far: they stay right, at every epoch,
      exactly when the update is understood. */
  lemma UpdateIff(m: seq<Span>, log: seq<Update>, u: Update)
    requires InOrder(m) && m != [] && m[0].epoch == 1 && u.epoch > 0 && Number(u).Some? && Answers(m, log)
    ensures Step(m, u) != [] && Step(m, u)[0].epoch == 1
    ensures Answers(Step(m, u), log + [u]) <==> Understood(m, u)
  {
    hide Touched, InOrder, Begun, Heard, Understood, Replay, Read, Step;
    StepReads(m, u, 1);
    HeardIff(m, u);
    var s := Step(m, u);
    forall e: nat | e >= 1
      ensures Read(s, e) == Heard(m, u, e)
      ensures Replay(log + [u], e) == if u.epoch <= e then Touched(Read(m, e), u) else Read(m, e)
    {
      StepReads(m, u, e);
      ReplayNext(log, u, e);
      assert Read(m, e) == Replay(log, e);
    }
  }

  /** Every update of the run is understood when it arrives. */
  predicate AllUnderstood(log: seq<Update>)
    requires Due(log)
  {
    var n := |log| - 1;
    log != [] ==> AllUnderstood(log[..n]) && Understood(Machine(log[..n]), log[n])
  }

  /** After every update of the run, every epoch is answered with the replay. */
  ghost predicate AlwaysAnswers(log: seq<Update>)
    requires Due(log)
  {
    Answers(Machine(log), log) && (log != [] ==> AlwaysAnswers(log[..|log| - 1]))
  }

  /** Whole runs: the answers are right throughout exactly when every update was understood. */
  lemma {:induction false} RunIff(log: seq<Update>)
    requires Due(log)
    ensures AlwaysAnswers(log) <==> AllUnderstood(log)
  {
    hide Understood, Step, Read, Replay, Answers;
    if log == [] {
      Nothing();
    } else {
      var n := |log| - 1;
      RunIff(log[..n]);
      assert log[..n] + [log[n]] == log;
      if Answers(Machine(log[..n]), log[..n]) { UpdateIff(Machine(log[..n]), log[..n], log[n]); }
    }
  }

  lemma Nothing()
    ensures Answers(Machine([]), [])
  {
    forall e: nat | e >= 1 ensures Read(Machine([]), e) == Replay([], e) {
      BegunIs(Machine([]), e, 1);
    }
  }

  /** At the last span or past it every run whatever is answered with the replay. */
  lemma {:induction false} TopAnswers(log: seq<Update>, e: nat)
    requires Due(log) && Machine(log)[|Machine(log)| - 1].epoch <= e
    ensures 1 <= e && Read(Machine(log), e) == Replay(log, e)
  {
    hide Touched, Replay, Read, Step, InOrder, Begun;
    if log == [] {
      BegunIs([Span(1, Standard(), None)], e, 1);
      Nothing();
    } else {
      var n := |log| - 1;
      var m, u := Machine(log[..n]), log[n];
      StepTop(m, u);
      StepReads(m, u, e);
      TopHeard(m, u, e);
      TopAnswers(log[..n], e);
      ReplayNext(log[..n], u, e);
      assert log[..n] + [u] == log;
    }
  }

  lemma StepTop(m: seq<Span>, u: Update)
    requires InOrder(m) && m != [] && m[0].epoch <= u.epoch && Number(u).Some?
    ensures var s := Step(m, u);
            s != [] && u.epoch <= s[|s| - 1].epoch && m[|m| - 1].epoch <= s[|s| - 1].epoch
  {
    hide Touched, Begun, InOrder;
    BegunOrder(m, u.epoch, u.epoch);
  }

  lemma TopHeard(m: seq<Span>, u: Update, e: nat)
    requires InOrder(m) && m != [] && m[0].epoch <= u.epoch <= e && m[|m| - 1].epoch <= e && Number(u).Some?
    ensures Heard(m, u, e) == Touched(Read(m, e), u)
  {
    hide Touched;
    var k := Begun(m, u.epoch);
    assert k < |m| ==> m[k].epoch <= m[|m| - 1].epoch;
  }

  /** Updates at spans or past the last one are always understood. */
  lemma {:induction false} NeverInGaps(log: seq<Update>)
    requires Due(log)
    requires forall i :: 0 <= i < |log| ==> Due(log[..i]) && FallOf(Machine(log[..i]), log[i]) in {On, Past}
    ensures AllUnderstood(log)
  {
    if log != [] {
      var n := |log| - 1;
      forall i | 0 <= i < n ensures log[..n][..i] == log[..i] { }
      NeverInGaps(log[..n]);
    }
  }

  // ----- gaps -----

  /** Two updates into one gap: at different epochs only the second takes effect before the
      gap ends, at the same epoch both do. */
  lemma TwoInGap(m: seq<Span>, u: Update, v: Update, e: nat)
    requires InOrder(m) && m != [] && m[0].epoch <= u.epoch && Number(u).Some? && Number(v).Some?
    requires FallOf(m, u) == Gap && m[Begun(m, u.epoch) - 1].epoch < v.epoch <= e < m[Begun(m, u.epoch)].epoch
    ensures Step(m, u) != [] && Step(m, u)[0].epoch == m[0].epoch && FallOf(Step(m, u), v) == Taken
    ensures Read(Step(Step(m, u), v), e) ==
              Touched(if u.epoch == v.epoch then Touched(Read(m, e), u) else Read(m, e), v)
  {
    hide Touched, InOrder, Begun, Step;
    var k, s := Begun(m, u.epoch), Step(m, u);
    StepInOrder(m, u);
    GapStep(m, u);
    BegunIs(m, e, k);
    BegunIs(s, v.epoch, k);
    BegunIs(s, e, k);
    StepReads(s, v, e);
  }

  lemma GapStep(m: seq<Span>, u: Update)
    requires m != [] && m[0].epoch <= u.epoch && Number(u).Some? && FallOf(m, u) == Gap
    ensures var k, s := Begun(m, u.epoch), Step(m, u);
            && |s| == |m| && k < |m| && s[k].epoch == m[k].epoch
            && s[k - 1] == m[k - 1].(hidden := Some(Hidden(u.epoch, Touched(m[k - 1].raw, u))))
  {
    hide Touched, Begun;
  }

  const LATER := Update(MaxBytes, "7", 5)
  const SOONER := Update(MaxBytes, "8", 3)

  lemma Readable()
    ensures Number(LATER) == Some(7) && Number(SOONER) == Some(8)
  {
    assert Digits("7") == Some(7) && Digits("8") == Some(8);
  }

  /** An update past the head, from the start. */
  lemma FirstPast(u: Update)
    requires u.epoch > 1 && Number(u).Some?
    ensures Due([u]) && Machine([u]) == [Span(1, Standard(), None), Span(u.epoch, Touched(Standard(), u), None)]
  {
    hide Touched;
    assert [u][..0] == [];
    BegunIs(Machine([]), u.epoch, 1);
  }

  /** With an update at epoch 5 taken, one at epoch 3 never takes effect there. */
  lemma BetweenCanLose()
    ensures Number(LATER).Some? && Number(SOONER).Some?
    ensures Answers(Machine([LATER]), [LATER])
    ensures !Answers(Machine([LATER] + [SOONER]), [LATER] + [SOONER])
  {
    hide Begun, Replay, Read, Step, Machine, Answers, Number;
    Readable();
    Lost(LATER, SOONER);
  }

  lemma Lost(a: Update, b: Update)
    requires 1 < b.epoch < a.epoch && Number(a).Some? && Number(b).Some? && Touched(Standard(), b) != Standard()
    ensures Due([a]) && Due([a] + [b]) && Answers(Machine([a]), [a]) && !Answers(Machine([a] + [b]), [a] + [b])
  {
    hide Touched, Begun, Replay, Read, Step, Answers;
    FirstPast(a);
    var m := Machine([a]);
    assert [] + [a] == [a] && [a][..0] == [];
    Nothing();
    BegunIs(Machine([]), a.epoch, 1);
    UpdateIff(Machine([]), [], a);
    BegunIs(m, b.epoch, 1);
    assert ([a] + [b])[..1] == [a];
    UpdateIff(m, [a], b);
  }
}
