/**
 The storage object over the list of epochs: its loops, proved against the walks and
 tables of `Epochs`.
 */
module Store {
  import opened Words
  import opened Params
  import opened Spans
  import opened Epochs

  /** `SetEpochs`: a new node linked between two, or after the head. */
  function SetEpochs(n: Node, p: Node, q: Option<Node>): Result<(Node, Node, Option<Node>)> {
    if !IsPreValid(n) then Err(InvalidValue)
    else if q.Some? && IsValid(p) && IsValid(q.value) && p.thisEpoch < n.thisEpoch < q.value.thisEpoch then
      Ok((n.(prevEpoch := p.thisEpoch, nextEpoch := q.value.thisEpoch),
          p.(nextEpoch := n.thisEpoch),
          Some(q.value.(prevEpoch := n.thisEpoch))))
    else if q.None? && IsHead(p) && p.thisEpoch < n.thisEpoch then
      Ok((n.(prevEpoch := p.thisEpoch, nextEpoch := n.thisEpoch), p.(nextEpoch := n.thisEpoch), None))
    else Err(InvalidValue)
  }

  class Storage {
    var nodes: Nodes
    var head: Option<nat>
    var current: Parameters
    ghost var chain: seq<nat>
    ghost var gaps: seq<nat>
    ghost var log: seq<Update>

    /** The list shows the spans of the updates taken so far, whatever they were. */
    ghost predicate Valid()
      reads this
    {
      && Due(log)
      && if head.None? then nodes == map[] && log == []
         else
           && Gapped(nodes, chain, gaps) && chain[0] == 1 && head == Some(Last(chain))
           && View(nodes, chain, gaps) == Machine(log)
    }

    constructor ()
      ensures Valid() && log == [] && current == Standard()
    {
      nodes, head, current, chain, gaps, log := map[], None, Standard(), [], [], [];
    }

    // ----- the database -----

    function GetNode(e: nat): Result<Node>
      reads this
    {
      if e == 0 then Err(ZeroEpoch)
      else if e !in nodes then Err(KeyNotPresent)
      else if !IsValid(nodes[e]) then Err(InvalidNode)
      else Ok(nodes[e])
    }

    method SetNode(n: Node) returns (ok: bool)
      modifies this`nodes
      ensures ok == IsValid(n) && nodes == if ok then old(nodes)[n.thisEpoch := n] else old(nodes)
    {
      ok := IsValid(n);
      if ok {
        nodes := nodes[n.thisEpoch := n];
      }
    }

    // ----- loading -----

    method LoadRawStorage(e: nat) returns (r: Result<Parameters>)
      requires Keyed(nodes)
      ensures e == 0 ==> r == Err(ZeroEpoch)
      ensures e > 0 && head.None? ==> r == Err(KeyNotPresent)
      ensures e > 0 && head.Some? ==> r == Load(nodes, head.value, e)
    {
      if e == 0 {
        return Err(ZeroEpoch);
      }
      if head.None? {
        return Err(KeyNotPresent);
      }
      var got := GetNode(head.value);
      if got.Err? {
        return Err(got.error);
      }
      var node := got.value;
      while true
        invariant node.thisEpoch in nodes && node == nodes[node.thisEpoch]
        invariant Load(nodes, head.value, e) == Load(nodes, node.thisEpoch, e)
        decreases node.thisEpoch
      {
        if e >= node.thisEpoch {
          return Ok(node.raw);
        }
        if IsTail(node) {
          return Err(InvalidValue);
        }
        got := GetNode(node.prevEpoch);
        if got.Err? {
          return Err(got.error);
        }
        node := got.value;
      }
    }

    /** Loads the parameters in force at an epoch: what the spans of the run give, which is
        the log replayed up to it when every update was understood, or at the head and later. */
    method LoadStorage(e: nat) returns (err: Option<Error>)
      requires Valid()
      modifies this`current
      ensures if e == 0 then err == Some(ZeroEpoch) && current == old(current)
              else err == None && current == Read(Machine(log), e)
      ensures e > 0 && (AllUnderstood(log) || Machine(log)[|Machine(log)| - 1].epoch <= e) ==>
                current == Replay(log, e)
    {
      hide Load, Machine, Read, Replay, AllUnderstood, View, Increasing, BackedAt, GapAt, Keyed;
      if head.Some? {
        if e > 0 { LoadReads(nodes, chain, gaps, e); }
      } else {
        EmptyKeyed(nodes);
      }
      if e > 0 { Answered(log, e); }
      var r := LoadRawStorage(e);
      if r.Err? {
        if r.error != KeyNotPresent {
          return Some(r.error);
        }
        current := Standard();
        return None;
      }
      current := r.value;
      return None;
    }

    // ----- adding a node -----

    /** A node after the head; refused, with nothing changed, unless it is new, the other is the
        head, and it is later.  Without a list to update, the nodes stay stored. */
    method AddNodeHead(n: Node, h: Node) returns (err: Option<Error>)
      modifies this`nodes, this`head
      ensures !(IsPreValid(n) && IsHead(h) && h.thisEpoch < n.thisEpoch) ==>
                err == Some(InvalidValue) && nodes == old(nodes) && head == old(head)
      ensures IsPreValid(n) && IsHead(h) && h.thisEpoch < n.thisEpoch ==>
                && nodes == old(nodes)[h.thisEpoch := h.(nextEpoch := n.thisEpoch)]
                                      [n.thisEpoch := Node(n.thisEpoch, h.thisEpoch, n.thisEpoch, n.raw)]
                && (if old(head).None? then err == Some(KeyNotPresent) && head == None
                    else err == None && head == Some(n.thisEpoch))
    {
      if !IsPreValid(n) || !IsValid(h) {
        return Some(InvalidValue);
      }
      if !IsHead(h) || n.thisEpoch <= h.thisEpoch {
        return Some(InvalidValue);
      }
      var (n', h', _) := SetEpochs(n, h, None).value;
      var ok := SetNode(h');
      ok := SetNode(n');
      if head.None? {
        return Some(KeyNotPresent);
      }
      head := Some(n.thisEpoch);
      return None;
    }

    /** A node between two; refused, with nothing changed, unless it is new, the others are
        valid, and it lies between them. */
    method AddNodeSplit(n: Node, p: Node, q: Node) returns (err: Option<Error>)
      modifies this`nodes
      ensures !(IsPreValid(n) && IsValid(p) && IsValid(q) && p.thisEpoch < n.thisEpoch < q.thisEpoch) ==>
                err == Some(InvalidValue) && nodes == old(nodes)
      ensures IsPreValid(n) && IsValid(p) && IsValid(q) && p.thisEpoch < n.thisEpoch < q.thisEpoch ==>
                && err == None
                && nodes == old(nodes)[p.thisEpoch := p.(nextEpoch := n.thisEpoch)]
                                      [q.thisEpoch := q.(prevEpoch := n.thisEpoch)]
                                      [n.thisEpoch := Node(n.thisEpoch, p.thisEpoch, q.thisEpoch, n.raw)]
    {
      if !IsPreValid(n) || !IsValid(p) || !IsValid(q) {
        return Some(InvalidValue);
      }
      if p.thisEpoch >= n.thisEpoch || n.thisEpoch >= q.thisEpoch {
        return Some(InvalidValue);
      }
      var (n', p', q') := SetEpochs(n, p, Some(q)).value;
      var ok := SetNode(p');
      ok := SetNode(q'.value);
      ok := SetNode(n');
      return None;
    }

    /** Adds a node anywhere past the tail; a node already there, or one before the tail, is
        refused and nothing changes.  A well-formed list stays well formed. */
    method AddNode(n: Node, ghost c: seq<nat>) returns (err: Option<Error>)
      requires Backed(nodes, c) && head == Some(Last(c))
      modifies this`nodes, this`head
      ensures !IsPreValid(n) || n.thisEpoch in c || n.thisEpoch < c[0] ==>
                err == Some(InvalidValue) && nodes == old(nodes) && head == old(head)
      ensures IsPreValid(n) && n.thisEpoch !in c && c[0] < n.thisEpoch ==>
                && err == None && nodes == Spliced(old(nodes), c, n.thisEpoch, n.raw)
                && Backed(nodes, Insert(c, n.thisEpoch)) && head == Some(Last(Insert(c, n.thisEpoch)))
                && head == Some(if Last(c) < n.thisEpoch then n.thisEpoch else Last(c))
                && (Linked(old(nodes), c) ==> Linked(nodes, Insert(c, n.thisEpoch)))
    {
      hide Spliced, Insert, Increasing, Linked, BackedAt;
      if !IsPreValid(n) {
        return Some(InvalidValue);
      }
      ghost var i := |c| - 1;
      Located(nodes, c, i);
      var cur := GetNode(head.value).value;
      if n.thisEpoch > cur.thisEpoch {
        SplicedHead(nodes, c, n.thisEpoch, n.raw);
        err := AddNodeHead(n, cur);
        return;
      }
      Ordered(nodes, c, n.thisEpoch, i);
      if n.thisEpoch == cur.thisEpoch {
        return Some(InvalidValue);
      }
      if IsTail(cur) {
        return Some(InvalidValue);
      }
      while true
        invariant nodes == old(nodes) && head == old(head)
        invariant 0 < i < |c| && c[i] in nodes && cur == nodes[c[i]] && n.thisEpoch < c[i]
        invariant cur.thisEpoch == c[i] && cur.prevEpoch == c[i - 1] && IsValid(cur)
        decreases i
      {
        Located(nodes, c, i - 1);
        Ordered(nodes, c, n.thisEpoch, i - 1);
        var prev := GetNode(cur.prevEpoch).value;
        if prev.thisEpoch < n.thisEpoch < cur.thisEpoch {
          SplicedSplit(nodes, c, n.thisEpoch, n.raw, i);
          err := AddNodeSplit(n, prev, cur);
          return;
        }
        if n.thisEpoch == prev.thisEpoch {
          return Some(InvalidValue);
        }
        if IsTail(prev) {
          return Some(InvalidValue);
        }
        cur := prev;
        i := i - 1;
      }
    }

    // ----- updating -----

    /** Rewrites `first` and every node its links lead to with the update applied. */
    method Propagate(first: Node, u: Update, ghost f: seq<nat>)
      requires Number(u).Some? && f != [] && first.thisEpoch == f[0] && Route(nodes[f[0] := first], f)
      modifies this`nodes
      ensures nodes == Touch(old(nodes)[f[0] := first], f, u)
    {
      hide Put, Number, Touch;
      var node := first;
      ghost var rest := f;
      while true
        invariant rest != [] && Route(nodes[rest[0] := node], rest)
        invariant node.thisEpoch == rest[0] && IsValid(node)
        invariant Touch(nodes[rest[0] := node], rest, u) == Touch(old(nodes)[f[0] := first], f, u)
        decreases |rest|
      {
        ghost var base := nodes[rest[0] := node];
        TouchStep(base, rest, u);
        var r := new RawStorage(node.raw);
        var ok := r.UpdateValue(u);
        node := node.(raw := r.raw);
        ok := SetNode(node);
        assert nodes == base[rest[0] := node];
        if IsHead(node) {
          return;
        }
        node := GetNode(node.nextEpoch).value;
        rest := rest[1..];
        assert nodes[rest[0] := node] == nodes;
      }
    }

    /** Finds where an update belongs by walking back from the head, adds a node there if
        none is found, and rewrites every node the links lead to. */
    method UpdateStorageValue(u: Update, ghost c: seq<nat>, ghost g: seq<nat>) returns (err: Option<Error>)
      requires Gapped(nodes, c, g) && head == Some(Last(c)) && Number(u).Some? && u.epoch > 0
      modifies this`nodes, this`head
      ensures u.epoch < c[0] ==> err == Some(InvalidUpdateValue) && nodes == old(nodes) && head == old(head)
      ensures u.epoch >= c[0] ==>
                && err == None && nodes == After(old(nodes), c, g, u)
                && head == Some(if Last(c) < u.epoch then u.epoch else Last(c))
    {
      hide Number, Put, Spliced, Insert, Increasing, Upto, Touch, After, Route, BackedAt, GapAt, From, Rest;
      Located(nodes, c, |c| - 1);
      var iter := GetNode(head.value).value;
      ghost var i := |c| - 1;
      while u.epoch < iter.thisEpoch
        invariant nodes == old(nodes) && head == old(head)
        invariant 0 <= i < |c| && c[i] in nodes && iter == nodes[c[i]] && iter.thisEpoch == c[i]
        invariant i + 1 < |c| ==> u.epoch < c[i + 1]
        decreases i
      {
        Located(nodes, c, i);
        if IsTail(iter) {
          return Some(InvalidUpdateValue);
        }
        Located(nodes, c, i - 1);
        iter := GetNode(iter.prevEpoch).value;
        i := i - 1;
      }
      Located(nodes, c, i);
      Onward(nodes, c, g, i);
      Ordered(nodes, c, u.epoch, i);
      AfterCases(nodes, c, g, u, i);
      if u.epoch == iter.thisEpoch {
        Propagate(iter, u, From(c, g, i));
        return None;
      }
      var r := new RawStorage(iter.raw);
      var ok := r.UpdateValue(u);
      var node := Node(u.epoch, 0, 0, r.raw);
      if IsHead(iter) {
        err := AddNode(node, c);
        head := Some(u.epoch);
        return None;
      }
      var first := GetNode(iter.nextEpoch).value;
      err := AddNode(node, c);
      Propagate(first, u, Rest(c, g, i));
      return None;
    }

    /** Records an update.  A refused one changes nothing; any other leaves the storage
        answering for the longer log, wherever it falls. */
    method UpdateStorage(u: Update) returns (err: Option<Error>)
      requires Valid()
      modifies this
      ensures err.Some? <==> u.epoch == 0 || Number(u).None?
      ensures err.Some? <==> u.epoch == 0 || forall n :: !Stands(u.field, u.value, n)
      ensures err.Some? ==> unchanged(this)
      ensures err.None? ==> Valid() && log == old(log) + [u]
      ensures current == old(current)
    {
      hide Stands, After, Number, ChainAfter, GapsAfter, Put, View, Step, BackedAt, GapAt, Increasing, Machine, Keyed,
           Applied, Coherent, Standard;
      if u.epoch == 0 {
        return Some(InvalidUpdateValue);
      }
      var trial := new RawStorage(Standard());
      var ok := trial.UpdateValue(u);
      if !ok {
        return Some(InvalidValue);
      }
      if head.None? {
        nodes := nodes[1 := Node(1, 1, 1, Standard())];
        head := Some(1);
        chain, gaps := [1], [1];
        CreatedView();
      }
      ghost var before, c, g := nodes, chain, gaps;
      err := UpdateStorageValue(u, c, g);
      AfterGapped(before, c, g, u);
      AfterView(before, c, g, u);
      MachineNext(log, u);
      chain, gaps, log := ChainAfter(c, g, u.epoch), GapsAfter(c, g, u.epoch), log + [u];
    }
  }

  // ----- what the walks rely on -----

  /** An epoch at or above c[i] and below everything after it is in the list only as c[i]. */
  lemma Ordered(nodes: Nodes, c: seq<nat>, e: nat, i: nat)
    requires Backed(nodes, c) && i < |c| && (i + 1 < |c| ==> e < c[i + 1])
    ensures c[i] < e ==> e !in c
    ensures c[0] <= c[i] && (i == 0 && e < c[i] ==> e < c[0] && e !in c)
  {
    assert forall j :: i < j < |c| ==> e < c[j];
    assert forall j :: 0 <= j < i ==> c[j] < c[i];
  }

  lemma SplicedHead(nodes: Nodes, c: seq<nat>, e: nat, raw: Parameters)
    requires Backed(nodes, c) && Last(c) < e
    ensures e !in c && c[0] < e && Last(c) in nodes
    ensures Spliced(nodes, c, e, raw) ==
              nodes[Last(c) := nodes[Last(c)].(nextEpoch := e)][e := Node(e, Last(c), e, raw)]
    ensures Backed(Spliced(nodes, c, e, raw), Insert(c, e)) && Last(Insert(c, e)) == e
    ensures Linked(nodes, c) ==> Linked(Spliced(nodes, c, e, raw), Insert(c, e))
  {
    hide Upto, Insert, Increasing, BackedAt, Linked, Keyed;
    NewHere(nodes, c, e, |c|);
    SplicedBacked(nodes, c, e, raw, |c|);
    InsertIncreasing(nodes, c, e, |c|);
    if Linked(nodes, c) { SplicedLinked(nodes, c, e, raw); }
  }

  lemma SplicedSplit(nodes: Nodes, c: seq<nat>, e: nat, raw: Parameters, i: nat)
    requires Backed(nodes, c) && 0 < i < |c| && c[i - 1] < e < c[i]
    ensures e !in c && c[0] < e && c[i - 1] in nodes && c[i] in nodes
    ensures Spliced(nodes, c, e, raw) ==
              nodes[c[i - 1] := nodes[c[i - 1]].(nextEpoch := e)][c[i] := nodes[c[i]].(prevEpoch := e)]
                   [e := Node(e, c[i - 1], c[i], raw)]
    ensures Backed(Spliced(nodes, c, e, raw), Insert(c, e)) && Last(Insert(c, e)) == Last(c) > e
    ensures Linked(nodes, c) ==> Linked(Spliced(nodes, c, e, raw), Insert(c, e))
  {
    hide Upto, Insert, Increasing, BackedAt, Linked, Keyed;
    NewHere(nodes, c, e, i);
    SplicedBacked(nodes, c, e, raw, i);
    InsertIncreasing(nodes, c, e, i);
    Located(nodes, c, i);
    if Linked(nodes, c) { SplicedLinked(nodes, c, e, raw); }
  }

  lemma AfterCases(nodes: Nodes, c: seq<nat>, g: seq<nat>, u: Update, i: nat)
    requires Gapped(nodes, c, g) && i < |c| && c[i] <= u.epoch && (i + 1 < |c| ==> u.epoch < c[i + 1])
    requires Number(u).Some?
    ensures c[0] <= c[i] && c[i] in nodes && (Last(c) < u.epoch <==> c[i] < u.epoch && i == |c| - 1)
    ensures c[i] == u.epoch ==>
              && From(c, g, i) != [] && From(c, g, i)[0] == c[i]
              && nodes[c[i] := nodes[c[i]]] == nodes && Route(nodes, From(c, g, i))
              && After(nodes, c, g, u) == Touch(nodes, From(c, g, i), u)
    ensures c[i] < u.epoch && i == |c| - 1 ==>
              After(nodes, c, g, u) == Spliced(nodes, c, u.epoch, Touched(nodes[c[i]].raw, u))
    ensures c[i] < u.epoch && i + 1 < |c| ==>
              var f := Rest(c, g, i);
              && f != [] && f[0] == g[i] && g[i] in nodes
              && var b := Spliced(nodes, c, u.epoch, Touched(nodes[c[i]].raw, u))[g[i] := nodes[g[i]]];
                 Route(b, f) && After(nodes, c, g, u) == Touch(b, f, u)
  {
    hide Spliced, Insert, Touched, Number, Increasing, BackedAt, Upto, Touch, From, Rest, Route, GapAt;
    UptoIs(c, u.epoch, i + 1);
    Located(nodes, c, i);
    Onward(nodes, c, g, i);
    FromRoute(nodes, c, g, i);
    Located(nodes, c, |c| - 1);
    if i + 1 < |c| { Located(nodes, c, i + 1); }
    FromStarts(c, g, i);
    if c[i] == u.epoch {
      assert nodes[c[i] := nodes[c[i]]] == nodes;
    } else if i == |c| - 1 {
      TouchNone(Joined(nodes, c, g, u), u);
    } else {
      JoinedRoute(nodes, c, g, u, i + 1);
      RouteSome(nodes, Rest(c, g, i));
    }
  }

  lemma FromStarts(c: seq<nat>, g: seq<nat>, i: nat)
    requires i < |c| == |g|
    ensures From(c, g, i) != [] && From(c, g, i)[0] == c[i] && (i == |c| - 1 ==> Rest(c, g, i) == [])
  {
  }

  lemma RouteSome(nodes: Nodes, f: seq<nat>)
    requires Route(nodes, f)
    ensures f != []
  {
  }

  lemma TouchNone(nodes: Nodes, u: Update)
    requires Number(u).Some?
    ensures Touch(nodes, [], u) == nodes
  {
  }

  /** The splice and the node written back leave the way on as it was. */
  lemma JoinedRoute(nodes: Nodes, c: seq<nat>, g: seq<nat>, u: Update, k: nat)
    requires Gapped(nodes, c, g) && NewAt(nodes, c, u.epoch, k) && k < |c| && Number(u).Some?
    ensures c[0] <= u.epoch && Route(Joined(nodes, c, g, u), Rest(c, g, k - 1))
  {
    hide Joined, Increasing, BackedAt, Upto, Touched, Number, From, Rest, Route, GapAt;
    var f := Rest(c, g, k - 1);
    FromRoute(nodes, c, g, k - 1);
    JoinedKeyed(nodes, c, g, u, k);
    var b := Joined(nodes, c, g, u);
    forall x | x in f && x in nodes
      ensures x in b && b[x].nextEpoch == nodes[x].nextEpoch
    {
      RouteAbove(nodes, f, x);
      NewHere(nodes, c, u.epoch, k);
      PathBelow(nodes, c, g, u.epoch, k, u.epoch);
      JoinedGet(nodes, c, g, u, k, x);
    }
    RouteSame(nodes, b, f);
  }

  lemma {:induction false} RouteSame(nodes: Nodes, b: Nodes, f: seq<nat>)
    requires Route(nodes, f) && Keyed(b)
    requires forall x <- f :: x in nodes ==> x in b && b[x].nextEpoch == nodes[x].nextEpoch
    ensures Route(b, f)
  {
    assert f[0] in f;
    if |f| > 1 {
      RouteSame(nodes, b, f[1..]);
    }
  }

  // ----- the list at the start, and reads -----

  /** The list `CreateLinkedList` makes. */
  lemma CreatedView()
    ensures var nodes := map[1 := Node(1, 1, 1, Standard())];
            Gapped(nodes, [1], [1]) && View(nodes, [1], [1]) == Machine([])
  {
    var nodes: Nodes := map[1 := Node(1, 1, 1, Standard())];
    assert BackedAt(nodes, [1], 0) && GapAt(nodes, [1], [1], 0);
  }

  lemma EmptyKeyed(nodes: Nodes)
    requires nodes == map[]
    ensures Keyed(nodes)
  {
  }

  lemma Answered(log: seq<Update>, e: nat)
    requires Due(log) && e > 0
    ensures log == [] ==> Read(Machine(log), e) == Standard()
    ensures AllUnderstood(log) || Machine(log)[|Machine(log)| - 1].epoch <= e ==>
              Read(Machine(log), e) == Replay(log, e)
  {
    hide Machine, Read, Replay, AllUnderstood, Understood;
    if log == [] { AtFirst(e); }
    if AllUnderstood(log) { RunIff(log); }
    if Machine(log)[|Machine(log)| - 1].epoch <= e { TopAnswers(log, e); }
  }

  lemma AtFirst(e: nat)
    requires e > 0
    ensures Read(Machine([]), e) == Standard()
  {
    BegunIs(Machine([]), e, 1);
  }

  lemma MachineNext(log: seq<Update>, u: Update)
    requires Due(log) && u.epoch > 0 && Number(u).Some?
    ensures Due(log + [u]) && Machine(log + [u]) == Step(Machine(log), u)
  {
    hide Step, Number;
    assert (log + [u])[..|log|] == log;
  }
}
