/**
 The controller of one peer's request workers: a loop that reads reports, starts and
 stops workers, backs off and finally asks for the peer to be closed.  Its blocking
 points, the workers and everybody who reports are interleaved by an arbitrary schedule.
 */
module Workers {

  datatype Report = Done | Deadline | Failed

  /** Where the controller stands: at the head of its loop, offering a kill, or asleep. */
  datatype Phase = AtHead | Killing | Waiting | Stopped

  datatype Event =
    | Send(report: Report)             // anybody puts a report on the channel
    | Begin(worker: nat)               // an idle worker takes a request
    | Finish(worker: nat)              // a busy worker is done with it
    | Leave(worker: nat)               // a worker sees the close channel
    | Take                             // the controller reads a report
    | Kill(worker: nat)                // an idle worker receives the kill
    | Wake                             // the back-off time is over
    | Close                            // the close channel is closed
    | Stop                             // the controller sees the close channel

  function Deadlines(s: seq<Report>): nat {
    if s == [] then 0 else Deadlines(s[..|s| - 1]) + if s[|s| - 1] == Deadline then 1 else 0
  }

  function DeadlinesSent(s: seq<Event>): nat {
    if s == [] then 0 else DeadlinesSent(s[..|s| - 1]) + if s[|s| - 1] == Send(Deadline) then 1 else 0
  }

  lemma {:induction false} DeadlinesFirst(s: seq<Report>)
    requires s != []
    ensures Deadlines(s) == Deadlines(s[1..]) + if s[0] == Deadline then 1 else 0
  {
    if |s| > 1 {
      DeadlinesFirst(s[..|s| - 1]);
      assert s[..|s| - 1][1..] == s[1..][..|s| - 2];
    }
  }

  lemma DeadlinesMore(s: seq<Report>, r: Report)
    ensures Deadlines(s + [r]) == Deadlines(s) + if r == Deadline then 1 else 0
  {
    assert (s + [r])[..|s|] == s;
  }

  const MAX_BACKOFF := 10

  /** Deadline reports still needed before the back-off can be at its maximum. */
  function Needed(errMetric: int, numWorkers: int, backoff: int, phase: Phase): int {
    (if errMetric < 0 then errMetric else 0) + numWorkers * (numWorkers + 1) + 2 * (9 - backoff)
    + if phase == Waiting then 2 else 0
  }

  class Bus {
    const maxRequestWorkers: int
    var errMetric: int
    var numWorkers: int
    var backoff: int
    var metric: seq<Report>
    var workers: map<nat, bool>     // live request workers, and whether each is busy
    var nextWorker: nat
    var phase: Phase
    var closed: bool
    var asked: bool                 // the controller has asked for the peer to be closed
    ghost var sent: nat             // deadline reports sent, absorbed and seen at the maximum
    ghost var absorbed: nat
    ghost var ignored: nat

    function Limit(): int {
      if maxRequestWorkers < 2 then 2 else maxRequestWorkers
    }

    /** At the head of the loop there is a worker, no more than the limit, each of them
        alive, and the metric is short of either threshold; the back-off is at most ten. */
    ghost predicate Controlled()
      reads this
    {
      && (match phase
          case AtHead => 1 <= numWorkers <= Limit() && -2 * numWorkers < errMetric < 2 * numWorkers
          case Killing => 0 <= numWorkers < Limit() && errMetric == 0 && backoff < MAX_BACKOFF
          case Waiting => numWorkers == 0 && errMetric == 0 && 0 < backoff
          case Stopped => closed)
      && 0 <= backoff <= MAX_BACKOFF
      && (phase == AtHead && backoff == MAX_BACKOFF ==> numWorkers == 1 && errMetric >= 0)
      && (!closed ==> |workers| == numWorkers + if phase == Killing then 1 else 0)
      && (forall w <- workers :: w < nextWorker)
      && (phase != Stopped ==> Needed(errMetric, numWorkers, backoff, phase) + absorbed >= 24)
      && (asked <==> ignored > 0)
      && (asked ==> absorbed >= 24)
    }

    /** Every deadline report sent was absorbed, was seen at the maximum, or is queued. */
    ghost predicate Accounted()
      reads this
    {
      sent == absorbed + ignored + Deadlines(metric)
    }

    constructor (reqCount: int)
      ensures Controlled() && Accounted() && maxRequestWorkers == reqCount && sent == 0 && !asked && !closed
      ensures phase == AtHead && numWorkers == 2 && metric == [] && errMetric == 0 && backoff == 0 && absorbed == 0
      ensures forall w <- workers :: !workers[w]
    {
      maxRequestWorkers := reqCount;
      errMetric, numWorkers, backoff, metric := 0, 2, 0, [];
      workers, nextWorker := map[0 := false, 1 := false], 2;
      phase, closed, asked := AtHead, false, false;
      sent, absorbed, ignored := 0, 0, 0;
    }

    // ----- the controller -----

    method StartWorker()
      requires forall w <- workers :: w < nextWorker
      modifies this`numWorkers, this`workers, this`nextWorker
      ensures numWorkers == old(numWorkers) + 1 && nextWorker == old(nextWorker) + 1
      ensures workers == old(workers)[old(nextWorker) := false] && |workers| == old(|workers|) + 1
      ensures forall w <- workers :: w < nextWorker
    {
      numWorkers := numWorkers + 1;
      workers := workers[nextWorker := false];
      nextWorker := nextWorker + 1;
    }

    /** What a success does: at the threshold the metric restarts, the back-off eases and,
        under the limit, a worker is added. */
    twostate predicate Rewarded()
      reads this
    {
      var full := old(errMetric) + 1 == 2 * old(numWorkers);
      && errMetric == (if full then 0 else old(errMetric) + 1)
      && backoff == (if full && old(backoff) > 0 then old(backoff) - 1 else old(backoff))
      && numWorkers == (if full && old(numWorkers) < maxRequestWorkers then old(numWorkers) + 1 else old(numWorkers))
    }

    /** What a deadline does: at the maximum back-off it asks for the close and nothing else;
        otherwise it is absorbed, and at the threshold a worker has to go. */
    twostate predicate Charged()
      reads this
    {
      if old(backoff) == MAX_BACKOFF then
        && asked && ignored == old(ignored) + 1 && absorbed == old(absorbed)
        && errMetric == old(errMetric) && numWorkers == old(numWorkers) && phase == old(phase)
      else
        && asked == old(asked) && ignored == old(ignored) && absorbed == old(absorbed) + 1
        && if old(errMetric) - 1 == -2 * old(numWorkers)
           then errMetric == 0 && numWorkers == old(numWorkers) - 1 && phase == Killing
           else errMetric == old(errMetric) - 1 && numWorkers == old(numWorkers) && phase == old(phase)
    }

    method OnDone()
      requires Controlled() && phase == AtHead
      modifies this`errMetric, this`backoff, this`numWorkers, this`workers, this`nextWorker
      ensures Controlled()
      ensures Rewarded()
    {
      hide Needed;
      NeededDone(errMetric, numWorkers, backoff);
      errMetric := errMetric + 1;
      if errMetric >= numWorkers * 2 {
        if backoff > 0 {
          backoff := backoff - 1;
        }
        errMetric := 0;
        if numWorkers < maxRequestWorkers {
          StartWorker();
        }
      }
    }

    /** Absorbs a deadline, possibly down to offering a kill; at the maximum back-off it asks
        for the peer to be closed instead. */
    method OnDeadline()
      requires Controlled() && phase == AtHead
      modifies this`errMetric, this`numWorkers, this`phase, this`asked, this`absorbed, this`ignored
      ensures Controlled()
      ensures Charged()
    {
      hide Needed;
      NeededDeadline(errMetric, numWorkers, backoff);
      if backoff == MAX_BACKOFF {
        asked := true;
        ignored := ignored + 1;
        return;
      }
      absorbed := absorbed + 1;
      errMetric := errMetric - 1;
      if errMetric <= -numWorkers * 2 {
        errMetric := 0;
        if numWorkers > 0 {
          numWorkers := numWorkers - 1;
          phase := Killing;
        }
      }
    }

    /** One turn of the loop on the oldest report. */
    method TakeReport()
      requires Controlled() && Accounted() && phase == AtHead && metric != []
      modifies this`metric, this`errMetric, this`backoff, this`numWorkers, this`workers, this`nextWorker
      modifies this`phase, this`asked, this`absorbed, this`ignored
      ensures Controlled() && Accounted() && metric == old(metric)[1..]
      ensures match old(metric)[0]
              case Done => Rewarded() && phase == AtHead && asked == old(asked) && absorbed == old(absorbed)
              case Deadline => Charged() && backoff == old(backoff) && workers == old(workers)
              case Failed => unchanged(`errMetric, `backoff, `numWorkers, `workers, `phase, `asked, `absorbed, `ignored)
    {
      hide Needed, Deadlines;
      DeadlinesFirst(metric);
      var err := metric[0];
      metric := metric[1..];
      if err == Done {
        OnDone();
      }
      if err == Deadline {
        OnDeadline();
      }
    }

    /** The kill reaches an idle worker; after the last one the controller backs off. */
    method SendKill(w: nat)
      requires Controlled() && phase == Killing && w in workers && !workers[w]
      modifies this`workers, this`phase, this`backoff
      ensures Controlled() && workers == old(workers) - {w}
      ensures numWorkers != 0 ==> phase == AtHead && backoff == old(backoff)
      ensures numWorkers == 0 ==> phase == Waiting && backoff == old(backoff) + 1
    {
      RemoveOne(workers, w);
      workers := workers - {w};
      if numWorkers == 0 {
        if backoff < MAX_BACKOFF {
          backoff := backoff + 1;
        }
        phase := Waiting;
      } else {
        phase := AtHead;
      }
    }

    method WakeUp()
      requires Controlled() && phase == Waiting
      modifies this`numWorkers, this`workers, this`nextWorker, this`phase
      ensures Controlled() && phase == AtHead && numWorkers == 1
      ensures workers == old(workers)[old(nextWorker) := false] && nextWorker == old(nextWorker) + 1
    {
      StartWorker();
      phase := AtHead;
    }

    // ----- the workers -----

    method SetBusy(w: nat, busy: bool)
      requires Controlled() && w in workers
      modifies this`workers
      ensures Controlled() && workers == old(workers)[w := busy]
    {
      hide Needed;
      SetOne(workers, w, busy);
      workers := workers[w := busy];
    }

    // ----- every schedule -----

    predicate Enabled(e: Event)
      reads this
    {
      match e
      case Send(_) => true
      case Begin(w) => w in workers && !workers[w]
      case Finish(w) => w in workers && workers[w]
      case Leave(w) => w in workers && !workers[w] && closed
      case Take => phase == AtHead && metric != []
      case Kill(w) => phase == Killing && w in workers && !workers[w]
      case Wake => phase == Waiting
      case Close => true
      case Stop => closed
    }

    method PutReport(r: Report)
      requires Controlled() && Accounted()
      modifies this`metric, this`sent
      ensures Controlled() && Accounted() && metric == old(metric) + [r]
      ensures sent == old(sent) + if r == Deadline then 1 else 0
    {
      hide Needed, Deadlines;
      DeadlinesMore(metric, r);
      metric := metric + [r];
      sent := sent + if r == Deadline then 1 else 0;
    }

    method LeaveWorker(w: nat)
      requires Controlled() && closed
      modifies this`workers
      ensures Controlled() && workers == old(workers) - {w}
    {
      hide Needed;
      workers := workers - {w};
    }

    method CloseChannel()
      requires Controlled()
      modifies this`closed
      ensures Controlled() && closed
    {
      hide Needed;
      closed := true;
    }

    method StopOversight()
      requires Controlled() && closed
      modifies this`phase
      ensures Controlled() && phase == Stopped
    {
      hide Needed;
      phase := Stopped;
    }

    /** What an event does; nothing it does not name changes. */
    twostate predicate Takes(e: Event)
      reads this
    {
      match e
      case Send(r) => metric == old(metric) + [r] && Untouched() && workers == old(workers) && closed == old(closed)
      case Begin(w) =>
        workers == old(workers)[w := true] && Untouched() && metric == old(metric) && closed == old(closed)
      case Finish(w) =>
        workers == old(workers)[w := false] && Untouched() && metric == old(metric) && closed == old(closed)
      case Leave(w) => workers == old(workers) - {w} && Untouched() && metric == old(metric) && closed == old(closed)
      case Take =>
        && old(metric) != [] && metric == old(metric)[1..] && closed == old(closed)
        && (match old(metric)[0]
            case Done => Rewarded() && phase == AtHead && asked == old(asked) && absorbed == old(absorbed)
            case Deadline => Charged() && backoff == old(backoff) && workers == old(workers)
            case Failed => Untouched() && workers == old(workers))
      case Kill(w) =>
        && workers == old(workers) - {w} && metric == old(metric) && closed == old(closed)
        && numWorkers == old(numWorkers) && errMetric == old(errMetric) && asked == old(asked)
        && phase == (if numWorkers == 0 then Waiting else AtHead)
        && backoff == if numWorkers == 0 then old(backoff) + 1 else old(backoff)
      case Wake =>
        && workers == old(workers)[old(nextWorker) := false] && numWorkers == 1 && phase == AtHead
        && metric == old(metric) && closed == old(closed)
        && backoff == old(backoff) && errMetric == old(errMetric) && asked == old(asked)
      case Close => closed && Untouched() && metric == old(metric) && workers == old(workers)
      case Stop =>
        && phase == Stopped && metric == old(metric) && closed == old(closed) && workers == old(workers)
        && numWorkers == old(numWorkers) && errMetric == old(errMetric) && backoff == old(backoff)
        && asked == old(asked)
    }

    twostate predicate Untouched()
      reads this
    {
      && numWorkers == old(numWorkers) && errMetric == old(errMetric) && backoff == old(backoff)
      && phase == old(phase) && asked == old(asked) && absorbed == old(absorbed) && ignored == old(ignored)
    }

    method Step(e: Event)
      requires Controlled() && Accounted() && Enabled(e)
      modifies this
      ensures Controlled() && Accounted()
      ensures sent == old(sent) + if e == Send(Deadline) then 1 else 0
      ensures Takes(e)
    {
      hide Needed, Deadlines, Controlled, Rewarded, Charged;
      match e {
        case Send(r) => PutReport(r);
        case Begin(w) => SetBusy(w, true);
        case Finish(w) => SetBusy(w, false);
        case Leave(w) => LeaveWorker(w);
        case Take => TakeReport();
        case Kill(w) => SendKill(w);
        case Wake => WakeUp();
        case Close => CloseChannel();
        case Stop => StopOversight();
      }
    }

    /** Any schedule from any reachable state; events that are not enabled do not happen.
        The peer is never closed by its controller unless at least 25 deadline reports were
        sent, the first 24 of which were absorbed. */
    method Run(events: seq<Event>)
      requires Controlled() && Accounted()
      modifies this
      ensures Controlled() && Accounted()
      ensures sent == old(sent) + DeadlinesSent(events) && (closed <==> old(closed) || Close in events)
      ensures asked ==> absorbed >= 24 && sent >= 25
    {
      hide Needed, Deadlines;
      var i := 0;
      while i < |events|
        invariant 0 <= i <= |events| && Controlled() && Accounted()
        invariant sent == old(sent) + DeadlinesSent(events[..i]) && (closed <==> old(closed) || Close in events[..i])
      {
        assert events[..i + 1][..i] == events[..i];
        if Enabled(events[i]) {
          Step(events[i]);
        }
        i := i + 1;
      }
      assert events[..i] == events;
    }

    // ----- the shortest way to the close -----

    /** Workers at rest with nothing reported. */
    ghost predicate AtRest()
      reads this
    {
      && Controlled() && Accounted() && metric == [] && !closed && sent == absorbed && !asked
      && forall w <- workers :: !workers[w]
    }

    method ReportDeadline()
      requires AtRest() && phase == AtHead
      modifies this
      ensures Controlled() && Accounted() && metric == [] && Charged() && sent == old(sent) + 1
      ensures unchanged(`backoff, `workers, `closed)
    {
      hide Needed, Deadlines;
      PutReport(Deadline);
      TakeReport();
    }

    method KillOne()
      requires AtRest() && phase == Killing
      modifies this
      ensures AtRest() && unchanged(`numWorkers, `errMetric, `absorbed)
      ensures numWorkers > 0 ==> phase == AtHead && backoff == old(backoff)
      ensures numWorkers == 0 ==> phase == Waiting && backoff == old(backoff) + 1
    {
      hide Needed, Deadlines;
      var w :| w in workers;
      SendKill(w);
    }

    method Recover()
      requires AtRest() && phase == Waiting
      modifies this
      ensures AtRest() && unchanged(`errMetric, `absorbed, `backoff) && phase == AtHead && numWorkers == 1
    {
      hide Needed, Deadlines;
      WakeUp();
    }
  }

  /** 25 deadline reports are enough: the bound of `Run` is reached. */
  method Exhaust(reqCount: int) returns (bus: Bus)
    ensures fresh(bus) && bus.asked && bus.sent == 25 && bus.absorbed == 24
  {
    hide Needed, Deadlines;
    bus := new Bus(reqCount);
    bus.ReportDeadline();
    bus.ReportDeadline();
    bus.ReportDeadline();
    bus.ReportDeadline();
    bus.KillOne();
    while bus.backoff < MAX_BACKOFF
      invariant fresh(bus) && bus.AtRest() && bus.phase == AtHead && bus.numWorkers == 1 && bus.errMetric == 0
      invariant bus.absorbed == 4 + 2 * bus.backoff && 0 <= bus.backoff <= MAX_BACKOFF
      decreases MAX_BACKOFF - bus.backoff
    {
      bus.ReportDeadline();
      bus.ReportDeadline();
      bus.KillOne();
      bus.Recover();
    }
    bus.ReportDeadline();
  }

  lemma RemoveOne(m: map<nat, bool>, w: nat)
    requires w in m
    ensures |m - {w}| == |m| - 1
  {
    assert (m - {w}).Keys == m.Keys - {w};
    assert |(m - {w}).Keys| == |m - {w}| && |m.Keys| == |m|;
  }

  lemma SetOne(m: map<nat, bool>, w: nat, b: bool)
    requires w in m
    ensures |m[w := b]| == |m|
  {
    assert m[w := b].Keys == m.Keys;
    assert |m[w := b].Keys| == |m[w := b]| && |m.Keys| == |m|;
  }

  /** A success never brings the maximum back-off nearer. */
  lemma NeededDone(errMetric: int, n: int, b: int)
    requires 1 <= n && -2 * n < errMetric < 2 * n && 0 <= b
    ensures Needed(errMetric + 1, n, b, AtHead) >= Needed(errMetric, n, b, AtHead)
    ensures var b' := if b > 0 then b - 1 else b;
            && Needed(0, n, b', AtHead) >= Needed(errMetric, n, b, AtHead)
            && Needed(0, n + 1, b', AtHead) >= Needed(errMetric, n, b, AtHead)
  {
    assert (n + 1) * (n + 2) == n * (n + 1) + 2 * (n + 1);
  }

  /** A deadline brings it nearer by at most one. */
  lemma NeededDeadline(errMetric: int, n: int, b: int)
    requires 1 <= n && -2 * n < errMetric < 2 * n
    ensures Needed(errMetric - 1, n, b, AtHead) >= Needed(errMetric, n, b, AtHead) - 1
    ensures errMetric - 1 == -2 * n ==> Needed(0, n - 1, b, Killing) == Needed(errMetric, n, b, AtHead) - 1
    ensures n == 1 && errMetric >= 0 && b == MAX_BACKOFF ==> Needed(errMetric, n, b, AtHead) == 0
  {
    assert n * (n + 1) == (n - 1) * n + 2 * n;
  }
}
