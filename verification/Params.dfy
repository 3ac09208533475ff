/**
 The dynamic parameters and the updates that change them.  Fees and versions are
 plain numbers; durations are 64-bit and wrap around.
 */
module Params {
  import opened Bits
  import opened Numerals
  import opened Words

  datatype Field =
    | MaxBytes | ProposalStepTimeout | PreVoteStepTimeout | PreCommitStepTimeout | MsgTimeout
    | MinTxFee | TxValidVersion | ValueStoreFee | ValueStoreValidVersion
    | DataStoreEpochFee | DataStoreValidVersion
    | Unknown

  datatype Update = Update(field: Field, value: string, epoch: nat)

  datatype Parameters = Parameters(
    maxBytes: int, maxProposalSize: int,
    proposalStep: int, preVoteStep: int, preCommitStep: int,
    deadBlockRound: int, download: int,
    srvrMsg: int, msg: int,
    minTxFee: int, txVersion: int,
    valueStoreFee: int, valueStoreVersion: int,
    dataStoreEpochFee: int, dataStoreVersion: int)

  const SECOND: int := 1_000_000_000
  const TWO32: int := 0x1_0000_0000
  const TWO63: int := 0x8000_0000_0000_0000

  // ----- the value strings -----

  function ToUint32(s: string): Option<nat> {
    var r := Digits(s);
    if r.Some? && r.value < TWO32 then r else None
  }

  function ToDuration(s: string): Option<nat> {
    var r := Signed(s);
    if r.Some? && 0 <= r.value < TWO63 then Some(r.value) else None
  }

  function ToBigInt(s: string): Option<nat> {
    var r := Signed(s);
    if r.Some? && 0 <= r.value then Some(r.value) else None
  }

  /** The number an update carries, if its value suits its field. */
  function Number(u: Update): Option<nat> {
    match u.field
    case MaxBytes | TxValidVersion | ValueStoreValidVersion | DataStoreValidVersion => ToUint32(u.value)
    case ProposalStepTimeout | PreVoteStepTimeout | PreCommitStepTimeout | MsgTimeout => ToDuration(u.value)
    case MinTxFee | ValueStoreFee | DataStoreEpochFee => ToBigInt(u.value)
    case Unknown => None
  }

  /** Which strings stand for which numbers: a field of 32 bits takes no sign, a duration stays
      below 2^63, a fee has no bound, and nothing suits an unknown field. */
  ghost predicate Stands(f: Field, s: string, n: nat) {
    match f
    case MaxBytes | TxValidVersion | ValueStoreValidVersion | DataStoreValidVersion => n < Pow2(32) && Numeral(s, n)
    case ProposalStepTimeout | PreVoteStepTimeout | PreCommitStepTimeout | MsgTimeout => n < Pow2(63) && Whole(s, n)
    case MinTxFee | ValueStoreFee | DataStoreEpochFee => Whole(s, n)
    case Unknown => false
  }

  lemma Widths()
    ensures Pow2(32) == TWO32 && Pow2(63) == TWO63
  {
    hide Pow2;
    Powers();
    Pow2Sum(4, 4);
    Pow2Sum(8, 8);
    Pow2Sum(16, 16);
    Pow2Sum(32, 16);
    Pow2Sum(48, 8);
    Pow2Sum(56, 7);
  }

  /** An update carries a number exactly when its value stands for it. */
  lemma NumberIff(u: Update, n: nat)
    ensures Number(u) == Some(n) <==> Stands(u.field, u.value, n)
  {
    hide Digits, Signed, Numeral, Whole, Pow2;
    Widths();
    DigitsIff(u.value, n);
    SignedIff(u.value, n);
  }

  // ----- derived fields -----

  function Wrap(x: int): int {
    (x + TWO63) % (2 * TWO63) - TWO63
  }

  /** Division rounds toward zero. */
  function Quotient(x: int, d: int): int
    requires d > 0
  {
    if x >= 0 then x / d else -((-x) / d)
  }

  function Sum3(a: int, b: int, c: int): int {
    Wrap(Wrap(a + b) + c)
  }

  function Standard(): Parameters {
    Parameters(3_000_000, 3_000_000, 4 * SECOND, 3 * SECOND, 3 * SECOND, 25 * SECOND, 10 * SECOND,
        3 * SECOND, 4 * SECOND, 0, 0, 0, 0, 0, 0)
  }

  /** Every derived field is what its base fields give. */
  predicate Coherent(r: Parameters) {
    && r.maxProposalSize == r.maxBytes
    && r.srvrMsg == Quotient(Wrap(3 * r.msg), 4)
    && r.download == Sum3(r.proposalStep, r.preVoteStep, r.preCommitStep)
    && r.deadBlockRound == Quotient(Wrap(5 * r.download), 2)
  }

  /** 64-bit arithmetic: the one number in range that differs by a multiple of 2^64. */
  lemma WrapIs(x: int)
    ensures -TWO63 <= Wrap(x) < TWO63 && (Wrap(x) - x) % (2 * TWO63) == 0
    ensures -TWO63 <= x < TWO63 ==> Wrap(x) == x
  {
    var q := (x + TWO63) / (2 * TWO63);
    assert Wrap(x) - x == 2 * TWO63 * -q;
  }

  lemma QuotientIs(x: int, d: int)
    requires d > 0
    ensures var r := x - d * Quotient(x, d); if x >= 0 then 0 <= r < d else -d < r <= 0
  {
  }

  /** Without overflow the derived fields are what their names say: three quarters of the
      message time, the sum of the step times, five halves of that. */
  lemma CoherentMeans(r: Parameters)
    requires Coherent(r)
    requires 0 <= r.msg < TWO63 / 8 && 0 <= r.proposalStep < TWO63 / 32
    requires 0 <= r.preVoteStep < TWO63 / 32 && 0 <= r.preCommitStep < TWO63 / 32
    ensures r.maxProposalSize == r.maxBytes
    ensures 4 * r.srvrMsg <= 3 * r.msg < 4 * r.srvrMsg + 4
    ensures r.download == r.proposalStep + r.preVoteStep + r.preCommitStep
    ensures 2 * r.deadBlockRound <= 5 * r.download < 2 * r.deadBlockRound + 2
  {
    hide Wrap, Quotient;
    WrapIs(3 * r.msg);
    QuotientIs(3 * r.msg, 4);
    WrapIs(r.proposalStep + r.preVoteStep);
    WrapIs(r.proposalStep + r.preVoteStep + r.preCommitStep);
    WrapIs(5 * r.download);
    QuotientIs(5 * r.download, 2);
  }

  function Base(r: Parameters, f: Field): int {
    match f
    case MaxBytes => r.maxBytes
    case ProposalStepTimeout => r.proposalStep
    case PreVoteStepTimeout => r.preVoteStep
    case PreCommitStepTimeout => r.preCommitStep
    case MsgTimeout => r.msg
    case MinTxFee => r.minTxFee
    case TxValidVersion => r.txVersion
    case ValueStoreFee => r.valueStoreFee
    case ValueStoreValidVersion => r.valueStoreVersion
    case DataStoreEpochFee => r.dataStoreEpochFee
    case DataStoreValidVersion => r.dataStoreVersion
    case Unknown => 0
  }

  /** A field set to a number, with the fields derived from it. */
  function Put(r: Parameters, f: Field, n: int): Parameters {
    match f
    case MaxBytes => r.(maxBytes := n, maxProposalSize := n)
    case ProposalStepTimeout => Stepped(r.(proposalStep := n))
    case PreVoteStepTimeout => Stepped(r.(preVoteStep := n))
    case PreCommitStepTimeout => Stepped(r.(preCommitStep := n))
    case MsgTimeout => r.(msg := n, srvrMsg := Quotient(Wrap(3 * n), 4))
    case MinTxFee => r.(minTxFee := n)
    case TxValidVersion => r.(txVersion := n)
    case ValueStoreFee => r.(valueStoreFee := n)
    case ValueStoreValidVersion => r.(valueStoreVersion := n)
    case DataStoreEpochFee => r.(dataStoreEpochFee := n)
    case DataStoreValidVersion => r.(dataStoreVersion := n)
    case Unknown => r
  }

  function Stepped(r: Parameters): Parameters {
    var sum := Sum3(r.proposalStep, r.preVoteStep, r.preCommitStep);
    r.(download := sum, deadBlockRound := Quotient(Wrap(5 * sum), 2))
  }

  function Applied(r: Parameters, u: Update): Option<Parameters> {
    var n := Number(u);
    if n.None? then None else Some(Put(r, u.field, n.value))
  }

  /** The storage object, updated in place. */
  class RawStorage {
    var raw: Parameters

    constructor (r: Parameters)
      ensures raw == r
    {
      raw := r;
    }

    method SetStepTimeouts(proposal: int, preVote: int, preCommit: int)
      modifies this
      ensures raw == Stepped(old(raw).(proposalStep := proposal, preVoteStep := preVote, preCommitStep := preCommit))
      ensures Coherent(old(raw)) ==> Coherent(raw)
    {
      raw := raw.(proposalStep := proposal, preVoteStep := preVote, preCommitStep := preCommit);
      var sum := Sum3(raw.proposalStep, raw.preVoteStep, raw.preCommitStep);
      raw := raw.(download := sum);
      raw := raw.(deadBlockRound := Quotient(Wrap(5 * sum), 2));
    }

    /** Changes the one field an update names, or nothing if its value does not parse. */
    method UpdateValue(u: Update) returns (ok: bool)
      modifies this
      ensures ok == Number(u).Some?
      ensures ok <==> exists n :: Stands(u.field, u.value, n)
      ensures forall n :: Stands(u.field, u.value, n) ==> Base(raw, u.field) == n
      ensures if ok then Applied(old(raw), u) == Some(raw) else raw == old(raw)
      ensures ok ==> Base(raw, u.field) == Number(u).value
      ensures ok ==> forall g: Field :: g != u.field ==> Base(raw, g) == Base(old(raw), g)
      ensures Coherent(old(raw)) ==> Coherent(raw)
    {
      hide ToUint32, ToDuration, ToBigInt, Stands, Wrap, Quotient;
      var n := Number(u);
      forall v: nat ensures n == Some(v) <==> Stands(u.field, u.value, v) { NumberIff(u, v); }
      if n.None? {
        return false;
      }
      var v := n.value;
      match u.field {
        case MaxBytes => raw := raw.(maxBytes := v); raw := raw.(maxProposalSize := v);
        case ProposalStepTimeout => SetStepTimeouts(v, raw.preVoteStep, raw.preCommitStep);
        case PreVoteStepTimeout => SetStepTimeouts(raw.proposalStep, v, raw.preCommitStep);
        case PreCommitStepTimeout => SetStepTimeouts(raw.proposalStep, raw.preVoteStep, v);
        case MsgTimeout => raw := raw.(msg := v); raw := raw.(srvrMsg := Quotient(Wrap(3 * v), 4));
        case MinTxFee => raw := raw.(minTxFee := v);
        case TxValidVersion => raw := raw.(txVersion := v);
        case ValueStoreFee => raw := raw.(valueStoreFee := v);
        case ValueStoreValidVersion => raw := raw.(valueStoreVersion := v);
        case DataStoreEpochFee => raw := raw.(dataStoreEpochFee := v);
        case DataStoreValidVersion => raw := raw.(dataStoreVersion := v);
      }
      return true;
    }
  }

  // ----- replaying a log -----

  /** The updates of a log that take effect by epoch `e`, in order of arrival, over the standard parameters. */
  function Replay(log: seq<Update>, e: nat): Parameters {
    if log == [] then Standard()
    else
      var u := log[|log| - 1];
      var r := Replay(log[..|log| - 1], e);
      if u.epoch <= e && Applied(r, u).Some? then Applied(r, u).value else r
  }

  /** The last number written to a field by epoch `e`. */
  function LastWritten(log: seq<Update>, e: nat, f: Field): Option<nat> {
    if log == [] then None
    else
      var u := log[|log| - 1];
      if u.epoch <= e && u.field == f && Number(u).Some? then Number(u)
      else LastWritten(log[..|log| - 1], e, f)
  }

  lemma PutBase(r: Parameters, f: Field, n: int, g: Field)
    requires f != Unknown
    ensures Base(Put(r, f, n), g) == if f == g then n else Base(r, g)
    ensures Coherent(r) ==> Coherent(Put(r, f, n))
  {
  }

  /** Last writer wins, field by field, and the derived fields follow. */
  lemma {:induction false} ReplayFields(log: seq<Update>, e: nat, f: Field)
    ensures Coherent(Replay(log, e))
    ensures var w := LastWritten(log, e, f);
            Base(Replay(log, e), f) == if w.Some? then w.value else Base(Standard(), f)
  {
    if log != [] {
      ReplayFields(log[..|log| - 1], e, f);
      var u := log[|log| - 1];
      if Number(u).Some? {
        PutBase(Replay(log[..|log| - 1], e), u.field, Number(u).value, f);
      }
    }
  }

  /** Epochs at which nothing was scheduled change nothing. */
  lemma {:induction false} ReplayQuiet(log: seq<Update>, e: nat, e': nat)
    requires e <= e' && forall i :: 0 <= i < |log| ==> !(e < log[i].epoch <= e')
    ensures Replay(log, e) == Replay(log, e')
  {
    if log != [] {
      ReplayQuiet(log[..|log| - 1], e, e');
      assert !(e < log[|log| - 1].epoch <= e');
    }
  }
}
