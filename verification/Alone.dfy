/** An operation that nothing interrupts: its calls one after the other, to the end. */
module Alone {
  import opened Base
  import opened FileRows
  import opened Stores
  import opened Protocol

  /** Files a loop still has to visit. */
  function Left(op: Op, c: Choice): nat {
    match op
    case Delete(_, _, origin) => if origin.ByReaper? then |origin.rest| else 0
    case PurgeTombstone(_, ids) => |ids|
    case Requeue(_, _, ids) => |ids|
    case Expire(_, _, todo, _) => |todo|
    case List(_) => |c.ids| + 1
    case _ => 0
  }

  function InitiateRank(call: InitiateCall): nat {
    if call.CreateMultipart? then 1 else 0
  }

  function CompleteRank(call: CompleteCall): nat {
    match call
    case FindPending(_, _) => 5
    case CompleteMultipart(_, _) => 4
    case HeadSize(_) => 3
    case DropWrongSize(_) => 2
    case RejectWrongSize => 1
    case MarkUploaded => 1
    case EnqueueScan => 0
  }

  function AbortRank(call: AbortCall): nat {
    match call
    case FindAbortable(_) => 2
    case AbortMultipart(_) => 1
    case DeletePendingRow => 0
  }

  function DeleteRank(call: DeleteCall): nat {
    match call
    case FindOwned(_) => 6
    case FindRow => 5
    case AbortOpenUpload(_) => 4
    case HeadOrphan(_) => 3
    case DeleteObject(_) => 2
    case DeleteRow => 1
  }

  function ValidateRank(call: ValidateCall): nat {
    match call
    case FindScannable => 7
    case ClaimRow(_) => 6
    case ReadRange(_) => 5
    case ReadFull(_) => 4
    case Scan(_, _) => 3
    case MarkReady(_) => 2
    case DropRefused(_) => 1
    case RejectRefused => 0
  }

  function Rank(op: Op): nat {
    match op
    case Initiate(_, call) => InitiateRank(call)
    case Complete(_, call) => CompleteRank(call)
    case Abort(_, call) => AbortRank(call)
    case Delete(_, call, _) => DeleteRank(call)
    case PurgeTombstone(_, _) => 0
    case Validate(_, call) => ValidateRank(call)
    case Requeue(_, call, _) => if call.MarkRequeued? then 1 else 0
    case Expire(_, call, _, _) => if call.DropExpired? then 2 else if call.MarkExpired? then 1 else 0
    case List(_) => 0
  }

  predicate Nearer(op: Op, op': Op, c: Choice) {
    Left(op', c) < Left(op, c) || (Left(op', c) == Left(op, c) && Rank(op') < Rank(op))
  }

  lemma FileCallsRunOut(s: Stores, op: Op, c: Choice)
    requires (op.Complete? || op.Validate? || op.Initiate? || op.Abort?) && Exec(s, op, c).next.Go?
    ensures Nearer(op, Exec(s, op, c).next.op, c)
  {}

  lemma LoopCallsRunOut(s: Stores, op: Op, c: Choice)
    requires !(op.Complete? || op.Validate? || op.Initiate? || op.Abort?) && Exec(s, op, c).next.Go?
    ensures Nearer(op, Exec(s, op, c).next.op, c)
  {}

  /** Every call brings its operation nearer to its end. */
  lemma CallsRunOut(s: Stores, op: Op, c: Choice)
    requires Exec(s, op, c).next.Go?
    ensures Nearer(op, Exec(s, op, c).next.op, c)
  {
    if op.Complete? || op.Validate? || op.Initiate? || op.Abort? {
      FileCallsRunOut(s, op, c);
    } else {
      LoopCallsRunOut(s, op, c);
    }
  }

  function RunAlone(s: Stores, op: Op, c: Choice): Outcome
    decreases Left(op, c), Rank(op)
  {
    var out := Exec(s, op, c);
    if out.next.Go? then
      CallsRunOut(s, op, c);
      RunAlone(out.st, out.next.op, c)
    else out
  }

  /** The rest of a run, from the end of one call. */
  function Finish(out: Outcome, c: Choice): Outcome {
    if out.next.Go? then RunAlone(out.st, out.next.op, c) else out
  }
}
