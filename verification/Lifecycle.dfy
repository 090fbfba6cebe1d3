/** The states a file goes through: which write makes which step, in every run. */
module Lifecycle {
  import opened Base
  import opened FileRows
  import opened Stores
  import opened Protocol
  import opened History
  import opened World
  import opened FileInvariant
  import opened WorldInvariant
  import opened Preservation
  import opened Runs

  /** The state the next call writes, if it writes one. The expiry pass writes only a row that reads `ready`. */
  function Written(op: Op): Option<FileState> {
    match op
    case Complete(_, MarkUploaded) => Some(Uploaded)
    case Complete(_, RejectWrongSize) => Some(Rejected)
    case Validate(_, ClaimRow(_)) => Some(Scanning)
    case Validate(_, MarkReady(_)) => Some(Ready)
    case Validate(_, RejectRefused) => Some(Rejected)
    case Requeue(_, MarkRequeued, _) => Some(Uploaded)
    case Expire(_, MarkExpired, _, _) => Some(Expired)
    case _ => None
  }

  /** The steps of the documented cycle, and the one the code adds to it: a requeue, from any state but `pending`. */
  predicate Step(from: FileState, to: FileState, requeue: bool) {
    match from
    case Pending => to.Uploaded? || to.Rejected?
    case Uploaded => to.Scanning? || to.Ready? || to.Rejected? || (requeue && to.Uploaded?)
    case Scanning => to.Ready? || to.Rejected? || to.Scanning? || (requeue && to.Uploaded?)
    case Ready => to.Expired? || (requeue && to.Uploaded?)
    case Rejected => requeue && to.Uploaded?
    case Expired => requeue && to.Uploaded?
    case Abandoned => false
  }

  ghost predicate RowThroughout(s: Stores, s': Stores, id: FileId) {
    id in s.rows && id in s'.rows
  }

  /** What the write leaves of the rest of the row: refused and expired rows lose their key, expired ones their password
      hash too; the rest stands, and the time is that of the write. */
  function Rewritten(row: Row, state: FileState, now: int): Row {
    row.(state := state,
         storageKey := if state.Rejected? || state.Expired? then None else row.storageKey,
         passwordHash := if state.Expired? then None else row.passwordHash,
         updatedAt := now)
  }

  /** What one call of `op` makes of the row. */
  predicate Wrote(op: Op, row: Row, row': Row, now: int) {
    if Written(op).None? || (op.Expire? && !row.state.Ready?) then row' == row
    else row' == Rewritten(row, Written(op).value, now) && Step(row.state, row'.state, op.Requeue?)
  }

  lemma CompleteWrites(s: Stores, t: Trace, o: nat, call: CompleteCall, id: FileId)
    requires FileInv(CellIn(s, t, id), id, s.now) && CompleteInv(CellIn(s, t, id), id, o, call)
    requires RowThroughout(s, ExecComplete(s, id, call).st, id)
    ensures Wrote(Complete(id, call), s.rows[id], ExecComplete(s, id, call).st.rows[id], s.now)
  {}

  lemma ValidateWrites(s: Stores, t: Trace, o: nat, call: ValidateCall, id: FileId, reply: ScanReply)
    requires FileInv(CellIn(s, t, id), id, s.now) && ValidateInv(CellIn(s, t, id), id, o, call, s.now)
    requires RowThroughout(s, ExecValidate(s, id, call, reply).st, id)
    ensures Wrote(Validate(id, call), s.rows[id], ExecValidate(s, id, call, reply).st.rows[id], s.now)
  {}

  lemma RequeueAndExpiryWrite(s: Stores, t: Trace, o: nat, op: Op, c: Choice)
    requires op.Requeue? || op.Expire?
    requires FileInv(CellIn(s, t, op.id), op.id, s.now) && OpInv(CellIn(s, t, op.id), o, op, s.now)
    requires RowThroughout(s, Exec(s, op, c).st, op.id)
    ensures Wrote(op, s.rows[op.id], Exec(s, op, c).st.rows[op.id], s.now)
  {}

  lemma DeletionsOnlyDrop(s: Stores, op: Op, c: Choice, id: FileId)
    requires op.Abort? || op.Delete? || op.PurgeTombstone? || op.List?
    requires RowThroughout(s, Exec(s, op, c).st, id)
    ensures Exec(s, op, c).st.rows[id] == s.rows[id] && Written(op).None?
  {}

  lemma CallWrites(w: World, o: nat, c: Choice, id: FileId)
    requires Inv(w) && Enabled(w, Advance(o, c)) && RowThroughout(w.st, Exec(w.st, w.ops[o], c).st, id)
    ensures var row, row' := w.st.rows[id], Exec(w.st, w.ops[o], c).st.rows[id];
            if Subject(w.ops[o]) == id then Wrote(w.ops[o], row, row', w.st.now) else row' == row
  {
    var op := w.ops[o];
    assert Running(w, o, op);
    assert FileInv(CellOf(w, id), id, w.st.now);
    if id != Touched(w, o) {
      CallKeepsInv(w, o, c);
      assert CellOf(Call(w, o, c), id) == CellOf(w, id);
    } else if op.Complete? {
      CompleteWrites(w.st, TraceOf(w, id), o, op.complete, id);
    } else if op.Validate? {
      ValidateWrites(w.st, TraceOf(w, id), o, op.validate, id, c.reply);
    } else if op.Requeue? || op.Expire? {
      RequeueAndExpiryWrite(w.st, TraceOf(w, id), o, op, c);
    } else if !op.Initiate? {
      DeletionsOnlyDrop(w.st, op, c, id);
    }
  }

  /** In every run a row that lasts through an event changes in one of seven ways or not at all: an operation in flight
      on this very file makes its write, the row becomes what that write says, in full, and its state goes a step of
      the cycle, or is set back by the requeue. */
  lemma EveryChangeIsAStep(events: seq<Event>, e: Event, id: FileId)
    requires RowThroughout(Run(events).st, Run(events + [e]).st, id)
    ensures var w, row, row' := Run(events), Run(events).st.rows[id], Run(events + [e]).st.rows[id];
            if e.Advance? && Enabled(w, e) && Subject(w.ops[e.o]) == id
            then Wrote(w.ops[e.o], row, row', w.st.now)
            else row' == row
  {
    RunKeepsInv(events);
    OneEvent(events, e);
    var w := Run(events);
    if e.Advance? && Enabled(w, e) {
      assert Apply(w, e).st.rows == Exec(w.st, w.ops[e.o], e.choice).st.rows;
      CallWrites(w, e.o, e.choice, id);
    }
  }

  /** A row that is gone is written by nobody: the operation that meant to write it throws, but for the expiry pass,
      whose write then matches no row. */
  lemma NobodyWritesAMissingRow(s: Stores, op: Op, c: Choice)
    requires Written(op).Some? && op.id !in s.rows
    ensures Exec(s, op, c).st == s
    ensures if op.Expire? then Exec(s, op, c).next == Go(Expire(op.id, CountExpired(0), op.todo, op.count))
            else Exec(s, op, c).next.Fail?
  {}
}
