/** The observed history of a file, and what the queue does with a job when its worker ends. */
module History {
  import opened Base
  import opened FileRows
  import opened Stores
  import opened Protocol

  /** The observed history of one file. It is derived from what the stores do and is read by no operation. */
  datatype Trace = Trace(
    creator: Option<nat>,     // the operation that opened its multipart upload
    created: bool,            // its row was written
    stored: Option<Bytes>,    // the object that ever appeared under its key
    finisher: Option<nat>,    // the operation that made it appear
    clean: Option<Bytes>,     // the bytes last sent to the scanner and answered clean
    settled: bool,            // its row was once rejected or expired
    deleting: bool,           // deleteFileCompletely has seen its row
    gone: bool,               // deleteFileCompletely has returned
    expiredBy: Option<nat>)   // the sweep that moved it from ready to expired

  const NO_TRACE := Trace(None, false, None, None, None, false, false, false, None)

  /** A lost attempt: the job waits again until its third failure. */
  function LoseAttempt(s: Stores, id: FileId): Stores {
    if id in s.jobs && s.jobs[id].Active? then
      var failures := s.jobs[id].failures + 1;
      s.(jobs := s.jobs[id := if failures < JOB_ATTEMPTS then Waiting(failures) else Failed])
    else s
  }

  /** A stalled job is handed out again without counting as a failure. */
  function Redeliver(s: Stores, id: FileId): Stores {
    if id in s.jobs && s.jobs[id].Active? then s.(jobs := s.jobs[id := Waiting(s.jobs[id].failures)]) else s
  }

  /** What the queue does when a worker's `validate` ends. */
  function SettleJob(s: Stores, op: Op, next: Next): Stores {
    if !op.Validate? || next.Go? then s
    else if next.Done? then s.(jobs := s.jobs - {op.id})
    else LoseAttempt(s, op.id)
  }

  /** What happened at a call besides its effect on the stores. */
  datatype Note = Nothing | AnsweredClean(body: Bytes) | DeletionBegins | DeletionReturns

  function NoteOf(s: Stores, op: Op, c: Choice): Note {
    match op
    case Validate(id, Scan(file, body)) => if c.reply.Clean? then AnsweredClean(body) else Nothing
    case Delete(id, FindRow, _) => if id in s.rows then DeletionBegins else DeletionReturns
    case Delete(id, DeleteRow, _) => DeletionReturns
    case _ => Nothing
  }

  function Observe(t: Trace, before: Stores, after: Stores, id: FileId, o: nat, note: Note): Trace {
    var row, row' := Get(before.rows, id), Get(after.rows, id);
    var appeared := Get(before.objects, id).None? && Get(after.objects, id).Some?;
    Trace(
      t.creator,
      t.created || row'.Some?,
      if appeared then Get(after.objects, id) else t.stored,
      if appeared then Some(o) else t.finisher,
      if note.AnsweredClean? then Some(note.body) else t.clean,
      t.settled || (row'.Some? && (row'.value.state.Rejected? || row'.value.state.Expired?)),
      t.deleting || note.DeletionBegins?,
      t.gone || (t.created && note.DeletionReturns?),
      if row.Some? && row.value.state.Ready? && row'.Some? && row'.value.state.Expired? then Some(o)
      else t.expiredBy)
  }
}
