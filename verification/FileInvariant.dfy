/** The invariant of one file, and what operations in flight know of it.

    `FileInv` is what the stores say of one file. `OpInv` is what an operation in flight knows about its file
    although everybody else keeps moving. `Rely` is all that one step of some other operation may do to a file;
    since every `OpInv` survives it, no pair of operations has to be compared. */
module FileInvariant {
  import opened Base
  import opened FileRows
  import opened Stores
  import opened Protocol
  import opened History
  import MagicBytes

  /** Everything the stores hold for one file: its row, its object, its multipart upload and its job. */
  datatype Cell = Cell(
    row: Option<Row>, obj: Option<Bytes>, upload: Option<Upload>, job: Option<Job>, trace: Trace)

  const EMPTY_CELL := Cell(None, None, None, None, NO_TRACE)

  function CellIn(s: Stores, t: Trace, id: FileId): Cell {
    Cell(Get(s.rows, id), Get(s.objects, id), Get(s.uploads, id), Get(s.jobs, id), t)
  }

  /** The bytes contradict the extension, or the check of the extension throws. */
  predicate Clashes(file: Row, body: Bytes) {
    var verdict := MagicBytes.VerifyMagicBytes(ExtensionOf(file.originalName), body);
    verdict.Mismatch? || verdict.Throws?
  }

  /** The object is there, or a deletion of the file has begun, or the file is past its expiry date. */
  predicate Kept(c: Cell, expiresAt: int, now: int) {
    c.obj.Some? || c.trace.deleting || expiresAt < now
  }

  predicate SoundRow(row: Row, id: FileId) {
    && (row.storageKey == None || row.storageKey == Some(id))
    && row.uploadId == Some(id)
    && 1 <= row.sizeBytes <= MAX_FILE_SIZE_BYTES
    && !row.state.Abandoned?
  }

  predicate RowInv(c: Cell, id: FileId, now: int)
    requires c.row.Some?
  {
    var row, t := c.row.value, c.trace;
    && t.created && !t.gone
    && SoundRow(row, id)
    && (row.storageKey == None <==> t.settled)
    && (row.state.Pending? ==> !t.settled)
    && (row.state.Rejected? || row.state.Expired? ==> t.settled)
    && (row.state.Expired? ==> row.passwordHash == None)
    && (!row.state.Pending? ==> t.stored.Some?)
    && (!row.state.Pending? && row.storageKey.Some? ==> |t.stored.value| == row.sizeBytes)
    && (row.state.Ready? ==>
          !t.settled && t.clean == t.stored && !Clashes(row, t.stored.value) && Kept(c, row.expiresAt, now))
  }

  predicate FileInv(c: Cell, id: FileId, now: int) {
    var t := c.trace;
    && (id < 0 ==> c == EMPTY_CELL)
    && (t.created ==> t.creator.Some?)
    && (c.row.Some? ==> RowInv(c, id, now))
    && (c.upload.Some? ==>
          && c.upload.value.key == id && t.creator.Some? && t.stored.None?
          && (t.created ==> c.row.Some? && c.row.value.state.Pending?)
          && (!t.created ==> c.upload.value.parts == map[]))
    && (c.obj.Some? ==> t.stored == c.obj && c.row.Some? && c.row.value.storageKey == Some(id))
    && (t.stored.Some? <==> t.finisher.Some?)
    && (t.stored.Some? || t.settled || t.deleting || t.gone || c.job.Some? ==> t.created)
    && (t.expiredBy.Some? ==> t.settled)
  }

  // ---- what an operation in flight knows ----

  predicate Known(c: Cell, id: FileId) {
    id < 0 || c.trace.created
  }

  /** A row read earlier: its key may since have been emptied, never changed. */
  predicate Snapshot(c: Cell, file: Row, id: FileId) {
    && c.trace.created
    && SoundRow(file, id)
    && (c.row.Some? ==> SameIdentity(file, c.row.value))
  }

  predicate NotPending(c: Cell) {
    c.trace.created && c.trace.stored.Some? && (c.row.Some? ==> !c.row.value.state.Pending?)
  }

  /** Only the operation that completed the multipart can take a row out of `pending`. */
  predicate Finishing(c: Cell, o: nat) {
    && c.trace.created && c.trace.finisher == Some(o) && c.trace.stored.Some?
    && (c.row.Some? ==> c.row.value.state.Pending?)
  }

  /** The worker of the file's one active job. */
  predicate Validating(c: Cell, file: Row, id: FileId, o: nat) {
    && Snapshot(c, file, id)
    && c.job.Some? && c.job.value.Active? && c.job.value.worker == o
    && c.trace.stored.Some?
    && (c.row.Some? ==>
          && (c.row.value.state.Uploaded? || c.row.value.state.Scanning?)
          && c.row.value.storageKey == file.storageKey)
  }

  /** Nothing is left in storage under the file's key, and nothing can appear there again. */
  predicate Emptied(c: Cell) {
    c.upload.None? && c.obj.None?
  }

  predicate PastExpiry(c: Cell, now: int) {
    NotPending(c) && (c.row.Some? ==> c.row.value.expiresAt < now)
  }

  /** A row whose key was emptied: nothing is left to find or to delete in storage. */
  predicate Settled(c: Cell) {
    c.trace.settled && c.trace.created && Emptied(c)
  }

  predicate Expiring(c: Cell, candidate: Candidate, now: int) {
    PastExpiry(c, now) && candidate.key == Some(candidate.id)
  }

  /** The worker of the file's job, before it has read the row. */
  predicate Employed(c: Cell, o: nat) {
    c.trace.created && c.job.Some? && c.job.value.Active? && c.job.value.worker == o
  }

  predicate InitiateInv(c: Cell, id: FileId, o: nat, call: InitiateCall) {
    match call
    case CreateMultipart(_) => id == -1
    case CreateRow(draft) =>
      && c.trace.creator == Some(o) && !c.trace.created && 0 <= id && c.upload.Some?
      && SoundRow(draft, id) && draft.storageKey.Some? && draft.state.Pending?
  }

  predicate CompleteInv(c: Cell, id: FileId, o: nat, call: CompleteCall) {
    match call
    case FindPending(_, _) => Known(c, id)
    case CompleteMultipart(file, _) => Snapshot(c, file, id) && file.storageKey.Some?
    case HeadSize(file) => Snapshot(c, file, id) && file.storageKey.Some? && Finishing(c, o)
    case DropWrongSize(file) => Snapshot(c, file, id) && file.storageKey.Some? && Finishing(c, o)
    case RejectWrongSize => Finishing(c, o) && c.obj.None?
    case MarkUploaded => Finishing(c, o) && (c.row.Some? ==> |c.trace.stored.value| == c.row.value.sizeBytes)
    case EnqueueScan => c.trace.created
  }

  predicate AbortInv(c: Cell, id: FileId, call: AbortCall) {
    match call
    case FindAbortable(_) => Known(c, id)
    case AbortMultipart(file) => Snapshot(c, file, id)
    case DeletePendingRow => c.trace.created && c.upload.None? && c.trace.stored.None?
  }

  predicate DeleteInv(c: Cell, id: FileId, call: DeleteCall) {
    match call
    case FindOwned(_) => Known(c, id)
    case FindRow => Known(c, id)
    case AbortOpenUpload(file) => Snapshot(c, file, id) && file.storageKey.Some? && c.trace.deleting
    case HeadOrphan(key) => c.trace.deleting && c.trace.created && c.upload.None? && key == Some(id)
    case DeleteObject(key) => c.trace.deleting && c.trace.created && c.upload.None? && key == Some(id)
    case DeleteRow => c.trace.created && Emptied(c)
  }

  predicate ValidateInv(c: Cell, id: FileId, o: nat, call: ValidateCall, now: int) {
    match call
    case FindScannable => Employed(c, o)
    case ClaimRow(file) => Validating(c, file, id, o)
    case ReadRange(file) => Validating(c, file, id, o)
    case ReadFull(file) =>
      Validating(c, file, id, o) && file.storageKey.Some? && !Clashes(file, c.trace.stored.value)
    case Scan(file, body) =>
      && Validating(c, file, id, o) && file.storageKey.Some? && !Clashes(file, body) && c.trace.stored == Some(body)
      && Kept(c, file.expiresAt, now)
    case MarkReady(file) =>
      && Validating(c, file, id, o) && file.storageKey.Some? && !Clashes(file, c.trace.stored.value)
      && c.trace.clean == c.trace.stored && Kept(c, file.expiresAt, now)
    case DropRefused(file) => Validating(c, file, id, o) && file.storageKey.Some?
    case RejectRefused =>
      && Employed(c, o) && c.obj.None? && c.trace.stored.Some?
      && (c.row.Some? ==> c.row.value.state.Uploaded? || c.row.value.state.Scanning?)
  }

  predicate RequeueInv(c: Cell, call: RequeueCall) {
    match call
    case MarkRequeued => NotPending(c)
    case EnqueueAgain => c.trace.created
  }

  predicate ExpireInv(c: Cell, id: FileId, call: ExpireCall, now: int) {
    match call
    case DropExpired(key) => PastExpiry(c, now) && key == Some(id)
    case MarkExpired => PastExpiry(c, now) && c.obj.None?
    case CountExpired(_) => true
  }

  predicate OpInv(c: Cell, o: nat, op: Op, now: int) {
    match op
    case Initiate(id, call) => InitiateInv(c, id, o, call)
    case Complete(id, call) => CompleteInv(c, id, o, call)
    case Abort(id, call) => AbortInv(c, id, call)
    case Delete(id, call, _) => DeleteInv(c, id, call)
    case PurgeTombstone(id, _) => Settled(c)
    case Validate(id, call) => ValidateInv(c, id, o, call, now)
    case Requeue(id, call, _) => RequeueInv(c, call)
    case Expire(id, call, _, _) => ExpireInv(c, id, call, now)
    case List(_) => true
  }

  // ---- interference ----

  /** All that a step of operation `actor` may do to a file that some other operation is working on. */
  predicate Rely(c: Cell, c': Cell, id: FileId, actor: nat, now: int) {
    var t, t' := c.trace, c'.trace;
    && (id < 0 ==> c' == c)
    && (!t.created && t.creator.Some? && t.creator != Some(actor) ==> c' == c)
    && (t.created ==>
          && t'.created
          && (c.row.None? ==> c'.row.None?)
          && (c.row.Some? && c'.row.Some? ==>
                && SameIdentity(c.row.value, c'.row.value)
                && (c'.row.value.storageKey == c.row.value.storageKey || c'.row.value.storageKey == None)
                && (c'.row.value.passwordHash == c.row.value.passwordHash || c'.row.value.passwordHash == None)
                && (c'.row.value.state.Pending? ==> c.row.value.state.Pending?)
                && (c.row.value.state.Pending? && !c'.row.value.state.Pending? ==> t.finisher == Some(actor)))
          && (c.upload.None? ==> c'.upload.None?)
          && (c.upload.None? && c.obj.None? ==> c'.obj.None?)
          && (t.stored.Some? ==> t'.stored == t.stored && t'.finisher == t.finisher)
          && (t.stored.Some? && c.obj.None? ==> c'.obj.None?)
          && (t.stored.None? && c.upload.None? ==> t'.stored.None?)
          && (t.settled ==> t'.settled)
          && (t.deleting ==> t'.deleting)
          && (c.job.Some? && c.job.value.Active? && c.job.value.worker != actor ==>
                && c'.job == c.job
                && t'.clean == t.clean
                && (c.row.Some? && (c.row.value.state.Uploaded? || c.row.value.state.Scanning?) && c'.row.Some? ==>
                      && (c'.row.value.state.Uploaded? || c'.row.value.state.Scanning?)
                      && c'.row.value.storageKey == c.row.value.storageKey)))
  }

  /** An object disappears for one of four reasons. */
  predicate Lost(c: Cell, c': Cell, actor: nat, now: int) {
    c.obj.Some? && c'.obj.None? ==>
      || c.trace.deleting
      || c.row.None?
      || c.row.value.expiresAt < now
      || (c.trace.finisher == Some(actor) && c.row.value.state.Pending?)
      || (c.job.Some? && c.job.value.Active? && c.job.value.worker == actor)
  }
}
