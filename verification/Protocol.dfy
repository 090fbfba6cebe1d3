/** The services of the source cut at every `await`: what is in flight, and what one more await does.

    An operation in flight is named after the service it runs, the file it works on and the call it will make
    next; it carries the local variables that are still live, such as the row it read earlier. Any number of
    operations run at once: between two awaits of one, every other may move. */
module Protocol {
  import opened Base
  import opened FileRows
  import opened Stores
  import MagicBytes

  /** FilesService.initiateUpload */
  datatype InitiateCall = CreateMultipart(request: UploadRequest) | CreateRow(draft: Row)

  /** FilesService.completeUpload */
  datatype CompleteCall =
    | FindPending(owner: OwnerId, selection: seq<nat>)
    | CompleteMultipart(file: Row, selection: seq<nat>)
    | HeadSize(file: Row)
    | DropWrongSize(file: Row)
    | RejectWrongSize
    | MarkUploaded
    | EnqueueScan

  /** FilesService.abortUpload */
  datatype AbortCall = FindAbortable(owner: OwnerId) | AbortMultipart(file: Row) | DeletePendingRow

  /** FileDeletionService.deleteOwnedFile and deleteFileCompletely */
  datatype DeleteCall =
    | FindOwned(owner: OwnerId)
    | FindRow
    | AbortOpenUpload(file: Row)
    | HeadOrphan(key: Option<Key>)
    | DeleteObject(key: Option<Key>)
    | DeleteRow

  /** ValidationService.validate, run by a worker for a job */
  datatype ValidateCall =
    | FindScannable
    | ClaimRow(file: Row)
    | ReadRange(file: Row)
    | ReadFull(file: Row)
    | Scan(file: Row, body: Bytes)
    | MarkReady(file: Row)
    | DropRefused(file: Row)
    | RejectRefused

  /** One element of the loop of ScanWorker.requeueStaleScans */
  datatype RequeueCall = MarkRequeued | EnqueueAgain

  /** What PurgeService.expireReadyFiles selects of each candidate, and one element of its loop. */
  datatype Candidate = Candidate(id: FileId, key: Option<Key>)

  datatype ExpireCall = DropExpired(key: Option<Key>) | MarkExpired | CountExpired(hit: nat)

  /** Who deletes: an owner, or the reaper, with the files its loop still has to visit. */
  datatype Origin = ByOwner | ByReaper(rest: seq<FileId>)

  /** `ids` and `todo` are what the loop around the call still has to visit. */
  datatype Op =
    | Initiate(id: FileId, initiate: InitiateCall)
    | Complete(id: FileId, complete: CompleteCall)
    | Abort(id: FileId, abort: AbortCall)
    | Delete(id: FileId, delete: DeleteCall, origin: Origin)
    | PurgeTombstone(id: FileId, ids: seq<FileId>)
    | Validate(id: FileId, validate: ValidateCall)
    | Requeue(id: FileId, requeue: RequeueCall, ids: seq<FileId>)
    | Expire(id: FileId, expire: ExpireCall, todo: seq<Candidate>, count: nat)
    | List(filter: Filter)

  /** The file whose stores the next call can touch; a listing touches none. */
  function Subject(op: Op): FileId {
    if op.List? then -1 else op.id
  }

  datatype ScanReply = Clean | Infected | ScanError

  /** What the environment decides at one await: a fresh identifier, the order of a listing, the scanner's reply. */
  datatype Choice = Choice(newId: int, ids: seq<FileId>, reply: ScanReply)

  datatype Next = Go(op: Op) | Done | Fail

  datatype Outcome = Outcome(st: Stores, next: Next)

  // ---- one await of each service ----

  function ExecInitiate(s: Stores, id: FileId, call: InitiateCall, newId: FileId): Outcome {
    match call
    case CreateMultipart(request) =>
      var admitted := Admit(request);
      if admitted.Err? then Outcome(s, Fail)
      else
        Outcome(s.(uploads := s.uploads[newId := Upload(newId, map[])]),
                Go(Initiate(newId, CreateRow(Draft(request, admitted.value, newId, newId, s.now)))))
    case CreateRow(draft) =>
      if exists other :: other in s.rows && s.rows[other].downloadToken == draft.downloadToken then
        Outcome(s, Fail)
      else Outcome(s.(rows := s.rows[id := draft.(createdAt := s.now, updatedAt := s.now)]), Done)
  }

  /** `findPendingUpload`. */
  predicate PendingFor(s: Stores, id: FileId, owner: OwnerId) {
    id in s.rows && s.rows[id].ownerId == owner && s.rows[id].state.Pending?
  }

  function ExecComplete(s: Stores, id: FileId, call: CompleteCall): Outcome {
    match call
    case FindPending(owner, selection) =>
      if PendingFor(s, id, owner) then Outcome(s, Go(Complete(id, CompleteMultipart(s.rows[id], selection))))
      else Outcome(s, Fail)
    case CompleteMultipart(file, selection) =>
      if Completable(s, file.storageKey, file.uploadId, selection) then
        Outcome(FinishUpload(s, file.storageKey, file.uploadId, selection), Go(Complete(id, HeadSize(file))))
      else Outcome(s, Fail)
    case HeadSize(file) =>
      var found := Object(s, file.storageKey);
      if found.None? then Outcome(s, Fail)
      else if |found.value| > MAX_FILE_SIZE_BYTES || |found.value| != file.sizeBytes then
        Outcome(s, Go(Complete(id, DropWrongSize(file))))
      else Outcome(s, Go(Complete(id, MarkUploaded)))
    case DropWrongSize(file) =>
      if file.storageKey.None? then Outcome(s, Fail)
      else Outcome(RemoveObject(s, file.storageKey.value), Go(Complete(id, RejectWrongSize)))
    case RejectWrongSize =>
      // The caller then gets 413 or 400: the operation ends with an exception either way.
      if id in s.rows then Outcome(RejectRow(s, id), Fail) else Outcome(s, Fail)
    case MarkUploaded =>
      if id in s.rows then Outcome(SetState(s, id, Uploaded), Go(Complete(id, EnqueueScan))) else Outcome(s, Fail)
    case EnqueueScan => Outcome(Enqueue(s, id), Done)
  }

  function ExecAbort(s: Stores, id: FileId, call: AbortCall): Outcome {
    match call
    case FindAbortable(owner) =>
      if PendingFor(s, id, owner) then Outcome(s, Go(Abort(id, AbortMultipart(s.rows[id])))) else Outcome(s, Fail)
    case AbortMultipart(file) =>
      if Abortable(s, file.storageKey, file.uploadId) then
        Outcome(RemoveUpload(s, file.uploadId.value), Go(Abort(id, DeletePendingRow)))
      else Outcome(s, Fail)
    case DeletePendingRow =>
      if id in s.rows then Outcome(DropRow(s, id), Done) else Outcome(s, Fail)
  }

  function ReapLoop(ids: seq<FileId>): Next {
    if ids == [] then Done else Go(Delete(ids[0], FindRow, ByReaper(ids[1..])))
  }

  function AfterDelete(origin: Origin): Next {
    match origin
    case ByOwner => Done
    case ByReaper(rest) => ReapLoop(rest)
  }

  function ExecDelete(s: Stores, id: FileId, call: DeleteCall, origin: Origin): Outcome {
    match call
    case FindOwned(owner) =>
      if id !in s.rows || s.rows[id].ownerId != owner then Outcome(s, Fail)
      else if s.rows[id].storageKey.None? then Outcome(s, Go(PurgeTombstone(id, [])))
      else Outcome(s, Go(Delete(id, FindRow, origin)))
    case FindRow =>
      if id !in s.rows then Outcome(s, AfterDelete(origin))
      else if s.rows[id].uploadId.Some? && s.rows[id].state.Pending? then
        Outcome(s, Go(Delete(id, AbortOpenUpload(s.rows[id]), origin)))
      else if s.rows[id].storageKey.Some? then Outcome(s, Go(Delete(id, DeleteObject(s.rows[id].storageKey), origin)))
      else Outcome(s, Go(Delete(id, DeleteRow, origin)))
    case AbortOpenUpload(file) =>
      if file.storageKey.None? then Outcome(s, Fail)
      else if Abortable(s, file.storageKey, file.uploadId) then
        Outcome(RemoveUpload(s, file.uploadId.value), Go(Delete(id, DeleteRow, origin)))
      else Outcome(s, Go(Delete(id, HeadOrphan(file.storageKey), origin)))
    case HeadOrphan(key) =>
      if Object(s, key).Some? then Outcome(s, Go(Delete(id, DeleteObject(key), origin)))
      else Outcome(s, Go(Delete(id, DeleteRow, origin)))
    case DeleteObject(key) =>
      if key.None? then Outcome(s, Fail)
      else Outcome(RemoveObject(s, key.value), Go(Delete(id, DeleteRow, origin)))
    case DeleteRow => Outcome(DropRow(s, id), AfterDelete(origin))
  }

  function GhostLoop(ids: seq<FileId>): Next {
    if ids == [] then Done else Go(PurgeTombstone(ids[0], ids[1..]))
  }

  function ExecTombstone(s: Stores, id: FileId, ids: seq<FileId>): Outcome {
    Outcome(DropRow(s, id), GhostLoop(ids))
  }

  function ExecValidate(s: Stores, id: FileId, call: ValidateCall, reply: ScanReply): Outcome {
    match call
    case FindScannable =>
      if id !in s.rows || !(s.rows[id].state.Uploaded? || s.rows[id].state.Scanning?) then Outcome(s, Done)
      else Outcome(s, Go(Validate(id, ClaimRow(s.rows[id]))))
    case ClaimRow(file) =>
      if id in s.rows then Outcome(SetState(s, id, Scanning), Go(Validate(id, ReadRange(file)))) else Outcome(s, Fail)
    case ReadRange(file) =>
      var found := Object(s, file.storageKey);
      if found.None? then Outcome(s, Fail)
      else
        var verdict := MagicBytes.VerifyMagicBytes(ExtensionOf(file.originalName), MagicBytes.Head(found.value));
        if verdict.Throws? then Outcome(s, Fail)
        else if verdict.Mismatch? then Outcome(s, Go(Validate(id, DropRefused(file))))
        else if file.sizeBytes > CLAMAV_MAX_SCAN_BYTES then Outcome(s, Go(Validate(id, MarkReady(file))))
        else Outcome(s, Go(Validate(id, ReadFull(file))))
    case ReadFull(file) =>
      var found := Object(s, file.storageKey);
      if found.None? then Outcome(s, Fail) else Outcome(s, Go(Validate(id, Scan(file, found.value))))
    case Scan(file, body) =>
      (match reply
       case Clean => Outcome(s, Go(Validate(id, MarkReady(file))))
       case Infected => Outcome(s, Go(Validate(id, DropRefused(file))))
       case ScanError => Outcome(s, Fail))
    case MarkReady(file) =>
      if id in s.rows then Outcome(SetState(s, id, Ready), Done) else Outcome(s, Fail)
    case DropRefused(file) =>
      if file.storageKey.None? then Outcome(s, Fail)
      else Outcome(RemoveObject(s, file.storageKey.value), Go(Validate(id, RejectRefused)))
    case RejectRefused =>
      if id in s.rows then Outcome(RejectRow(s, id), Done) else Outcome(s, Fail)
  }

  function RequeueLoop(ids: seq<FileId>): Next {
    if ids == [] then Done else Go(Requeue(ids[0], MarkRequeued, ids[1..]))
  }

  function ExecRequeue(s: Stores, id: FileId, call: RequeueCall, ids: seq<FileId>): Outcome {
    match call
    case MarkRequeued =>
      if id in s.rows then Outcome(SetState(s, id, Uploaded), Go(Requeue(id, EnqueueAgain, ids)))
      else Outcome(s, Fail)
    case EnqueueAgain => Outcome(Enqueue(s, id), RequeueLoop(ids))
  }

  /** `if (file.storageKey)` guards the object deletion; the row write follows in any case. */
  function ExpireLoop(todo: seq<Candidate>, count: nat): Next {
    if todo == [] then Done
    else
      var call := if todo[0].key.Some? then DropExpired(todo[0].key) else MarkExpired;
      Go(Expire(todo[0].id, call, todo[1..], count))
  }

  function ExecExpire(s: Stores, id: FileId, call: ExpireCall, todo: seq<Candidate>, count: nat): Outcome {
    match call
    case DropExpired(key) =>
      if key.None? then Outcome(s, Fail)
      else Outcome(RemoveObject(s, key.value), Go(Expire(id, MarkExpired, todo, count)))
    case MarkExpired =>
      if id in s.rows && s.rows[id].state.Ready? then
        Outcome(ExpireRow(s, id), Go(Expire(id, CountExpired(1), todo, count)))
      else Outcome(s, Go(Expire(id, CountExpired(0), todo, count)))
    case CountExpired(hit) => Outcome(s, ExpireLoop(todo, count + hit))
  }

  function Candidates(s: Stores, ids: seq<FileId>): seq<Candidate> {
    seq(|ids|, i requires 0 <= i < |ids| =>
      Candidate(ids[i], if ids[i] in s.rows then s.rows[ids[i]].storageKey else None))
  }

  /** The `findMany` that opens each planned task. */
  function ExecList(s: Stores, filter: Filter, ids: seq<FileId>): Outcome {
    match filter
    case ForRequeue => Outcome(s, RequeueLoop(ids))
    case ForGhosts => Outcome(s, GhostLoop(ids))
    case ForReaper => Outcome(s, ReapLoop(ids))
    case ForExpiry => Outcome(s, ExpireLoop(Candidates(s, ids), 0))
  }

  /** One await: its effect on the stores, and the code up to the next await. */
  function Exec(s: Stores, op: Op, c: Choice): Outcome {
    match op
    case Initiate(id, call) => ExecInitiate(s, id, call, c.newId)
    case Complete(id, call) => ExecComplete(s, id, call)
    case Abort(id, call) => ExecAbort(s, id, call)
    case Delete(id, call, origin) => ExecDelete(s, id, call, origin)
    case PurgeTombstone(id, ids) => ExecTombstone(s, id, ids)
    case Validate(id, call) => ExecValidate(s, id, call, c.reply)
    case Requeue(id, call, ids) => ExecRequeue(s, id, call, ids)
    case Expire(id, call, todo, count) => ExecExpire(s, id, call, todo, count)
    case List(filter) => ExecList(s, filter, c.ids)
  }

  /** What a listing requires of the environment's answer. */
  ghost predicate Answers(s: Stores, op: Op, c: Choice) {
    op.List? ==> Lists(s, op.filter, c.ids)
  }
}
