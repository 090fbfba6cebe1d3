/** The services as they are written: one object over the stores, its methods calling storage, database and queue
    in order. Each is proved to perform exactly the calls of the protocol when nothing interrupts it. */
module Services {
  import opened Base
  import opened FileRows
  import opened Stores
  import opened Protocol
  import opened Alone
  import opened Sweep
  import opened UploadParts
  import MagicBytes

  /** For the operations that ask nothing of the environment. */
  const QUIET := Choice(-1, [], ScanError)

  datatype DeleteReply = Deleted | FileNotFound | StorageFailed

  datatype CompleteReply = Accepted | UploadNotFound | NotPendingNow | CompleteFailed | SizeOverLimit | SizeMismatch

  datatype AbortReply = Aborted | AbortNotFound | AbortConflict | AbortFailed

  datatype ValidationReply = BecameReady | WasRejected | WasSkipped | ValidationFailed

  datatype InitiateReply = Created(id: FileId, partNumbers: seq<nat>) | Refused(error: UploadError) | TokenTaken

  datatype PartsReply =
    | Listing(totalParts: nat, completed: map<nat, Bytes>, missing: seq<nat>)
    | PartsNotFound
    | PartsConflict
    | UploadGone

  /** Storage can be freed: a pending row must still name its key. */
  predicate Deletable(s: Stores, id: FileId) {
    id in s.rows && s.rows[id].state.Pending? && s.rows[id].uploadId.Some? ==> s.rows[id].storageKey.Some?
  }

  /** Which end a validation comes to: the object, checked in full against the extension, and the scanner's reply. */
  ghost predicate Judgement(file: Row, found: Option<Bytes>, scan: ScanReply, reply: ValidationReply) {
    var scanned := file.sizeBytes <= CLAMAV_MAX_SCAN_BYTES;
    if found.None? then reply.ValidationFailed?
    else
      var verdict := MagicBytes.VerifyMagicBytes(ExtensionOf(file.originalName), found.value);
      && (reply.WasRejected? <==> verdict.Mismatch? || (!verdict.Throws? && scanned && scan.Infected?))
      && (reply.ValidationFailed? <==> verdict.Throws? || (!verdict.Mismatch? && scanned && scan.ScanError?))
      && (reply.BecameReady? <==> !verdict.Mismatch? && !verdict.Throws? && (!scanned || scan.Clean?))
  }

  /** What each end leaves in the stores. */
  ghost predicate JudgementKept(s: Stores, s': Stores, id: FileId, key: Option<Key>, reply: ValidationReply)
    requires id in s.rows
  {
    var file := s.rows[id].(updatedAt := s.now);
    && s'.uploads == s.uploads && s'.jobs == s.jobs
    && match reply
       case WasSkipped => s' == s
       case BecameReady => s'.objects == s.objects && s'.rows == s.rows[id := file.(state := Ready)]
       case WasRejected =>
         && key.Some?
         && s'.objects == s.objects - {key.value}
         && s'.rows == s.rows[id := file.(state := Rejected, storageKey := None)]
       case ValidationFailed => s'.objects == s.objects && s'.rows == s.rows[id := file.(state := Scanning)]
  }

  /** The state a worker posed for the time of its work is replaced by the end it comes to. */
  lemma ClaimIsOverwritten(s: Stores, claimed: Stores, s': Stores, id: FileId, file: Row, reply: ValidationReply)
    requires id in s.rows && s.rows[id] == file && claimed == SetState(s, id, Scanning) && !reply.WasSkipped?
    requires JudgementKept(claimed, s', id, file.storageKey, reply)
    ensures JudgementKept(s, s', id, file.storageKey, reply)
  {}

  /** What a completion that assembled `body` makes of the stores, for each of its three answers. */
  ghost predicate Decided(s: Stores, s': Stores, id: FileId, reply: CompleteReply, body: Bytes)
    requires id in s.rows && s.rows[id].storageKey.Some? && s.rows[id].uploadId.Some?
  {
    var file, key := s.rows[id], s.rows[id].storageKey.value;
    && s'.uploads == s.uploads - {file.uploadId.value}
    && (reply.SizeOverLimit? <==> |body| > MAX_FILE_SIZE_BYTES)
    && (reply.SizeMismatch? <==> |body| <= MAX_FILE_SIZE_BYTES && |body| != file.sizeBytes)
    && (reply.Accepted? <==> |body| == file.sizeBytes <= MAX_FILE_SIZE_BYTES)
    && if reply.Accepted? then
         && s'.rows == s.rows[id := file.(state := Uploaded, updatedAt := s.now)]
         && s'.objects == s.objects[key := body]
         && s'.jobs == (if id in s.jobs then s.jobs else s.jobs[id := Waiting(0)])
       else
         && s'.rows == s.rows[id := file.(state := Rejected, storageKey := None, updatedAt := s.now)]
         && s'.objects == s.objects - {key}
         && s'.jobs == s.jobs
  }

  /** What a deletion takes from storage: of a pending file the open upload, or the object it has become; of any other
      file the object. */
  ghost predicate StorageFreed(s: Stores, s': Stores, id: FileId, key: Key)
    requires id in s.rows
  {
    var file := s.rows[id];
    var open := file.state.Pending? && file.uploadId.Some? && file.uploadId.value in s.uploads
                && s.uploads[file.uploadId.value].key == key;
    && s'.uploads == (if open then s.uploads - {file.uploadId.value} else s.uploads)
    && s'.objects == (if open then s.objects else s.objects - {key})
  }

  class Backend {
    var rows: Rows
    var objects: map<Key, Bytes>
    var uploads: map<UploadId, Upload>
    var jobs: map<FileId, Job>
    const now: int

    ghost function View(): Stores
      reads this
    {
      Stores(rows, objects, uploads, jobs, now)
    }

    constructor (s: Stores)
      ensures View() == s
    {
      rows, objects, uploads, jobs, now := s.rows, s.objects, s.uploads, s.jobs, s.now;
    }

    // ---- storage, database and queue ----

    /** False when storage answers NoSuchUpload. */
    method AbortMultipartUpload(key: Key, upload: Option<UploadId>) returns (open: bool)
      modifies this`uploads
      ensures open == Abortable(old(View()), Some(key), upload)
      ensures uploads == if open then old(uploads) - {upload.value} else old(uploads)
    {
      open := upload.Some? && upload.value in uploads && uploads[upload.value].key == key;
      if open {
        uploads := uploads - {upload.value};
      }
    }

    method UpdateRow(id: FileId, row: Row)
      modifies this`rows
      ensures rows == old(rows)[id := row.(updatedAt := now)]
    {
      rows := rows[id := row.(updatedAt := now)];
    }

    method EnqueueValidation(id: FileId)
      modifies this`jobs
      ensures View() == Enqueue(old(View()), id)
    {
      if id !in jobs {
        jobs := jobs[id := Waiting(0)];
      }
    }

    // ---- FileDeletionService ----

    method DeleteOwnedFile(owner: OwnerId, id: FileId) returns (reply: DeleteReply)
      modifies this
      ensures View() == RunAlone(old(View()), Delete(id, FindOwned(owner), ByOwner), QUIET).st
      ensures reply.Deleted? == RunAlone(old(View()), Delete(id, FindOwned(owner), ByOwner), QUIET).next.Done?
      ensures reply.FileNotFound? <==> id !in old(rows) || old(rows)[id].ownerId != owner
      ensures reply.StorageFailed? ==> old(rows)[id].storageKey.Some? && !Deletable(old(View()), id)
      ensures id in old(rows) && old(rows)[id].ownerId == owner && Deletable(old(View()), id) ==> reply.Deleted?
      ensures Tidy(old(View())) ==>
                (reply.Deleted? <==> id in old(rows) && old(rows)[id].ownerId == owner)
      ensures !reply.Deleted? ==> View() == old(View())
      ensures reply.Deleted? ==> rows == old(rows) - {id} && jobs == old(jobs)
      ensures reply.Deleted? && old(rows)[id].storageKey.None? ==> objects == old(objects) && uploads == old(uploads)
      ensures reply.Deleted? && old(rows)[id].storageKey.Some? ==>
                StorageFreed(old(View()), View(), id, old(rows)[id].storageKey.value)
    {
      if id !in rows || rows[id].ownerId != owner {
        return FileNotFound;
      }
      if rows[id].storageKey.None? {
        PurgeTombstone(id);
        return Deleted;
      }
      var done := DeleteFileCompletely(id);
      reply := if done then Deleted else StorageFailed;
    }

    /** Object and row. False when the storage call throws something else than NoSuchUpload. */
    method DeleteFileCompletely(id: FileId) returns (done: bool)
      modifies this
      ensures View() == RunAlone(old(View()), Delete(id, FindRow, ByOwner), QUIET).st
      ensures done == RunAlone(old(View()), Delete(id, FindRow, ByOwner), QUIET).next.Done?
      ensures done <==> Deletable(old(View()), id)
      ensures done ==> rows == old(rows) - {id} && jobs == old(jobs)
      ensures !done ==> View() == old(View())
      ensures id in old(rows) && old(rows)[id].storageKey.Some? ==>
                StorageFreed(old(View()), View(), id, old(rows)[id].storageKey.value)
      ensures id !in old(rows) || old(rows)[id].storageKey.None? ==> objects == old(objects) && uploads == old(uploads)
    {
      ghost var whole := RunAlone(View(), Delete(id, FindRow, ByOwner), QUIET);
      if id !in rows {
        return true;
      }
      var file := rows[id];
      if file.uploadId.Some? && file.state.Pending? {
        assert whole == RunAlone(View(), Delete(id, AbortOpenUpload(file), ByOwner), QUIET);
        if file.storageKey.None? {
          return false;
        }
        var open := AbortMultipartUpload(file.storageKey.value, file.uploadId);
        if !open {
          assert whole == RunAlone(View(), Delete(id, HeadOrphan(file.storageKey), ByOwner), QUIET);
          ghost var found := Object(View(), file.storageKey).Some?;
          assert found ==> whole == RunAlone(View(), Delete(id, DeleteObject(file.storageKey), ByOwner), QUIET);
          DeleteOrphanedObject(file.storageKey.value);
        }
      } else if file.storageKey.Some? {
        assert whole == RunAlone(View(), Delete(id, DeleteObject(file.storageKey), ByOwner), QUIET);
        objects := objects - {file.storageKey.value};
      }
      assert whole == RunAlone(View(), Delete(id, DeleteRow, ByOwner), QUIET);
      PurgeTombstone(id);
      done := true;
    }

    /** Completion had succeeded in storage before the row was updated: the object is real. */
    method DeleteOrphanedObject(key: Key)
      modifies this`objects
      ensures objects == old(objects) - {key}
      ensures key !in old(objects) ==> objects == old(objects)
    {
      if key !in objects {
        assert objects == objects - {key};
        return;
      }
      objects := objects - {key};
    }

    /** Row only, and a missing row is success. */
    method PurgeTombstone(id: FileId)
      modifies this`rows
      ensures rows == old(rows) - {id}
    {
      rows := rows - {id};
    }

    // ---- FilesService ----

    /** `id` stands for the fresh identifiers: the row's, the object key and the upload's. */
    method InitiateUpload(request: UploadRequest, id: FileId) returns (reply: InitiateReply)
      modifies this
      ensures View() == RunAlone(old(View()), Initiate(-1, CreateMultipart(request)), Choice(id, [], ScanError)).st
      ensures reply.Refused? <==>
                || !ValidBody(request) || ExtensionOf(request.originalName) in BLOCKED_EXTENSIONS
                || request.sizeBytes > MAX_FILE_SIZE_BYTES
                || exists i, j :: 0 <= i < j < |request.tags| && request.tags[i].lowered == request.tags[j].lowered
      ensures reply.Refused? ==> Admit(request) == Err(reply.error) && View() == old(View())
      ensures reply.Created? ==
              RunAlone(old(View()), Initiate(-1, CreateMultipart(request)), Choice(id, [], ScanError)).next.Done?
      ensures reply.TokenTaken? <==>
                Admit(request).Ok? && exists other :: other in old(rows)
                                                      && old(rows)[other].downloadToken == request.downloadToken
      ensures reply.TokenTaken? ==>
                && rows == old(rows) && uploads == old(uploads)[id := Upload(id, map[])] && objects == old(objects)
                && jobs == old(jobs)
      ensures reply.Created? ==>
                && reply.id == id && id in rows && rows == old(rows)[id := rows[id]]
                && uploads == old(uploads)[id := Upload(id, map[])] && objects == old(objects) && jobs == old(jobs)
                && rows[id].state.Pending? && rows[id].ownerId == request.ownerId
                && rows[id].storageKey == Some(id) && rows[id].uploadId == Some(id)
                && 1 <= rows[id].sizeBytes == request.sizeBytes <= MAX_FILE_SIZE_BYTES
                && rows[id].originalName == request.originalName && rows[id].mimeType == request.mimeType
                && rows[id].passwordHash == request.passwordHash && rows[id].createdAt == rows[id].updatedAt == now
                && rows[id].showSender == request.showSender && rows[id].senderName == request.senderName
                && rows[id].downloadToken == request.downloadToken
                && (forall other :: other in old(rows) ==> old(rows)[other].downloadToken != request.downloadToken)
                && now + MS_PER_DAY <= rows[id].expiresAt <= now + 7 * MS_PER_DAY
                && (request.expiresInDays.None? ==> rows[id].expiresAt == now + 7 * MS_PER_DAY)
                && (request.expiresInDays.Some? ==>
                      rows[id].expiresAt == now + request.expiresInDays.value * MS_PER_DAY)
                && |rows[id].tags| == |request.tags|
                && (forall i :: 0 <= i < |request.tags| ==> rows[id].tags[i] == request.tags[i].text)
                && Cuts(|reply.partNumbers|, request.sizeBytes, PART_SIZE_BYTES) && |reply.partNumbers| <= 128
                && reply.partNumbers == PartNumbers(|reply.partNumbers|)
    {
      ghost var c := Choice(id, [], ScanError);
      ghost var whole := RunAlone(View(), Initiate(-1, CreateMultipart(request)), c);
      var admitted := Admit(request);
      AdmissionIsExact(request);
      if admitted.Err? {
        return Refused(admitted.error);
      }
      uploads := uploads[id := Upload(id, map[])];
      var numParts := NumParts(request.sizeBytes, PART_SIZE_BYTES);
      NumPartsCuts(request.sizeBytes, PART_SIZE_BYTES);
      PartCountBounds(request.sizeBytes);
      var draft := Draft(request, admitted.value, id, id, now);
      assert whole == RunAlone(View(), Initiate(id, CreateRow(draft)), c);
      if exists other :: other in rows && rows[other].downloadToken == draft.downloadToken {
        return TokenTaken;
      }
      rows := rows[id := draft];
      reply := Created(id, PartNumbers(numParts));
    }

    /** What a resuming browser is told: the parts storage has, and the numbers of the others. */
    method GetUploadParts(owner: OwnerId, id: FileId) returns (reply: PartsReply)
      ensures reply.Listing? ==>
                && PendingFor(View(), id, owner) && Abortable(View(), rows[id].storageKey, rows[id].uploadId)
                && reply.completed == uploads[rows[id].uploadId.value].parts
                && reply.totalParts >= 1
                && (rows[id].sizeBytes > 0 ==> Cuts(reply.totalParts, rows[id].sizeBytes, PART_SIZE_BYTES))
                && Ascending(reply.missing)
                && forall k: nat :: k in reply.missing <==> 1 <= k <= reply.totalParts && k !in reply.completed
      ensures reply.UploadGone? <==>
                PendingFor(View(), id, owner) && !Abortable(View(), rows[id].storageKey, rows[id].uploadId)
      ensures reply.PartsNotFound? <==> id !in rows || rows[id].ownerId != owner
      ensures reply.PartsConflict? <==> id in rows && rows[id].ownerId == owner && !rows[id].state.Pending?
    {
      if id !in rows || rows[id].ownerId != owner {
        return PartsNotFound;
      }
      if !rows[id].state.Pending? {
        return PartsConflict;
      }
      var file := rows[id];
      if file.storageKey.None? || file.uploadId.None? || file.uploadId.value !in uploads
         || uploads[file.uploadId.value].key != file.storageKey.value {
        return UploadGone;
      }
      var numParts := NumParts(if file.sizeBytes > 0 then file.sizeBytes else 0, PART_SIZE_BYTES);
      var completed := uploads[file.uploadId.value].parts;
      var missing := Missing(numParts, completed.Keys);
      MissingIsTheRest(numParts, completed.Keys);
      if file.sizeBytes > 0 {
        NumPartsCuts(file.sizeBytes, PART_SIZE_BYTES);
      }
      reply := Listing(numParts, completed, missing);
    }

    method AbortUpload(owner: OwnerId, id: FileId) returns (reply: AbortReply)
      modifies this
      ensures View() == RunAlone(old(View()), Abort(id, FindAbortable(owner)), QUIET).st
      ensures reply.Aborted? == RunAlone(old(View()), Abort(id, FindAbortable(owner)), QUIET).next.Done?
      ensures reply.AbortNotFound? <==> id !in old(rows) || old(rows)[id].ownerId != owner
      ensures reply.AbortConflict? <==>
                id in old(rows) && old(rows)[id].ownerId == owner && !old(rows)[id].state.Pending?
      ensures reply.Aborted? <==>
                && id in old(rows) && old(rows)[id].ownerId == owner && old(rows)[id].state.Pending?
                && Abortable(old(View()), old(rows)[id].storageKey, old(rows)[id].uploadId)
      ensures reply.Aborted? ==>
                && rows == old(rows) - {id} && uploads == old(uploads) - {old(rows)[id].uploadId.value}
                && objects == old(objects) && jobs == old(jobs)
      ensures !reply.Aborted? ==> View() == old(View())
    {
      if id !in rows || rows[id].ownerId != owner {
        return AbortNotFound;
      }
      if !rows[id].state.Pending? {
        return AbortConflict;
      }
      var file := rows[id];
      ghost var whole := RunAlone(View(), Abort(id, FindAbortable(owner)), QUIET);
      assert whole == RunAlone(View(), Abort(id, AbortMultipart(file)), QUIET);
      if file.storageKey.None? {
        return AbortFailed;
      }
      var open := AbortMultipartUpload(file.storageKey.value, file.uploadId);
      if !open {
        return AbortFailed;
      }
      assert whole == RunAlone(View(), Abort(id, DeletePendingRow), QUIET);
      rows := rows - {id};
      reply := Aborted;
    }

    /** The posted parts are sorted by number before storage sees them. */
    method CompleteUpload(owner: OwnerId, id: FileId, posted: seq<Part<string>>) returns (reply: CompleteReply)
      modifies this
      ensures View() ==
              RunAlone(old(View()), Complete(id, FindPending(owner, Numbers(SortParts(posted)))), QUIET).st
      ensures reply.UploadNotFound? <==> id !in old(rows) || old(rows)[id].ownerId != owner
      ensures reply.NotPendingNow? <==>
                id in old(rows) && old(rows)[id].ownerId == owner && !old(rows)[id].state.Pending?
      ensures reply.CompleteFailed? <==>
                && id in old(rows) && old(rows)[id].ownerId == owner && old(rows)[id].state.Pending?
                && !Completable(old(View()), old(rows)[id].storageKey, old(rows)[id].uploadId,
                                Numbers(SortParts(posted)))
      ensures reply.UploadNotFound? || reply.NotPendingNow? || reply.CompleteFailed? ==> View() == old(View())
      ensures reply.Accepted? || reply.SizeOverLimit? || reply.SizeMismatch? ==>
                && Completable(old(View()), old(rows)[id].storageKey, old(rows)[id].uploadId,
                               Numbers(SortParts(posted)))
                && reply.Accepted? ==
                   RunAlone(old(View()), Complete(id, FindPending(owner, Numbers(SortParts(posted)))), QUIET).next.Done?
                && Decided(old(View()), View(), id, reply,
                           Assemble(old(uploads)[old(rows)[id].uploadId.value].parts, Numbers(SortParts(posted))))
    {
      if id !in rows || rows[id].ownerId != owner {
        return UploadNotFound;
      }
      if !rows[id].state.Pending? {
        return NotPendingNow;
      }
      var file := rows[id];
      var selection := Numbers(SortParts(posted));
      ghost var whole := RunAlone(View(), Complete(id, FindPending(owner, selection)), QUIET);
      assert whole == RunAlone(View(), Complete(id, CompleteMultipart(file, selection)), QUIET);
      if !Completable(Stores(rows, objects, uploads, jobs, now), file.storageKey, file.uploadId, selection) {
        return CompleteFailed;
      }
      var key := file.storageKey.value;
      objects := objects[key := Assemble(uploads[file.uploadId.value].parts, selection)];
      uploads := uploads - {file.uploadId.value};
      assert whole == RunAlone(View(), Complete(id, HeadSize(file)), QUIET);
      reply := CheckSize(id, file, whole);
    }

    /** `HeadObject` after completion: the ceiling, then the declared size, then the row and the job. */
    method CheckSize(id: FileId, file: Row, ghost whole: Outcome) returns (reply: CompleteReply)
      requires id in rows && rows[id] == file && file.storageKey.Some? && file.storageKey.value in objects
      requires whole == RunAlone(View(), Complete(id, HeadSize(file)), QUIET)
      modifies this
      ensures View() == whole.st && reply.Accepted? == whole.next.Done?
      ensures reply ==
              var size := |old(objects)[file.storageKey.value]|;
              if size > MAX_FILE_SIZE_BYTES then SizeOverLimit
              else if size != file.sizeBytes then SizeMismatch
              else Accepted
      ensures uploads == old(uploads)
      ensures reply.Accepted? ==>
                && rows == old(rows)[id := file.(state := Uploaded, updatedAt := now)] && objects == old(objects)
                && jobs == if id in old(jobs) then old(jobs) else old(jobs)[id := Waiting(0)]
      ensures !reply.Accepted? ==>
                && rows == old(rows)[id := file.(state := Rejected, storageKey := None, updatedAt := now)]
                && objects == old(objects) - {file.storageKey.value} && jobs == old(jobs)
    {
      var contentLength := |objects[file.storageKey.value]|;
      if contentLength > MAX_FILE_SIZE_BYTES {
        RejectUpload(id, file, whole);
        return SizeOverLimit;
      }
      if contentLength != file.sizeBytes {
        RejectUpload(id, file, whole);
        return SizeMismatch;
      }
      assert whole == RunAlone(View(), Complete(id, MarkUploaded), QUIET);
      UpdateRow(id, rows[id].(state := Uploaded));
      assert whole == RunAlone(View(), Complete(id, EnqueueScan), QUIET);
      EnqueueValidation(id);
      reply := Accepted;
    }

    /** The two refusals after `HeadObject`: the object goes first, then the row. */
    method RejectUpload(id: FileId, file: Row, ghost whole: Outcome)
      requires id in rows && file.storageKey.Some?
      requires whole == RunAlone(View(), Complete(id, DropWrongSize(file)), QUIET)
      modifies this
      ensures View() == whole.st && whole.next.Fail?
      ensures objects == old(objects) - {file.storageKey.value} && uploads == old(uploads) && jobs == old(jobs)
      ensures rows == old(rows)[id :=
                old(rows)[id].(state := Rejected, storageKey := None, updatedAt := now)]
    {
      objects := objects - {file.storageKey.value};
      assert whole == RunAlone(View(), Complete(id, RejectWrongSize), QUIET);
      UpdateRow(id, rows[id].(state := Rejected, storageKey := None));
    }

    // ---- ValidationService ----

    /** `scan` is what the scanner answers, if it is asked. */
    method Validate(id: FileId, scan: ScanReply) returns (reply: ValidationReply)
      modifies this
      ensures View() == RunAlone(old(View()), Op.Validate(id, FindScannable), Choice(-1, [], scan)).st
      ensures reply.ValidationFailed? ==
              RunAlone(old(View()), Op.Validate(id, FindScannable), Choice(-1, [], scan)).next.Fail?
      ensures reply.WasSkipped? <==>
                !(id in old(rows) && (old(rows)[id].state.Uploaded? || old(rows)[id].state.Scanning?))
      ensures reply.WasSkipped? ==> View() == old(View())
      ensures !reply.WasSkipped? ==>
                Judgement(old(rows)[id], Object(old(View()), old(rows)[id].storageKey), scan, reply)
      ensures !reply.WasSkipped? ==> JudgementKept(old(View()), View(), id, old(rows)[id].storageKey, reply)
    {
      if id !in rows || !(rows[id].state.Uploaded? || rows[id].state.Scanning?) {
        return WasSkipped;
      }
      var file := rows[id];
      ghost var c := Choice(-1, [], scan);
      ghost var whole := RunAlone(View(), Op.Validate(id, FindScannable), c);
      assert whole == RunAlone(View(), Op.Validate(id, ClaimRow(file)), c);
      UpdateRow(id, file.(state := Scanning));
      assert whole == RunAlone(View(), Op.Validate(id, ReadRange(file)), c);
      ghost var claimed := View();
      reply := CheckHead(id, file, scan, whole);
      ClaimIsOverwritten(old(View()), claimed, View(), id, file, reply);
    }

    /** Step 1: the first 64 bytes against the extension. */
    method CheckHead(id: FileId, file: Row, scan: ScanReply, ghost whole: Outcome) returns (reply: ValidationReply)
      requires id in rows && rows[id] == file.(state := Scanning, updatedAt := now)
      requires whole == RunAlone(View(), Op.Validate(id, ReadRange(file)), Choice(-1, [], scan))
      modifies this
      ensures View() == whole.st
      ensures !reply.WasSkipped? && reply.ValidationFailed? == whole.next.Fail?
      ensures Judgement(file, Object(old(View()), file.storageKey), scan, reply)
      ensures JudgementKept(old(View()), View(), id, file.storageKey, reply)
    {
      if file.storageKey.None? || file.storageKey.value !in objects {
        return ValidationFailed;
      }
      var body := objects[file.storageKey.value];
      MagicBytes.RangedReadSuffices(ExtensionOf(file.originalName), body);
      var verdict := MagicBytes.VerifyMagicBytes(ExtensionOf(file.originalName), MagicBytes.Head(body));
      if verdict.Throws? {
        return ValidationFailed;
      }
      if verdict.Mismatch? {
        Reject(id, file, whole, Choice(-1, [], scan));
        return WasRejected;
      }
      reply := ScanAndDecide(id, file, body, scan, whole);
    }

    /** Step 2: the antivirus, below its cap, and the verdict. */
    method ScanAndDecide(id: FileId, file: Row, body: Bytes, scan: ScanReply, ghost whole: Outcome)
      returns (reply: ValidationReply)
      requires id in rows && rows[id] == file.(state := Scanning, updatedAt := now)
      requires Object(View(), file.storageKey) == Some(body)
      requires !MagicBytes.VerifyMagicBytes(ExtensionOf(file.originalName), body).Mismatch?
      requires !MagicBytes.VerifyMagicBytes(ExtensionOf(file.originalName), body).Throws?
      requires var call := if file.sizeBytes > CLAMAV_MAX_SCAN_BYTES then MarkReady(file) else ReadFull(file);
               whole == RunAlone(View(), Op.Validate(id, call), Choice(-1, [], scan))
      modifies this
      ensures View() == whole.st
      ensures !reply.WasSkipped? && reply.ValidationFailed? == whole.next.Fail?
      ensures Judgement(file, Some(body), scan, reply)
      ensures JudgementKept(old(View()), View(), id, file.storageKey, reply)
    {
      ghost var c := Choice(-1, [], scan);
      if file.sizeBytes <= CLAMAV_MAX_SCAN_BYTES {
        assert whole == RunAlone(View(), Op.Validate(id, Scan(file, body)), c);
        if scan.ScanError? {
          return ValidationFailed;
        }
        if scan.Infected? {
          Reject(id, file, whole, c);
          return WasRejected;
        }
      }
      assert whole == RunAlone(View(), Op.Validate(id, MarkReady(file)), c);
      UpdateRow(id, rows[id].(state := Ready));
      reply := BecameReady;
    }

    /** The object goes first, then the row loses its key. */
    method Reject(id: FileId, file: Row, ghost whole: Outcome, ghost c: Choice)
      requires id in rows && file.storageKey.Some?
      requires whole == RunAlone(View(), Op.Validate(id, DropRefused(file)), c)
      modifies this
      ensures View() == whole.st
      ensures whole.next.Done?
      ensures objects == old(objects) - {file.storageKey.value} && uploads == old(uploads) && jobs == old(jobs)
      ensures rows == old(rows)[id :=
                old(rows)[id].(state := Rejected, storageKey := None, updatedAt := now)]
    {
      objects := objects - {file.storageKey.value};
      assert whole == RunAlone(View(), Op.Validate(id, RejectRefused), c);
      UpdateRow(id, rows[id].(state := Rejected, storageKey := None));
    }

    // ---- the planned tasks ----

    /** `findMany`: the matching rows in an order the database chooses. */
    method FindMany(filter: Filter) returns (ids: seq<FileId>)
      ensures Lists(View(), filter, ids)
    {
      ids := [];
      var todo := rows.Keys;
      while |todo| > 0
        invariant todo <= rows.Keys
        invariant forall id :: id in ids <==> id in rows && id !in todo && Selected(filter, rows[id], now)
        invariant forall i, j :: 0 <= i < j < |ids| ==> ids[i] != ids[j]
        decreases |todo|
      {
        SomeMember(todo);
        var id :| id in todo;
        if Selected(filter, rows[id], now) {
          ids := ids + [id];
        }
        todo := todo - {id};
      }
    }

    /** Pass 1. Storage before row, and the row only if it is still ready. */
    method ExpireReadyFiles() returns (count: nat, ghost ids: seq<FileId>)
      requires Tidy(View())
      modifies this`rows, this`objects
      ensures View() == ExpirePass(old(View()), Due(old(View()), ForExpiry))
      ensures count == |Due(old(View()), ForExpiry)|
      ensures Lists(old(View()), ForExpiry, ids)
      ensures RunAlone(old(View()), List(ForExpiry), Choice(-1, ids, ScanError)) == Outcome(View(), Done)
    {
      var found := FindMany(ForExpiry);
      ids := found;
      count := 0;
      ghost var s, c := View(), Choice(-1, ids, ScanError);
      ghost var cands := Candidates(s, ids);
      EmptyPassesDoNothing(s);
      for i := 0 to |found|
        invariant View() == ExpirePass(s, Firsts(ids, i))
        invariant count == i
        invariant RunAlone(s, List(ForExpiry), c) == Finish(Outcome(View(), ExpireLoop(cands[i..], count)), c)
      {
        FirstsGrow(s, ForExpiry, ids, i);
        ExpireOneMore(s, Firsts(ids, i), found[i]);
        assert cands[i..] == [cands[i]] + cands[i + 1..];
        var hit := ExpireOne(found[i], rows[found[i]].storageKey, cands[i + 1..], count, c);
        count := count + hit;
      }
      FirstsAreAll(s, ForExpiry, ids);
    }

    /** One candidate: the object, then the row under the guard `state: ready`. */
    method ExpireOne(
      id: FileId, key: Option<Key>, ghost rest: seq<Candidate>, ghost counted: nat, ghost c: Choice)
      returns (hit: nat)
      requires key.Some?
      modifies this`rows, this`objects
      ensures hit == if id in old(rows) && old(rows)[id].state.Ready? then 1 else 0
      ensures View() == var dropped := RemoveObject(old(View()), key.value);
                        if hit == 1 then ExpireRow(dropped, id) else dropped
      ensures Finish(Outcome(old(View()), ExpireLoop([Candidate(id, key)] + rest, counted)), c) ==
              Finish(Outcome(View(), ExpireLoop(rest, counted + hit)), c)
    {
      assert ([Candidate(id, key)] + rest)[1..] == rest;
      ghost var whole := RunAlone(View(), Expire(id, DropExpired(key), rest, counted), c);
      objects := objects - {key.value};
      assert whole == RunAlone(View(), Expire(id, MarkExpired, rest, counted), c);
      hit := 0;
      if id in rows && rows[id].state.Ready? {
        rows := rows[id := Tombstone(rows[id], now)];
        hit := 1;
      }
      assert whole == RunAlone(View(), Expire(id, CountExpired(hit), rest, counted), c);
    }

    /** Pass 2: row only. */
    method PurgeGhostRows() returns (count: nat, ghost ids: seq<FileId>)
      modifies this`rows
      ensures View() == GhostPass(old(View()), Due(old(View()), ForGhosts))
      ensures count == |Due(old(View()), ForGhosts)|
      ensures Lists(old(View()), ForGhosts, ids)
      ensures RunAlone(old(View()), List(ForGhosts), Choice(-1, ids, ScanError)) == Outcome(View(), Done)
    {
      var found := FindMany(ForGhosts);
      ids := found;
      ghost var s, c := View(), Choice(-1, ids, ScanError);
      EmptyPassesDoNothing(s);
      for i := 0 to |found|
        invariant View() == GhostPass(s, Firsts(ids, i))
        invariant RunAlone(s, List(ForGhosts), c) == Finish(Outcome(View(), GhostLoop(ids[i..])), c)
      {
        FirstsGrow(s, ForGhosts, ids, i);
        PurgeOneMore(s, Firsts(ids, i), found[i]);
        assert ids[i..][0] == found[i] && ids[i..][1..] == ids[i + 1..];
        PurgeTombstone(found[i]);
      }
      FirstsAreAll(s, ForGhosts, ids);
      count := |found|;
    }

    /** Pass 3, through deleteFileCompletely. */
    method ReapAbandonedUploads() returns (count: nat, ghost ids: seq<FileId>)
      requires Tidy(View())
      modifies this
      ensures View() == ReapPass(old(View()), Due(old(View()), ForReaper))
      ensures count == |Due(old(View()), ForReaper)|
      ensures Lists(old(View()), ForReaper, ids)
      ensures RunAlone(old(View()), List(ForReaper), Choice(-1, ids, ScanError)) == Outcome(View(), Done)
    {
      var found := FindMany(ForReaper);
      ids := found;
      ghost var s, c := View(), Choice(-1, ids, ScanError);
      EmptyPassesDoNothing(s);
      for i := 0 to |found|
        invariant View() == ReapPass(s, Firsts(ids, i))
        invariant RunAlone(s, List(ForReaper), c) == Finish(Outcome(View(), ReapLoop(ids[i..])), c)
      {
        var id := found[i];
        FirstsGrow(s, ForReaper, ids, i);
        ReapOneMore(s, Firsts(ids, i), id);
        assert ids[i..][0] == id && ids[i..][1..] == ids[i + 1..];
        ReapedAlone(View(), id, ids[i + 1..], c);
        var done := DeleteFileCompletely(id);
      }
      FirstsAreAll(s, ForReaper, ids);
      count := |found|;
    }

    /** The three passes in order. */
    method RunDailySweep() returns (expired: nat, purged: nat, reaped: nat)
      requires Tidy(View())
      modifies this
      ensures View() == Swept(old(View()))
      ensures expired == |Due(old(View()), ForExpiry)|
      ensures purged == |Due(old(View()), ForGhosts)|
      ensures reaped == |Due(old(View()), ForReaper)|
    {
      PassesDoNotFeedEachOther(View());
      ghost var ids;
      expired, ids := ExpireReadyFiles();
      purged, ids := PurgeGhostRows();
      reaped, ids := ReapAbandonedUploads();
    }

    /** ScanWorker.requeueStaleScans. */
    method RequeueStaleScans() returns (count: nat, ghost ids: seq<FileId>)
      modifies this`rows, this`jobs
      ensures View() == RequeuePass(old(View()), Due(old(View()), ForRequeue))
      ensures count == |Due(old(View()), ForRequeue)|
      ensures Lists(old(View()), ForRequeue, ids)
      ensures RunAlone(old(View()), List(ForRequeue), Choice(-1, ids, ScanError)) == Outcome(View(), Done)
    {
      var found := FindMany(ForRequeue);
      ids := found;
      ghost var s, c := View(), Choice(-1, ids, ScanError);
      EmptyPassesDoNothing(s);
      for i := 0 to |found|
        invariant View() == RequeuePass(s, Firsts(ids, i))
        invariant RunAlone(s, List(ForRequeue), c) == Finish(Outcome(View(), RequeueLoop(ids[i..])), c)
      {
        var id := found[i];
        FirstsGrow(s, ForRequeue, ids, i);
        RequeueOneMore(s, Firsts(ids, i), id);
        assert ids[i..][0] == id && ids[i..][1..] == ids[i + 1..];
        RequeueOne(id, ids[i + 1..], c);
        assert View() == RequeuePass(s, Firsts(ids, i + 1));
      }
      FirstsAreAll(s, ForRequeue, ids);
      count := |found|;
    }

    method RequeueOne(id: FileId, ghost rest: seq<FileId>, ghost c: Choice)
      requires id in rows
      modifies this`rows, this`jobs
      ensures View() == Enqueue(SetState(old(View()), id, Uploaded), id)
      ensures Finish(Outcome(old(View()), RequeueLoop([id] + rest)), c) ==
              Finish(Outcome(View(), RequeueLoop(rest)), c)
    {
      RequeueStep(View(), id, rest, c);
      UpdateRow(id, rows[id].(state := Uploaded));
      EnqueueValidation(id);
    }
  }

  // ---- listings ----

  lemma SomeMember(ids: set<FileId>)
    requires |ids| > 0
    ensures exists id :: id in ids
  {
    if forall id :: id !in ids {
      assert false;
    }
  }

  /** The first `i` files of a listing. */
  function Firsts(ids: seq<FileId>, i: nat): set<FileId>
    requires i <= |ids|
  {
    set id | id in ids[..i]
  }

  lemma FirstsGrow(s: Stores, filter: Filter, ids: seq<FileId>, i: nat)
    requires Lists(s, filter, ids) && i < |ids|
    ensures Firsts(ids, i + 1) == Firsts(ids, i) + {ids[i]}
    ensures ids[i] !in Firsts(ids, i) && ids[i] in Due(s, filter)
  {
    assert ids[..i + 1] == ids[..i] + [ids[i]];
    forall j | 0 <= j < i ensures ids[..i][j] != ids[i] {
      assert ids[..i][j] == ids[j];
    }
    var id := ids[i];
    assert id in ids;
    assert id in s.rows && Selected(filter, s.rows[id], s.now);
  }

  lemma {:induction false} FirstsCount(s: Stores, filter: Filter, ids: seq<FileId>, i: nat)
    requires Lists(s, filter, ids) && i <= |ids|
    ensures |Firsts(ids, i)| == i
  {
    if i > 0 {
      FirstsGrow(s, filter, ids, i - 1);
      FirstsCount(s, filter, ids, i - 1);
    }
  }

  lemma FirstsAreAll(s: Stores, filter: Filter, ids: seq<FileId>)
    requires Lists(s, filter, ids)
    ensures Firsts(ids, |ids|) == Due(s, filter) && |ids| == |Due(s, filter)|
  {
    assert ids[..|ids|] == ids;
    assert forall id :: id in Firsts(ids, |ids|) <==> id in Due(s, filter);
    FirstsCount(s, filter, ids, |ids|);
  }

  // ---- one element of a loop, uninterrupted ----

  lemma RequeueStep(s: Stores, id: FileId, rest: seq<FileId>, c: Choice)
    requires id in s.rows
    ensures Finish(Outcome(s, RequeueLoop([id] + rest)), c) ==
            Finish(Outcome(Enqueue(SetState(s, id, Uploaded), id), RequeueLoop(rest)), c)
  {
    assert ([id] + rest)[1..] == rest;
    assert RunAlone(s, Requeue(id, MarkRequeued, rest), c) ==
           RunAlone(SetState(s, id, Uploaded), Requeue(id, EnqueueAgain, rest), c);
  }

  /** Deleting a tidy pending file never fails, and the reaper then goes on. */
  lemma ReapedAlone(s: Stores, id: FileId, rest: seq<FileId>, c: Choice)
    requires Tidy(s) && id in s.rows && s.rows[id].state.Pending?
    ensures RunAlone(s, Delete(id, FindRow, ByOwner), QUIET) == Outcome(DropPending(s, id), Done)
    ensures Finish(Outcome(s, ReapLoop([id] + rest)), c) == Finish(Outcome(DropPending(s, id), ReapLoop(rest)), c)
  {
    assert ([id] + rest)[1..] == rest;
    DropPendingAlone(s, id, ByOwner, QUIET);
    DropPendingAlone(s, id, ByReaper(rest), c);
  }

  lemma DropPendingAlone(s: Stores, id: FileId, origin: Origin, c: Choice)
    requires Tidy(s) && id in s.rows && s.rows[id].state.Pending?
    ensures RunAlone(s, Delete(id, FindRow, origin), c) == Finish(Outcome(DropPending(s, id), AfterDelete(origin)), c)
  {
    var file := s.rows[id];
    assert RunAlone(s, Delete(id, FindRow, origin), c) == RunAlone(s, Delete(id, AbortOpenUpload(file), origin), c);
    if id in s.uploads {
      assert RunAlone(s, Delete(id, AbortOpenUpload(file), origin), c) ==
             RunAlone(RemoveUpload(s, id), Delete(id, DeleteRow, origin), c);
    } else {
      assert RunAlone(s, Delete(id, AbortOpenUpload(file), origin), c) ==
             RunAlone(s, Delete(id, HeadOrphan(Some(id)), origin), c);
      if id in s.objects {
        assert RunAlone(s, Delete(id, HeadOrphan(Some(id)), origin), c) ==
               RunAlone(s, Delete(id, DeleteObject(Some(id)), origin), c);
      } else {
        assert RemoveObject(s, id) == s by { assert s.objects - {id} == s.objects; }
      }
      assert RunAlone(s, Delete(id, HeadOrphan(Some(id)), origin), c) ==
             RunAlone(RemoveObject(s, id), Delete(id, DeleteRow, origin), c);
    }
  }
}
