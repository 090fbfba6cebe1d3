/** What each single call does to its file, service by service: the file invariant is kept, other operations see
    only what `Rely` allows, and the operation knows what its next call needs. */
module Calls {
  import opened Base
  import opened FileRows
  import opened Stores
  import opened Protocol
  import opened History
  import opened FileInvariant
  import MagicBytes

  /** Nothing but file `id` changes in any store. */
  ghost predicate OneFile(s: Stores, s': Stores, id: FileId) {
    && s'.now == s.now
    && forall other :: other != id ==> CellIn(s', NO_TRACE, other) == CellIn(s, NO_TRACE, other)
  }

  function Before(s: Stores, t: Trace, id: FileId): Cell {
    CellIn(s, t, id)
  }

  function Afterwards(s: Stores, s': Stores, t: Trace, id: FileId, o: nat, note: Note): Cell {
    CellIn(s', Observe(t, s, s', id, o, note), id)
  }

  /** The effect of one call of operation `o` on the stores is sound for file `id`. */
  ghost predicate SoundEffect(s: Stores, s': Stores, t: Trace, id: FileId, o: nat, note: Note) {
    var c, c' := Before(s, t, id), Afterwards(s, s', t, id, o, note);
    && OneFile(s, s', id)
    && FileInv(c', id, s.now)
    && Rely(c, c', id, o, s.now)
    && Lost(c, c', o, s.now)
  }

  // ---- initiateUpload ----

  lemma CreateRowIsSound(s: Stores, t: Trace, id: FileId, o: nat, draft: Row, newId: FileId)
    requires FileInv(Before(s, t, id), id, s.now) && InitiateInv(Before(s, t, id), id, o, CreateRow(draft))
    ensures var out := ExecInitiate(s, id, CreateRow(draft), newId);
            SoundEffect(s, out.st, t, id, o, Nothing) && !out.next.Go?
  {}

  lemma AdmittedDraftIsSound(r: UploadRequest, id: FileId, now: int)
    requires Admit(r).Ok?
    ensures SoundRow(Draft(r, Admit(r).value, id, id, now), id)
  {}

  // ---- enqueueValidation ----

  /** Deduplication: a job that is active, waiting or failed is left as it is. */
  lemma EnqueueIsSound(s: Stores, t: Trace, id: FileId, o: nat)
    requires FileInv(Before(s, t, id), id, s.now) && t.created
    ensures SoundEffect(s, Enqueue(s, id), t, id, o, Nothing)
    ensures id in s.jobs ==> Enqueue(s, id) == s
    ensures id !in s.jobs ==> Enqueue(s, id) == s.(jobs := s.jobs[id := Waiting(0)])
  {}

  // ---- completeUpload ----

  ghost predicate CompleteSound(s: Stores, t: Trace, id: FileId, o: nat, call: CompleteCall) {
    var out := ExecComplete(s, id, call);
    && SoundEffect(s, out.st, t, id, o, Nothing)
    && (out.next.Go? ==>
          && out.next.op.Complete? && out.next.op.id == id
          && CompleteInv(Afterwards(s, out.st, t, id, o, Nothing), id, o, out.next.op.complete))
  }

  lemma CompleteReads(s: Stores, t: Trace, id: FileId, o: nat, call: CompleteCall)
    requires FileInv(Before(s, t, id), id, s.now) && CompleteInv(Before(s, t, id), id, o, call)
    requires call.FindPending? || call.HeadSize?
    ensures CompleteSound(s, t, id, o, call)
  {}

  lemma CompleteMakesObject(s: Stores, t: Trace, id: FileId, o: nat, call: CompleteCall)
    requires FileInv(Before(s, t, id), id, s.now) && CompleteInv(Before(s, t, id), id, o, call)
    requires call.CompleteMultipart?
    ensures CompleteSound(s, t, id, o, call)
  {}

  lemma CompleteDropsObject(s: Stores, t: Trace, id: FileId, o: nat, call: CompleteCall)
    requires FileInv(Before(s, t, id), id, s.now) && CompleteInv(Before(s, t, id), id, o, call)
    requires call.DropWrongSize?
    ensures CompleteSound(s, t, id, o, call)
  {}

  lemma CompleteRejects(s: Stores, t: Trace, id: FileId, o: nat, call: CompleteCall)
    requires FileInv(Before(s, t, id), id, s.now) && CompleteInv(Before(s, t, id), id, o, call)
    requires call.RejectWrongSize?
    ensures CompleteSound(s, t, id, o, call)
  {}

  lemma CompleteMarks(s: Stores, t: Trace, id: FileId, o: nat, call: CompleteCall)
    requires FileInv(Before(s, t, id), id, s.now) && CompleteInv(Before(s, t, id), id, o, call)
    requires call.MarkUploaded?
    ensures CompleteSound(s, t, id, o, call)
  {}

  lemma CompleteEnqueues(s: Stores, t: Trace, id: FileId, o: nat, call: CompleteCall)
    requires FileInv(Before(s, t, id), id, s.now) && CompleteInv(Before(s, t, id), id, o, call)
    requires call.EnqueueScan?
    ensures CompleteSound(s, t, id, o, call)
  {
    EnqueueIsSound(s, t, id, o);
  }

  lemma CompleteCallIsSound(s: Stores, t: Trace, id: FileId, o: nat, call: CompleteCall)
    requires FileInv(Before(s, t, id), id, s.now) && CompleteInv(Before(s, t, id), id, o, call)
    ensures CompleteSound(s, t, id, o, call)
  {
    match call
    case FindPending(_, _) => CompleteReads(s, t, id, o, call);
    case CompleteMultipart(_, _) => CompleteMakesObject(s, t, id, o, call);
    case HeadSize(_) => CompleteReads(s, t, id, o, call);
    case DropWrongSize(_) => CompleteDropsObject(s, t, id, o, call);
    case RejectWrongSize => CompleteRejects(s, t, id, o, call);
    case MarkUploaded => CompleteMarks(s, t, id, o, call);
    case EnqueueScan => CompleteEnqueues(s, t, id, o, call);
  }

  // ---- abortUpload and deletion ----

  lemma AbortCallIsSound(s: Stores, t: Trace, id: FileId, o: nat, call: AbortCall)
    requires FileInv(Before(s, t, id), id, s.now) && AbortInv(Before(s, t, id), id, call)
    ensures var out := ExecAbort(s, id, call);
            && SoundEffect(s, out.st, t, id, o, Nothing)
            && (out.next.Go? ==>
                  && out.next.op.Abort? && out.next.op.id == id
                  && AbortInv(Afterwards(s, out.st, t, id, o, Nothing), id, out.next.op.abort))
  {}

  ghost predicate DeleteSound(
    s: Stores, t: Trace, id: FileId, o: nat, call: DeleteCall, origin: Origin, c: Choice)
  {
    var out, note := ExecDelete(s, id, call, origin), NoteOf(s, Delete(id, call, origin), c);
    && SoundEffect(s, out.st, t, id, o, note)
    && (|| out.next.Fail?
        || out.next == AfterDelete(origin)
        || (out.next == Go(PurgeTombstone(id, [])) && Settled(Afterwards(s, out.st, t, id, o, note)))
        || (&& out.next.Go? && out.next.op.Delete? && out.next.op.id == id
            && out.next.op.origin == origin
            && DeleteInv(Afterwards(s, out.st, t, id, o, note), id, out.next.op.delete)))
  }

  lemma UnchangedIsSound(s: Stores, t: Trace, id: FileId, o: nat)
    requires FileInv(Before(s, t, id), id, s.now)
    ensures SoundEffect(s, s, t, id, o, Nothing)
  {}

  lemma DeleteFindsOwned(s: Stores, t: Trace, id: FileId, o: nat, call: DeleteCall, origin: Origin, c: Choice)
    requires FileInv(Before(s, t, id), id, s.now) && DeleteInv(Before(s, t, id), id, call)
    requires call.FindOwned?
    ensures DeleteSound(s, t, id, o, call, origin, c)
  {
    assert ExecDelete(s, id, call, origin).st == s;
    UnchangedIsSound(s, t, id, o);
  }

  lemma DeleteFindsRow(s: Stores, t: Trace, id: FileId, o: nat, call: DeleteCall, origin: Origin, c: Choice)
    requires FileInv(Before(s, t, id), id, s.now) && DeleteInv(Before(s, t, id), id, call)
    requires call.FindRow?
    ensures DeleteSound(s, t, id, o, call, origin, c)
  {}

  lemma DeleteClearsUpload(s: Stores, t: Trace, id: FileId, o: nat, call: DeleteCall, origin: Origin, c: Choice)
    requires FileInv(Before(s, t, id), id, s.now) && DeleteInv(Before(s, t, id), id, call)
    requires call.AbortOpenUpload?
    ensures DeleteSound(s, t, id, o, call, origin, c)
  {}

  lemma DeleteLooksForOrphan(s: Stores, t: Trace, id: FileId, o: nat, call: DeleteCall, origin: Origin, c: Choice)
    requires FileInv(Before(s, t, id), id, s.now) && DeleteInv(Before(s, t, id), id, call)
    requires call.HeadOrphan?
    ensures DeleteSound(s, t, id, o, call, origin, c)
  {
    UnchangedIsSound(s, t, id, o);
  }

  lemma DeleteDropsObject(s: Stores, t: Trace, id: FileId, o: nat, call: DeleteCall, origin: Origin, c: Choice)
    requires FileInv(Before(s, t, id), id, s.now) && DeleteInv(Before(s, t, id), id, call)
    requires call.DeleteObject?
    ensures DeleteSound(s, t, id, o, call, origin, c)
  {}

  lemma RowDropIsSound(s: Stores, t: Trace, id: FileId, o: nat)
    requires FileInv(Before(s, t, id), id, s.now) && t.created && Emptied(Before(s, t, id))
    ensures SoundEffect(s, DropRow(s, id), t, id, o, DeletionReturns)
  {}

  lemma DeleteDropsRow(s: Stores, t: Trace, id: FileId, o: nat, call: DeleteCall, origin: Origin, c: Choice)
    requires FileInv(Before(s, t, id), id, s.now) && DeleteInv(Before(s, t, id), id, call)
    requires call.DeleteRow?
    ensures DeleteSound(s, t, id, o, call, origin, c)
  {
    RowDropIsSound(s, t, id, o);
    assert ExecDelete(s, id, call, origin) == Outcome(DropRow(s, id), AfterDelete(origin));
  }

  lemma DeleteCallIsSound(s: Stores, t: Trace, id: FileId, o: nat, call: DeleteCall, origin: Origin, c: Choice)
    requires FileInv(Before(s, t, id), id, s.now) && DeleteInv(Before(s, t, id), id, call)
    ensures DeleteSound(s, t, id, o, call, origin, c)
  {
    match call
    case FindOwned(_) => DeleteFindsOwned(s, t, id, o, call, origin, c);
    case FindRow => DeleteFindsRow(s, t, id, o, call, origin, c);
    case AbortOpenUpload(_) => DeleteClearsUpload(s, t, id, o, call, origin, c);
    case HeadOrphan(_) => DeleteLooksForOrphan(s, t, id, o, call, origin, c);
    case DeleteObject(_) => DeleteDropsObject(s, t, id, o, call, origin, c);
    case DeleteRow => DeleteDropsRow(s, t, id, o, call, origin, c);
  }

  lemma TombstoneCallIsSound(s: Stores, t: Trace, id: FileId, o: nat)
    requires FileInv(Before(s, t, id), id, s.now) && Settled(Before(s, t, id))
    ensures SoundEffect(s, DropRow(s, id), t, id, o, Nothing)
  {}

  // ---- validate ----

  ghost predicate ValidateSound(s: Stores, t: Trace, id: FileId, o: nat, call: ValidateCall, c: Choice) {
    var out, note := ExecValidate(s, id, call, c.reply), NoteOf(s, Validate(id, call), c);
    && SoundEffect(s, out.st, t, id, o, note)
    && out.st.jobs == s.jobs
    && (out.next.Go? ==>
          && out.next.op.Validate? && out.next.op.id == id
          && ValidateInv(Afterwards(s, out.st, t, id, o, note), id, o, out.next.op.validate, s.now))
  }

  lemma ValidateFinds(s: Stores, t: Trace, id: FileId, o: nat, call: ValidateCall, c: Choice)
    requires FileInv(Before(s, t, id), id, s.now) && ValidateInv(Before(s, t, id), id, o, call, s.now)
    requires call.FindScannable?
    ensures ValidateSound(s, t, id, o, call, c)
  {}

  lemma ValidateClaims(s: Stores, t: Trace, id: FileId, o: nat, call: ValidateCall, c: Choice)
    requires FileInv(Before(s, t, id), id, s.now) && ValidateInv(Before(s, t, id), id, o, call, s.now)
    requires call.ClaimRow?
    ensures ValidateSound(s, t, id, o, call, c)
  {}

  lemma ValidateReadsRange(s: Stores, t: Trace, id: FileId, o: nat, call: ValidateCall, c: Choice)
    requires FileInv(Before(s, t, id), id, s.now) && ValidateInv(Before(s, t, id), id, o, call, s.now)
    requires call.ReadRange?
    ensures ValidateSound(s, t, id, o, call, c)
  {
    if id in s.objects {
      MagicBytes.RangedReadSuffices(ExtensionOf(call.file.originalName), s.objects[id]);
    }
  }

  lemma ValidateReadsFull(s: Stores, t: Trace, id: FileId, o: nat, call: ValidateCall, c: Choice)
    requires FileInv(Before(s, t, id), id, s.now) && ValidateInv(Before(s, t, id), id, o, call, s.now)
    requires call.ReadFull?
    ensures ValidateSound(s, t, id, o, call, c)
  {}

  lemma ValidateScansClean(s: Stores, t: Trace, id: FileId, o: nat, call: ValidateCall, c: Choice)
    requires FileInv(Before(s, t, id), id, s.now) && ValidateInv(Before(s, t, id), id, o, call, s.now)
    requires call.Scan? && c.reply.Clean?
    ensures ValidateSound(s, t, id, o, call, c)
  {}

  lemma ValidateScansOther(s: Stores, t: Trace, id: FileId, o: nat, call: ValidateCall, c: Choice)
    requires FileInv(Before(s, t, id), id, s.now) && ValidateInv(Before(s, t, id), id, o, call, s.now)
    requires call.Scan? && !c.reply.Clean?
    ensures ValidateSound(s, t, id, o, call, c)
  {}

  lemma ValidateMarksReady(s: Stores, t: Trace, id: FileId, o: nat, call: ValidateCall, c: Choice)
    requires FileInv(Before(s, t, id), id, s.now) && ValidateInv(Before(s, t, id), id, o, call, s.now)
    requires call.MarkReady?
    ensures ValidateSound(s, t, id, o, call, c)
  {}

  lemma ValidateDropsObject(s: Stores, t: Trace, id: FileId, o: nat, call: ValidateCall, c: Choice)
    requires FileInv(Before(s, t, id), id, s.now) && ValidateInv(Before(s, t, id), id, o, call, s.now)
    requires call.DropRefused?
    ensures ValidateSound(s, t, id, o, call, c)
  {}

  lemma ValidateRejects(s: Stores, t: Trace, id: FileId, o: nat, call: ValidateCall, c: Choice)
    requires FileInv(Before(s, t, id), id, s.now) && ValidateInv(Before(s, t, id), id, o, call, s.now)
    requires call.RejectRefused?
    ensures ValidateSound(s, t, id, o, call, c)
  {}

  lemma ValidateCallIsSound(s: Stores, t: Trace, id: FileId, o: nat, call: ValidateCall, c: Choice)
    requires FileInv(Before(s, t, id), id, s.now) && ValidateInv(Before(s, t, id), id, o, call, s.now)
    ensures ValidateSound(s, t, id, o, call, c)
  {
    match call
    case FindScannable => ValidateFinds(s, t, id, o, call, c);
    case ClaimRow(_) => ValidateClaims(s, t, id, o, call, c);
    case ReadRange(_) => ValidateReadsRange(s, t, id, o, call, c);
    case ReadFull(_) => ValidateReadsFull(s, t, id, o, call, c);
    case Scan(_, _) =>
      if c.reply.Clean? {
        ValidateScansClean(s, t, id, o, call, c);
      } else {
        ValidateScansOther(s, t, id, o, call, c);
      }
    case MarkReady(_) => ValidateMarksReady(s, t, id, o, call, c);
    case DropRefused(_) => ValidateDropsObject(s, t, id, o, call, c);
    case RejectRefused => ValidateRejects(s, t, id, o, call, c);
  }

  /** The queue settling or redelivering the job of a worker that has ended. */
  lemma JobChangeIsSound(s: Stores, s': Stores, t: Trace, id: FileId, o: nat)
    requires FileInv(Before(s, t, id), id, s.now) && Employed(Before(s, t, id), o)
    requires s' == s.(jobs := s'.jobs) && forall other :: other != id ==> Get(s'.jobs, other) == Get(s.jobs, other)
    ensures OneFile(s, s', id)
    ensures FileInv(CellIn(s', t, id), id, s'.now)
    ensures Rely(CellIn(s, t, id), CellIn(s', t, id), id, o, s.now)
    ensures Lost(CellIn(s, t, id), CellIn(s', t, id), o, s.now)
  {}

  // ---- planned tasks ----

  ghost predicate RequeueSound(s: Stores, t: Trace, id: FileId, o: nat, call: RequeueCall, ids: seq<FileId>) {
    var out := ExecRequeue(s, id, call, ids);
    && SoundEffect(s, out.st, t, id, o, Nothing)
    && (call.MarkRequeued? && out.next.Go? ==> Afterwards(s, out.st, t, id, o, Nothing).trace.created)
  }

  lemma RequeueMarks(s: Stores, t: Trace, id: FileId, o: nat, call: RequeueCall, ids: seq<FileId>)
    requires FileInv(Before(s, t, id), id, s.now) && RequeueInv(Before(s, t, id), call)
    requires call.MarkRequeued?
    ensures RequeueSound(s, t, id, o, call, ids)
  {}

  lemma RequeueEnqueues(s: Stores, t: Trace, id: FileId, o: nat, call: RequeueCall, ids: seq<FileId>)
    requires FileInv(Before(s, t, id), id, s.now) && RequeueInv(Before(s, t, id), call)
    requires call.EnqueueAgain?
    ensures RequeueSound(s, t, id, o, call, ids)
  {
    EnqueueIsSound(s, t, id, o);
  }

  lemma RequeueCallIsSound(s: Stores, t: Trace, id: FileId, o: nat, call: RequeueCall, ids: seq<FileId>)
    requires FileInv(Before(s, t, id), id, s.now) && RequeueInv(Before(s, t, id), call)
    ensures RequeueSound(s, t, id, o, call, ids)
  {
    if call.MarkRequeued? {
      RequeueMarks(s, t, id, o, call, ids);
    } else {
      RequeueEnqueues(s, t, id, o, call, ids);
    }
  }

  ghost predicate ExpireSound(
    s: Stores, t: Trace, id: FileId, o: nat, call: ExpireCall, todo: seq<Candidate>, count: nat)
  {
    var out := ExecExpire(s, id, call, todo, count);
    && SoundEffect(s, out.st, t, id, o, Nothing)
    && (call.DropExpired? && out.next.Go? ==>
          ExpireInv(Afterwards(s, out.st, t, id, o, Nothing), id, MarkExpired, s.now))
  }

  lemma ExpireDropsObject(s: Stores, t: Trace, id: FileId, o: nat, call: ExpireCall, todo: seq<Candidate>, count: nat)
    requires FileInv(Before(s, t, id), id, s.now) && ExpireInv(Before(s, t, id), id, call, s.now)
    requires call.DropExpired?
    ensures ExpireSound(s, t, id, o, call, todo, count)
  {}

  lemma ExpireHits(s: Stores, t: Trace, id: FileId, o: nat, todo: seq<Candidate>, count: nat)
    requires FileInv(Before(s, t, id), id, s.now) && ExpireInv(Before(s, t, id), id, MarkExpired, s.now)
    requires id in s.rows && s.rows[id].state.Ready?
    ensures ExpireSound(s, t, id, o, MarkExpired, todo, count)
  {}

  lemma ExpireMisses(s: Stores, t: Trace, id: FileId, o: nat, todo: seq<Candidate>, count: nat)
    requires FileInv(Before(s, t, id), id, s.now) && ExpireInv(Before(s, t, id), id, MarkExpired, s.now)
    requires !(id in s.rows && s.rows[id].state.Ready?)
    ensures ExpireSound(s, t, id, o, MarkExpired, todo, count)
  {}

  lemma ExpireCounts(s: Stores, t: Trace, id: FileId, o: nat, call: ExpireCall, todo: seq<Candidate>, count: nat)
    requires FileInv(Before(s, t, id), id, s.now) && ExpireInv(Before(s, t, id), id, call, s.now)
    requires call.CountExpired?
    ensures ExpireSound(s, t, id, o, call, todo, count)
  {}

  lemma ExpireCallIsSound(s: Stores, t: Trace, id: FileId, o: nat, call: ExpireCall, todo: seq<Candidate>, count: nat)
    requires FileInv(Before(s, t, id), id, s.now) && ExpireInv(Before(s, t, id), id, call, s.now)
    ensures ExpireSound(s, t, id, o, call, todo, count)
  {
    match call
    case DropExpired(_) => ExpireDropsObject(s, t, id, o, call, todo, count);
    case MarkExpired =>
      if id in s.rows && s.rows[id].state.Ready? {
        ExpireHits(s, t, id, o, todo, count);
      } else {
        ExpireMisses(s, t, id, o, todo, count);
      }
    case CountExpired(_) => ExpireCounts(s, t, id, o, call, todo, count);
  }
}
