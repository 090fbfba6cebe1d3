/** Operations that meet nobody: what a service does when nothing interrupts it is itself a run of the system, so that
    what is proved of the services holds from every reachable state. */
module Undisturbed {
  import opened Base
  import opened FileRows
  import opened Stores
  import opened Protocol
  import opened Alone
  import opened History
  import opened World
  import opened FileInvariant
  import opened WorldInvariant
  import opened Preservation
  import opened Safety
  import opened Runs
  import MagicBytes

  lemma OpensOnce(s: Stores, op: Op, c: Choice)
    requires Exec(s, op, c).next.Go?
    ensures !Exec(s, op, c).next.op.List? && !OpensUpload(Exec(s, op, c).next.op)
  {}

  /** A call leads from a validation to a validation of the same file, and from nothing else. */
  lemma ValidationsStay(s: Stores, op: Op, c: Choice)
    requires Exec(s, op, c).next.Go?
    ensures Exec(s, op, c).next.op.Validate? <==> op.Validate?
    ensures op.Validate? ==> Exec(s, op, c).next.op.id == op.id
  {}

  lemma SettledAlike(s: Stores, op: Op, op': Op, next: Next)
    requires op.Validate? <==> op'.Validate?
    requires op.Validate? ==> op'.id == op.id
    ensures SettleJob(s, op', next) == SettleJob(s, op, next)
  {}

  /** Operation `o` alone moves, to its end: the stores become what the calls make of them one after the other, and
      every other operation in flight is where it was. */
  lemma {:induction false} AloneIsARun(events: seq<Event>, o: nat, c: Choice) returns (more: seq<Event>)
    requires Enabled(Run(events), Advance(o, c))
    ensures forall e :: e in more ==> e == Advance(o, c)
    ensures var w, w' := Run(events), Run(events + more);
            var out := RunAlone(w.st, w.ops[o], c);
            w'.st == SettleJob(out.st, w.ops[o], out.next) && w'.ops == w.ops - {o}
    decreases Left(Run(events).ops[o], c), Rank(Run(events).ops[o])
  {
    var w := Run(events);
    var op := w.ops[o];
    var out := Exec(w.st, op, c);
    more := [Advance(o, c)];
    OneEvent(events, Advance(o, c));
    var w' := Run(events + more);
    if out.next.Go? {
      CallsRunOut(w.st, op, c);
      OpensOnce(w.st, op, c);
      ValidationsStay(w.st, op, c);
      var rest := AloneIsARun(events + more, o, c);
      assert events + more + rest == events + (more + rest);
      more := more + rest;
      var end := RunAlone(w'.st, out.next.op, c);
      SettledAlike(end.st, op, out.next.op, end.next);
      assert w'.ops - {o} == w.ops - {o};
    }
  }

  /** What the invariant says of one file's key and upload. */
  predicate Kempt(s: Stores, id: FileId) {
    && id in s.rows && s.rows[id].uploadId == Some(id)
    && (if s.rows[id].storageKey.None? then !s.rows[id].state.Pending? && id !in s.objects
        else s.rows[id].storageKey == Some(id))
    && (id in s.uploads ==> s.rows[id].state.Pending? && s.uploads[id].key == id && id !in s.objects)
  }

  lemma ReachableIsKempt(events: seq<Event>, id: FileId)
    requires id in Run(events).st.rows
    ensures Kempt(Run(events).st, id) && TraceOf(Run(events), id).created && Inv(Run(events))
  {
    RunKeepsInv(events);
    assert FileInv(CellOf(Run(events), id), id, Run(events).st.now);
  }

  function Without(s: Stores, id: FileId): Stores {
    s.(rows := s.rows - {id}, objects := s.objects - {id}, uploads := s.uploads - {id})
  }

  lemma CompleteDeletionAlone(s: Stores, id: FileId, c: Choice)
    requires Kempt(s, id) && s.rows[id].storageKey.Some?
    ensures RunAlone(s, Delete(id, FindRow, ByOwner), c) == Outcome(Without(s, id), Done)
  {
    var file := s.rows[id];
    var whole := RunAlone(s, Delete(id, FindRow, ByOwner), c);
    var freed := s.(objects := s.objects - {id}, uploads := s.uploads - {id});
    if file.state.Pending? {
      assert whole == RunAlone(s, Delete(id, AbortOpenUpload(file), ByOwner), c);
      if id in s.uploads {
        assert RemoveUpload(s, id) == freed;
      } else {
        assert whole == RunAlone(s, Delete(id, HeadOrphan(Some(id)), ByOwner), c);
        if id in s.objects {
          assert whole == RunAlone(s, Delete(id, DeleteObject(Some(id)), ByOwner), c);
          assert RemoveObject(s, id) == freed;
        } else {
          assert s == freed;
        }
      }
    } else {
      assert whole == RunAlone(s, Delete(id, DeleteObject(Some(id)), ByOwner), c);
      assert RemoveObject(s, id) == freed;
    }
    assert whole == RunAlone(freed, Delete(id, DeleteRow, ByOwner), c);
  }

  lemma DeletionAlone(s: Stores, id: FileId, c: Choice)
    requires Kempt(s, id)
    ensures RunAlone(s, Delete(id, FindOwned(s.rows[id].ownerId), ByOwner), c) == Outcome(Without(s, id), Done)
  {
    var whole := RunAlone(s, Delete(id, FindOwned(s.rows[id].ownerId), ByOwner), c);
    if s.rows[id].storageKey.Some? {
      assert whole == RunAlone(s, Delete(id, FindRow, ByOwner), c);
      CompleteDeletionAlone(s, id, c);
    } else {
      assert whole == RunAlone(s, PurgeTombstone(id, []), c);
      assert DropRow(s, id) == Without(s, id);
    }
  }

  /** A request that then runs alone. */
  lemma AskedAlone(events: seq<Event>, op: Op, c: Choice) returns (more: seq<Event>)
    requires Startable(Run(events), op) && Answers(Run(events).st, op, c)
    requires OpensUpload(op) ==> c.newId == Run(events).nextFile
    requires Run(events).nextOp !in Run(events).ops && !op.Validate?
    ensures var w, w' := Run(events), Run(events + more);
            && more != [] && more[0] == Request(op) && (forall e :: e in more[1..] ==> e == Advance(w.nextOp, c))
            && w'.st == RunAlone(w.st, op, c).st && w'.ops == w.ops
  {
    OneEvent(events, Request(op));
    var rest := AloneIsARun(events + [Request(op)], Run(events).nextOp, c);
    more := [Request(op)] + rest;
    assert events + [Request(op)] + rest == events + more;
    assert Run(events).ops[Run(events).nextOp := op] - {Run(events).nextOp} == Run(events).ops;
  }

  /** From every reachable state, whatever else is in flight, an owner who asks for the deletion of his file, and whose
      request then runs alone, is rid of it for good: its row, its object and its upload are gone whatever follows; and
      no other row, object or upload has changed. */
  lemma OwnersDeletionSucceeds(events: seq<Event>, id: FileId, c: Choice) returns (more: seq<Event>)
    requires id in Run(events).st.rows
    ensures var o, owner := Run(events).nextOp, Run(events).st.rows[id].ownerId;
            && more != [] && more[0] == Request(Delete(id, FindOwned(owner), ByOwner))
            && (forall e :: e in more[1..] ==> e == Advance(o, c))
            && Run(events + more).ops == Run(events).ops
    ensures var s, s' := Run(events).st, Run(events + more).st;
            && s'.rows == s.rows - {id} && s'.objects == s.objects - {id} && s'.uploads == s.uploads - {id}
            && s'.jobs == s.jobs
    ensures forall later :: Absent(Run(events + more + later), id)
  {
    var w := Run(events);
    ReachableIsKempt(events, id);
    var op := Delete(id, FindOwned(w.st.rows[id].ownerId), ByOwner);
    more := AskedAlone(events, op, c);
    DeletionAlone(w.st, id, c);
    AfterSplits(START, events, more);
    RunGrows(w, more, id);
    forall later ensures Absent(Run(events + more + later), id) {
      GoneStaysGone(events + more, later, id);
    }
  }

  // ---- from the last part to the download ----

  /** The upload is open and the selected parts make an object of the declared size that passes the signature check. */
  predicate Sendable(s: Stores, id: FileId, selection: seq<nat>) {
    && id in s.rows && s.rows[id].state.Pending? && s.rows[id].storageKey == s.rows[id].uploadId == Some(id)
    && 1 <= s.rows[id].sizeBytes <= MAX_FILE_SIZE_BYTES
    && Completable(s, Some(id), Some(id), selection)
    && |Assemble(s.uploads[id].parts, selection)| == s.rows[id].sizeBytes
    && !Clashes(s.rows[id], Assemble(s.uploads[id].parts, selection))
  }

  function Finished(s: Stores, id: FileId, selection: seq<nat>): Stores
    requires Sendable(s, id, selection)
  {
    Enqueue(SetState(FinishUpload(s, Some(id), Some(id), selection), id, Uploaded), id)
  }

  lemma CompletionAlone(s: Stores, id: FileId, selection: seq<nat>, c: Choice)
    requires Sendable(s, id, selection)
    ensures RunAlone(s, Complete(id, FindPending(s.rows[id].ownerId, selection)), c)
            == Outcome(Finished(s, id, selection), Done)
  {
    var file := s.rows[id];
    var whole := RunAlone(s, Complete(id, FindPending(file.ownerId, selection)), c);
    var s1 := FinishUpload(s, Some(id), Some(id), selection);
    assert whole == RunAlone(s, Complete(id, CompleteMultipart(file, selection)), c);
    assert whole == RunAlone(s1, Complete(id, HeadSize(file)), c);
    assert whole == RunAlone(s1, Complete(id, MarkUploaded), c);
    assert whole == RunAlone(SetState(s1, id, Uploaded), Complete(id, EnqueueScan), c);
  }

  lemma ValidationAlone(s: Stores, id: FileId, c: Choice)
    requires id in s.rows && s.rows[id].state.Uploaded? && s.rows[id].storageKey == Some(id) && id in s.objects
    requires s.rows[id].sizeBytes <= MAX_FILE_SIZE_BYTES && !Clashes(s.rows[id], s.objects[id]) && c.reply.Clean?
    ensures RunAlone(s, Validate(id, FindScannable), c) == Outcome(SetState(s, id, Ready), Done)
  {
    var file, s1 := s.rows[id], SetState(s, id, Scanning);
    var whole := RunAlone(s, Validate(id, FindScannable), c);
    MagicBytes.RangedReadSuffices(ExtensionOf(file.originalName), s.objects[id]);
    assert whole == RunAlone(s, Validate(id, ClaimRow(file)), c);
    assert whole == RunAlone(s1, Validate(id, ReadRange(file)), c);
    assert whole == RunAlone(s1, Validate(id, ReadFull(file)), c);
    assert whole == RunAlone(s1, Validate(id, Scan(file, s.objects[id])), c);
    assert whole == RunAlone(s1, Validate(id, MarkReady(file)), c);
    assert SetState(s1, id, Ready) == SetState(s, id, Ready);
  }

  /** A job that waits, taken and then alone to its end. */
  lemma TakenAlone(events: seq<Event>, id: FileId, c: Choice) returns (more: seq<Event>)
    requires id in Run(events).st.jobs && Run(events).st.jobs[id].Waiting? && Run(events).nextOp !in Run(events).ops
    ensures var w, w' := Run(events), Run(events + more);
            var taken := w.st.(jobs := w.st.jobs[id := Active(w.st.jobs[id].failures, w.nextOp)]);
            var out := RunAlone(taken, Validate(id, FindScannable), c);
            && (out.next.Done? ==> w'.st == out.st.(jobs := out.st.jobs - {id})) && w'.ops == w.ops
  {
    OneEvent(events, TakeJob(id));
    var rest := AloneIsARun(events + [TakeJob(id)], Run(events).nextOp, c);
    more := [TakeJob(id)] + rest;
    assert events + [TakeJob(id)] + rest == events + more;
    assert Run(events).ops[Run(events).nextOp := Validate(id, FindScannable)] - {Run(events).nextOp}
           == Run(events).ops;
  }

  lemma CompletionSucceeds(events: seq<Event>, id: FileId, selection: seq<nat>, c: Choice)
    returns (more: seq<Event>)
    requires Sendable(Run(events).st, id, selection)
    ensures Run(events + more).st == Finished(Run(events).st, id, selection)
    ensures Run(events + more).ops == Run(events).ops
  {
    var w := Run(events);
    ReachableIsKempt(events, id);
    assert w.nextOp !in w.ops;
    more := AskedAlone(events, Complete(id, FindPending(w.st.rows[id].ownerId, selection)), c);
    CompletionAlone(w.st, id, selection, c);
  }

  lemma ValidationSucceeds(events: seq<Event>, id: FileId, c: Choice) returns (more: seq<Event>)
    requires id in Run(events).st.jobs && Run(events).st.jobs[id].Waiting? && id in Run(events).st.rows
    requires var s := Run(events).st;
             && s.rows[id].state.Uploaded? && s.rows[id].storageKey == Some(id) && id in s.objects
             && s.rows[id].sizeBytes <= MAX_FILE_SIZE_BYTES && !Clashes(s.rows[id], s.objects[id])
    requires c.reply.Clean?
    ensures var s, s' := Run(events).st, Run(events + more).st;
            s' == SetState(s, id, Ready).(jobs := s.jobs - {id}) && Run(events + more).ops == Run(events).ops
  {
    var w := Run(events);
    RunKeepsInv(events);
    assert w.nextOp !in w.ops;
    more := TakenAlone(events, id, c);
    var taken := w.st.(jobs := w.st.jobs[id := Active(w.st.jobs[id].failures, w.nextOp)]);
    ValidationAlone(taken, id, c);
    assert taken.jobs - {id} == w.st.jobs - {id};
  }

  /** From every reachable state, whatever else is in flight: when an upload is open and its parts make an object of the
      declared size that passes the signature check, the owner's request to complete, and then the worker with a clean
      scan, each alone, make the file ready, stored whole, with no job left and its upload closed. */
  lemma SoundUploadBecomesReady(events: seq<Event>, id: FileId, selection: seq<nat>, c: Choice)
    returns (more: seq<Event>)
    requires Sendable(Run(events).st, id, selection) && c.reply.Clean?
    requires id in Run(events).st.jobs ==> Run(events).st.jobs[id].Waiting?
    ensures var s, s' := Run(events).st, Run(events + more).st;
            && s'.rows == s.rows[id := s.rows[id].(state := Ready, updatedAt := s.now)]
            && s'.objects == s.objects[id := Assemble(s.uploads[id].parts, selection)]
            && s'.uploads == s.uploads - {id} && s'.jobs == s.jobs - {id}
            && Run(events + more).ops == Run(events).ops
  {
    var s := Run(events).st;
    var asked := CompletionSucceeds(events, id, selection, c);
    FinishedIsScannable(s, id, selection);
    var rest := ValidationSucceeds(events + asked, id, c);
    more := asked + rest;
    assert events + asked + rest == events + more;
  }

  lemma FinishedIsScannable(s: Stores, id: FileId, selection: seq<nat>)
    requires Sendable(s, id, selection) && (id in s.jobs ==> s.jobs[id].Waiting?)
    ensures var f := Finished(s, id, selection);
            && id in f.rows && f.rows[id] == s.rows[id].(state := Uploaded, updatedAt := s.now)
            && id in f.objects && !Clashes(f.rows[id], f.objects[id]) && id in f.jobs && f.jobs[id].Waiting?
    ensures var f := SetState(Finished(s, id, selection), id, Ready);
            && f.rows == s.rows[id := s.rows[id].(state := Ready, updatedAt := s.now)]
            && f.objects == s.objects[id := Assemble(s.uploads[id].parts, selection)]
            && f.uploads == s.uploads - {id} && f.jobs - {id} == s.jobs - {id}
  {}
}
