/** What the stores may hold of an upload whose every PUT carried the file's own part, in any run of the system. */
module Integrity {
  import opened Base
  import opened FileRows
  import opened Stores
  import opened Protocol
  import opened History
  import opened World
  import opened FileInvariant
  import opened WorldInvariant
  import opened Preservation
  import opened Safety
  import opened UploadParts

  function PartsOf(file: Bytes): nat {
    NumParts(|file|, PART_SIZE_BYTES)
  }

  /** Every PUT of the run on this upload carries the file's own slice: what the sessions of a browser send, in
      whatever order, as often as it may be, also from a page closed long ago. */
  ghost predicate OwnPuts(events: seq<Event>, id: FileId, file: Bytes) {
    forall i :: 0 <= i < |events| && events[i].Put? && events[i].id == id ==> OwnPut(events[i], file)
  }

  predicate OwnPut(e: Event, file: Bytes)
    requires e.Put?
  {
    1 <= e.part <= PartsOf(file) && e.body == Slice(file, PART_SIZE_BYTES, e.part)
  }

  /** The parts received are the file's own, and an object as long as the file is the file. */
  ghost predicate Faithful(c: Cell, file: Bytes) {
    && (c.upload.Some? ==> OwnSlices(c.upload.value.parts, file, PART_SIZE_BYTES, PartsOf(file)))
    && (c.trace.stored.Some? && |c.trace.stored.value| == |file| ==> c.trace.stored.value == file)
  }

  /** Only initiate opens an upload, and only completion makes an object appear. */
  lemma OthersAddNothing(s: Stores, op: Op, c: Choice, id: FileId)
    requires !OpensUpload(op) && !(op.Complete? && op.complete.CompleteMultipart?)
    ensures var s' := Exec(s, op, c).st;
            && (Get(s'.uploads, id).Some? ==> Get(s'.uploads, id) == Get(s.uploads, id))
            && (Get(s'.objects, id).Some? ==> Get(s'.objects, id) == Get(s.objects, id))
  {}

  lemma FinishIsFaithful(s: Stores, id: FileId, key: Option<Key>, selection: seq<nat>, file: Bytes)
    requires |file| > 0 && Completable(s, key, Some(id), selection)
    requires OwnSlices(s.uploads[id].parts, file, PART_SIZE_BYTES, PartsOf(file))
    ensures var body := FinishUpload(s, key, Some(id), selection).objects[key.value];
            |body| == |file| ==> body == file
  {
    SizeCheckForcesTheFile(s.uploads[id].parts, file, PART_SIZE_BYTES, selection);
  }

  lemma CompleteKeepsFaithful(w: World, o: nat, c: Choice, id: FileId, row: Row, selection: seq<nat>, file: Bytes)
    requires Inv(w) && o in w.ops && w.ops[o] == Complete(id, CompleteMultipart(row, selection))
    requires |file| > 0 && Faithful(CellOf(w, id), file)
    ensures Faithful(CellOf(Call(w, o, c), id), file)
  {
    assert Running(w, o, w.ops[o]);
    assert FileInv(CellOf(w, id), id, w.st.now);
    if Completable(w.st, row.storageKey, row.uploadId, selection) {
      assert row.uploadId == Some(id) && row.storageKey == Some(id);
      FinishIsFaithful(w.st, id, row.storageKey, selection, file);
    }
  }

  lemma CallKeepsFaithful(w: World, o: nat, c: Choice, id: FileId, file: Bytes)
    requires Inv(w) && Enabled(w, Advance(o, c))
    requires |file| > 0 && Faithful(CellOf(w, id), file)
    ensures Faithful(CellOf(Call(w, o, c), id), file)
  {
    CallKeepsInv(w, o, c);
    var op := w.ops[o];
    if id == Touched(w, o) && !OpensUpload(op) {
      if op.Complete? && op.complete.CompleteMultipart? {
        CompleteKeepsFaithful(w, o, c, id, op.complete.file, op.complete.selection, file);
      } else {
        OthersAddNothing(w.st, op, c, id);
      }
    }
  }

  lemma PutKeepsFaithful(w: World, e: Event, id: FileId, file: Bytes)
    requires e.Put? && Enabled(w, e) && Faithful(CellOf(w, id), file)
    requires e.id == id ==> OwnPut(e, file)
    ensures Faithful(CellOf(Apply(w, e), id), file)
  {
    assert Apply(w, e).traces == w.traces;
  }

  lemma EventKeepsFaithful(w: World, e: Event, id: FileId, file: Bytes)
    requires Inv(w) && |file| > 0 && Faithful(CellOf(w, id), file)
    requires e.Put? && e.id == id ==> OwnPut(e, file)
    ensures Faithful(CellOf(Apply(w, e), id), file)
  {
    if Enabled(w, e) {
      if e.Advance? {
        CallKeepsFaithful(w, e.o, e.choice, id, file);
        assert CellOf(Apply(w, e), id).upload == CellOf(Call(w, e.o, e.choice), id).upload;
        assert CellOf(Apply(w, e), id).trace == CellOf(Call(w, e.o, e.choice), id).trace;
      } else if e.Put? {
        PutKeepsFaithful(w, e, id, file);
      } else {
        assert CellOf(Apply(w, e), id).upload == CellOf(w, id).upload;
        assert CellOf(Apply(w, e), id).trace == CellOf(w, id).trace;
      }
    }
  }

  lemma {:induction false} RunKeepsFaithful(events: seq<Event>, id: FileId, file: Bytes)
    requires |file| > 0 && OwnPuts(events, id, file)
    ensures Faithful(CellOf(Run(events), id), file)
    decreases |events|
  {
    if events != [] {
      var init := events[..|events| - 1];
      RunKeepsFaithful(init, id, file);
      RunKeepsInv(init);
      EventKeepsFaithful(Run(init), events[|events| - 1], id, file);
    }
  }

  /** An upload the server accepted stores exactly the selected file, whatever PUTs failed or came twice, whatever
      part numbers were posted, and whatever else ran: a row that left `pending` and kept its key was made from the
      file's own bytes, all of them. */
  lemma AcceptedUploadIsTheFile(events: seq<Event>, id: FileId, file: Bytes)
    requires OwnPuts(events, id, file)
    requires id in Run(events).st.rows && Run(events).st.rows[id].sizeBytes == |file|
    requires !Run(events).st.rows[id].state.Pending? && Run(events).st.rows[id].storageKey.Some?
    ensures TraceOf(Run(events), id).stored == Some(file)
    ensures id in Run(events).st.objects ==> Run(events).st.objects[id] == file
  {
    RunKeepsInv(events);
    var w := Run(events);
    assert FileInv(CellOf(w, id), id, w.st.now);
    RunKeepsFaithful(events, id, file);
  }
}
