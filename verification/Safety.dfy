/** What holds after every run of the system, whatever the interleaving, the crashes and the retries. */
module Safety {
  import opened Base
  import opened FileRows
  import opened Stores
  import opened Protocol
  import opened History
  import opened World
  import opened FileInvariant
  import opened WorldInvariant
  import opened Interference
  import opened Calls
  import opened Preservation
  import Download
  import MagicBytes

  // ---- facts that, once true, stay true ----

  /** Facts of a created file that no event undoes. */
  predicate Grows(c: Cell, c': Cell) {
    c.trace.created ==>
      && c'.trace.created
      && (c.row.None? ==> c'.row.None?)
      && (c.trace.stored.Some? ==> c'.trace.stored == c.trace.stored)
      && (c.trace.settled ==> c'.trace.settled)
      && (c.trace.deleting ==> c'.trace.deleting)
      && (c.trace.expiredBy.Some? ==> c'.trace.expiredBy == c.trace.expiredBy)
  }

  lemma CallGrows(w: World, o: nat, c: Choice, id: FileId)
    requires Inv(w) && Enabled(w, Advance(o, c))
    ensures Grows(CellOf(w, id), CellOf(Call(w, o, c), id))
  {
    CallKeepsInv(w, o, c);
    assert Rely(CellOf(w, Touched(w, o)), CellOf(Call(w, o, c), Touched(w, o)), Touched(w, o), o, w.st.now);
    assert FileInv(CellOf(w, id), id, w.st.now);
  }

  /** Apart from a call, an event changes at most the parts of an upload and the job. */
  lemma OtherEventsLeave(w: World, e: Event, id: FileId)
    requires !e.Advance?
    ensures var c, c' := CellOf(w, id), CellOf(Apply(w, e), id);
            c'.row == c.row && c'.obj == c.obj && c'.trace == c.trace
  {}

  lemma EventGrows(w: World, e: Event, id: FileId)
    requires Inv(w)
    ensures Grows(CellOf(w, id), CellOf(Apply(w, e), id))
  {
    if !e.Advance? {
      OtherEventsLeave(w, e, id);
    } else if Enabled(w, e) {
      CallGrows(w, e.o, e.choice, id);
    }
  }

  lemma {:induction false} RunGrows(w: World, more: seq<Event>, id: FileId)
    requires Inv(w)
    ensures Grows(CellOf(w, id), CellOf(After(w, more), id))
    decreases |more|
  {
    if more != [] {
      var init := more[..|more| - 1];
      RunGrows(w, init, id);
      AfterKeepsInv(w, init);
      EventGrows(After(w, init), more[|more| - 1], id);
    }
  }

  // ---- the download barrier ----

  /** The bytes ever stored for the file are as many as declared, pass the signature check, and were scanned clean in
      full. */
  ghost predicate Vetted(w: World, id: FileId) {
    && id in w.st.rows
    && var row, t := w.st.rows[id], TraceOf(w, id);
    && t.stored.Some?
    && |t.stored.value| == row.sizeBytes
    && 1 <= row.sizeBytes <= MAX_FILE_SIZE_BYTES
    && !Clashes(row, t.stored.value)
    && t.clean == t.stored
    && (id in w.st.objects ==> w.st.objects[id] == t.stored.value)
  }

  /** When the service goes on to sign a download URL, the row it read is ready, unexpired and keyed, the object
      was vetted, and it is still there unless a deletion of that row has begun. */
  lemma SigningIsSafe(
    events: seq<Event>, token: string, password: Option<string>, compare: (string, string) -> bool)
    requires Download.VerifyPasswordAndGetUrl(
               Run(events).st.rows, token, password, Run(events).st.now, compare).Ok?
    ensures var w := Run(events);
            var url := Download.VerifyPasswordAndGetUrl(w.st.rows, token, password, w.st.now, compare).value;
            exists id :: && id in w.st.rows && w.st.rows[id].downloadToken == token
                         && w.st.rows[id].state.Ready? && w.st.now <= w.st.rows[id].expiresAt
                         && url.key == Some(id) && w.st.rows[id].storageKey == Some(id)
                         && Vetted(w, id)
                         && (id in w.st.objects || TraceOf(w, id).deleting)
  {
    var w := Run(events);
    RunKeepsInv(events);
    var id := Download.FindByToken(w.st.rows, token).value;
    assert FileInv(CellOf(w, id), id, w.st.now);
    assert Vetted(w, id);
  }

  /** An object is written once: whatever is later found under its key is the same bytes. */
  lemma ObjectsAreImmutable(events: seq<Event>, more: seq<Event>, key: Key)
    requires key in Run(events).st.objects && key in Run(events + more).st.objects
    ensures Run(events + more).st.objects[key] == Run(events).st.objects[key]
  {
    var w := Run(events);
    RunKeepsInv(events);
    AfterSplits(START, events, more);
    RunGrows(w, more, key);
    AfterKeepsInv(w, more);
    assert FileInv(CellOf(w, key), key, w.st.now);
    assert FileInv(CellOf(After(w, more), key), key, After(w, more).st.now);
  }

  /** The branch that skips the antivirus scan is never taken. */
  lemma SkipScanBranchIsDead(events: seq<Event>, o: nat, file: Row, id: FileId)
    requires o in Run(events).ops && Run(events).ops[o] == Validate(id, ReadRange(file))
    ensures file.sizeBytes <= CLAMAV_MAX_SCAN_BYTES
  {
    RunKeepsInv(events);
    assert Running(Run(events), o, Run(events).ops[o]);
  }

  /** The job id makes validation of a file exclusive. */
  lemma OneValidatorPerFile(events: seq<Event>, a: nat, b: nat)
    requires a in Run(events).ops && b in Run(events).ops
    requires Run(events).ops[a].Validate? && Run(events).ops[b].Validate?
    requires Run(events).ops[a].id == Run(events).ops[b].id
    ensures a == b
  {
    RunKeepsInv(events);
    assert Running(Run(events), a, Run(events).ops[a]);
    assert Running(Run(events), b, Run(events).ops[b]);
  }

  // ---- no orphans ----

  /** Every stored object is named by the key of some row. */
  lemma NoOrphanedObject(events: seq<Event>, key: Key)
    requires key in Run(events).st.objects
    ensures exists id :: id in Run(events).st.rows && Run(events).st.rows[id].storageKey == Some(key)
  {
    RunKeepsInv(events);
    var w := Run(events);
    assert FileInv(CellOf(w, key), key, w.st.now);
    assert key in w.st.rows;
  }

  /** Every open multipart upload that has received a part belongs to a pending row. */
  lemma NoOrphanedUpload(events: seq<Event>, upload: UploadId)
    requires upload in Run(events).st.uploads && Run(events).st.uploads[upload].parts != map[]
    ensures exists id :: && id in Run(events).st.rows && Run(events).st.rows[id].state.Pending?
                         && Run(events).st.rows[id].uploadId == Some(upload)
                         && Run(events).st.rows[id].storageKey == Some(Run(events).st.uploads[upload].key)
  {
    RunKeepsInv(events);
    var w := Run(events);
    assert FileInv(CellOf(w, upload), upload, w.st.now);
    assert upload in w.st.rows;
  }

  // ---- deletion ----

  ghost predicate Absent(w: World, id: FileId) {
    id !in w.st.rows && id !in w.st.objects && id !in w.st.uploads
  }

  /** A file whose row is gone has left nothing in storage, and nothing ever brings any of it back. */
  lemma GoneStaysGone(events: seq<Event>, more: seq<Event>, id: FileId)
    requires TraceOf(Run(events), id).created && id !in Run(events).st.rows
    ensures Absent(Run(events + more), id)
  {
    var w := Run(events);
    RunKeepsInv(events);
    AfterSplits(START, events, more);
    RunGrows(w, more, id);
    AfterKeepsInv(w, more);
    assert FileInv(CellOf(After(w, more), id), id, After(w, more).st.now);
  }

  /** `deleteFileCompletely` is about to return: it deletes the row now, or it finds none. */
  predicate DeletionEnds(w: World, o: nat, id: FileId) {
    && o in w.ops
    && w.ops[o].Delete? && w.ops[o].id == id
    && (w.ops[o].delete.DeleteRow? || (w.ops[o].delete.FindRow? && id !in w.st.rows))
  }

  /** Deletion is total and final, whatever complete, abort, validate, sweep or second delete was in flight. */
  lemma DeletionIsFinal(events: seq<Event>, o: nat, c: Choice, more: seq<Event>, id: FileId)
    requires DeletionEnds(Run(events), o, id) && TraceOf(Run(events), id).created
    ensures Absent(Run(events + [Advance(o, c)] + more), id)
  {
    var w := Run(events);
    AfterSplits(START, events, [Advance(o, c)]);
    assert [Advance(o, c)][..0] == [];
    var w' := Run(events + [Advance(o, c)]);
    assert w' == Apply(w, Advance(o, c));
    RunKeepsInv(events);
    EventGrows(w, Advance(o, c), id);
    assert id !in w'.st.rows;
    GoneStaysGone(events + [Advance(o, c)], more, id);
  }

  // ---- settled files ----

  /** A row that was ever rejected or expired never becomes ready again, and its object never comes back. */
  lemma NeverReadyAgain(events: seq<Event>, more: seq<Event>, id: FileId)
    requires id in Run(events).st.rows
    requires Run(events).st.rows[id].state.Rejected? || Run(events).st.rows[id].state.Expired?
    ensures var w := Run(events + more);
            && id !in w.st.objects
            && (id in w.st.rows ==> !w.st.rows[id].state.Ready? && w.st.rows[id].storageKey == None)
  {
    var w := Run(events);
    RunKeepsInv(events);
    AfterSplits(START, events, more);
    assert FileInv(CellOf(w, id), id, w.st.now);
    RunGrows(w, more, id);
    AfterKeepsInv(w, more);
    assert FileInv(CellOf(After(w, more), id), id, After(w, more).st.now);
  }

  /** The key of a row is its own or empty, and it is empty exactly when the row was once rejected or expired. */
  lemma KeyIsEmptyExactlyWhenSettled(events: seq<Event>, id: FileId)
    requires id in Run(events).st.rows
    ensures Run(events).st.rows[id].storageKey == if TraceOf(Run(events), id).settled then None else Some(id)
  {
    RunKeepsInv(events);
    assert FileInv(CellOf(Run(events), id), id, Run(events).st.now);
  }

  /** A file whose name makes the signature check throw never becomes ready, in any run. */
  lemma ThrowingNameIsNeverReady(events: seq<Event>, id: FileId)
    requires id in Run(events).st.rows
    requires MagicBytes.VerifyMagicBytes(ExtensionOf(Run(events).st.rows[id].originalName), []).Throws?
    ensures !Run(events).st.rows[id].state.Ready?
  {
    RunKeepsInv(events);
    assert FileInv(CellOf(Run(events), id), id, Run(events).st.now);
  }

  // ---- what rows keep ----

  /** An expired row keeps no password hash, in any run. */
  lemma ExpiredRowsKeepNoHash(events: seq<Event>, id: FileId)
    requires id in Run(events).st.rows && Run(events).st.rows[id].state.Expired?
    ensures Run(events).st.rows[id].passwordHash == None && Run(events).st.rows[id].storageKey == None
  {
    RunKeepsInv(events);
    assert FileInv(CellOf(Run(events), id), id, Run(events).st.now);
  }

  /** Between two sightings of a row, what the sender said of the file stands: owner, name, type, size, token, date,
      tags and sender are the same, and key and password are the same or gone. */
  predicate Endures(a: Option<Row>, b: Option<Row>) {
    a.Some? && b.Some? ==>
      && SameIdentity(a.value, b.value)
      && (b.value.storageKey == a.value.storageKey || b.value.storageKey == None)
      && (b.value.passwordHash == a.value.passwordHash || b.value.passwordHash == None)
  }

  lemma EventKeepsRow(w: World, e: Event, id: FileId)
    requires Inv(w)
    ensures Endures(Get(w.st.rows, id), Get(Apply(w, e).st.rows, id))
  {
    if !e.Advance? {
      OtherEventsLeave(w, e, id);
    } else if Enabled(w, e) {
      CallKeepsRow(w, e.o, e.choice, id);
      assert Apply(w, e).st.rows == Call(w, e.o, e.choice).st.rows;
    }
  }

  lemma CallKeepsRow(w: World, o: nat, c: Choice, id: FileId)
    requires Inv(w) && Enabled(w, Advance(o, c))
    ensures Endures(Get(w.st.rows, id), Get(Call(w, o, c).st.rows, id))
  {
    CallKeepsInv(w, o, c);
    assert Rely(CellOf(w, Touched(w, o)), CellOf(Call(w, o, c), Touched(w, o)), Touched(w, o), o, w.st.now);
    assert FileInv(CellOf(w, id), id, w.st.now);
    if id != Touched(w, o) {
      assert CellOf(Call(w, o, c), id) == CellOf(w, id);
    }
  }

  lemma {:induction false} RowsEndure(events: seq<Event>, more: seq<Event>, id: FileId)
    requires id in Run(events).st.rows
    ensures Endures(Get(Run(events).st.rows, id), Get(Run(events + more).st.rows, id))
    decreases |more|
  {
    if more == [] {
      assert events + more == events;
    } else {
      var init, last := more[..|more| - 1], more[|more| - 1];
      RowsEndure(events, init, id);
      RunKeepsInv(events);
      assert FileInv(CellOf(Run(events), id), id, Run(events).st.now);
      AfterSplits(START, events, init);
      RunGrows(Run(events), init, id);
      assert (events + more)[..|events + more| - 1] == events + init;
      RunKeepsInv(events + init);
      EventKeepsRow(Run(events + init), last, id);
      EventGrows(Run(events + init), last, id);
    }
  }
}
