/** The reaper and completions: when it deletes a file that is no longer pending, as it was when it was listed. */
module Reaping {
  import opened Base
  import opened FileRows
  import opened Stores
  import opened Protocol
  import opened History
  import opened World
  import opened FileInvariant
  import opened WorldInvariant
  import opened Preservation
  import opened Safety
  import opened Runs

  // ---- every file the reaper deletes was listed by it ----

  /** Event `k` is the listing of operation `o` for the reaper, and it names the file. */
  ghost predicate ListedAt(events: seq<Event>, k: nat, o: nat, id: FileId) {
    && k < |events| && events[k].Advance? && events[k].o == o
    && Enabled(Run(events[..k]), events[k])
    && Run(events[..k]).ops[o] == List(ForReaper)
    && id in events[k].choice.ids
  }

  /** The file is the one the reaper is deleting, or one it still has to visit. */
  predicate Visits(op: Op, id: FileId) {
    op.Delete? && op.origin.ByReaper? && (id == op.id || id in op.origin.rest)
  }

  /** A reaper goes on to files it had listed, and begins with a listing. */
  lemma ReaperComesFromListing(w: World, e: Event, o: nat, id: FileId)
    requires o in Apply(w, e).ops && Visits(Apply(w, e).ops[o], id)
    ensures || (o in w.ops && Visits(w.ops[o], id))
            || (e.Advance? && e.o == o && Enabled(w, e) && w.ops[o] == List(ForReaper) && id in e.choice.ids)
  {}

  lemma ListingStays(events: seq<Event>, e: Event, k: nat, o: nat, id: FileId)
    requires ListedAt(events, k, o, id)
    ensures ListedAt(events + [e], k, o, id)
  {
    assert (events + [e])[..k] == events[..k];
  }

  /** Every deletion of the reaper follows a listing by the same operation that names the file. */
  lemma {:induction false} ReaperFollowsItsListing(events: seq<Event>, o: nat, id: FileId) returns (k: nat)
    requires o in Run(events).ops && Visits(Run(events).ops[o], id)
    ensures ListedAt(events, k, o, id)
    decreases |events|
  {
    var last := |events| - 1;
    var init, e := events[..last], events[last];
    assert events == init + [e];
    ReaperComesFromListing(Run(init), e, o, id);
    if o in Run(init).ops && Visits(Run(init).ops[o], id) {
      k := ReaperFollowsItsListing(init, o, id);
      ListingStays(init, e, k, o, id);
    } else {
      k := last;
    }
  }

  // ---- how a row leaves pending ----

  /** The event is one of the two writes with which a completion decides a file. */
  ghost predicate CompletionWrites(w: World, e: Event, id: FileId) {
    && e.Advance? && Enabled(w, e) && w.ops[e.o].Complete? && w.ops[e.o].id == id
    && (w.ops[e.o].complete.MarkUploaded? || w.ops[e.o].complete.RejectWrongSize?)
  }

  ghost predicate RowBetween(s: Stores, s': Stores, id: FileId) {
    id in s.rows && id in s'.rows
  }

  lemma CompleteLeavesPending(s: Stores, t: Trace, o: nat, call: CompleteCall, id: FileId)
    requires FileInv(CellIn(s, t, id), id, s.now) && CompleteInv(CellIn(s, t, id), id, o, call)
    requires RowBetween(s, ExecComplete(s, id, call).st, id)
    ensures ExecComplete(s, id, call).st.rows[id].state.Pending? <==>
            s.rows[id].state.Pending? && !(call.MarkUploaded? || call.RejectWrongSize?)
  {}

  lemma ValidateKeepsPending(s: Stores, t: Trace, o: nat, call: ValidateCall, id: FileId, reply: ScanReply)
    requires FileInv(CellIn(s, t, id), id, s.now) && ValidateInv(CellIn(s, t, id), id, o, call, s.now)
    requires RowBetween(s, ExecValidate(s, id, call, reply).st, id)
    ensures ExecValidate(s, id, call, reply).st.rows[id].state.Pending? == s.rows[id].state.Pending?
  {}

  lemma OthersKeepPending(s: Stores, op: Op, c: Choice, id: FileId)
    requires !op.Complete? && !op.Validate? && !op.Initiate?
    requires op.Requeue? && op.requeue.MarkRequeued? && op.id == id && id in s.rows ==> !s.rows[id].state.Pending?
    requires RowBetween(s, Exec(s, op, c).st, id)
    ensures Exec(s, op, c).st.rows[id].state.Pending? == s.rows[id].state.Pending?
  {}

  lemma CallLeavesPending(w: World, o: nat, c: Choice, id: FileId)
    requires Inv(w) && Enabled(w, Advance(o, c))
    requires RowBetween(w.st, Exec(w.st, w.ops[o], c).st, id)
    ensures Exec(w.st, w.ops[o], c).st.rows[id].state.Pending? <==>
            w.st.rows[id].state.Pending? && !CompletionWrites(w, Advance(o, c), id)
  {
    var op := w.ops[o];
    assert Running(w, o, op);
    assert FileInv(CellOf(w, id), id, w.st.now);
    if id != Touched(w, o) {
      CallKeepsInv(w, o, c);
      assert CellOf(Call(w, o, c), id) == CellOf(w, id);
    } else if op.Complete? {
      CompleteLeavesPending(w.st, TraceOf(w, id), o, op.complete, id);
    } else if op.Validate? {
      ValidateKeepsPending(w.st, TraceOf(w, id), o, op.validate, id, c.reply);
    } else if !op.Initiate? {
      OthersKeepPending(w.st, op, c, id);
    }
  }

  /** One event takes a row out of pending exactly when it is a completion's write, and none puts it back. */
  lemma EventLeavesPending(w: World, e: Event, id: FileId)
    requires Inv(w) && RowBetween(w.st, Apply(w, e).st, id)
    ensures Apply(w, e).st.rows[id].state.Pending? <==>
            w.st.rows[id].state.Pending? && !CompletionWrites(w, e, id)
  {
    if Enabled(w, e) && e.Advance? {
      CallLeavesPending(w, e.o, e.choice, id);
      assert Apply(w, e).st.rows == Exec(w.st, w.ops[e.o], e.choice).st.rows;
    } else {
      assert Apply(w, e).st.rows == w.st.rows;
    }
  }

  /** A completion decided the file at one of the events from `k` on. */
  ghost predicate Decided(events: seq<Event>, k: nat, n: nat, id: FileId)
    requires n <= |events|
  {
    exists m: nat :: k <= m < n && CompletionWrites(Run(events[..m]), events[m], id)
  }

  lemma RowWasThere(events: seq<Event>, m: nat, id: FileId)
    requires m <= |events| && id in Run(events).st.rows && TraceOf(Run(events[..m]), id).created
    ensures id in Run(events[..m]).st.rows
  {
    RunKeepsInv(events[..m]);
    assert events == events[..m] + events[m..];
    AfterSplits(START, events[..m], events[m..]);
    RunGrows(Run(events[..m]), events[m..], id);
  }

  /** From event `k` on, while the row lasts, it is pending exactly until a completion decides it. */
  lemma {:induction false} PendingUntilDecided(events: seq<Event>, k: nat, n: nat, id: FileId)
    requires k <= n <= |events| && id in Run(events[..k]).st.rows && Run(events[..k]).st.rows[id].state.Pending?
    requires id in Run(events[..n]).st.rows
    ensures !Run(events[..n]).st.rows[id].state.Pending? <==> Decided(events, k, n, id)
    decreases n - k
  {
    if k < n {
      var w, e := Run(events[..n - 1]), events[n - 1];
      assert events[..n] == events[..n - 1] + [e];
      OneEvent(events[..n - 1], e);
      CreatedStays(events, k, n - 1, id);
      assert events[..n][..n - 1] == events[..n - 1];
      RowWasThere(events[..n], n - 1, id);
      PendingUntilDecided(events, k, n - 1, id);
      RunKeepsInv(events[..n - 1]);
      EventLeavesPending(w, e, id);
      DecidedOneLater(events, k, n - 1, id);
    }
  }

  lemma CreatedStays(events: seq<Event>, k: nat, n: nat, id: FileId)
    requires k <= n <= |events| && id in Run(events[..k]).st.rows
    ensures TraceOf(Run(events[..n]), id).created
  {
    RunKeepsInv(events[..k]);
    assert FileInv(CellOf(Run(events[..k]), id), id, Run(events[..k]).st.now);
    assert events[..n] == events[..k] + events[k..n];
    AfterSplits(START, events[..k], events[k..n]);
    RunGrows(Run(events[..k]), events[k..n], id);
  }

  lemma DecidedOneLater(events: seq<Event>, k: nat, n: nat, id: FileId)
    requires k <= n < |events|
    ensures Decided(events, k, n + 1, id) <==>
            Decided(events, k, n, id) || CompletionWrites(Run(events[..n]), events[n], id)
  {}

  // ---- the statements ----

  /** The reaper is deleting the file, at whichever call, and the row is still there. It listed the file while it was
      pending and overdue, and the row is no longer pending exactly when a completion of that file wrote it between the
      listing and this moment. */
  lemma ReaperMeetsDecidedFiles(
    events: seq<Event>, o: nat, id: FileId, call: DeleteCall, rest: seq<FileId>) returns (k: nat)
    requires o in Run(events).ops && Run(events).ops[o] == Delete(id, call, ByReaper(rest))
    requires id in Run(events).st.rows
    ensures ListedAt(events, k, o, id)
    ensures var listed := Run(events[..k]).st;
            id in listed.rows && listed.rows[id].state.Pending? && ReapDue(listed.rows[id], listed.now)
    ensures !Run(events).st.rows[id].state.Pending? <==> Decided(events, k + 1, |events|, id)
  {
    k := ReaperFollowsItsListing(events, o, id);
    assert events[..|events|] == events;
    PendingUntilDecided(events, k, |events|, id);
    assert !CompletionWrites(Run(events[..k]), events[k], id);
  }

  /** The event by which the reaper deletes a row: it deletes one that is not pending exactly when a completion of that
      file wrote it at any moment between the listing and the deletion, before or after the reaper read the row. */
  lemma ReaperDeletesDecidedFiles(events: seq<Event>, o: nat, id: FileId, rest: seq<FileId>, c: Choice)
    returns (k: nat)
    requires o in Run(events).ops && Run(events).ops[o] == Delete(id, DeleteRow, ByReaper(rest))
    requires id in Run(events).st.rows
    ensures id !in Run(events + [Advance(o, c)]).st.rows
    ensures ListedAt(events, k, o, id)
    ensures var listed := Run(events[..k]).st;
            id in listed.rows && listed.rows[id].state.Pending? && ReapDue(listed.rows[id], listed.now)
    ensures !Run(events).st.rows[id].state.Pending? <==> Decided(events, k + 1, |events|, id)
  {
    OneEvent(events, Advance(o, c));
    k := ReaperMeetsDecidedFiles(events, o, id, DeleteRow, rest);
  }

  /** What the reaper does to the file it finds is the same in any state: if nobody else moves, the row goes, and with
      it the object that its key names. */
  lemma ReaperTakesItAll(w: World, o: nat, id: FileId, rest: seq<FileId>, c: Choice)
    requires o in w.ops && w.ops[o] == Delete(id, FindRow, ByReaper(rest))
    requires id in w.st.rows && !w.st.rows[id].state.Pending? && w.st.rows[id].storageKey == Some(id)
    ensures var w' := After(w, [Advance(o, c), Advance(o, c), Advance(o, c)]);
            id !in w'.st.rows && id !in w'.st.objects
  {
    var e := Advance(o, c);
    ThreeEvents(w, e);
    var w1 := Apply(w, e);
    assert w1.ops[o] == Delete(id, DeleteObject(Some(id)), ByReaper(rest));
    var w2 := Apply(w1, e);
    assert w2.ops[o] == Delete(id, DeleteRow, ByReaper(rest)) && id !in w2.st.objects;
  }

  lemma ThreeEvents(w: World, e: Event)
    ensures After(w, [e, e, e]) == Apply(Apply(Apply(w, e), e), e)
  {
    assert [e, e, e][..2] == [e, e] && [e, e][..1] == [e] && [e][..0] == [];
    assert After(w, [e]) == Apply(w, e);
    assert After(w, [e, e]) == Apply(Apply(w, e), e);
  }

  // ---- runs in which an accepted file is reaped ----

  const OVERDUE: nat := ABANDONED_UPLOAD_TTL_HOURS * MS_PER_HOUR + 1

  const REAPER := map[1 := Delete(0, FindRow, ByReaper([]))]

  /** After 48 hours the reaper lists the pending row. */
  lemma ReaperLists() returns (events: seq<Event>)
    ensures Stands(Run(events), Uploading(OVERDUE), REAPER, 2)
  {
    events := Begins();
    events := Waits(events, Uploading(0), map[], 1, OVERDUE);
    events := Asks(events, Uploading(OVERDUE), map[], 1, List(ForReaper));
    ListsTheRow(Uploading(OVERDUE), ForReaper);
    events := GoesOn(events, Uploading(OVERDUE), map[], 2, 1, List(ForReaper), Reply([0], ScanError),
                     Uploading(OVERDUE), Delete(0, FindRow, ByReaper([])));
    assert map[][1 := Delete(0, FindRow, ByReaper([]))] == REAPER;
  }

  /** The file once its completion was accepted. */
  function Accepted(stored: bool): Stores {
    Holding(InState(Uploaded, Some(0), OVERDUE), stored, Some(Waiting(0)), OVERDUE)
  }

  /** Before the reaper gets to the row, the upload is completed and accepted. */
  lemma CompletesBeforeTheReaper() returns (events: seq<Event>)
    ensures Stands(Run(events), Accepted(true), REAPER, 3)
  {
    events := ReaperLists();
    events := Completes(events, OVERDUE, REAPER, 2);
  }

  /** The code does not confine the reaper to pending rows: a concrete run in which a completed and accepted file,
      its object stored and its job waiting, stands before the reaper, whose next three calls remove it. */
  lemma AcceptedFileIsReaped() returns (events: seq<Event>, c: Choice)
    ensures var w, w' := Run(events), Run(events + [Advance(1, c), Advance(1, c), Advance(1, c)]);
            && 1 in w.ops && w.ops[1] == Delete(0, FindRow, ByReaper([]))
            && 0 in w.st.rows && w.st.rows[0].state.Uploaded? && 0 in w.st.objects && 0 in w.st.jobs
            && 0 !in w'.st.rows && 0 !in w'.st.objects
  {
    c := SILENT;
    events := CompletesBeforeTheReaper();
    AfterSplits(START, events, [Advance(1, c), Advance(1, c), Advance(1, c)]);
    ReaperTakesItAll(Run(events), 1, 0, [], c);
  }

  const PENDING := InState(Pending, Some(0), 0)

  /** The reaper reads the row, still pending, and is about to abort the upload; only then is it completed. */
  lemma CompletesBehindTheReaper() returns (events: seq<Event>)
    ensures Stands(Run(events), Accepted(true), map[][1 := Delete(0, AbortOpenUpload(PENDING), ByReaper([]))], 3)
  {
    events := ReaperLists();
    assert map[][1 := Delete(0, FindRow, ByReaper([]))] == REAPER;
    events := GoesOn(events, Uploading(OVERDUE), map[], 2, 1, Delete(0, FindRow, ByReaper([])), SILENT,
                     Uploading(OVERDUE), Delete(0, AbortOpenUpload(PENDING), ByReaper([])));
    events := Completes(events, OVERDUE, map[][1 := Delete(0, AbortOpenUpload(PENDING), ByReaper([]))], 2);
  }

  /** It finds no upload any more, and takes the object for an orphan. */
  lemma TakesForOrphan() returns (events: seq<Event>)
    ensures Stands(Run(events), Accepted(false), map[][1 := Delete(0, DeleteRow, ByReaper([]))], 3)
  {
    var abort, head := Delete(0, AbortOpenUpload(PENDING), ByReaper([])), Delete(0, HeadOrphan(Some(0)), ByReaper([]));
    var drop := Delete(0, DeleteObject(Some(0)), ByReaper([]));
    events := CompletesBehindTheReaper();
    events := GoesOn(events, Accepted(true), map[], 3, 1, abort, SILENT, Accepted(true), head);
    events := GoesOn(events, Accepted(true), map[], 3, 1, head, SILENT, Accepted(true), drop);
    assert RemoveObject(Accepted(true), 0) == Accepted(false);
    events := GoesOn(events, Accepted(true), map[], 3, 1, drop, SILENT, Accepted(false),
                     Delete(0, DeleteRow, ByReaper([])));
  }

  /** Looking at the state does not help: a concrete run in which the reaper reads a pending row, the upload is then
      completed and accepted, and the reaper is about to delete the accepted row, its object already gone and its job
      still waiting. */
  lemma FileAcceptedBehindTheReaperIsReaped() returns (events: seq<Event>, c: Choice)
    ensures var w, w' := Run(events), Run(events + [Advance(1, c)]);
            && 1 in w.ops && w.ops[1] == Delete(0, DeleteRow, ByReaper([]))
            && 0 in w.st.rows && w.st.rows[0].state.Uploaded? && 0 !in w.st.objects && 0 in w.st.jobs
            && 0 !in w'.st.rows
  {
    c := SILENT;
    events := TakesForOrphan();
    OneEvent(events, Advance(1, c));
  }
}
