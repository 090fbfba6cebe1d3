/** Rejected, expired and ready are not final: when exactly a row leaves them, and runs in which one does. */
module Revival {
  import opened Base
  import opened FileRows
  import opened Stores
  import opened Protocol
  import opened History
  import opened World
  import opened FileInvariant
  import opened WorldInvariant
  import opened Preservation
  import opened Safety
  import opened Runs
  import MagicBytes

  predicate Closed(state: FileState) {
    state.Rejected? || state.Expired?
  }

  predicate Judged(state: FileState) {
    Closed(state) || state.Ready?
  }

  /** The event is the write of the hourly requeue on this row. */
  ghost predicate RequeueWrites(w: World, e: Event, id: FileId) {
    && e.Advance? && Enabled(w, e)
    && w.ops[e.o].Requeue? && w.ops[e.o].id == id && w.ops[e.o].requeue.MarkRequeued?
  }

  /** The event is the guarded write of the expiry pass on this row. */
  ghost predicate ExpiryWrites(w: World, e: Event, id: FileId) {
    && e.Advance? && Enabled(w, e)
    && w.ops[e.o].Expire? && w.ops[e.o].id == id && w.ops[e.o].expire.MarkExpired?
  }

  /** The row is there before and after, judged before. */
  ghost predicate JudgedBetween(s: Stores, s': Stores, id: FileId) {
    id in s.rows && Judged(s.rows[id].state) && id in s'.rows
  }

  lemma CompleteKeepsJudged(s: Stores, t: Trace, o: nat, call: CompleteCall, id: FileId)
    requires FileInv(CellIn(s, t, id), id, s.now) && CompleteInv(CellIn(s, t, id), id, o, call)
    requires JudgedBetween(s, ExecComplete(s, id, call).st, id)
    ensures ExecComplete(s, id, call).st.rows[id].state == s.rows[id].state
  {}

  lemma ValidateKeepsJudged(s: Stores, t: Trace, o: nat, call: ValidateCall, id: FileId, reply: ScanReply)
    requires FileInv(CellIn(s, t, id), id, s.now) && ValidateInv(CellIn(s, t, id), id, o, call, s.now)
    requires JudgedBetween(s, ExecValidate(s, id, call, reply).st, id)
    ensures ExecValidate(s, id, call, reply).st.rows[id].state == s.rows[id].state
  {}

  lemma OthersKeepJudged(s: Stores, op: Op, c: Choice, id: FileId)
    requires !op.Complete? && !op.Validate? && !op.Initiate?
    requires JudgedBetween(s, Exec(s, op, c).st, id)
    ensures Exec(s, op, c).st.rows[id].state != s.rows[id].state <==>
            || (op.Requeue? && op.requeue.MarkRequeued? && op.id == id)
            || (op.Expire? && op.expire.MarkExpired? && op.id == id && s.rows[id].state.Ready?)
  {}

  lemma CallUnjudges(w: World, o: nat, c: Choice, id: FileId)
    requires Inv(w) && Enabled(w, Advance(o, c))
    requires JudgedBetween(w.st, Exec(w.st, w.ops[o], c).st, id)
    ensures Exec(w.st, w.ops[o], c).st.rows[id].state != w.st.rows[id].state <==>
            || RequeueWrites(w, Advance(o, c), id)
            || (w.st.rows[id].state.Ready? && ExpiryWrites(w, Advance(o, c), id))
  {
    var op := w.ops[o];
    assert Running(w, o, op);
    assert FileInv(CellOf(w, id), id, w.st.now);
    if id != Touched(w, o) {
      CallKeepsInv(w, o, c);
      assert CellOf(Call(w, o, c), id) == CellOf(w, id);
    } else if op.Complete? {
      CompleteKeepsJudged(w.st, TraceOf(w, id), o, op.complete, id);
    } else if op.Validate? {
      ValidateKeepsJudged(w.st, TraceOf(w, id), o, op.validate, id, c.reply);
    } else if !op.Initiate? {
      OthersKeepJudged(w.st, op, c, id);
    }
  }

  /** What the two writes leave. */
  lemma WritesLeave(w: World, e: Event, id: FileId)
    requires Inv(w) && JudgedBetween(w.st, Apply(w, e).st, id)
    ensures RequeueWrites(w, e, id) ==>
              Apply(w, e).st.rows[id] == w.st.rows[id].(state := Uploaded, updatedAt := w.st.now)
    ensures w.st.rows[id].state.Ready? && ExpiryWrites(w, e, id) ==>
              Apply(w, e).st.rows[id] == Tombstone(w.st.rows[id], w.st.now) && w.st.rows[id].expiresAt < w.st.now
  {
    if RequeueWrites(w, e, id) || ExpiryWrites(w, e, id) {
      assert Running(w, e.o, w.ops[e.o]);
      assert Apply(w, e).st.rows == Exec(w.st, w.ops[e.o], e.choice).st.rows;
    }
  }

  lemma EventUnjudges(w: World, e: Event, id: FileId)
    requires Inv(w) && JudgedBetween(w.st, Apply(w, e).st, id)
    ensures Apply(w, e).st.rows[id].state != w.st.rows[id].state <==>
            RequeueWrites(w, e, id) || (w.st.rows[id].state.Ready? && ExpiryWrites(w, e, id))
  {
    if Enabled(w, e) && e.Advance? {
      assert Apply(w, e).st.rows == Exec(w.st, w.ops[e.o], e.choice).st.rows;
      CallUnjudges(w, e.o, e.choice, id);
    } else {
      assert Apply(w, e).st.rows == w.st.rows;
    }
  }

  /** The code does not make rejected and expired final. A row leaves them exactly when the hourly requeue, which
      listed the row while it was being scanned, writes it without looking again; it then reads `uploaded`, and its
      key stays empty. */
  lemma OnlyTheRequeueRevives(events: seq<Event>, e: Event, id: FileId)
    requires JudgedBetween(Run(events).st, Run(events + [e]).st, id) && Closed(Run(events).st.rows[id].state)
    ensures Run(events + [e]).st.rows[id].state != Run(events).st.rows[id].state <==>
            RequeueWrites(Run(events), e, id)
    ensures RequeueWrites(Run(events), e, id) ==>
              Run(events + [e]).st.rows[id].state.Uploaded? && Run(events + [e]).st.rows[id].storageKey == None
  {
    RunKeepsInv(events);
    OneEvent(events, e);
    EventUnjudges(Run(events), e, id);
    WritesLeave(Run(events), e, id);
    assert FileInv(CellOf(Run(events), id), id, Run(events).st.now);
  }

  /** A row leaves ready, while it lasts, exactly by the expiry pass, which finds it past its date, or by the same
      unguarded requeue, which makes a downloadable file read `uploaded` with its key and its object. */
  lemma OnlyTwoWritesEndReady(events: seq<Event>, e: Event, id: FileId)
    requires JudgedBetween(Run(events).st, Run(events + [e]).st, id) && Run(events).st.rows[id].state.Ready?
    ensures var w, w' := Run(events), Run(events + [e]);
            && (!w'.st.rows[id].state.Ready? <==> RequeueWrites(w, e, id) || ExpiryWrites(w, e, id))
            && (ExpiryWrites(w, e, id) ==>
                  w'.st.rows[id] == Tombstone(w.st.rows[id], w.st.now) && w.st.rows[id].expiresAt < w.st.now)
            && (RequeueWrites(w, e, id) ==>
                  w'.st.rows[id].state.Uploaded? && w'.st.rows[id].storageKey == Some(id))
  {
    RunKeepsInv(events);
    OneEvent(events, e);
    EventUnjudges(Run(events), e, id);
    WritesLeave(Run(events), e, id);
    assert FileInv(CellOf(Run(events), id), id, Run(events).st.now);
  }

  // ---- runs in which a rejected, an expired and a ready row read `uploaded` again ----

  const LATER: nat := SCANNING_STALE_AFTER_MS + 1

  /** The row while a worker validates it, beside a requeue that has listed it. */
  function Scanned(stored: bool): Stores {
    Holding(InState(Scanning, Some(0), 0), stored, Some(Active(0, 2)), LATER)
  }

  const REQUEUE := map[3 := Requeue(0, MarkRequeued, [])]

  const UPLOADED := InState(Uploaded, Some(0), 0)

  /** The file is uploaded, a worker takes its job and marks the row `scanning`. */
  lemma Claims() returns (events: seq<Event>)
    ensures Stands(Run(events), Holding(InState(Scanning, Some(0), 0), true, Some(Active(0, 2)), 0),
                   map[][2 := Validate(0, ReadRange(UPLOADED))], 3)
  {
    var find, claim := Validate(0, FindScannable), Validate(0, ClaimRow(UPLOADED));
    events := Begins();
    events := Completes(events, 0, map[], 1);
    OneEvent(events, TakeJob(0));
    events := events + [TakeJob(0)];
    var job := Some(Active(0, 2));
    var s4, s5 := Holding(UPLOADED, true, job, 0), Holding(InState(Scanning, Some(0), 0), true, job, 0);
    assert Stands(Run(events), s4, map[][2 := find], 3);
    events := GoesOn(events, s4, map[], 3, 2, find, SILENT, s4, claim);
    assert SetState(s4, 0, Scanning) == s5;
    events := GoesOn(events, s4, map[], 3, 2, claim, SILENT, s5, Validate(0, ReadRange(UPLOADED)));
  }

  /** A quarter of an hour later the hourly requeue lists the row as stale, and is about to write it. */
  lemma ListsStale() returns (events: seq<Event>)
    ensures Stands(Run(events), Scanned(true), REQUEUE[2 := Validate(0, ReadRange(UPLOADED))], 4)
  {
    var validate, s := map[][2 := Validate(0, ReadRange(UPLOADED))], Scanned(true);
    events := Claims();
    events := Waits(events, Holding(InState(Scanning, Some(0), 0), true, Some(Active(0, 2)), 0), validate, 3, LATER);
    events := Asks(events, s, validate, 3, List(ForRequeue));
    ListsTheRow(s, ForRequeue);
    events := GoesOn(events, s, validate, 4, 3, List(ForRequeue), Reply([0], ScanError), s,
                     Requeue(0, MarkRequeued, []));
    assert validate[3 := Requeue(0, MarkRequeued, [])] == REQUEUE[2 := Validate(0, ReadRange(UPLOADED))];
  }

  /** Meanwhile the worker sends the object to the scanner. */
  lemma Scans() returns (events: seq<Event>)
    ensures Stands(Run(events), Scanned(true), REQUEUE[2 := Validate(0, Scan(UPLOADED, [0]))], 4)
  {
    var s := Scanned(true);
    events := ListsStale();
    NoDot("a");
    assert ExtensionOf("a") == "";
    assert MagicBytes.VerifyMagicBytes("", MagicBytes.Head([0])).Unverifiable?;
    events := GoesOn(events, s, REQUEUE, 4, 2, Validate(0, ReadRange(UPLOADED)), SILENT, s,
                     Validate(0, ReadFull(UPLOADED)));
    events := GoesOn(events, s, REQUEUE, 4, 2, Validate(0, ReadFull(UPLOADED)), SILENT, s,
                     Validate(0, Scan(UPLOADED, [0])));
  }

  /** The scanner finds the object infected, and it is dropped. */
  lemma Refuses() returns (events: seq<Event>)
    ensures Stands(Run(events), Scanned(false), REQUEUE[2 := Validate(0, RejectRefused)], 4)
  {
    var drop := Validate(0, DropRefused(UPLOADED));
    events := Scans();
    events := GoesOn(events, Scanned(true), REQUEUE, 4, 2, Validate(0, Scan(UPLOADED, [0])), Reply([], Infected),
                     Scanned(true), drop);
    assert RemoveObject(Scanned(true), 0) == Scanned(false);
    events := GoesOn(events, Scanned(true), REQUEUE, 4, 2, drop, SILENT, Scanned(false), Validate(0, RejectRefused));
  }

  lemma Rejects() returns (events: seq<Event>)
    ensures Stands(Run(events), Holding(InState(Rejected, None, LATER), false, None, LATER), REQUEUE, 4)
  {
    var reject, s := Validate(0, RejectRefused), Holding(InState(Rejected, None, LATER), false, None, LATER);
    events := Refuses();
    assert SettleJob(RejectRow(Scanned(false), 0), reject, Done) == s;
    events := Returns(events, Scanned(false), REQUEUE, 4, 2, reject, SILENT, s);
  }

  /** A concrete run after which a row is `rejected`, and one more event after which it reads `uploaded`. */
  lemma RejectedIsNotFinal() returns (events: seq<Event>, e: Event)
    ensures 0 in Run(events).st.rows && Run(events).st.rows[0].state.Rejected?
    ensures 0 in Run(events + [e]).st.rows && Run(events + [e]).st.rows[0].state.Uploaded?
  {
    events := Rejects();
    e := Advance(3, SILENT);
    OneEvent(events, e);
  }

  const EXPIRY: nat := LATER + 7 * MS_PER_DAY

  /** The scanner finds the object clean. */
  lemma MarksReady() returns (events: seq<Event>)
    ensures Stands(Run(events), Holding(InState(Ready, Some(0), LATER), true, None, LATER), REQUEUE, 4)
  {
    var mark := Validate(0, MarkReady(UPLOADED));
    events := Scans();
    events := GoesOn(events, Scanned(true), REQUEUE, 4, 2, Validate(0, Scan(UPLOADED, [0])), Reply([], Clean),
                     Scanned(true), mark);
    var s := Holding(InState(Ready, Some(0), LATER), true, None, LATER);
    assert SettleJob(SetState(Scanned(true), 0, Ready), mark, Done) == s;
    events := Returns(events, Scanned(true), REQUEUE, 4, 2, mark, SILENT, s);
  }

  /** A concrete run after which a row is `ready`, long before its date, and one more event after which it reads
      `uploaded`. */
  lemma ReadyIsNotFinal() returns (events: seq<Event>, e: Event)
    ensures var w := Run(events); 0 in w.st.rows && w.st.rows[0].state.Ready? && w.st.now < w.st.rows[0].expiresAt
    ensures 0 in Run(events + [e]).st.rows && Run(events + [e]).st.rows[0].state.Uploaded?
  {
    events := MarksReady();
    e := Advance(3, SILENT);
    OneEvent(events, e);
  }

  /** A week later the daily sweep finds the file past its date, and drops its object. */
  lemma Drops() returns (events: seq<Event>)
    ensures Stands(Run(events), Holding(InState(Ready, Some(0), LATER), false, None, EXPIRY),
                   REQUEUE[4 := Expire(0, MarkExpired, [], 0)], 5)
  {
    var ready := Holding(InState(Ready, Some(0), LATER), true, None, LATER);
    var late := Holding(InState(Ready, Some(0), LATER), true, None, EXPIRY);
    events := MarksReady();
    events := Waits(events, ready, REQUEUE, 4, 7 * MS_PER_DAY);
    events := Asks(events, late, REQUEUE, 4, List(ForExpiry));
    ListsTheRow(late, ForExpiry);
    var drop := Expire(0, DropExpired(Some(0)), [], 0);
    assert Candidates(late, [0])[1..] == [];
    events := GoesOn(events, late, REQUEUE, 5, 4, List(ForExpiry), Reply([0], ScanError), late, drop);
    var dropped := Holding(InState(Ready, Some(0), LATER), false, None, EXPIRY);
    assert RemoveObject(late, 0) == dropped;
    events := GoesOn(events, late, REQUEUE, 5, 4, drop, SILENT, dropped, Expire(0, MarkExpired, [], 0));
  }

  /** A concrete run after which a row is `expired`, and one more event after which it reads `uploaded`. */
  lemma ExpiredIsNotFinal() returns (events: seq<Event>, e: Event)
    ensures 0 in Run(events).st.rows && Run(events).st.rows[0].state.Expired?
    ensures 0 in Run(events + [e]).st.rows && Run(events + [e]).st.rows[0].state.Uploaded?
  {
    var dropped := Holding(InState(Ready, Some(0), LATER), false, None, EXPIRY);
    var mark, count := Expire(0, MarkExpired, [], 0), Expire(0, CountExpired(1), [], 0);
    events := Drops();
    events := GoesOn(events, dropped, REQUEUE, 5, 4, mark, SILENT, ExpireRow(dropped, 0), count);
    e := Advance(3, SILENT);
    OneEvent(events, e);
  }
}
