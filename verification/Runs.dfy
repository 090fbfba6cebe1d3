/** Concrete runs, built call by call: one upload of one byte, from which other modules go on. */
module Runs {
  import opened Base
  import opened FileRows
  import opened Stores
  import opened Protocol
  import opened History
  import opened World

  /** File 0 exists; the world's stores and operations are these. */
  ghost predicate Stands(w: World, st: Stores, ops: map<nat, Op>, nextOp: nat) {
    w.st == st && w.ops == ops && w.nextOp == nextOp && w.nextFile == 1 && TraceOf(w, 0).created
  }

  lemma OneEvent(events: seq<Event>, e: Event)
    ensures Run(events + [e]) == Apply(Run(events), e)
  {
    assert (events + [e])[..|events|] == events;
  }

  /** Operation `o`, beside the operations `ops`, goes on by one call. */
  lemma GoesOn(
    events: seq<Event>, st: Stores, ops: map<nat, Op>, nextOp: nat, o: nat, op: Op, c: Choice, st': Stores, op': Op)
    returns (more: seq<Event>)
    requires Stands(Run(events), st, ops[o := op], nextOp) && Answers(st, op, c) && !OpensUpload(op)
    requires Exec(st, op, c) == Outcome(st', Go(op'))
    ensures more == events + [Advance(o, c)] && Stands(Run(more), st', ops[o := op'], nextOp)
  {
    more := events + [Advance(o, c)];
    OneEvent(events, Advance(o, c));
    assert ops[o := op][o := op'] == ops[o := op'];
  }

  /** Operation `o` makes its last call; a finished job leaves the queue. */
  lemma Returns(
    events: seq<Event>, st: Stores, ops: map<nat, Op>, nextOp: nat, o: nat, op: Op, c: Choice, st': Stores)
    returns (more: seq<Event>)
    requires Stands(Run(events), st, ops[o := op], nextOp) && Answers(st, op, c) && !OpensUpload(op) && o !in ops
    requires Exec(st, op, c).next.Done? && st' == SettleJob(Exec(st, op, c).st, op, Done)
    ensures more == events + [Advance(o, c)] && Stands(Run(more), st', ops, nextOp)
  {
    more := events + [Advance(o, c)];
    OneEvent(events, Advance(o, c));
    assert ops[o := op] - {o} == ops;
  }

  lemma Asks(events: seq<Event>, st: Stores, ops: map<nat, Op>, nextOp: nat, op: Op) returns (more: seq<Event>)
    requires Stands(Run(events), st, ops, nextOp)
    requires op.List? || (op.Complete? && op.id == 0 && op.complete.FindPending?)
    ensures more == events + [Request(op)] && Stands(Run(more), st, ops[nextOp := op], nextOp + 1)
  {
    more := events + [Request(op)];
    OneEvent(events, Request(op));
  }

  lemma Waits(events: seq<Event>, st: Stores, ops: map<nat, Op>, nextOp: nat, elapsed: nat) returns (more: seq<Event>)
    requires Stands(Run(events), st, ops, nextOp)
    ensures more == events + [Tick(elapsed)] && Stands(Run(more), st.(now := st.now + elapsed), ops, nextOp)
  {
    more := events + [Tick(elapsed)];
    OneEvent(events, Tick(elapsed));
  }

  // ---- one upload ----

  const REQUEST := UploadRequest(7, "a", "text/plain", 1, None, None, false, None, [], "t")

  function Reply(ids: seq<FileId>, scan: ScanReply): Choice {
    Choice(0, ids, scan)
  }

  const SILENT := Reply([], ScanError)

  function InState(state: FileState, key: Option<Key>, at: int): Row {
    Draft(REQUEST, 7, 0, 0, 0).(state := state, storageKey := key, updatedAt := at)
  }

  /** The one row, its object and its job. */
  function Holding(row: Row, stored: bool, job: Option<Job>, now: int): Stores {
    Stores(map[0 := row], if stored then map[0 := [0]] else map[], map[],
           if job.Some? then map[0 := job.value] else map[], now)
  }

  /** The one row and its multipart upload, which has received its part. */
  function Uploading(now: int): Stores {
    Stores(map[0 := InState(Pending, Some(0), 0)], map[], map[0 := Upload(0, map[1 := [0]])], map[], now)
  }

  /** An upload of one byte is begun: first the multipart upload, then the row. */
  lemma Opens() returns (events: seq<Event>)
    ensures var w := Run(events);
            && w.st == Stores(map[], map[], map[0 := Upload(0, map[])], map[], 0) && w.nextOp == 1 && w.nextFile == 1
            && w.ops == map[0 := Initiate(0, CreateRow(InState(Pending, Some(0), 0)))] && 0 in w.traces
  {
    var e1, e2 := Request(Initiate(-1, CreateMultipart(REQUEST))), Advance(0, SILENT);
    NoDot("a");
    assert Admit(REQUEST) == Ok(7) by {
      AdmissionIsExact(REQUEST);
    }
    OneEvent([], e1);
    assert [] + [e1] == [e1] && Run([]) == START;
    OneEvent([e1], e2);
    events := [e1] + [e2];
  }

  /** Its one part is sent. */
  lemma Begins() returns (events: seq<Event>)
    ensures Stands(Run(events), Uploading(0), map[], 1)
  {
    var e1, e2 := Advance(0, SILENT), Put(0, 1, [0]);
    events := Opens();
    OneEvent(events, e1);
    events := events + [e1];
    assert Run(events).st.rows == map[0 := InState(Pending, Some(0), 0)];
    OneEvent(events, e2);
    events := events + [e2];
  }

  /** Its completion, beside other operations, assembles the object. */
  lemma Assembles(events: seq<Event>, now: int, ops: map<nat, Op>, o: nat) returns (more: seq<Event>)
    requires Stands(Run(events), Uploading(now), ops, o)
    ensures Stands(Run(more), Holding(InState(Pending, Some(0), 0), true, None, now),
                   ops[o := Complete(0, HeadSize(InState(Pending, Some(0), 0)))], o + 1)
  {
    var row, s0 := InState(Pending, Some(0), 0), Uploading(now);
    var find, finish := Complete(0, FindPending(7, [1])), Complete(0, CompleteMultipart(row, [1]));
    more := Asks(events, s0, ops, o, find);
    more := GoesOn(more, s0, ops, o + 1, o, find, SILENT, s0, finish);
    assert Assemble(s0.uploads[0].parts, [1]) == [0];
    assert FinishUpload(s0, Some(0), Some(0), [1]) == Holding(row, true, None, now);
    more := GoesOn(more, s0, ops, o + 1, o, finish, SILENT, Holding(row, true, None, now), Complete(0, HeadSize(row)));
  }

  /** The size is right: the row reads `uploaded`, a job waits, and the completion has returned. */
  lemma Completes(events: seq<Event>, now: int, ops: map<nat, Op>, o: nat) returns (more: seq<Event>)
    requires Stands(Run(events), Uploading(now), ops, o) && o !in ops
    ensures Stands(Run(more), Holding(InState(Uploaded, Some(0), now), true, Some(Waiting(0)), now), ops, o + 1)
  {
    var row := InState(Pending, Some(0), 0);
    var head, mark, enqueue := Complete(0, HeadSize(row)), Complete(0, MarkUploaded), Complete(0, EnqueueScan);
    var s1, s2 := Holding(row, true, None, now), Holding(InState(Uploaded, Some(0), now), true, None, now);
    more := Assembles(events, now, ops, o);
    more := GoesOn(more, s1, ops, o + 1, o, head, SILENT, s1, mark);
    assert SetState(s1, 0, Uploaded) == s2;
    more := GoesOn(more, s1, ops, o + 1, o, mark, SILENT, s2, enqueue);
    var s3 := Holding(InState(Uploaded, Some(0), now), true, Some(Waiting(0)), now);
    assert Enqueue(s2, 0) == s3;
    more := Returns(more, s2, ops, o + 1, o, enqueue, SILENT, s3);
  }

  /** What a listing of the one row may answer. */
  lemma ListsTheRow(s: Stores, filter: Filter)
    requires s.rows.Keys == {0} && Selected(filter, s.rows[0], s.now)
    ensures Lists(s, filter, [0]) && [0][1..] == []
  {
    assert [0][0] == 0 && forall id :: id in [0] <==> id == 0;
    assert forall id :: id in s.rows <==> id in s.rows.Keys;
  }
}
