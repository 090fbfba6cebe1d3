/** All runs of the system: the stores, every operation in flight, and the events that move them. */
module World {
  import opened Base
  import opened FileRows
  import opened Stores
  import opened Protocol
  import opened History

  datatype World = World(
    st: Stores,
    ops: map<nat, Op>,
    nextOp: nat,
    nextFile: nat,
    traces: map<FileId, Trace>,
    returned: map<nat, nat>,  // what each finished expireReadyFiles run returned
    died: map<nat, nat>)      // the count each run that died had reached, its last write included

  const START := World(Stores(map[], map[], map[], map[], 0), map[], 0, 0, map[], map[], map[])

  datatype Event =
    | Tick(elapsed: nat)
    | Put(id: FileId, part: nat, body: Bytes)  // a client PUT on a signed part URL
    | Request(op: Op)                          // an API call or a scheduled task begins
    | TakeJob(id: FileId)                      // the queue hands a waiting job to a worker
    | Advance(o: nat, choice: Choice)          // operation o performs one await
    | Die(o: nat, stalled: bool)               // operation o throws, or its process crashes

  function TraceOf(w: World, id: FileId): Trace {
    if id in w.traces then w.traces[id] else NO_TRACE
  }

  /** An id a caller can name: one an initiate returned, or a UUID that names nothing (negative here). */
  predicate Presentable(w: World, id: FileId) {
    id < 0 || TraceOf(w, id).created
  }

  predicate Startable(w: World, op: Op) {
    match op
    case Initiate(id, call) => id == -1 && call.CreateMultipart?
    case Complete(id, call) => call.FindPending? && Presentable(w, id)
    case Abort(id, call) => call.FindAbortable? && Presentable(w, id)
    case Delete(id, call, origin) => call.FindOwned? && origin.ByOwner? && Presentable(w, id)
    case List(_) => true
    case _ => false
  }

  predicate OpensUpload(op: Op) {
    op.Initiate? && op.initiate.CreateMultipart?
  }

  ghost predicate Enabled(w: World, e: Event) {
    match e
    case Tick(_) => true
    case Put(id, part, body) => TraceOf(w, id).created && id in w.st.uploads
    case Request(op) => Startable(w, op)
    case TakeJob(id) => id in w.st.jobs && w.st.jobs[id].Waiting?
    case Advance(o, c) =>
      o in w.ops && Answers(w.st, w.ops[o], c) && (OpensUpload(w.ops[o]) ==> c.newId == w.nextFile)
    case Die(o, _) => o in w.ops
  }

  function Traced(w: World, o: nat, op: Op, c: Choice, out: Outcome): map<FileId, Trace> {
    if OpensUpload(op) then
      if out.next.Go? then w.traces[c.newId := NO_TRACE.(creator := Some(o))] else w.traces
    else if Subject(op) in w.traces then
      w.traces[Subject(op) := Observe(w.traces[Subject(op)], w.st, out.st, Subject(op), o, NoteOf(w.st, op, c))]
    else w.traces
  }

  predicate ExpiryRun(op: Op) {
    op.Expire? || op == List(ForExpiry)
  }

  /** The count a run of expireReadyFiles returns if it ends here. */
  function Tally(op: Op): nat {
    if !op.Expire? then 0 else op.count + if op.expire.CountExpired? then op.expire.hit else 0
  }

  /** The call itself, and the operation moving on or ending. */
  function Call(w: World, o: nat, c: Choice): World
    requires o in w.ops
  {
    var op := w.ops[o];
    var out := Exec(w.st, op, c);
    World(
      out.st,
      if out.next.Go? then w.ops[o := out.next.op] else w.ops - {o},
      w.nextOp,
      if OpensUpload(op) && out.next.Go? then w.nextFile + 1 else w.nextFile,
      Traced(w, o, op, c, out),
      if ExpiryRun(op) && out.next.Done? then w.returned[o := Tally(op)] else w.returned,
      if ExpiryRun(op) && out.next.Fail? then w.died[o := Tally(op)] else w.died)
  }

  /** One await of operation `o`; when it ends a validation, the queue settles the job. */
  function Step(w: World, o: nat, c: Choice): World
    requires o in w.ops
  {
    var called := Call(w, o, c);
    called.(st := SettleJob(called.st, w.ops[o], Exec(w.st, w.ops[o], c).next))
  }

  function Spawn(w: World, op: Op): World {
    w.(ops := w.ops[w.nextOp := op], nextOp := w.nextOp + 1)
  }

  ghost function Apply(w: World, e: Event): World {
    if !Enabled(w, e) then w
    else
      match e
      case Tick(elapsed) => w.(st := w.st.(now := w.st.now + elapsed))
      case Put(id, part, body) =>
        var upload := w.st.uploads[id];
        w.(st := w.st.(uploads := w.st.uploads[id := upload.(parts := upload.parts[part := body])]))
      case Request(op) => Spawn(w, op)
      case TakeJob(id) =>
        var taken := w.st.jobs[id := Active(w.st.jobs[id].failures, w.nextOp)];
        Spawn(w.(st := w.st.(jobs := taken)), Validate(id, FindScannable))
      case Advance(o, c) => Step(w, o, c)
      case Die(o, stalled) =>
        var op := w.ops[o];
        w.(st := if op.Validate? then (if stalled then Redeliver(w.st, op.id) else LoseAttempt(w.st, op.id)) else w.st,
           ops := w.ops - {o},
           died := if ExpiryRun(op) then w.died[o := Tally(op)] else w.died)
  }

  /** The world after a sequence of events; an event that cannot happen changes nothing. */
  ghost function After(w: World, events: seq<Event>): World
    decreases |events|
  {
    if events == [] then w else Apply(After(w, events[..|events| - 1]), events[|events| - 1])
  }

  /** Every reachable world is `Run(events)` for some events. */
  ghost function Run(events: seq<Event>): World {
    After(START, events)
  }

  lemma {:induction false} AfterSplits(w: World, first: seq<Event>, more: seq<Event>)
    ensures After(w, first + more) == After(After(w, first), more)
    decreases |more|
  {
    if more == [] {
      assert first + more == first;
    } else {
      var all := first + more;
      assert all[..|all| - 1] == first + more[..|more| - 1];
      AfterSplits(w, first, more[..|more| - 1]);
    }
  }
}
