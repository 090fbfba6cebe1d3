/** Every event keeps the invariant, so it holds after every run. */
module Preservation {
  import opened Base
  import opened FileRows
  import opened Stores
  import opened Protocol
  import opened History
  import opened World
  import opened FileInvariant
  import opened WorldInvariant
  import opened Interference
  import opened Calls

  function Touched(w: World, o: nat): FileId
    requires o in w.ops
  {
    if OpensUpload(w.ops[o]) then w.nextFile else Subject(w.ops[o])
  }

  /** The stores and the history change for the file of the call only. */
  lemma CallTouchesSubject(w: World, o: nat, c: Choice)
    requires Inv(w) && o in w.ops && !OpensUpload(w.ops[o])
    requires var id, out := Subject(w.ops[o]), Exec(w.st, w.ops[o], c);
             SoundEffect(w.st, out.st, TraceOf(w, id), id, o, NoteOf(w.st, w.ops[o], c))
    ensures var id, out := Subject(w.ops[o]), Exec(w.st, w.ops[o], c);
            && Stepped(w, Call(w, o, c), o, id)
            && CellOf(Call(w, o, c), id) == Afterwards(w.st, out.st, TraceOf(w, id), id, o, NoteOf(w.st, w.ops[o], c))
  {
    var op, w' := w.ops[o], Call(w, o, c);
    var id, out := Subject(op), Exec(w.st, op, c);
    forall other | other != id ensures CellOf(w', other) == CellOf(w, other) {
      assert CellIn(out.st, NO_TRACE, other) == CellIn(w.st, NO_TRACE, other);
    }
    if id !in w.traces {
      assert id < 0;
    }
  }

  /** Once the effect of a call is sound, only the operation itself is left to look at. */
  lemma CallLeavesInv(w: World, o: nat, c: Choice)
    requires Inv(w) && o in w.ops && !OpensUpload(w.ops[o]) && Subject(w.ops[o]) < w.nextFile
    requires Stepped(w, Call(w, o, c), o, Subject(w.ops[o]))
    requires var next := Exec(w.st, w.ops[o], c).next; next.Go? ==> Running(Call(w, o, c), o, next.op)
    ensures Inv(Call(w, o, c))
  {
    StepKeepsInv(w, Call(w, o, c), o, Subject(w.ops[o]));
  }

  // ---- the calls of one service on one file ----

  lemma CompleteKeepsInv(w: World, o: nat, c: Choice)
    requires Inv(w) && o in w.ops && w.ops[o].Complete?
    ensures Inv(Call(w, o, c)) && Stepped(w, Call(w, o, c), o, Touched(w, o))
  {
    var op := w.ops[o];
    assert Running(w, o, op);
    CompleteCallIsSound(w.st, TraceOf(w, op.id), op.id, o, op.complete);
    CallTouchesSubject(w, o, c);
    StepKeepsInv(w, Call(w, o, c), o, op.id);
  }

  lemma AbortKeepsInv(w: World, o: nat, c: Choice)
    requires Inv(w) && o in w.ops && w.ops[o].Abort?
    ensures Inv(Call(w, o, c)) && Stepped(w, Call(w, o, c), o, Touched(w, o))
  {
    var op := w.ops[o];
    assert Running(w, o, op);
    AbortCallIsSound(w.st, TraceOf(w, op.id), op.id, o, op.abort);
    CallTouchesSubject(w, o, c);
    StepKeepsInv(w, Call(w, o, c), o, op.id);
  }

  lemma ValidateKeepsInv(w: World, o: nat, c: Choice)
    requires Inv(w) && o in w.ops && w.ops[o].Validate?
    ensures Inv(Call(w, o, c)) && Stepped(w, Call(w, o, c), o, Touched(w, o))
  {
    var op := w.ops[o];
    assert Running(w, o, op);
    ValidateCallIsSound(w.st, TraceOf(w, op.id), op.id, o, op.validate, c);
    CallTouchesSubject(w, o, c);
    StepKeepsInv(w, Call(w, o, c), o, op.id);
  }

  lemma CreateRowKeepsInv(w: World, o: nat, c: Choice)
    requires Inv(w) && o in w.ops && w.ops[o].Initiate? && !OpensUpload(w.ops[o])
    ensures Inv(Call(w, o, c)) && Stepped(w, Call(w, o, c), o, Touched(w, o))
  {
    var op := w.ops[o];
    assert Running(w, o, op);
    CreateRowIsSound(w.st, TraceOf(w, op.id), op.id, o, op.initiate.draft, c.newId);
    CallTouchesSubject(w, o, c);
    StepKeepsInv(w, Call(w, o, c), o, op.id);
  }

  lemma OpenIsSound(w: World, o: nat, c: Choice)
    requires Inv(w) && o in w.ops && OpensUpload(w.ops[o]) && c.newId == w.nextFile
    ensures Stepped(w, Call(w, o, c), o, w.nextFile)
    ensures var next := Exec(w.st, w.ops[o], c).next; next.Go? ==> Running(Call(w, o, c), o, next.op)
  {
    var op, w', id := w.ops[o], Call(w, o, c), w.nextFile;
    assert Running(w, o, op);
    assert CellOf(w, id) == EMPTY_CELL && FileInv(CellOf(w, id), id, w.st.now);
    if Admit(op.initiate.request).Ok? {
      AdmittedDraftIsSound(op.initiate.request, id, w.st.now);
      assert CellOf(w', id) ==
             EMPTY_CELL.(upload := Some(Upload(id, map[])), trace := NO_TRACE.(creator := Some(o)));
    }
  }

  /** `createMultipartUpload` opens an upload under a fresh key. */
  lemma OpenKeepsInv(w: World, o: nat, c: Choice)
    requires Inv(w) && o in w.ops && OpensUpload(w.ops[o]) && c.newId == w.nextFile
    ensures Inv(Call(w, o, c)) && Stepped(w, Call(w, o, c), o, Touched(w, o))
  {
    OpenIsSound(w, o, c);
    StepKeepsInv(w, Call(w, o, c), o, w.nextFile);
  }

  // ---- loops ----

  lemma KnownIsOld(w: World, id: FileId)
    requires id < 0 || CellOf(w, id).trace.created
    requires forall id :: id >= w.nextFile ==> CellOf(w, id) == EMPTY_CELL
    ensures id < w.nextFile || id < 0
  {}

  /** The reaper's next file may be deleted, if it has listed one. */
  lemma ReaperMayGoOn(w: World, o: nat, origin: Origin)
    requires origin.ByReaper? ==> AllKnown(w, origin.rest)
    requires o < w.nextOp && 0 <= w.nextFile && forall id :: id >= w.nextFile ==> CellOf(w, id) == EMPTY_CELL
    ensures var next := AfterDelete(origin); next.Go? ==> Running(w, o, next.op)
  {
    if origin.ByReaper? && origin.rest != [] {
      assert Known(CellOf(w, origin.rest[0]), origin.rest[0]);
      KnownIsOld(w, origin.rest[0]);
    }
  }

  lemma DeleteKeepsInv(w: World, o: nat, c: Choice)
    requires Inv(w) && o in w.ops && w.ops[o].Delete?
    ensures Inv(Call(w, o, c)) && Stepped(w, Call(w, o, c), o, Touched(w, o))
  {
    var op, w' := w.ops[o], Call(w, o, c);
    assert Running(w, o, op);
    DeleteCallIsSound(w.st, TraceOf(w, op.id), op.id, o, op.delete, op.origin, c);
    CallTouchesSubject(w, o, c);
    RestIsStable(w, w', op, o, op.id);
    ReaperMayGoOn(w', o, op.origin);
    CallLeavesInv(w, o, c);
  }

  lemma TombstoneKeepsInv(w: World, o: nat, c: Choice)
    requires Inv(w) && o in w.ops && w.ops[o].PurgeTombstone?
    ensures Inv(Call(w, o, c)) && Stepped(w, Call(w, o, c), o, Touched(w, o))
  {
    var op, w' := w.ops[o], Call(w, o, c);
    assert Running(w, o, op);
    TombstoneCallIsSound(w.st, TraceOf(w, op.id), op.id, o);
    CallTouchesSubject(w, o, c);
    RestIsStable(w, w', op, o, op.id);
    if op.ids != [] { assert Settled(CellOf(w', op.ids[0])); }
    StepKeepsInv(w, Call(w, o, c), o, op.id);
  }

  lemma RequeueKeepsInv(w: World, o: nat, c: Choice)
    requires Inv(w) && o in w.ops && w.ops[o].Requeue?
    ensures Inv(Call(w, o, c)) && Stepped(w, Call(w, o, c), o, Touched(w, o))
  {
    var op, w' := w.ops[o], Call(w, o, c);
    assert Running(w, o, op);
    RequeueCallIsSound(w.st, TraceOf(w, op.id), op.id, o, op.requeue, op.ids);
    CallTouchesSubject(w, o, c);
    RestIsStable(w, w', op, o, op.id);
    if op.ids != [] { assert NotPending(CellOf(w', op.ids[0])); }
    StepKeepsInv(w, Call(w, o, c), o, op.id);
  }

  lemma ExpireMayGoOn(w: World, o: nat, todo: seq<Candidate>, count: nat)
    requires AllDue(w, todo) && o < w.nextOp && 0 <= w.nextFile
    requires forall id :: id >= w.nextFile ==> CellOf(w, id) == EMPTY_CELL
    ensures var next := ExpireLoop(todo, count); next.Go? ==> Running(w, o, next.op)
  {
    if todo != [] {
      assert Expiring(CellOf(w, todo[0].id), todo[0], w.st.now);
      KnownIsOld(w, todo[0].id);
    }
  }

  lemma ExpireKeepsInv(w: World, o: nat, c: Choice)
    requires Inv(w) && o in w.ops && w.ops[o].Expire?
    ensures Inv(Call(w, o, c)) && Stepped(w, Call(w, o, c), o, Touched(w, o))
  {
    var op, w' := w.ops[o], Call(w, o, c);
    assert Running(w, o, op);
    ExpireCallIsSound(w.st, TraceOf(w, op.id), op.id, o, op.expire, op.todo, op.count);
    CallTouchesSubject(w, o, c);
    RestIsStable(w, w', op, o, op.id);
    if op.expire.CountExpired? {
      ExpireMayGoOn(w', o, op.todo, op.count + op.expire.hit);
    }
    CallLeavesInv(w, o, c);
  }

  /** What a listing returns satisfies what its loop needs. */
  lemma ListedIsKnown(w: World, filter: Filter, id: FileId)
    requires Inv(w) && id in w.st.rows && Selected(filter, w.st.rows[id], w.st.now)
    ensures Known(CellOf(w, id), id) && id < w.nextFile
    ensures filter.ForGhosts? ==> Settled(CellOf(w, id))
    ensures filter.ForRequeue? ==> NotPending(CellOf(w, id))
    ensures filter.ForExpiry? ==> Expiring(CellOf(w, id), Candidate(id, w.st.rows[id].storageKey), w.st.now)
  {
    assert FileInv(CellOf(w, id), id, w.st.now);
    assert CellOf(w, id) != EMPTY_CELL;
  }

  lemma ListKeepsInv(w: World, o: nat, c: Choice)
    requires Inv(w) && o in w.ops && w.ops[o].List? && Answers(w.st, w.ops[o], c)
    ensures Inv(Call(w, o, c)) && Stepped(w, Call(w, o, c), o, Touched(w, o))
  {
    var op := w.ops[o];
    forall i | 0 <= i < |c.ids|
      ensures c.ids[i] in w.st.rows && Known(CellOf(w, c.ids[i]), c.ids[i]) && c.ids[i] < w.nextFile
      ensures op.filter.ForGhosts? ==> Settled(CellOf(w, c.ids[i]))
      ensures op.filter.ForRequeue? ==> NotPending(CellOf(w, c.ids[i]))
      ensures op.filter.ForExpiry? ==>
                Expiring(CellOf(w, c.ids[i]), Candidate(c.ids[i], w.st.rows[c.ids[i]].storageKey), w.st.now)
    {
      assert c.ids[i] in c.ids;
      ListedIsKnown(w, op.filter, c.ids[i]);
    }
    ListStartsLoop(w, o, c);
  }

  /** What a loop needs of the files it was given. */
  ghost predicate Listed(w: World, filter: Filter, ids: seq<FileId>) {
    && (forall i :: 0 <= i < |ids| ==>
          ids[i] in w.st.rows && Known(CellOf(w, ids[i]), ids[i]) && ids[i] < w.nextFile)
    && (filter.ForGhosts? ==> AllSettled(w, ids))
    && (filter.ForRequeue? ==> AllNotPending(w, ids))
    && (filter.ForExpiry? ==> AllDue(w, Candidates(w.st, ids)))
  }

  /** The first element of the loop may run, in a world with the same files. */
  lemma FirstMayRun(w: World, w': World, o: nat, filter: Filter, ids: seq<FileId>)
    requires Listed(w, filter, ids) && o < w'.nextOp && w'.nextFile == w.nextFile && w'.st.now == w.st.now
    requires forall id :: CellOf(w', id) == CellOf(w, id)
    ensures var next := ExecList(w.st, filter, ids).next; next.Go? ==> Running(w', o, next.op)
  {
    if ids != [] && filter.ForExpiry? {
      assert Candidates(w.st, ids)[0].id == ids[0];
    }
  }

  lemma ListStartsLoop(w: World, o: nat, c: Choice)
    requires Inv(w) && o in w.ops && w.ops[o].List? && Listed(w, w.ops[o].filter, c.ids)
    ensures Inv(Call(w, o, c)) && Stepped(w, Call(w, o, c), o, Touched(w, o))
  {
    var op, w' := w.ops[o], Call(w, o, c);
    assert FileInv(CellOf(w, -1), -1, w.st.now);
    assert forall id :: CellOf(w', id) == CellOf(w, id);
    assert Running(w, o, op);
    FirstMayRun(w, w', o, op.filter, c.ids);
    StepKeepsInv(w, w', o, -1);
  }

  // ---- the other events ----

  lemma JobEventKeepsInv(w: World, w': World, o: nat, id: FileId)
    requires Inv(w) && Employed(CellOf(w, id), o)
    requires w' == w.(st := w.st.(jobs := w'.st.jobs), ops := w'.ops, died := w'.died)
    requires forall other :: other != id ==> Get(w'.st.jobs, other) == Get(w.st.jobs, other)
    requires w'.ops == w.ops - {o}
    ensures Inv(w')
  {
    assert FileInv(CellOf(w, id), id, w.st.now);
    JobChangeIsSound(w.st, w'.st, TraceOf(w, id), id, o);
    StepKeepsInv(w, w', o, id);
  }

  lemma DieKeepsInv(w: World, o: nat, stalled: bool)
    requires Inv(w) && o in w.ops
    ensures Inv(Apply(w, Die(o, stalled)))
  {
    var op, w' := w.ops[o], Apply(w, Die(o, stalled));
    assert Running(w, o, op);
    if op.Validate? {
      JobEventKeepsInv(w, w', o, op.id);
    } else {
      assert FileInv(CellOf(w, -1), -1, w.st.now);
      StepKeepsInv(w, w', o, -1);
    }
  }

  lemma CallKeepsInv(w: World, o: nat, c: Choice)
    requires Inv(w) && Enabled(w, Advance(o, c))
    ensures Inv(Call(w, o, c)) && Stepped(w, Call(w, o, c), o, Touched(w, o))
  {
    match w.ops[o]
    case Initiate(_, call) =>
      if call.CreateMultipart? {
        OpenKeepsInv(w, o, c);
      } else {
        CreateRowKeepsInv(w, o, c);
      }
    case Complete(_, _) => CompleteKeepsInv(w, o, c);
    case Abort(_, _) => AbortKeepsInv(w, o, c);
    case Delete(_, _, _) => DeleteKeepsInv(w, o, c);
    case PurgeTombstone(_, _) => TombstoneKeepsInv(w, o, c);
    case Validate(_, _) => ValidateKeepsInv(w, o, c);
    case Requeue(_, _, _) => RequeueKeepsInv(w, o, c);
    case Expire(_, _, _, _) => ExpireKeepsInv(w, o, c);
    case List(_) => ListKeepsInv(w, o, c);
  }

  lemma AdvanceKeepsInv(w: World, o: nat, c: Choice)
    requires Inv(w) && Enabled(w, Advance(o, c))
    ensures Inv(Step(w, o, c))
  {
    CallKeepsInv(w, o, c);
    var op := w.ops[o];
    if op.Validate? && !Exec(w.st, op, c).next.Go? {
      assert Running(w, o, op);
      ValidateCallIsSound(w.st, TraceOf(w, op.id), op.id, o, op.validate, c);
      CallTouchesSubject(w, o, c);
      JobEventKeepsInv(Call(w, o, c), Step(w, o, c), o, op.id);
    }
  }

  /** A client PUT adds a part to an upload whose row was created. */
  lemma PutKeepsInv(w: World, id: FileId, part: nat, body: Bytes)
    requires Inv(w) && Enabled(w, Put(id, part, body))
    ensures Inv(Apply(w, Put(id, part, body)))
  {
    assert FileInv(CellOf(w, id), id, w.st.now);
    var w' := Apply(w, Put(id, part, body));
    forall o | o in w.ops ensures o != w.nextOp { assert Running(w, o, w.ops[o]); }
    StepKeepsInv(w, w', w.nextOp, id);
  }

  lemma TakeJobKeepsInv(w: World, id: FileId)
    requires Inv(w) && Enabled(w, TakeJob(id))
    ensures Inv(Apply(w, TakeJob(id)))
  {
    assert FileInv(CellOf(w, id), id, w.st.now);
    var w' := Apply(w, TakeJob(id));
    assert CellOf(w', id) == CellOf(w, id).(job := Some(Active(w.st.jobs[id].failures, w.nextOp)));
    StepKeepsInv(w, w', w.nextOp, id);
  }

  lemma RequestKeepsInv(w: World, op: Op)
    requires Inv(w) && Enabled(w, Request(op))
    ensures Inv(Apply(w, Request(op)))
  {
    assert FileInv(CellOf(w, Subject(op)), Subject(op), w.st.now);
    assert FileInv(CellOf(w, -1), -1, w.st.now);
    StepKeepsInv(w, Spawn(w, op), w.nextOp, -1);
  }

  lemma TickKeepsInv(w: World, elapsed: nat)
    requires Inv(w)
    ensures Inv(Apply(w, Tick(elapsed)))
  {
    var w' := Apply(w, Tick(elapsed));
    assert FileInv(CellOf(w, -1), -1, w.st.now);
    forall o | o in w.ops ensures o != w.nextOp { assert Running(w, o, w.ops[o]); }
    StepKeepsInv(w, w', w.nextOp, -1);
  }

  lemma EventKeepsInv(w: World, e: Event)
    requires Inv(w)
    ensures Inv(Apply(w, e))
  {
    if Enabled(w, e) {
      match e
      case Tick(elapsed) => TickKeepsInv(w, elapsed);
      case Put(id, part, body) => PutKeepsInv(w, id, part, body);
      case Request(op) => RequestKeepsInv(w, op);
      case TakeJob(id) => TakeJobKeepsInv(w, id);
      case Advance(o, c) => AdvanceKeepsInv(w, o, c);
      case Die(o, stalled) => DieKeepsInv(w, o, stalled);
    }
  }

  /** Whatever the interleaving of requests, jobs, tasks, PUTs, crashes and ticks. */
  lemma {:induction false} RunKeepsInv(events: seq<Event>)
    ensures Inv(Run(events))
    decreases |events|
  {
    if events != [] {
      RunKeepsInv(events[..|events| - 1]);
      EventKeepsInv(Run(events[..|events| - 1]), events[|events| - 1]);
    }
  }

  lemma {:induction false} AfterKeepsInv(w: World, events: seq<Event>)
    requires Inv(w)
    ensures Inv(After(w, events))
    decreases |events|
  {
    if events != [] {
      AfterKeepsInv(w, events[..|events| - 1]);
      EventKeepsInv(After(w, events[..|events| - 1]), events[|events| - 1]);
    }
  }
}
