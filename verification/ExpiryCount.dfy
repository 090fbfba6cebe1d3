/** Conservation of the purge counters: every move of a row from ready to expired is counted once, by one run. */
module ExpiryCount {
  import opened Base
  import opened FileRows
  import opened Stores
  import opened Protocol
  import opened History
  import opened World
  import opened FileInvariant
  import opened WorldInvariant
  import opened Preservation
  import opened Safety

  /** The files that run `o` moved from ready to expired. */
  function ExpiredBy(w: World, o: nat): set<FileId> {
    set id | id in w.traces && w.traces[id].expiredBy == Some(o)
  }

  /** The run is in flight, or it returned, or it died. */
  predicate OnRecord(w: World, run: nat) {
    run < w.nextOp && ((run in w.ops && ExpiryRun(w.ops[run])) || run in w.returned || run in w.died)
  }

  ghost predicate Attributed(w: World) {
    forall id :: id in w.traces && w.traces[id].expiredBy.Some? ==> OnRecord(w, w.traces[id].expiredBy.value)
  }

  ghost predicate CountsAgree(w: World) {
    && Attributed(w)
    && (forall o :: o in w.ops && ExpiryRun(w.ops[o]) ==> Tally(w.ops[o]) == |ExpiredBy(w, o)|)
    && (forall o :: o in w.returned ==> o < w.nextOp && o !in w.ops && w.returned[o] == |ExpiredBy(w, o)|)
    && (forall o :: o in w.died ==> o < w.nextOp && o !in w.ops && w.died[o] == |ExpiredBy(w, o)|)
  }

  /** Operation `o` is about to perform a guarded write that finds its row ready. */
  predicate Hits(w: World, o: nat) {
    && o in w.ops && w.ops[o].Expire? && w.ops[o].expire.MarkExpired?
    && w.ops[o].id in w.st.rows && w.st.rows[w.ops[o].id].state.Ready?
  }

  /** Among all calls of all services, only that guarded write turns a ready row into an expired one. */
  lemma OnlyMarkExpires(s: Stores, op: Op, c: Choice, id: FileId)
    requires op.Initiate? && op.initiate.CreateRow? ==> op.initiate.draft.state.Pending?
    requires id in s.rows && s.rows[id].state.Ready?
    requires id in Exec(s, op, c).st.rows && Exec(s, op, c).st.rows[id].state.Expired?
    ensures op.Expire? && op.expire.MarkExpired? && op.id == id
  {}

  lemma OnlyHitsExpire(w: World, o: nat, c: Choice, id: FileId)
    requires Inv(w) && Enabled(w, Advance(o, c))
    ensures TraceOf(Call(w, o, c), id).expiredBy ==
            if Hits(w, o) && id == w.ops[o].id then Some(o) else TraceOf(w, id).expiredBy
  {
    var w', op := Call(w, o, c), w.ops[o];
    assert Running(w, o, op);
    CallKeepsInv(w, o, c);
    if id != Touched(w, o) {
      assert CellOf(w', id) == CellOf(w, id);
      assert Hits(w, o) ==> Touched(w, o) == op.id;
    } else if OpensUpload(op) {
      assert CellOf(w, id) == EMPTY_CELL;
    } else {
      HitIsObserved(w, o, c);
    }
  }

  lemma HitIsObserved(w: World, o: nat, c: Choice)
    requires Inv(w) && o in w.ops && !OpensUpload(w.ops[o]) && Running(w, o, w.ops[o])
    ensures var id := Subject(w.ops[o]);
            TraceOf(Call(w, o, c), id).expiredBy == if Hits(w, o) then Some(o) else TraceOf(w, id).expiredBy
  {
    var id, op := Subject(w.ops[o]), w.ops[o];
    assert FileInv(CellOf(w, id), id, w.st.now);
    if Get(w.st.rows, id).Some? && w.st.rows[id].state.Ready?
       && Get(Exec(w.st, op, c).st.rows, id).Some? && Exec(w.st, op, c).st.rows[id].state.Expired? {
      OnlyMarkExpires(w.st, op, c, id);
    }
  }

  lemma CallMovesFiles(w: World, o: nat, c: Choice, run: nat)
    requires Inv(w) && Enabled(w, Advance(o, c))
    ensures ExpiredBy(Call(w, o, c), run) ==
            ExpiredBy(w, run) + if Hits(w, o) && run == o then {w.ops[o].id} else {}
  {
    forall id ensures id in ExpiredBy(Call(w, o, c), run) <==>
                      id in ExpiredBy(w, run) || (Hits(w, o) && run == o && id == w.ops[o].id)
    {
      OnlyHitsExpire(w, o, c, id);
      TracesOfAll(w, id);
      TracesOfAll(Call(w, o, c), id);
    }
  }

  lemma CallMovesCount(w: World, o: nat, c: Choice, run: nat)
    requires Inv(w) && Enabled(w, Advance(o, c))
    ensures |ExpiredBy(Call(w, o, c), run)| == |ExpiredBy(w, run)| + if Hits(w, o) && run == o then 1 else 0
  {
    CallMovesFiles(w, o, c, run);
    if Hits(w, o) && run == o {
      assert FileInv(CellOf(w, w.ops[o].id), w.ops[o].id, w.st.now);
      assert w.ops[o].id !in ExpiredBy(w, o);
    }
  }

  lemma TracesOfAll(w: World, id: FileId)
    ensures forall o: nat :: id in ExpiredBy(w, o) <==> TraceOf(w, id).expiredBy == Some(o)
  {}

  lemma CallKeepsAttribution(w: World, o: nat, c: Choice)
    requires Inv(w) && Attributed(w) && Enabled(w, Advance(o, c))
    ensures Attributed(Call(w, o, c))
  {
    assert Running(w, o, w.ops[o]);
    var w' := Call(w, o, c);
    CallMovesTally(w, o, c);
    forall id | id in w'.traces && w'.traces[id].expiredBy.Some?
      ensures OnRecord(w', w'.traces[id].expiredBy.value)
    {
      OnlyHitsExpire(w, o, c, id);
      assert TraceOf(w', id) == w'.traces[id];
      if TraceOf(w, id).expiredBy == TraceOf(w', id).expiredBy {
        assert OnRecord(w, w'.traces[id].expiredBy.value);
      }
    }
  }

  /** Operation `o` went on, returned or died, and the record was kept; `hits` are the files it just moved. */
  ghost predicate Recorded(w: World, w': World, o: nat, next: Next, hits: nat) {
    && o in w.ops && o < w.nextOp && w'.nextOp == w.nextOp
    && w'.ops == (if next.Go? then w.ops[o := next.op] else w.ops - {o})
    && w'.returned == (if ExpiryRun(w.ops[o]) && next.Done? then w.returned[o := Tally(w.ops[o])] else w.returned)
    && w'.died == (if ExpiryRun(w.ops[o]) && next.Fail? then w.died[o := Tally(w.ops[o])] else w.died)
    && (next.Go? ==> ExpiryRun(next.op) == ExpiryRun(w.ops[o]))
    && (next.Go? && ExpiryRun(next.op) ==> Tally(next.op) == Tally(w.ops[o]) + hits)
    && (hits > 0 ==> next.Go?)
  }

  lemma RecordKeepsCounts(w: World, w': World, o: nat, next: Next, hits: nat)
    requires CountsAgree(w) && Attributed(w') && Recorded(w, w', o, next, hits)
    requires forall run: nat :: |ExpiredBy(w', run)| == |ExpiredBy(w, run)| + if run == o then hits else 0
    ensures CountsAgree(w')
  {}

  lemma CallKeepsCounts(w: World, o: nat, c: Choice)
    requires Inv(w) && CountsAgree(w) && Enabled(w, Advance(o, c))
    ensures CountsAgree(Call(w, o, c))
  {
    var w', hits := Call(w, o, c), if Hits(w, o) then 1 else 0;
    assert o < w.nextOp by { assert Running(w, o, w.ops[o]); }
    CallKeepsAttribution(w, o, c);
    forall run: nat ensures |ExpiredBy(w', run)| == |ExpiredBy(w, run)| + if run == o then hits else 0 {
      CallMovesCount(w, o, c, run);
    }
    CallMovesTally(w, o, c);
    RecordKeepsCounts(w, w', o, Exec(w.st, w.ops[o], c).next, hits);
  }

  /** The counter of a run moves with its hits, across the await between the write and the addition. */
  lemma CallMovesTally(w: World, o: nat, c: Choice)
    requires Enabled(w, Advance(o, c))
    ensures var out := Exec(w.st, w.ops[o], c);
            && (out.next.Go? ==> ExpiryRun(out.next.op) == ExpiryRun(w.ops[o]))
            && (out.next.Go? && ExpiryRun(w.ops[o]) ==>
                  Tally(out.next.op) == Tally(w.ops[o]) + if Hits(w, o) then 1 else 0)
            && (Hits(w, o) ==> out.next.Go?)
  {}

  lemma DeathKeepsCounts(w: World, o: nat, stalled: bool)
    requires Inv(w) && CountsAgree(w) && o in w.ops
    ensures CountsAgree(Apply(w, Die(o, stalled)))
  {
    var w' := Apply(w, Die(o, stalled));
    assert o < w.nextOp by { assert Running(w, o, w.ops[o]); }
    SameTraces(w, w');
    DeathIsRecorded(w, w', o);
    RecordKeepsCounts(w, w', o, Fail, 0);
  }

  lemma DeathIsRecorded(w: World, w': World, o: nat)
    requires Attributed(w) && o in w.ops && o < w.nextOp && w'.traces == w.traces && w'.nextOp == w.nextOp
    requires w'.ops == w.ops - {o} && w'.returned == w.returned
    requires w'.died == if ExpiryRun(w.ops[o]) then w.died[o := Tally(w.ops[o])] else w.died
    ensures Recorded(w, w', o, Fail, 0) && Attributed(w')
  {
    forall id | id in w'.traces && w'.traces[id].expiredBy.Some?
      ensures OnRecord(w', w'.traces[id].expiredBy.value)
    {
      assert OnRecord(w, w.traces[id].expiredBy.value);
    }
  }

  /** At most one operation began, and it has counted nothing. */
  ghost predicate OneMayBegin(w: World, w': World) {
    && w'.traces == w.traces && w'.returned == w.returned && w'.died == w.died
    && w.nextOp <= w'.nextOp
    && (w'.ops == w.ops
        || (w'.nextOp == w.nextOp + 1 && w.nextOp in w'.ops && w'.ops == w.ops[w.nextOp := w'.ops[w.nextOp]]
            && Tally(w'.ops[w.nextOp]) == 0))
  }

  lemma BeginningKeepsCounts(w: World, w': World)
    requires CountsAgree(w) && w.nextOp !in w.ops && OneMayBegin(w, w')
    ensures CountsAgree(w')
  {
    SameTraces(w, w');
    NewRunHasNone(w);
    forall id | id in w'.traces && w'.traces[id].expiredBy.Some?
      ensures OnRecord(w', w'.traces[id].expiredBy.value)
    {
      assert OnRecord(w, w.traces[id].expiredBy.value);
    }
  }

  lemma OthersKeepCounts(w: World, e: Event)
    requires Inv(w) && CountsAgree(w) && !e.Advance? && !e.Die?
    ensures CountsAgree(Apply(w, e))
  {
    OneBeginsAtMost(w, e);
    BeginningKeepsCounts(w, Apply(w, e));
  }

  lemma OneBeginsAtMost(w: World, e: Event)
    requires Inv(w) && !e.Advance? && !e.Die?
    ensures w.nextOp !in w.ops && OneMayBegin(w, Apply(w, e))
  {
    forall o | o in w.ops ensures o < w.nextOp {
      assert Running(w, o, w.ops[o]);
    }
  }

  lemma EventKeepsCounts(w: World, e: Event)
    requires Inv(w) && CountsAgree(w)
    ensures CountsAgree(Apply(w, e))
  {
    if e.Advance? {
      if Enabled(w, e) {
        CallKeepsCounts(w, e.o, e.choice);
        SameTraces(Call(w, e.o, e.choice), Apply(w, e));
      }
    } else if e.Die? {
      if Enabled(w, e) {
        DeathKeepsCounts(w, e.o, e.stalled);
      }
    } else {
      OthersKeepCounts(w, e);
    }
  }

  lemma SameTraces(w: World, w': World)
    requires w'.traces == w.traces
    ensures forall o: nat :: ExpiredBy(w', o) == ExpiredBy(w, o)
  {}

  lemma NewRunHasNone(w: World)
    requires Attributed(w)
    ensures ExpiredBy(w, w.nextOp) == {}
  {
    forall id ensures id !in ExpiredBy(w, w.nextOp) {}
  }

  lemma {:induction false} RunKeepsCounts(events: seq<Event>)
    ensures CountsAgree(Run(events))
    decreases |events|
  {
    if events != [] {
      var init := events[..|events| - 1];
      RunKeepsCounts(init);
      RunKeepsInv(init);
      EventKeepsCounts(Run(init), events[|events| - 1]);
    }
  }

  // ---- the statements ----

  /** A finished run of expireReadyFiles returned the number of files it moved, whatever ran beside it. */
  lemma ReturnedCountIsExact(events: seq<Event>, run: nat)
    requires run in Run(events).returned
    ensures Run(events).returned[run] == |ExpiredBy(Run(events), run)|
  {
    RunKeepsCounts(events);
  }

  /** A move from ready to expired is made by one guarded write of one run, on a file nobody expired before, and
      the run it is attributed to never changes: summing over runs counts each move once. */
  lemma EachMoveCountsOnce(events: seq<Event>, e: Event, more: seq<Event>, id: FileId)
    requires id in Run(events).st.rows && Run(events).st.rows[id].state.Ready?
    requires id in Run(events + [e]).st.rows && Run(events + [e]).st.rows[id].state.Expired?
    ensures e.Advance? && Hits(Run(events), e.o)
    ensures TraceOf(Run(events), id).expiredBy == None
    ensures TraceOf(Run(events + [e] + more), id).expiredBy == Some(e.o)
  {
    var w := Run(events);
    RunKeepsInv(events);
    AfterSplits(START, events, [e]);
    assert [e][..0] == [];
    assert Run(events + [e]) == Apply(w, e);
    assert FileInv(CellOf(w, id), id, w.st.now);
    MoveIsAHit(w, e, id);
    AfterSplits(START, events + [e], more);
    EventKeepsInv(w, e);
    RunGrows(Apply(w, e), more, id);
  }

  lemma MoveIsAHit(w: World, e: Event, id: FileId)
    requires Inv(w)
    requires id in w.st.rows && w.st.rows[id].state.Ready?
    requires id in Apply(w, e).st.rows && Apply(w, e).st.rows[id].state.Expired?
    ensures e.Advance? && Hits(w, e.o) && TraceOf(Apply(w, e), id).expiredBy == Some(e.o)
    ensures TraceOf(Apply(w, e), id).created
  {
    assert e.Advance? && Enabled(w, e);
    assert Running(w, e.o, w.ops[e.o]);
    OnlyMarkExpires(w.st, w.ops[e.o], e.choice, id);
    OnlyHitsExpire(w, e.o, e.choice, id);
    EventGrows(w, e, id);
    assert FileInv(CellOf(w, id), id, w.st.now);
  }

  // ---- the sum ----

  /** The count of a run: so far, as it returned it, or as it stood when the run died. */
  function LastTally(w: World, run: nat): nat {
    if run in w.ops && ExpiryRun(w.ops[run]) then Tally(w.ops[run])
    else if run in w.returned then w.returned[run]
    else if run in w.died then w.died[run]
    else 0
  }

  /** The counts of the first `n` operations, those that are no expiry runs counting nothing. */
  function SumOfTallies(w: World, n: nat): nat {
    if n == 0 then 0 else SumOfTallies(w, n - 1) + LastTally(w, n - 1)
  }

  function ExpiredBefore(w: World, n: nat): set<FileId> {
    set id | id in w.traces && w.traces[id].expiredBy.Some? && w.traces[id].expiredBy.value < n
  }

  lemma TallyIsItsFiles(w: World, run: nat)
    requires CountsAgree(w)
    ensures LastTally(w, run) == |ExpiredBy(w, run)|
  {
    if !OnRecord(w, run) {
      forall id ensures id !in ExpiredBy(w, run) {}
      assert ExpiredBy(w, run) == {};
    }
  }

  lemma NobodyBeforeTheFirst(w: World)
    ensures ExpiredBefore(w, 0) == {}
  {
    forall id ensures id !in ExpiredBefore(w, 0) {
      if id in w.traces && w.traces[id].expiredBy.Some? {
        var run: nat := w.traces[id].expiredBy.value;
      }
    }
  }

  lemma OneMoreRun(w: World, n: nat)
    ensures |ExpiredBefore(w, n + 1)| == |ExpiredBefore(w, n)| + |ExpiredBy(w, n)|
  {
    assert ExpiredBefore(w, n + 1) == ExpiredBefore(w, n) + ExpiredBy(w, n);
    assert ExpiredBefore(w, n) !! ExpiredBy(w, n);
  }

  lemma {:induction false} SumCountsFiles(w: World, n: nat)
    requires CountsAgree(w)
    ensures SumOfTallies(w, n) == |ExpiredBefore(w, n)|
  {
    if n == 0 {
      NobodyBeforeTheFirst(w);
    } else {
      SumCountsFiles(w, n - 1);
      TallyIsItsFiles(w, n - 1);
      OneMoreRun(w, n - 1);
    }
  }

  /** Event `k` of the run moved the file from ready to expired. */
  ghost predicate MovedAt(events: seq<Event>, k: nat, id: FileId) {
    && k < |events|
    && id in Run(events[..k]).st.rows && Run(events[..k]).st.rows[id].state.Ready?
    && id in Run(events[..k + 1]).st.rows && Run(events[..k + 1]).st.rows[id].state.Expired?
  }

  ghost predicate EverMoved(events: seq<Event>, id: FileId) {
    exists k: nat :: MovedAt(events, k, id)
  }

  lemma HitMoves(w: World, o: nat, c: Choice, id: FileId)
    requires Inv(w) && Enabled(w, Advance(o, c))
    ensures var w' := Apply(w, Advance(o, c));
            && TraceOf(w', id).expiredBy ==
               (if Hits(w, o) && id == w.ops[o].id then Some(o) else TraceOf(w, id).expiredBy)
            && (Hits(w, o) && id == w.ops[o].id ==>
                  && id in w.st.rows && w.st.rows[id].state.Ready?
                  && id in w'.st.rows && w'.st.rows[id].state.Expired?)
  {
    var w' := Apply(w, Advance(o, c));
    OnlyHitsExpire(w, o, c, id);
    assert TraceOf(w', id) == TraceOf(Call(w, o, c), id);
    assert w'.st.rows == Exec(w.st, w.ops[o], c).st.rows;
  }

  /** An attribution is new exactly when the event moves the file. */
  lemma AttributionIsAMove(w: World, e: Event, id: FileId)
    requires Inv(w)
    ensures TraceOf(Apply(w, e), id).expiredBy.Some? <==>
            || TraceOf(w, id).expiredBy.Some?
            || (&& id in w.st.rows && w.st.rows[id].state.Ready?
                && id in Apply(w, e).st.rows && Apply(w, e).st.rows[id].state.Expired?)
  {
    if id in w.st.rows && w.st.rows[id].state.Ready?
       && id in Apply(w, e).st.rows && Apply(w, e).st.rows[id].state.Expired? {
      MoveIsAHit(w, e, id);
    } else if Enabled(w, e) && e.Advance? {
      HitMoves(w, e.o, e.choice, id);
    } else {
      assert Apply(w, e).traces == w.traces;
    }
  }

  lemma {:induction false} AttributedMeansMoved(events: seq<Event>, id: FileId)
    ensures TraceOf(Run(events), id).expiredBy.Some? <==> EverMoved(events, id)
    decreases |events|
  {
    if events != [] {
      var last := |events| - 1;
      var init := events[..last];
      AttributedMeansMoved(init, id);
      RunKeepsInv(init);
      AttributionIsAMove(Run(init), events[last], id);
      assert events[..last + 1] == events;
      forall k: nat | k < last ensures MovedAt(events, k, id) <==> MovedAt(init, k, id) {
        assert events[..k] == init[..k] && events[..k + 1] == init[..k + 1];
      }
      if EverMoved(init, id) {
        var k: nat :| MovedAt(init, k, id);
        assert MovedAt(events, k, id);
      }
      if EverMoved(events, id) {
        var k: nat :| MovedAt(events, k, id);
        assert k == last || MovedAt(init, k, id);
      }
      assert MovedAt(events, last, id) <==>
             id in Run(init).st.rows && Run(init).st.rows[id].state.Ready?
             && id in Run(events).st.rows && Run(events).st.rows[id].state.Expired?;
    }
  }

  /** Over any number of concurrent runs of expireReadyFiles, returned, in flight or dead, each move of a file from
      ready to expired contributes exactly one: the sets of the runs are disjoint, together they are the files that
      ever moved, and the counts of all runs add up to their number. */
  lemma EachMoveAddsOneToTheSum(events: seq<Event>)
    ensures var w := Run(events);
            && (forall a: nat, b: nat :: a != b ==> ExpiredBy(w, a) !! ExpiredBy(w, b))
            && (forall id :: id in ExpiredBefore(w, w.nextOp) <==> EverMoved(events, id))
            && (forall run: nat :: run < w.nextOp ==> LastTally(w, run) == |ExpiredBy(w, run)|)
            && SumOfTallies(w, w.nextOp) == |ExpiredBefore(w, w.nextOp)|
  {
    var w := Run(events);
    RunKeepsCounts(events);
    SumCountsFiles(w, w.nextOp);
    forall run: nat ensures LastTally(w, run) == |ExpiredBy(w, run)| {
      TallyIsItsFiles(w, run);
    }
    forall id ensures id in ExpiredBefore(w, w.nextOp) <==> EverMoved(events, id) {
      AttributedMeansMoved(events, id);
    }
  }
}
