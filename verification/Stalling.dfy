/** Scanning that ends without a verdict: after three lost attempts a job keeps its id, and the file never becomes
    ready. */
module Stalling {
  import opened Base
  import opened FileRows
  import opened Stores
  import opened Protocol
  import opened History
  import opened World
  import opened FileInvariant
  import opened WorldInvariant
  import opened Preservation
  import opened Safety
  import opened Runs

  ghost predicate JobFailed(w: World, id: FileId) {
    id in w.st.jobs && w.st.jobs[id].Failed?
  }

  ghost predicate NotReady(w: World, id: FileId) {
    id in w.st.rows ==> !w.st.rows[id].state.Ready?
  }

  ghost predicate NobodyValidates(w: World, id: FileId) {
    forall o :: o in w.ops && w.ops[o].Validate? ==> w.ops[o].id != id
  }

  /** A worker validates a file only with its job, which a failed one is no longer. */
  lemma FailedMeansNobodyValidates(w: World, id: FileId)
    requires Inv(w) && JobFailed(w, id)
    ensures NobodyValidates(w, id)
  {
    forall o | o in w.ops && w.ops[o].Validate? ensures w.ops[o].id != id {
      assert Running(w, o, w.ops[o]);
    }
  }

  /** No call of any service changes a job that is there. */
  lemma CallsKeepJobs(s: Stores, op: Op, c: Choice, id: FileId)
    requires id in s.jobs
    ensures var st := Exec(s, op, c).st; id in st.jobs && st.jobs[id] == s.jobs[id]
  {
    if op.Complete? {
      assert Exec(s, op, c).st.jobs == s.jobs || Exec(s, op, c).st == Enqueue(s, op.id);
    } else if op.Requeue? {
      assert Exec(s, op, c).st.jobs == s.jobs || Exec(s, op, c).st == Enqueue(s, op.id);
    } else {
      assert Exec(s, op, c).st.jobs == s.jobs;
    }
  }

  lemma CallsKeepFailed(s: Stores, op: Op, c: Choice, id: FileId)
    requires id in s.jobs && s.jobs[id].Failed? && !(op.Validate? && op.id == id)
    ensures var st := SettleJob(Exec(s, op, c).st, op, Exec(s, op, c).next); id in st.jobs && st.jobs[id].Failed?
  {
    CallsKeepJobs(s, op, c, id);
  }

  // ---- three attempts ----

  /** A job that is not failed has lost at most two attempts. */
  predicate HasAttemptsLeft(job: Job) {
    !job.Failed? ==> job.failures <= 2
  }

  /** A job a call adds is a new one. */
  lemma CallsAddFreshJobs(s: Stores, op: Op, c: Choice, id: FileId)
    requires id !in s.jobs
    ensures var st := Exec(s, op, c).st; id in st.jobs ==> st.jobs[id] == Waiting(0)
  {
    if op.Complete? || op.Requeue? {
      assert Exec(s, op, c).st.jobs == s.jobs || Exec(s, op, c).st == Enqueue(s, op.id);
    } else {
      assert Exec(s, op, c).st.jobs == s.jobs;
    }
  }

  lemma EventKeepsAttempts(w: World, e: Event, id: FileId)
    requires id in w.st.jobs ==> HasAttemptsLeft(w.st.jobs[id])
    ensures id in Apply(w, e).st.jobs ==> HasAttemptsLeft(Apply(w, e).st.jobs[id])
  {
    if Enabled(w, e) && e.Advance? {
      if id in w.st.jobs {
        CallsKeepJobs(w.st, w.ops[e.o], e.choice, id);
      } else {
        CallsAddFreshJobs(w.st, w.ops[e.o], e.choice, id);
      }
    }
  }

  /** In every run a job is handed to a worker only while at most two attempts are lost; when the third is lost, by a
      throw or a crash, it is failed, and a stalled hand-over costs none. */
  lemma {:induction false} JobsHaveThreeAttempts(events: seq<Event>, id: FileId)
    requires id in Run(events).st.jobs
    ensures HasAttemptsLeft(Run(events).st.jobs[id])
    ensures var s, job := Run(events).st, Run(events).st.jobs[id];
            job.Active? ==>
              && LoseAttempt(s, id).jobs[id] == (if job.failures == 2 then Failed else Waiting(job.failures + 1))
              && Redeliver(s, id).jobs[id] == Waiting(job.failures)
    decreases |events|
  {
    if events != [] {
      var init := events[..|events| - 1];
      if id in Run(init).st.jobs {
        JobsHaveThreeAttempts(init, id);
      }
      EventKeepsAttempts(Run(init), events[|events| - 1], id);
    }
  }

  lemma OthersMakeNothingReady(s: Stores, op: Op, c: Choice, id: FileId)
    requires !op.Validate? && !op.Complete? && !op.Initiate?
    requires id in s.rows ==> !s.rows[id].state.Ready?
    ensures var st := Exec(s, op, c).st; id in st.rows ==> !st.rows[id].state.Ready?
  {}

  lemma OnlyValidationMakesReady(s: Stores, op: Op, c: Choice, id: FileId)
    requires !(op.Validate? && op.id == id)
    requires op.Initiate? && op.initiate.CreateRow? ==> op.initiate.draft.state.Pending?
    requires id in s.rows ==> !s.rows[id].state.Ready?
    ensures var st := Exec(s, op, c).st; id in st.rows ==> !st.rows[id].state.Ready?
  {
    if !op.Validate? && !op.Complete? && !op.Initiate? {
      OthersMakeNothingReady(s, op, c, id);
    }
  }

  lemma CallStalls(w: World, o: nat, c: Choice, id: FileId)
    requires Inv(w) && Enabled(w, Advance(o, c)) && JobFailed(w, id) && NotReady(w, id)
    ensures var w' := Step(w, o, c); JobFailed(w', id) && NotReady(w', id)
  {
    FailedMeansNobodyValidates(w, id);
    assert Running(w, o, w.ops[o]);
    CallsKeepFailed(w.st, w.ops[o], c, id);
    OnlyValidationMakesReady(w.st, w.ops[o], c, id);
  }

  /** No event takes the job out of `Failed`, the requeue's included, and none makes the file ready. */
  lemma EventStalls(w: World, e: Event, id: FileId)
    requires Inv(w) && JobFailed(w, id) && NotReady(w, id)
    ensures JobFailed(Apply(w, e), id) && NotReady(Apply(w, e), id)
  {
    if Enabled(w, e) && e.Advance? {
      CallStalls(w, e.o, e.choice, id);
    } else {
      assert Apply(w, e).st.rows == w.st.rows;
      FailedMeansNobodyValidates(w, id);
    }
  }

  lemma {:induction false} RunStalls(w: World, more: seq<Event>, id: FileId)
    requires Inv(w) && JobFailed(w, id) && NotReady(w, id)
    ensures JobFailed(After(w, more), id) && NotReady(After(w, more), id)
    decreases |more|
  {
    if more != [] {
      var init := more[..|more| - 1];
      RunStalls(w, init, id);
      AfterKeepsInv(w, init);
      EventStalls(After(w, init), more[|more| - 1], id);
    }
  }

  /** Once the job of a file that is not ready has failed, whatever happens next, requeues and second completions
      included, the job stays failed, nobody validates the file and it never becomes ready. */
  lemma FailedJobsStallForGood(events: seq<Event>, more: seq<Event>, id: FileId)
    requires JobFailed(Run(events), id) && NotReady(Run(events), id)
    ensures var w := Run(events + more); JobFailed(w, id) && NotReady(w, id) && NobodyValidates(w, id)
  {
    RunKeepsInv(events);
    AfterSplits(START, events, more);
    RunStalls(Run(events), more, id);
    RunKeepsInv(events + more);
    FailedMeansNobodyValidates(Run(events + more), id);
  }

  // ---- a run that gets there ----

  function Attempted(job: Job): Stores {
    Holding(InState(Uploaded, Some(0), 0), true, Some(job), 0)
  }

  /** A worker takes the job and is lost. */
  lemma LosesAttempt(events: seq<Event>, failures: nat, o: nat) returns (more: seq<Event>)
    requires Stands(Run(events), Attempted(Waiting(failures)), map[], o)
    ensures Stands(Run(more),
                   Attempted(if failures + 1 < JOB_ATTEMPTS then Waiting(failures + 1) else Failed), map[], o + 1)
  {
    var take, die := TakeJob(0), Die(o, false);
    OneEvent(events, take);
    OneEvent(events + [take], die);
    more := events + [take] + [die];
    assert Stands(Run(events + [take]), Attempted(Active(failures, o)), map[o := Validate(0, FindScannable)], o + 1);
    assert map[o := Validate(0, FindScannable)] - {o} == map[];
  }

  /** A concrete run in which an accepted and sound file is never ready, whatever comes after. */
  lemma AcceptedFileStalls() returns (events: seq<Event>)
    ensures var w := Run(events);
            0 in w.st.rows && w.st.rows[0].state.Uploaded? && 0 in w.st.objects && JobFailed(w, 0)
    ensures forall more: seq<Event> :: NotReady(Run(events + more), 0)
  {
    events := Begins();
    events := Completes(events, 0, map[], 1);
    events := LosesAttempt(events, 0, 2);
    events := LosesAttempt(events, 1, 3);
    events := LosesAttempt(events, 2, 4);
    forall more: seq<Event> ensures NotReady(Run(events + more), 0) {
      FailedJobsStallForGood(events, more, 0);
    }
  }
}
