/** How long rows and bytes stay, for any schedule of successful sweeps at most a day apart. */
module Retention {
  import opened Base
  import opened FileRows
  import opened Stores
  import opened Sweep
  import opened History
  import opened World
  import opened FileInvariant
  import opened WorldInvariant
  import opened Preservation
  import Recipients

  // The backstop configured on the object store for multipart uploads nobody finishes.
  const STALE_UPLOADS_EXPIRY_HOURS: nat := 96

  /** The instants of the sweeps: no end to them, and never more than a day from one to the next. */
  ghost predicate Daily(schedule: nat -> int) {
    forall i: nat :: schedule(i) < schedule(i + 1) <= schedule(i) + MS_PER_DAY
  }

  /** The stores after the first `n` sweeps, if nobody else touches them. */
  function StoresAfter(s: Stores, schedule: nat -> int, n: nat): Stores {
    if n == 0 then s else Swept(StoresAfter(s, schedule, n - 1).(now := schedule(n - 1)))
  }

  /** One row on its own, after the first `n` sweeps. */
  function RowAfter(row: Row, schedule: nat -> int, n: nat): Option<Row> {
    if n == 0 then Some(row)
    else
      var before := RowAfter(row, schedule, n - 1);
      if before.None? then None else SweepRow(before.value, schedule(n - 1))
  }

  /** The first sweep after an instant, from sweep `from` on. */
  function FirstAfter(schedule: nat -> int, instant: int, from: nat): (i: nat)
    requires Daily(schedule)
    ensures from <= i && instant < schedule(i)
    ensures forall k :: from <= k < i ==> schedule(k) <= instant
    ensures schedule(from) <= instant ==> schedule(i) <= instant + MS_PER_DAY
    decreases Max(0, instant - schedule(from) + 1)
  {
    if schedule(from) > instant then from else FirstAfter(schedule, instant, from + 1)
  }

  /** Rows that a stretch of sweeps leaves alone. */
  lemma {:induction false} LeftAlone(row: Row, kept: Row, schedule: nat -> int, a: nat, b: nat)
    requires a <= b && RowAfter(row, schedule, a) == Some(kept)
    requires forall k :: a <= k < b ==> SweepRow(kept, schedule(k)) == Some(kept)
    ensures RowAfter(row, schedule, b) == Some(kept)
    decreases b - a
  {
    if a < b {
      LeftAlone(row, kept, schedule, a, b - 1);
    }
  }

  lemma {:induction false} GoneForGood(row: Row, schedule: nat -> int, a: nat, b: nat)
    requires a <= b && RowAfter(row, schedule, a) == None
    ensures RowAfter(row, schedule, b) == None
    decreases b - a
  {
    if a < b {
      GoneForGood(row, schedule, a, b - 1);
    }
  }

  // ---- one row on its own ----

  /** From sweep `from` on the row is `kept`; sweep `i` removes it. */
  ghost predicate RowRemovedBy(row: Row, kept: Row, schedule: nat -> int, from: nat, i: nat) {
    && from <= i
    && (forall n :: from <= n <= i ==> RowAfter(row, schedule, n) == Some(kept))
    && (forall n :: n > i ==> RowAfter(row, schedule, n) == None)
  }

  lemma FirstToRemove(row: Row, kept: Row, schedule: nat -> int, from: nat, i: nat)
    requires from <= i && RowAfter(row, schedule, from) == Some(kept) && SweepRow(kept, schedule(i)) == None
    requires forall k :: from <= k < i ==> SweepRow(kept, schedule(k)) == Some(kept)
    ensures RowRemovedBy(row, kept, schedule, from, i)
  {
    forall n | from <= n <= i ensures RowAfter(row, schedule, n) == Some(kept) {
      LeftAlone(row, kept, schedule, from, n);
    }
    assert RowAfter(row, schedule, i + 1) == None;
    forall n | n > i ensures RowAfter(row, schedule, n) == None {
      GoneForGood(row, schedule, i + 1, n);
    }
  }

  /** A refused or expired row, whenever it was last written: the sweep that removes it. */
  lemma DeadRowIsPurged(row: Row, dead: Row, schedule: nat -> int, from: nat) returns (j: nat)
    requires Daily(schedule) && (dead.state.Expired? || dead.state.Rejected?)
    requires schedule(from) <= dead.updatedAt + GHOST_ROW_TTL_DAYS * MS_PER_DAY
    requires RowAfter(row, schedule, from) == Some(dead)
    ensures RowRemovedBy(row, dead, schedule, from, j)
    ensures dead.updatedAt + 7 * MS_PER_DAY < schedule(j) <= dead.updatedAt + 8 * MS_PER_DAY
  {
    j := FirstAfter(schedule, dead.updatedAt + GHOST_ROW_TTL_DAYS * MS_PER_DAY, from);
    FirstToRemove(row, dead, schedule, from, j);
  }

  lemma ReadyRowExpires(row: Row, schedule: nat -> int) returns (i: nat, j: nat)
    requires Daily(schedule) && row.state.Ready? && schedule(0) <= row.expiresAt
    ensures forall n :: 0 <= n <= i ==> RowAfter(row, schedule, n) == Some(row)
    ensures RowRemovedBy(row, Tombstone(row, schedule(i)), schedule, i + 1, j)
    ensures row.expiresAt < schedule(i) <= row.expiresAt + MS_PER_DAY
    ensures schedule(i) + 7 * MS_PER_DAY < schedule(j) <= schedule(i) + 8 * MS_PER_DAY
  {
    i := FirstAfter(schedule, row.expiresAt, 0);
    forall n | 0 <= n <= i ensures RowAfter(row, schedule, n) == Some(row) {
      LeftAlone(row, row, schedule, 0, n);
    }
    var tombstone := Tombstone(row, schedule(i));
    assert RowAfter(row, schedule, i + 1) == Some(tombstone);
    j := DeadRowIsPurged(row, tombstone, schedule, i + 1);
  }

  // ---- the row in the stores ----

  /** The stores are swept row by row. */
  lemma {:induction false} RowsFollow(s: Stores, schedule: nat -> int, id: FileId, n: nat)
    requires id in s.rows
    ensures Get(StoresAfter(s, schedule, n).rows, id) == RowAfter(s.rows[id], schedule, n)
  {
    if n > 0 {
      RowsFollow(s, schedule, id, n - 1);
      SweptRowByRow(StoresAfter(s, schedule, n - 1).(now := schedule(n - 1)), id);
    }
  }

  /** What a sweep does to the storage of one file. */
  lemma SweptStorage(s: Stores, id: FileId)
    ensures Get(Swept(s).uploads, id) == if id in Due(s, ForReaper) then None else Get(s.uploads, id)
    ensures Get(Swept(s).objects, id) ==
            if id in Due(s, ForExpiry) || (id in Due(s, ForReaper) && id !in s.uploads) then None
            else Get(s.objects, id)
  {
    PassesDoNotFeedEachOther(s);
  }

  /** A sweep keeps keys and upload ids the rows' own, so that the next sweep finds what the tasks ask for. */
  lemma SweptIsTidy(s: Stores)
    requires Tidy(s)
    ensures Tidy(Swept(s))
  {
    forall id ensures Get(Swept(s).rows, id) == if id in s.rows then SweepRow(s.rows[id], s.now) else None {
      SweptRowByRow(s, id);
    }
    forall id | id in Swept(s).rows
      ensures && (Swept(s).rows[id].storageKey == None || Swept(s).rows[id].storageKey == Some(id))
              && Swept(s).rows[id].uploadId == Some(id)
              && (Swept(s).rows[id].state.Pending? || Swept(s).rows[id].state.Ready? ==>
                    Swept(s).rows[id].storageKey == Some(id))
    {
      assert Get(Swept(s).rows, id) == if id in s.rows then SweepRow(s.rows[id], s.now) else None;
    }
    forall id | id in Swept(s).uploads ensures Swept(s).uploads[id].key == id {
      SweptStorage(s, id);
    }
  }

  lemma {:induction false} SweepsStayTidy(s: Stores, schedule: nat -> int, n: nat)
    requires Tidy(s)
    ensures Tidy(StoresAfter(s, schedule, n))
  {
    if n > 0 {
      SweepsStayTidy(s, schedule, n - 1);
      SweptIsTidy(StoresAfter(s, schedule, n - 1).(now := schedule(n - 1)));
    }
  }

  /** As long as a row is left alone, so is all that storage holds for it. */
  lemma {:induction false} StorageWaits(s: Stores, schedule: nat -> int, id: FileId, n: nat)
    requires id in s.rows && forall k :: 0 <= k <= n ==> RowAfter(s.rows[id], schedule, k) == Some(s.rows[id])
    ensures Get(StoresAfter(s, schedule, n).uploads, id) == Get(s.uploads, id)
    ensures Get(StoresAfter(s, schedule, n).objects, id) == Get(s.objects, id)
  {
    if n > 0 {
      var before := StoresAfter(s, schedule, n - 1).(now := schedule(n - 1));
      StorageWaits(s, schedule, id, n - 1);
      RowsFollow(s, schedule, id, n - 1);
      assert before.rows[id] == s.rows[id];
      assert RowAfter(s.rows[id], schedule, n - 1) == Some(s.rows[id]) == RowAfter(s.rows[id], schedule, n);
      assert SweepRow(s.rows[id], schedule(n - 1)) == Some(s.rows[id]);
      SweptStorage(before, id);
    }
  }

  lemma {:induction false} StorageStaysEmpty(s: Stores, schedule: nat -> int, id: FileId, a: nat, b: nat)
    requires a <= b
    ensures id !in StoresAfter(s, schedule, a).uploads ==> id !in StoresAfter(s, schedule, b).uploads
    ensures id !in StoresAfter(s, schedule, a).objects ==> id !in StoresAfter(s, schedule, b).objects
    decreases b - a
  {
    if a < b {
      StorageStaysEmpty(s, schedule, id, a, b - 1);
      SweptStorage(StoresAfter(s, schedule, b - 1).(now := schedule(b - 1)), id);
    }
  }

  // ---- the bounds ----

  /** Up to sweep `i` the file is as it was, in the row and in storage. */
  ghost predicate StandsUntil(s: Stores, id: FileId, schedule: nat -> int, i: nat)
    requires id in s.rows
  {
    forall n :: 0 <= n <= i ==>
      && Get(StoresAfter(s, schedule, n).rows, id) == Some(s.rows[id])
      && Get(StoresAfter(s, schedule, n).uploads, id) == Get(s.uploads, id)
      && Get(StoresAfter(s, schedule, n).objects, id) == Get(s.objects, id)
  }

  ghost predicate GoneAfter(s: Stores, id: FileId, schedule: nat -> int, i: nat) {
    forall n :: n > i ==> id !in StoresAfter(s, schedule, n).rows
  }

  /** Storage holds nothing for the file after sweep `i`. */
  ghost predicate EmptyAfter(s: Stores, id: FileId, schedule: nat -> int, i: nat) {
    forall n :: n > i ==> id !in StoresAfter(s, schedule, n).uploads && id !in StoresAfter(s, schedule, n).objects
  }

  lemma KeptUntil(s: Stores, id: FileId, schedule: nat -> int, i: nat)
    requires id in s.rows && forall n :: 0 <= n <= i ==> RowAfter(s.rows[id], schedule, n) == Some(s.rows[id])
    ensures StandsUntil(s, id, schedule, i)
  {
    forall n | 0 <= n <= i
      ensures && Get(StoresAfter(s, schedule, n).rows, id) == Some(s.rows[id])
              && Get(StoresAfter(s, schedule, n).uploads, id) == Get(s.uploads, id)
              && Get(StoresAfter(s, schedule, n).objects, id) == Get(s.objects, id)
    {
      RowsFollow(s, schedule, id, n);
      StorageWaits(s, schedule, id, n);
    }
  }

  lemma RemovedAfter(s: Stores, id: FileId, kept: Row, schedule: nat -> int, from: nat, i: nat)
    requires id in s.rows && RowRemovedBy(s.rows[id], kept, schedule, from, i)
    ensures GoneAfter(s, id, schedule, i)
  {
    forall n | n > i ensures id !in StoresAfter(s, schedule, n).rows {
      RowsFollow(s, schedule, id, n);
    }
  }

  lemma EmptiedAfter(s: Stores, id: FileId, schedule: nat -> int, i: nat)
    requires id !in StoresAfter(s, schedule, i + 1).uploads && id !in StoresAfter(s, schedule, i + 1).objects
    ensures EmptyAfter(s, id, schedule, i)
  {
    forall n | n > i
      ensures id !in StoresAfter(s, schedule, n).uploads && id !in StoresAfter(s, schedule, n).objects
    {
      StorageStaysEmpty(s, schedule, id, i + 1, n);
    }
  }

  lemma PendingFileIsReaped(s: Stores, id: FileId, schedule: nat -> int) returns (i: nat)
    requires Daily(schedule) && id in s.rows && s.rows[id].state.Pending? && (id in s.uploads ==> id !in s.objects)
    requires schedule(0) <= s.rows[id].createdAt + ABANDONED_UPLOAD_TTL_HOURS * MS_PER_HOUR
    ensures StandsUntil(s, id, schedule, i) && GoneAfter(s, id, schedule, i) && EmptyAfter(s, id, schedule, i)
    ensures s.rows[id].createdAt + 48 * MS_PER_HOUR < schedule(i) <= s.rows[id].createdAt + 72 * MS_PER_HOUR
    ensures schedule(i) + MS_PER_DAY <= s.rows[id].createdAt + STALE_UPLOADS_EXPIRY_HOURS * MS_PER_HOUR
  {
    var row := s.rows[id];
    i := FirstAfter(schedule, row.createdAt + ABANDONED_UPLOAD_TTL_HOURS * MS_PER_HOUR, 0);
    FirstToRemove(row, row, schedule, 0, i);
    KeptUntil(s, id, schedule, i);
    RemovedAfter(s, id, row, schedule, 0, i);
    ReapedAt(s, id, schedule, i);
    EmptiedAfter(s, id, schedule, i);
  }

  lemma ReapedAt(s: Stores, id: FileId, schedule: nat -> int, i: nat)
    requires id in s.rows && StandsUntil(s, id, schedule, i) && ReapDue(s.rows[id], schedule(i))
    requires id in s.uploads ==> id !in s.objects
    ensures id !in StoresAfter(s, schedule, i + 1).uploads && id !in StoresAfter(s, schedule, i + 1).objects
  {
    var before := StoresAfter(s, schedule, i).(now := schedule(i));
    assert Get(before.rows, id) == Some(s.rows[id]);
    SweptStorage(before, id);
  }

  lemma ExpiredAt(s: Stores, id: FileId, schedule: nat -> int, i: nat)
    requires id in s.rows && StandsUntil(s, id, schedule, i) && ExpiryDue(s.rows[id], schedule(i)) && id !in s.uploads
    ensures id !in StoresAfter(s, schedule, i + 1).uploads && id !in StoresAfter(s, schedule, i + 1).objects
  {
    var before := StoresAfter(s, schedule, i).(now := schedule(i));
    assert Get(before.rows, id) == Some(s.rows[id]);
    SweptStorage(before, id);
  }

  lemma ReadyFileExpires(s: Stores, id: FileId, schedule: nat -> int) returns (i: nat, j: nat)
    requires Daily(schedule) && id in s.rows && s.rows[id].state.Ready? && id !in s.uploads
    requires schedule(0) <= s.rows[id].expiresAt
    ensures i < j && StandsUntil(s, id, schedule, i) && EmptyAfter(s, id, schedule, i) && GoneAfter(s, id, schedule, j)
    ensures forall n :: i < n <= j ==>
              Get(StoresAfter(s, schedule, n).rows, id) == Some(Tombstone(s.rows[id], schedule(i)))
    ensures s.rows[id].expiresAt < schedule(i) <= s.rows[id].expiresAt + MS_PER_DAY
    ensures schedule(i) + 7 * MS_PER_DAY < schedule(j) <= schedule(i) + 8 * MS_PER_DAY
  {
    i, j := ReadyRowExpires(s.rows[id], schedule);
    KeptUntil(s, id, schedule, i);
    ExpiredAt(s, id, schedule, i);
    EmptiedAfter(s, id, schedule, i);
    RemovedAfter(s, id, Tombstone(s.rows[id], schedule(i)), schedule, i + 1, j);
    forall n | i < n <= j
      ensures Get(StoresAfter(s, schedule, n).rows, id) == Some(Tombstone(s.rows[id], schedule(i)))
    {
      RowsFollow(s, schedule, id, n);
    }
  }

  lemma DeadFileIsPurged(s: Stores, id: FileId, schedule: nat -> int) returns (j: nat)
    requires Daily(schedule) && id in s.rows && (s.rows[id].state.Expired? || s.rows[id].state.Rejected?)
    requires schedule(0) <= s.rows[id].updatedAt + GHOST_ROW_TTL_DAYS * MS_PER_DAY
    ensures StandsUntil(s, id, schedule, j) && GoneAfter(s, id, schedule, j)
    ensures s.rows[id].updatedAt + 7 * MS_PER_DAY < schedule(j) <= s.rows[id].updatedAt + 8 * MS_PER_DAY
  {
    j := DeadRowIsPurged(s.rows[id], s.rows[id], schedule, 0);
    KeptUntil(s, id, schedule, j);
    RemovedAfter(s, id, s.rows[id], schedule, 0, j);
  }

  // ---- in every reachable state ----

  /** Each of the sweeps finds stores as the planned tasks ask for them. */
  lemma SweepsAreTheTasks(events: seq<Event>, schedule: nat -> int, n: nat)
    ensures Tidy(StoresAfter(Run(events).st, schedule, n))
  {
    Recipients.ReachableIsTidy(events);
    SweepsStayTidy(Run(events).st, schedule, n);
  }

  /** A file left pending stands with all its parts until one sweep removes row, parts and any object, more than 48
      and at most 72 hours after its creation, and so at least a day before the backstop of the store could drop its
      parts. */
  lemma PendingIsReaped(events: seq<Event>, id: FileId, schedule: nat -> int) returns (i: nat)
    requires Daily(schedule) && id in Run(events).st.rows && Run(events).st.rows[id].state.Pending?
    requires schedule(0) <= Run(events).st.rows[id].createdAt + ABANDONED_UPLOAD_TTL_HOURS * MS_PER_HOUR
    ensures var s, created := Run(events).st, Run(events).st.rows[id].createdAt;
            && StandsUntil(s, id, schedule, i) && GoneAfter(s, id, schedule, i) && EmptyAfter(s, id, schedule, i)
            && created + 48 * MS_PER_HOUR < schedule(i) <= created + 72 * MS_PER_HOUR
            && schedule(i) + MS_PER_DAY <= created + STALE_UPLOADS_EXPIRY_HOURS * MS_PER_HOUR
  {
    RunKeepsInv(events);
    assert FileInv(CellOf(Run(events), id), id, Run(events).st.now);
    i := PendingFileIsReaped(Run(events).st, id, schedule);
  }

  /** A ready file stands with its object until a sweep within a day of its expiry, and not before, leaves a tombstone
      and no object; the tombstone lives for more than 7 days and at most 8. */
  lemma ReadyExpiresAndGoes(events: seq<Event>, id: FileId, schedule: nat -> int) returns (i: nat, j: nat)
    requires Daily(schedule) && id in Run(events).st.rows && Run(events).st.rows[id].state.Ready?
    requires schedule(0) <= Run(events).st.rows[id].expiresAt
    ensures var s, row := Run(events).st, Run(events).st.rows[id];
            && i < j && StandsUntil(s, id, schedule, i) && EmptyAfter(s, id, schedule, i)
            && GoneAfter(s, id, schedule, j)
            && (forall n :: i < n <= j ==>
                  Get(StoresAfter(s, schedule, n).rows, id) == Some(Tombstone(row, schedule(i))))
            && row.expiresAt < schedule(i) <= row.expiresAt + MS_PER_DAY
            && schedule(i) + 7 * MS_PER_DAY < schedule(j) <= schedule(i) + 8 * MS_PER_DAY
  {
    RunKeepsInv(events);
    assert FileInv(CellOf(Run(events), id), id, Run(events).st.now);
    i, j := ReadyFileExpires(Run(events).st, id, schedule);
  }

  /** A refused or expired row stands until one sweep removes it, more than 7 and at most 8 days after its last write,
      at whatever instant that was. */
  lemma DeadIsPurged(events: seq<Event>, id: FileId, schedule: nat -> int) returns (j: nat)
    requires Daily(schedule) && id in Run(events).st.rows
    requires Run(events).st.rows[id].state.Expired? || Run(events).st.rows[id].state.Rejected?
    requires schedule(0) <= Run(events).st.rows[id].updatedAt + GHOST_ROW_TTL_DAYS * MS_PER_DAY
    ensures var s, row := Run(events).st, Run(events).st.rows[id];
            && StandsUntil(s, id, schedule, j) && GoneAfter(s, id, schedule, j)
            && (forall n :: id !in StoresAfter(s, schedule, n).uploads && id !in StoresAfter(s, schedule, n).objects)
            && row.updatedAt + 7 * MS_PER_DAY < schedule(j) <= row.updatedAt + 8 * MS_PER_DAY
  {
    RunKeepsInv(events);
    assert FileInv(CellOf(Run(events), id), id, Run(events).st.now);
    j := DeadFileIsPurged(Run(events).st, id, schedule);
    forall n: nat
      ensures id !in StoresAfter(Run(events).st, schedule, n).uploads
      ensures id !in StoresAfter(Run(events).st, schedule, n).objects
    {
      StorageStaysEmpty(Run(events).st, schedule, id, 0, n);
    }
  }
}
