/** The daily sweep as one change of the stores, and what recipients can see of it. */
module Sweep {
  import opened Base
  import opened FileRows
  import opened Stores
  import opened Download

  /** Every row's key and upload id are its own, as in every reachable state. */
  ghost predicate Tidy(s: Stores) {
    && (forall id :: id in s.rows ==>
          && (s.rows[id].storageKey == None || s.rows[id].storageKey == Some(id))
          && s.rows[id].uploadId == Some(id)
          && (s.rows[id].state.Pending? || s.rows[id].state.Ready? ==> s.rows[id].storageKey == Some(id)))
    && forall id :: id in s.uploads ==> s.uploads[id].key == id
  }

  /** The fate of one row in a sweep. */
  function SweepRow(row: Row, now: int): Option<Row> {
    if GhostDue(row, now) || ReapDue(row, now) then None
    else if ExpiryDue(row, now) then Some(Tombstone(row, now))
    else Some(row)
  }

  function Due(s: Stores, filter: Filter): set<FileId> {
    set id | id in s.rows && Selected(filter, s.rows[id], s.now)
  }

  // ---- the three passes ----

  /** Pass 1 on the rows in `ids`: the object goes, the row stays as a tombstone. */
  function ExpirePass(s: Stores, ids: set<FileId>): Stores {
    s.(rows := map id | id in s.rows :: if id in ids then Tombstone(s.rows[id], s.now) else s.rows[id],
       objects := s.objects - ids)
  }

  /** Pass 2: the rows go. */
  function GhostPass(s: Stores, ids: set<FileId>): Stores {
    s.(rows := s.rows - ids)
  }

  /** Pass 3: an open upload is aborted; where completion had succeeded unnoticed, its object goes; the row goes. */
  function ReapPass(s: Stores, ids: set<FileId>): Stores {
    s.(rows := s.rows - ids,
       uploads := s.uploads - ids,
       objects := map key | key in s.objects && (key !in ids || key in s.uploads) :: s.objects[key])
  }

  function Swept(s: Stores): Stores {
    var s1 := ExpirePass(s, Due(s, ForExpiry));
    var s2 := GhostPass(s1, Due(s1, ForGhosts));
    ReapPass(s2, Due(s2, ForReaper))
  }

  /** The passes together treat each row as `SweepRow` says. */
  lemma SweptRowByRow(s: Stores, id: FileId)
    ensures Get(Swept(s).rows, id) == if id in s.rows then SweepRow(s.rows[id], s.now) else None
  {
    var s1 := ExpirePass(s, Due(s, ForExpiry));
    var s2 := GhostPass(s1, Due(s1, ForGhosts));
    if id in s.rows {
      assert id in s1.rows;
      assert id in s2.rows <==> id !in Due(s1, ForGhosts);
    }
  }

  // ---- the same in full ----

  predicate PastDate(row: Row, now: int) {
    row.state.Ready? && row.expiresAt < now
  }

  predicate PastRetention(row: Row, now: int) {
    (row.state.Expired? || row.state.Rejected?) && row.updatedAt < now - 7 * 24 * 60 * 60 * 1000
  }

  predicate Overdue(row: Row, now: int) {
    row.state.Pending? && row.createdAt < now - 48 * 60 * 60 * 1000
  }

  predicate Stale(row: Row, now: int) {
    row.state.Scanning? && row.updatedAt < now - 15 * 60 * 1000
  }

  /** What the four tasks select. */
  lemma TasksSelect(s: Stores, id: FileId)
    ensures id in Due(s, ForExpiry) <==> id in s.rows && PastDate(s.rows[id], s.now)
    ensures id in Due(s, ForGhosts) <==> id in s.rows && PastRetention(s.rows[id], s.now)
    ensures id in Due(s, ForReaper) <==> id in s.rows && Overdue(s.rows[id], s.now)
    ensures id in Due(s, ForRequeue) <==> id in s.rows && Stale(s.rows[id], s.now)
  {}

  /** What a sweep makes of the row, the upload and the object of one file, and that it touches neither jobs nor the
      clock: a ready row past its date keeps neither key nor password, nor its object; dead rows past their retention
      and overdue uploads go, the latter with their parts or with the object they have become. */
  lemma SweepInFull(s: Stores, id: FileId)
    ensures Get(Swept(s).rows, id) ==
            if id !in s.rows || PastRetention(s.rows[id], s.now) || Overdue(s.rows[id], s.now) then None
            else if PastDate(s.rows[id], s.now) then
              Some(s.rows[id].(state := Expired, storageKey := None, passwordHash := None, updatedAt := s.now))
            else Some(s.rows[id])
    ensures Get(Swept(s).uploads, id) ==
            if id in s.rows && Overdue(s.rows[id], s.now) then None else Get(s.uploads, id)
    ensures Get(Swept(s).objects, id) ==
            if id in s.rows && (PastDate(s.rows[id], s.now) || (Overdue(s.rows[id], s.now) && id !in s.uploads))
            then None else Get(s.objects, id)
    ensures Swept(s).jobs == s.jobs && Swept(s).now == s.now
  {
    TasksSelect(s, id);
    SweptRowByRow(s, id);
    PassesDoNotFeedEachOther(s);
  }

  /** What the hourly requeue makes of the row and the job of one file; objects and uploads it does not touch. */
  lemma RequeueInFull(s: Stores, id: FileId)
    ensures var s' := RequeuePass(s, Due(s, ForRequeue));
            var stale := id in s.rows && Stale(s.rows[id], s.now);
            && Get(s'.rows, id) ==
               (if stale then Some(s.rows[id].(state := Uploaded, updatedAt := s.now)) else Get(s.rows, id))
            && Get(s'.jobs, id) == (if stale && id !in s.jobs then Some(Waiting(0)) else Get(s.jobs, id))
            && s'.objects == s.objects && s'.uploads == s.uploads && s'.now == s.now
  {
    TasksSelect(s, id);
  }

  // ---- one element of each pass ----

  lemma ExpireOneMore(s: Stores, done: set<FileId>, id: FileId)
    requires Tidy(s) && id in Due(s, ForExpiry) && id !in done
    ensures var before := ExpirePass(s, done);
            && id in before.rows && before.rows[id] == s.rows[id]
            && ExpirePass(s, done + {id}) == ExpireRow(RemoveObject(before, id), id)
  {
    var before := ExpirePass(s, done);
    assert ExpirePass(s, done + {id}).rows == ExpireRow(RemoveObject(before, id), id).rows;
    assert s.objects - done - {id} == s.objects - (done + {id});
  }

  lemma PurgeOneMore(s: Stores, done: set<FileId>, id: FileId)
    ensures GhostPass(s, done + {id}) == DropRow(GhostPass(s, done), id)
  {
    assert s.rows - done - {id} == s.rows - (done + {id});
  }

  /** What deleting one pending file amounts to. */
  function DropPending(s: Stores, id: FileId): Stores {
    if id in s.uploads then DropRow(RemoveUpload(s, id), id) else DropRow(RemoveObject(s, id), id)
  }

  lemma ReapOneMore(s: Stores, done: set<FileId>, id: FileId)
    requires id !in done
    ensures ReapPass(s, done + {id}) == DropPending(ReapPass(s, done), id)
  {
    var before, after := ReapPass(s, done), ReapPass(s, done + {id});
    assert after.rows == before.rows - {id};
    assert after.uploads == before.uploads - {id};
    assert after.uploads == before.uploads || id in before.uploads;
    assert after.objects == DropPending(before, id).objects;
  }

  /** Passes 2 and 3 select what they would have selected before pass 1. */
  lemma PassesDoNotFeedEachOther(s: Stores)
    ensures var s1 := ExpirePass(s, Due(s, ForExpiry));
            && Due(s1, ForGhosts) == Due(s, ForGhosts)
            && Due(GhostPass(s1, Due(s1, ForGhosts)), ForReaper) == Due(s, ForReaper)
  {
    var s1 := ExpirePass(s, Due(s, ForExpiry));
    var s2 := GhostPass(s1, Due(s1, ForGhosts));
    forall id ensures id in Due(s1, ForGhosts) <==> id in Due(s, ForGhosts) {}
    forall id ensures id in Due(s2, ForReaper) <==> id in Due(s, ForReaper) {}
  }

  // ---- requeue ----

  /** The hourly requeue on the rows in `ids`. */
  function RequeuePass(s: Stores, ids: set<FileId>): Stores {
    s.(rows := map id | id in s.rows ::
         if id in ids then s.rows[id].(state := Uploaded, updatedAt := s.now) else s.rows[id],
       jobs := map id | id in s.jobs.Keys + ids :: if id in s.jobs then s.jobs[id] else Waiting(0))
  }

  lemma RequeueOneMore(s: Stores, done: set<FileId>, id: FileId)
    requires id in s.rows && id !in done
    ensures var before := RequeuePass(s, done);
            id in before.rows && RequeuePass(s, done + {id}) == Enqueue(SetState(before, id, Uploaded), id)
  {
    var before, after := RequeuePass(s, done), RequeuePass(s, done + {id});
    assert after.rows == SetState(before, id, Uploaded).rows;
    assert after.jobs == Enqueue(SetState(before, id, Uploaded), id).jobs;
  }

  lemma EmptyPassesDoNothing(s: Stores)
    ensures ExpirePass(s, {}) == s
    ensures GhostPass(s, {}) == s
    ensures ReapPass(s, {}) == s
    ensures RequeuePass(s, {}) == s
  {
    assert ExpirePass(s, {}).rows == s.rows && s.objects - {} == s.objects;
    assert s.rows - {} == s.rows && s.uploads - {} == s.uploads;
    assert ReapPass(s, {}).objects == s.objects;
    assert RequeuePass(s, {}).rows == s.rows && RequeuePass(s, {}).jobs == s.jobs;
  }

  // ---- recipients ----

  lemma SameTokensAfterSweep(s: Stores, token: string)
    requires UniqueTokens(s.rows)
    ensures UniqueTokens(Swept(s).rows)
    ensures RowOf(Swept(s).rows, token) ==
            if RowOf(s.rows, token).Some? then SweepRow(RowOf(s.rows, token).value, s.now) else None
  {
    forall id ensures Get(Swept(s).rows, id) == if id in s.rows then SweepRow(s.rows[id], s.now) else None {
      SweptRowByRow(s, id);
    }
    TokenFindsSweptRow(s.rows, Swept(s).rows, s.now, token);
  }

  lemma TokenFindsSweptRow(rows: Rows, rows': Rows, now: int, token: string)
    requires UniqueTokens(rows)
    requires forall id :: Get(rows', id) == if id in rows then SweepRow(rows[id], now) else None
    ensures UniqueTokens(rows')
    ensures RowOf(rows', token) ==
            if RowOf(rows, token).Some? then SweepRow(RowOf(rows, token).value, now) else None
  {
    forall id | id in rows' ensures id in rows && rows'[id].downloadToken == rows[id].downloadToken {
      assert Get(rows', id) == if id in rows then SweepRow(rows[id], now) else None;
    }
    var found, found' := FindByToken(rows, token), FindByToken(rows', token);
    if found.Some? {
      assert Get(rows', found.value) == SweepRow(rows[found.value], now);
    }
  }

  /** No GET and no POST, at the instant of the sweep or later, has another outcome for it, except that a tombstone
      older than its retention turns from "expired" to "not valid". */
  lemma RecipientsSeeNoSweep(
    s: Stores, token: string, password: Option<string>, at: int, compare: (string, string) -> bool)
    requires UniqueTokens(s.rows) && at >= s.now
    ensures var file := RowOf(s.rows, token);
            var purged := file.Some? && file.value.state.Expired? && GhostDue(file.value, s.now);
            && GetMetadata(Swept(s).rows, token, at) ==
               (if purged then Err(NotValid) else GetMetadata(s.rows, token, at))
            && VerifyPasswordAndGetUrl(Swept(s).rows, token, password, at, compare) ==
               (if purged then Err(NotValid) else VerifyPasswordAndGetUrl(s.rows, token, password, at, compare))
            && (purged ==> GetMetadata(s.rows, token, at) == Err(GoneExpired))
  {
    SameTokensAfterSweep(s, token);
  }

  lemma NothingLeftToSweep(s: Stores, filter: Filter)
    requires !filter.ForRequeue?
    ensures Due(Swept(s), filter) == {}
  {
    forall id | id in Swept(s).rows ensures !Selected(filter, Swept(s).rows[id], s.now) {
      SweptRowByRow(s, id);
    }
  }

  /** A second sweep at the same instant changes nothing at all. */
  lemma SweepTwiceIsSweepOnce(s: Stores)
    ensures Swept(Swept(s)) == Swept(s)
  {
    var t := Swept(s);
    NothingLeftToSweep(s, ForExpiry);
    NothingLeftToSweep(s, ForGhosts);
    NothingLeftToSweep(s, ForReaper);
    EmptyPassesDoNothing(t);
  }
}
