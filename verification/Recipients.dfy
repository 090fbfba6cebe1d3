/** What recipients can tell apart, and what they can see of the system in any run. */
module Recipients {
  import opened Base
  import opened FileRows
  import opened Stores
  import opened Protocol
  import opened History
  import opened World
  import opened FileInvariant
  import opened WorldInvariant
  import opened Preservation
  import opened Download
  import opened Sweep

  // ---- reachable stores are tidy, and tokens are unique ----

  lemma ReachableIsTidy(events: seq<Event>)
    ensures Tidy(Run(events).st)
  {
    RunKeepsInv(events);
    var w := Run(events);
    forall id | id in w.st.rows
      ensures && (w.st.rows[id].storageKey == None || w.st.rows[id].storageKey == Some(id))
              && w.st.rows[id].uploadId == Some(id)
              && (w.st.rows[id].state.Pending? || w.st.rows[id].state.Ready? ==> w.st.rows[id].storageKey == Some(id))
    {
      assert FileInv(CellOf(w, id), id, w.st.now);
    }
    forall id | id in w.st.uploads ensures w.st.uploads[id].key == id {
      assert FileInv(CellOf(w, id), id, w.st.now);
    }
  }

  /** Every row of `rows'` keeps its token from `rows`. */
  ghost predicate KeepsTokens(rows: Rows, rows': Rows) {
    forall id :: id in rows' ==> id in rows && rows'[id].downloadToken == rows[id].downloadToken
  }

  lemma FileCallsKeepTokens(s: Stores, op: Op, c: Choice)
    requires op.Complete? || op.Validate? || op.Abort? || (op.Initiate? && !op.initiate.CreateRow?)
    ensures KeepsTokens(s.rows, Exec(s, op, c).st.rows)
  {}

  lemma LoopCallsKeepTokens(s: Stores, op: Op, c: Choice)
    requires !(op.Complete? || op.Validate? || op.Abort? || op.Initiate?)
    ensures KeepsTokens(s.rows, Exec(s, op, c).st.rows)
  {}

  lemma OnlyCreateAddsTokens(s: Stores, op: Op, c: Choice)
    requires !(op.Initiate? && op.initiate.CreateRow?)
    ensures KeepsTokens(s.rows, Exec(s, op, c).st.rows)
  {
    if op.Complete? || op.Validate? || op.Abort? || op.Initiate? {
      FileCallsKeepTokens(s, op, c);
    } else {
      LoopCallsKeepTokens(s, op, c);
    }
  }

  lemma KeptTokensAreUnique(rows: Rows, rows': Rows)
    requires UniqueTokens(rows) && KeepsTokens(rows, rows')
    ensures UniqueTokens(rows')
  {}

  lemma CallKeepsTokens(s: Stores, op: Op, c: Choice)
    requires UniqueTokens(s.rows)
    ensures UniqueTokens(Exec(s, op, c).st.rows)
  {
    if !(op.Initiate? && op.initiate.CreateRow?) {
      OnlyCreateAddsTokens(s, op, c);
      KeptTokensAreUnique(s.rows, Exec(s, op, c).st.rows);
    }
  }

  lemma EventKeepsTokens(w: World, e: Event)
    requires UniqueTokens(w.st.rows)
    ensures UniqueTokens(Apply(w, e).st.rows)
  {
    if Enabled(w, e) && e.Advance? {
      CallKeepsTokens(w.st, w.ops[e.o], e.choice);
      assert Apply(w, e).st.rows == Exec(w.st, w.ops[e.o], e.choice).st.rows;
    } else {
      assert Apply(w, e).st.rows == w.st.rows;
    }
  }

  lemma {:induction false} ReachableTokensAreUnique(events: seq<Event>)
    ensures UniqueTokens(Run(events).st.rows)
    decreases |events|
  {
    if events != [] {
      ReachableTokensAreUnique(events[..|events| - 1]);
      EventKeepsTokens(Run(events[..|events| - 1]), events[|events| - 1]);
    }
  }

  /** In every reachable state a sweep is invisible to recipients from then on, but for tombstones past their
      retention. */
  lemma SweepIsInvisible(
    events: seq<Event>, token: string, password: Option<string>, at: int, compare: (string, string) -> bool)
    requires at >= Run(events).st.now
    ensures var s := Run(events).st;
            var file := RowOf(s.rows, token);
            var purged := file.Some? && file.value.state.Expired? && GhostDue(file.value, s.now);
            && Tidy(s)
            && GetMetadata(Swept(s).rows, token, at) ==
               (if purged then Err(NotValid) else GetMetadata(s.rows, token, at))
            && VerifyPasswordAndGetUrl(Swept(s).rows, token, password, at, compare) ==
               (if purged then Err(NotValid) else VerifyPasswordAndGetUrl(s.rows, token, password, at, compare))
  {
    ReachableIsTidy(events);
    ReachableTokensAreUnique(events);
    RecipientsSeeNoSweep(Run(events).st, token, password, at, compare);
  }

  // ---- what two databases must share to look the same ----

  /** A GET or a POST on a link. */
  datatype Query = Look(token: string, at: int) | Claim(token: string, password: Option<string>, at: int)

  datatype Answer =
    | Shown(page: Result<Page, DownloadError>)
    | Signed(url: Result<SignedUrl, DownloadError>)

  ghost function Reply(rows: Rows, q: Query, compare: (string, string) -> bool): Answer {
    match q
    case Look(token, at) => Shown(GetMetadata(rows, token, at))
    case Claim(token, password, at) => Signed(VerifyPasswordAndGetUrl(rows, token, password, at, compare))
  }

  /** A recipient's conversation: the service writes nothing, so the database stays as it is. */
  ghost function Conversation(rows: Rows, queries: seq<Query>, compare: (string, string) -> bool): seq<Answer> {
    if queries == [] then []
    else Conversation(rows, queries[..|queries| - 1], compare) + [Reply(rows, queries[|queries| - 1], compare)]
  }

  /** Rows a recipient can meet: the others, pending, rejected or abandoned, are as good as absent. */
  predicate Visible(state: FileState) {
    Resolvable(state) || state.Expired?
  }

  ghost predicate SameVisibleRows(rows: Rows, rows': Rows) {
    forall id ::
      && (id in rows && Visible(rows[id].state) ==> id in rows' && rows'[id] == rows[id])
      && (id in rows' && Visible(rows'[id].state) ==> id in rows && rows[id] == rows'[id])
  }

  /** What a token leads to, as far as a recipient can see. */
  function Sight(file: Option<Row>): Option<Row> {
    if file.Some? && Visible(file.value.state) then file else None
  }

  lemma SightDecides(
    file: Option<Row>, password: Option<string>, now: int, compare: (string, string) -> bool)
    ensures PageOf(file, now) == PageOf(Sight(file), now)
    ensures UrlOf(file, password, now, compare) == UrlOf(Sight(file), password, now, compare)
  {}

  lemma SameSight(rows: Rows, rows': Rows, token: string)
    requires UniqueTokens(rows) && UniqueTokens(rows') && SameVisibleRows(rows, rows')
    ensures Sight(RowOf(rows, token)) == Sight(RowOf(rows', token))
  {
    var a, b := FindByToken(rows, token), FindByToken(rows', token);
    if a.Some? && Visible(rows[a.value].state) {
      assert a.value in rows' && rows'[a.value].downloadToken == token;
    }
    if b.Some? && Visible(rows'[b.value].state) {
      assert b.value in rows && rows[b.value].downloadToken == token;
    }
  }

  /** Two databases that agree on their uploaded, scanning, ready and expired rows answer every conversation alike:
      a pending, rejected or abandoned row cannot be told from a token that was never given out. */
  lemma {:induction false} HiddenRowsAreUnknownTokens(
    rows: Rows, rows': Rows, queries: seq<Query>, compare: (string, string) -> bool)
    requires UniqueTokens(rows) && UniqueTokens(rows') && SameVisibleRows(rows, rows')
    ensures Conversation(rows, queries, compare) == Conversation(rows', queries, compare)
  {
    if queries != [] {
      var q := queries[|queries| - 1];
      HiddenRowsAreUnknownTokens(rows, rows', queries[..|queries| - 1], compare);
      SameSight(rows, rows', q.token);
      var password := if q.Claim? then q.password else None;
      SightDecides(RowOf(rows, q.token), password, q.at, compare);
      SightDecides(RowOf(rows', q.token), password, q.at, compare);
    }
  }

  // ---- the password and the sender's name ----

  predicate Protected(row: Row) {
    Truthy(row.passwordHash)
  }

  /** The same rows, but for the keys and the hashes of those with a password. */
  ghost predicate SameButForSecrets(rows: Rows, rows': Rows) {
    && rows.Keys == rows'.Keys
    && forall id :: id in rows ==>
         if Protected(rows[id]) then
           && Protected(rows'[id])
           && rows'[id] == rows[id].(storageKey := rows'[id].storageKey, passwordHash := rows'[id].passwordHash)
         else rows'[id] == rows[id]
  }

  /** No POST of the conversation carries a password that opens a row. */
  ghost predicate NeverGuesses(rows: Rows, queries: seq<Query>, compare: (string, string) -> bool) {
    forall i, id :: 0 <= i < |queries| && queries[i].Claim? && Truthy(queries[i].password)
                    && id in rows && Protected(rows[id]) ==>
      !compare(queries[i].password.value, rows[id].passwordHash.value)
  }

  lemma SecretRow(rows: Rows, rows': Rows, token: string)
    requires UniqueTokens(rows) && SameButForSecrets(rows, rows')
    ensures FindByToken(rows, token) == FindByToken(rows', token)
  {
    var a, b := FindByToken(rows, token), FindByToken(rows', token);
    if a.Some? {
      assert a.value in rows' && rows'[a.value].downloadToken == token;
    }
    if b.Some? {
      assert b.value in rows && rows[b.value].downloadToken == token;
    }
  }

  lemma RepliesKeepSecrets(rows: Rows, rows': Rows, q: Query, compare: (string, string) -> bool)
    requires UniqueTokens(rows) && SameButForSecrets(rows, rows')
    requires NeverGuesses(rows, [q], compare) && NeverGuesses(rows', [q], compare)
    ensures Reply(rows, q, compare) == Reply(rows', q, compare)
  {
    SecretRow(rows, rows', q.token);
    assert [q][0] == q;
  }

  /** Whoever does not know the password of a file learns neither where its bytes lie nor anything of the password,
      by whatever sequence of GETs and POSTs: every answer is the same for other keys and other hashes. */
  lemma {:induction false} WithoutThePasswordNothingLeaks(
    rows: Rows, rows': Rows, queries: seq<Query>, compare: (string, string) -> bool)
    requires UniqueTokens(rows) && SameButForSecrets(rows, rows')
    requires NeverGuesses(rows, queries, compare) && NeverGuesses(rows', queries, compare)
    ensures Conversation(rows, queries, compare) == Conversation(rows', queries, compare)
  {
    if queries != [] {
      var last := |queries| - 1;
      WithoutThePasswordNothingLeaks(rows, rows', queries[..last], compare);
      assert [queries[last]][0] == queries[last];
      RepliesKeepSecrets(rows, rows', queries[last], compare);
    }
  }

  /** The database without the names that senders chose not to show. */
  function Anonymous(rows: Rows): Rows {
    map id | id in rows :: if rows[id].showSender then rows[id] else rows[id].(senderName := None)
  }

  lemma AnonymousRow(rows: Rows, token: string)
    requires UniqueTokens(rows)
    ensures var file, file' := RowOf(rows, token), RowOf(Anonymous(rows), token);
            && (file.Some? <==> file'.Some?)
            && (file.Some? ==> file'.value == if file.value.showSender then file.value
                                              else file.value.(senderName := None))
  {
    var a, b := FindByToken(rows, token), FindByToken(Anonymous(rows), token);
    if a.Some? {
      assert a.value in Anonymous(rows);
    }
    if b.Some? {
      assert b.value in rows;
    }
  }

  /** No conversation depends on the name of a sender who chose not to show it. */
  lemma {:induction false} HiddenSendersStayHidden(
    rows: Rows, queries: seq<Query>, compare: (string, string) -> bool)
    requires UniqueTokens(rows)
    ensures Conversation(rows, queries, compare) == Conversation(Anonymous(rows), queries, compare)
  {
    if queries != [] {
      HiddenSendersStayHidden(rows, queries[..|queries| - 1], compare);
      AnonymousRow(rows, queries[|queries| - 1].token);
    }
  }

  // ---- what is revealed ----

  /** All that GETs reveal of a token over time. */
  datatype Revealed = NoSuchFile | Over | InAnalysis(metadata: Metadata) | Offered(metadata: Metadata)

  function Reveal(file: Option<Row>): Revealed {
    if file.None? || !Visible(file.value.state) then NoSuchFile
    else if file.value.state.Expired? then Over
    else if file.value.state.Ready? then Offered(ToMetadata(file.value))
    else InAnalysis(ToMetadata(file.value))
  }

  /** GETs on two tokens agree at all times exactly when the tokens reveal the same. */
  lemma GetsRevealExactly(a: Option<Row>, b: Option<Row>)
    ensures (forall now: int :: PageOf(a, now) == PageOf(b, now)) <==> Reveal(a) == Reveal(b)
  {
    if forall now: int :: PageOf(a, now) == PageOf(b, now) {
      var early := Min(if a.Some? then a.value.expiresAt else 0, if b.Some? then b.value.expiresAt else 0);
      assert PageOf(a, early) == PageOf(b, early);
    }
  }
}
