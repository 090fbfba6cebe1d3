/** What a recipient who holds a link can observe. */
module Download {
  import opened Base
  import opened FileRows

  datatype Metadata = Metadata(
    originalName: string,
    sizeBytes: int,
    mimeType: string,
    expiresAt: int,
    passwordRequired: bool,
    senderName: Option<string>)

  datatype DownloadError = NotValid | GoneExpired | GoneScanning | WrongPassword

  datatype Page = ReadyPage(metadata: Metadata) | ScanningPage(metadata: Metadata)

  /** The arguments given to the signer of a download URL; the signature itself is a foreign call. */
  datatype SignedUrl = SignedUrl(key: Option<Key>, filename: string)

  /** The row the unique index on `downloadToken` finds. */
  ghost function FindByToken(rows: Rows, token: string): (r: Option<FileId>)
    ensures r.Some? ==> r.value in rows && rows[r.value].downloadToken == token
    ensures r.None? ==> forall id :: id in rows ==> rows[id].downloadToken != token
  {
    if id: FileId :| id in rows && rows[id].downloadToken == token then Some(id) else None
  }

  ghost predicate UniqueTokens(rows: Rows) {
    forall a, b :: a in rows && b in rows && rows[a].downloadToken == rows[b].downloadToken ==> a == b
  }

  predicate Resolvable(state: FileState) {
    state.Uploaded? || state.Scanning? || state.Ready?
  }

  /** The gate of the product, on the row found for a token. */
  function Resolve(file: Option<Row>, now: int): Result<Row, DownloadError> {
    if file.None? || !Resolvable(file.value.state) then
      if file.Some? && file.value.state.Expired? then Err(GoneExpired) else Err(NotValid)
    else if file.value.state.Ready? && file.value.expiresAt < now then Err(GoneExpired)
    else Ok(file.value)
  }

  function Truthy(s: Option<string>): bool {
    s.Some? && s.value != ""
  }

  function ToMetadata(file: Row): Metadata {
    Metadata(file.originalName, file.sizeBytes, file.mimeType, file.expiresAt, Truthy(file.passwordHash),
             if file.showSender then file.senderName else None)
  }

  function PageOf(file: Option<Row>, now: int): Result<Page, DownloadError> {
    match Resolve(file, now)
    case Err(e) => Err(e)
    case Ok(row) => if row.state.Ready? then Ok(ReadyPage(ToMetadata(row))) else Ok(ScanningPage(ToMetadata(row)))
  }

  /** `compare` is the password comparison, a foreign call. */
  function UrlOf(file: Option<Row>, password: Option<string>, now: int, compare: (string, string) -> bool)
    : Result<SignedUrl, DownloadError>
  {
    match Resolve(file, now)
    case Err(e) => Err(e)
    case Ok(row) =>
      if !row.state.Ready? then Err(GoneScanning)
      else if Truthy(row.passwordHash) && !(Truthy(password) && compare(password.value, row.passwordHash.value)) then
        Err(WrongPassword)
      else Ok(SignedUrl(row.storageKey, row.originalName))
  }

  ghost function RowOf(rows: Rows, token: string): Option<Row> {
    var id := FindByToken(rows, token);
    if id.Some? then Some(rows[id.value]) else None
  }

  /** `GET /d/:token`. */
  ghost function GetMetadata(rows: Rows, token: string, now: int): Result<Page, DownloadError> {
    PageOf(RowOf(rows, token), now)
  }

  /** `POST /d/:token`. */
  ghost function VerifyPasswordAndGetUrl(
    rows: Rows, token: string, password: Option<string>, now: int, compare: (string, string) -> bool)
    : Result<SignedUrl, DownloadError>
  {
    UrlOf(RowOf(rows, token), password, now, compare)
  }

  /** The row is there for the recipient, to be fetched or in analysis. */
  predicate Offered(row: Row, now: int) {
    row.state.Ready? && now <= row.expiresAt
  }

  predicate InAnalysis(row: Row) {
    row.state.Uploaded? || row.state.Scanning?
  }

  predicate PastAndOver(row: Row, now: int) {
    row.state.Expired? || (row.state.Ready? && row.expiresAt < now)
  }

  /** What a GET on the link of a row answers: the page to fetch it exactly while it is ready and unexpired, the page to
      wait exactly while it is uploaded or scanning, "expired" exactly when it is over, and nothing it tells otherwise;
      the page shows the row's own name, type, size and date, whether there is a password, and the sender if shown. */
  lemma PageSaysHowItStands(rows: Rows, id: FileId, now: int)
    requires UniqueTokens(rows) && id in rows
    ensures var row := rows[id];
            var page := GetMetadata(rows, row.downloadToken, now);
            && (page.Ok? && page.value.ReadyPage? <==> Offered(row, now))
            && (page.Ok? && page.value.ScanningPage? <==> InAnalysis(row))
            && (page == Err(GoneExpired) <==> PastAndOver(row, now))
            && (page == Err(NotValid) <==> row.state.Pending? || row.state.Rejected? || row.state.Abandoned?)
            && (page.Ok? ==>
                  var shown := page.value.metadata;
                  && shown.originalName == row.originalName && shown.sizeBytes == row.sizeBytes
                  && shown.mimeType == row.mimeType && shown.expiresAt == row.expiresAt
                  && (shown.passwordRequired <==> row.passwordHash.Some? && row.passwordHash.value != "")
                  && shown.senderName == if row.showSender then row.senderName else None)
  {
    assert FindByToken(rows, rows[id].downloadToken) == Some(id);
  }

  /** A link nobody gave out. */
  lemma UnknownTokenIsNotValid(
    rows: Rows, token: string, password: Option<string>, now: int, compare: (string, string) -> bool)
    requires forall id :: id in rows ==> rows[id].downloadToken != token
    ensures GetMetadata(rows, token, now) == Err(NotValid)
    ensures VerifyPasswordAndGetUrl(rows, token, password, now, compare) == Err(NotValid)
  {
    assert FindByToken(rows, token).None?;
  }

  /** A URL is signed exactly for a ready and unexpired file whose password, if it has one, was given; a wrong password
      is only ever answered for such a file, so it tells nothing about any other; every other answer tells how the
      row stands. */
  lemma OnlyThePasswordSigns(
    rows: Rows, id: FileId, password: Option<string>, now: int, compare: (string, string) -> bool)
    requires UniqueTokens(rows) && id in rows
    ensures var row := rows[id];
            var reply := VerifyPasswordAndGetUrl(rows, row.downloadToken, password, now, compare);
            var offered := Offered(row, now);
            var given := !(row.passwordHash.Some? && row.passwordHash.value != "")
                         || (&& password.Some? && password.value != ""
                             && compare(password.value, row.passwordHash.value));
            && (reply.Ok? <==> offered && given)
            && (reply == Err(WrongPassword) <==> offered && !given)
            && (reply == Err(GoneScanning) <==> InAnalysis(row))
            && (reply == Err(GoneExpired) <==> PastAndOver(row, now))
            && (reply == Err(NotValid) <==> row.state.Pending? || row.state.Rejected? || row.state.Abandoned?)
            && (reply.Ok? ==> reply.value == SignedUrl(row.storageKey, row.originalName))
  {
    assert FindByToken(rows, rows[id].downloadToken) == Some(id);
  }
}
