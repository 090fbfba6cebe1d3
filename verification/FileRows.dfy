/** The `File` row, its seven states, and the admission checks of an upload request. */
module FileRows {
  import opened Base
  import MagicBytes

  datatype FileState = Pending | Uploaded | Scanning | Ready | Rejected | Expired | Abandoned

  // Identifiers are random UUIDs in the source: here row ids, object keys and upload ids are integers.
  type FileId = int
  type Key = int
  type UploadId = int
  type OwnerId = int

  const MAX_FILE_SIZE_BYTES: nat := 1024 * 1024 * 1024
  const PART_SIZE_BYTES: nat := 8 * 1024 * 1024
  const CLAMAV_MAX_SCAN_BYTES: nat := 1024 * 1024 * 1024
  const DEFAULT_EXPIRY_DAYS: nat := 7
  const MAX_EXPIRY_DAYS: nat := 7
  const MAX_TAG_LENGTH: nat := 30

  // Times are in milliseconds, as `Date.now()` gives them.
  const MS_PER_HOUR: nat := 60 * 60 * 1000
  const MS_PER_DAY: nat := 24 * MS_PER_HOUR
  const GHOST_ROW_TTL_DAYS: nat := 7
  const ABANDONED_UPLOAD_TTL_HOURS: nat := 48
  const SCANNING_STALE_AFTER_MS: nat := 15 * 60 * 1000

  /** A row. `senderName` is the display name joined from the owner. */
  datatype Row = Row(
    ownerId: OwnerId,
    originalName: string,
    mimeType: string,
    sizeBytes: int,
    storageKey: Option<Key>,
    uploadId: Option<UploadId>,
    downloadToken: string,
    passwordHash: Option<string>,
    expiresAt: int,
    createdAt: int,
    updatedAt: int,
    showSender: bool,
    senderName: Option<string>,
    tags: seq<string>,
    state: FileState)

  type Rows = map<FileId, Row>

  /** A tag with its lower case, a foreign call. */
  datatype Tag = Tag(text: string, lowered: string)

  /** The body of an initiate request, with what the service draws at random: token and password hash. */
  datatype UploadRequest = UploadRequest(
    ownerId: OwnerId,
    originalName: string,
    mimeType: string,
    sizeBytes: int,
    expiresInDays: Option<int>,
    passwordHash: Option<string>,
    showSender: bool,
    senderName: Option<string>,
    tags: seq<Tag>,
    downloadToken: string)

  datatype UploadError = InvalidBody | BlockedExtension | TooLarge | DuplicateTags

  function LastDot(name: string): (r: int)
    ensures -1 <= r < |name|
  {
    if name == [] then -1
    else if name[|name| - 1] == '.' then |name| - 1
    else LastDot(name[..|name| - 1])
  }

  function ExtensionOf(name: string): string {
    if LastDot(name) == -1 then "" else MagicBytes.Lower(name[LastDot(name) + 1..])
  }

  lemma {:induction false} DotsAfterLast(stem: string, ext: string)
    requires '.' !in ext
    ensures LastDot(stem + "." + ext) == |stem|
    decreases |ext|
  {
    var name := stem + "." + ext;
    if ext == "" {
      assert name[|name| - 1] == '.';
    } else {
      assert name[|name| - 1] == ext[|ext| - 1];
      assert name[..|name| - 1] == stem + "." + ext[..|ext| - 1];
      DotsAfterLast(stem, ext[..|ext| - 1]);
    }
  }

  lemma {:induction false} NoDot(name: string)
    requires '.' !in name
    ensures LastDot(name) == -1
  {
    if name != "" {
      NoDot(name[..|name| - 1]);
    }
  }

  /** The extension is what follows the last dot, in lower case; a name without a dot has none. */
  lemma ExtensionFollowsLastDot(stem: string, ext: string)
    requires '.' !in ext
    ensures ExtensionOf(stem + "." + ext) == MagicBytes.Lower(ext)
    ensures ExtensionOf(ext) == ""
  {
    DotsAfterLast(stem, ext);
    assert (stem + "." + ext)[|stem| + 1..] == ext;
    NoDot(ext);
  }

  const BLOCKED_EXTENSIONS: set<string> := {
    "exe", "bat", "cmd", "com", "scr", "msi", "ps1", "vbs", "js", "jar", "sh", "dll", "app", "docm", "xlsm", "pptm",
    "iso", "lnk"
  }

  /** The list of blocked extensions is met alike by `Lower` and by `toLowerCase`. */
  lemma LowerBlocksTheSame(lowered: string, ext: string)
    requires MagicBytes.IsLowerCaseOf(lowered, ext)
    ensures lowered in BLOCKED_EXTENSIONS <==> MagicBytes.Lower(ext) in BLOCKED_EXTENSIONS
  {
    if !MagicBytes.Ascii(MagicBytes.Lower(ext)) {
      OnlyAsciiIsBlocked(lowered);
      OnlyAsciiIsBlocked(MagicBytes.Lower(ext));
    }
  }

  lemma OnlyAsciiIsBlocked(extension: string)
    requires !MagicBytes.Ascii(extension)
    ensures extension !in BLOCKED_EXTENSIONS
  {}

  /** A name that ends in `.ln` and the Kelvin sign is blocked as `lnk` is. */
  lemma KelvinSignIsBlocked(stem: string)
    ensures ExtensionOf(stem + "." + ("ln" + [MagicBytes.KELVIN_SIGN])) in BLOCKED_EXTENSIONS
  {
    var ext := "ln" + [MagicBytes.KELVIN_SIGN];
    ExtensionFollowsLastDot(stem, ext);
    assert MagicBytes.Lower(ext) == "lnk";
  }

  predicate ValidBody(r: UploadRequest) {
    && |r.originalName| <= 255 && |r.mimeType| <= 127
    && r.sizeBytes > 0
    && (r.expiresInDays.Some? ==> 1 <= r.expiresInDays.value <= MAX_EXPIRY_DAYS)
    && |r.tags| <= 20 && forall i :: 0 <= i < |r.tags| ==> |r.tags[i].text| <= MAX_TAG_LENGTH
  }

  function Lowered(tags: seq<Tag>): (keys: seq<string>)
    ensures |keys| == |tags|
  {
    seq(|tags|, i requires 0 <= i < |tags| => tags[i].lowered)
  }

  /** As many lower-cased tags in a set as in the list. */
  predicate DistinctTags(tags: seq<Tag>) {
    |SetOf(Lowered(tags))| == |tags|
  }

  function SetOf(keys: seq<string>): set<string> {
    set key | key in keys
  }

  /** The checks made before anything is created: the request body, the extension, the declared size, the tags. */
  function Admit(r: UploadRequest): Result<int, UploadError> {
    if !ValidBody(r) then Err(InvalidBody)
    else if ExtensionOf(r.originalName) in BLOCKED_EXTENSIONS then Err(BlockedExtension)
    else if r.sizeBytes > MAX_FILE_SIZE_BYTES then Err(TooLarge)
    else if !DistinctTags(r.tags) then Err(DuplicateTags)
    else Ok(if r.expiresInDays.Some? then r.expiresInDays.value else DEFAULT_EXPIRY_DAYS)
  }

  predicate AllDiffer(keys: seq<string>) {
    forall i, j :: 0 <= i < j < |keys| ==> keys[i] != keys[j]
  }

  /** A list is as long as its set exactly when nothing occurs twice. */
  lemma {:induction false} SetKeepsLength(keys: seq<string>)
    ensures |SetOf(keys)| <= |keys|
    ensures |SetOf(keys)| == |keys| <==> AllDiffer(keys)
  {
    if keys != [] {
      var init, last := keys[..|keys| - 1], keys[|keys| - 1];
      SetKeepsLength(init);
      assert SetOf(keys) == SetOf(init) + {last};
      LastDiffers(keys);
    }
  }

  lemma LastDiffers(keys: seq<string>)
    requires keys != []
    ensures var init, last := keys[..|keys| - 1], keys[|keys| - 1];
            AllDiffer(keys) <==> AllDiffer(init) && last !in SetOf(init)
  {
    var init, last := keys[..|keys| - 1], keys[|keys| - 1];
    assert keys == init + [last];
    if last in SetOf(init) {
      var i :| 0 <= i < |init| && init[i] == last;
      assert keys[i] == keys[|keys| - 1];
    } else {
      assert forall i :: 0 <= i < |init| ==> init[i] in SetOf(init);
    }
  }

  /** A request is admitted exactly when its body is valid, its extension not blocked, its size within the limit and
      no two tags alike but for case. */
  lemma AdmissionIsExact(r: UploadRequest)
    ensures Admit(r).Ok? <==>
            && ValidBody(r) && ExtensionOf(r.originalName) !in BLOCKED_EXTENSIONS && r.sizeBytes <= MAX_FILE_SIZE_BYTES
            && forall i, j :: 0 <= i < j < |r.tags| ==> r.tags[i].lowered != r.tags[j].lowered
    ensures Admit(r).Ok? ==> Admit(r).value == if r.expiresInDays.Some? then r.expiresInDays.value else 7
    ensures Admit(r) == Err(InvalidBody) <==> !ValidBody(r)
    ensures Admit(r) == Err(BlockedExtension) <==>
            ValidBody(r) && ExtensionOf(r.originalName) in BLOCKED_EXTENSIONS
    ensures Admit(r) == Err(TooLarge) <==>
            && ValidBody(r) && ExtensionOf(r.originalName) !in BLOCKED_EXTENSIONS && r.sizeBytes > MAX_FILE_SIZE_BYTES
  {
    SetKeepsLength(Lowered(r.tags));
    assert forall i :: 0 <= i < |r.tags| ==> Lowered(r.tags)[i] == r.tags[i].lowered;
  }

  /** A name with one of the two extensions that the signature check throws on is not refused for its extension, and
      no bytes whatever are then answered. */
  lemma ThrowingNamesAreAdmitted(stem: string, ext: string, body: Bytes)
    requires '.' !in ext && MagicBytes.Lower(ext) in {"constructor", "__proto__"}
    ensures ExtensionOf(stem + "." + ext) !in BLOCKED_EXTENSIONS
    ensures MagicBytes.VerifyMagicBytes(ExtensionOf(stem + "." + ext), body).Throws?
  {
    ExtensionFollowsLastDot(stem, ext);
    var found := MagicBytes.Lower(ext);
    assert |"constructor"| == 11 && |"__proto__"| == 9;
    MagicBytes.LowerIsLower(ext);
  }

  /** The row that `initiateUpload` writes. */
  function Draft(r: UploadRequest, days: int, key: Key, upload: UploadId, now: int): Row {
    Row(r.ownerId, r.originalName, r.mimeType, r.sizeBytes, Some(key), Some(upload), r.downloadToken, r.passwordHash,
        now + days * MS_PER_DAY, now, now, r.showSender, r.senderName,
        seq(|r.tags|, i requires 0 <= i < |r.tags| => r.tags[i].text), Pending)
  }

  /** Fields no operation ever writes again. */
  predicate SameIdentity(a: Row, b: Row) {
    && a.ownerId == b.ownerId
    && a.originalName == b.originalName
    && a.mimeType == b.mimeType
    && a.sizeBytes == b.sizeBytes
    && a.uploadId == b.uploadId
    && a.downloadToken == b.downloadToken
    && a.expiresAt == b.expiresAt
    && a.createdAt == b.createdAt
    && a.showSender == b.showSender
    && a.senderName == b.senderName
    && a.tags == b.tags
  }
}
