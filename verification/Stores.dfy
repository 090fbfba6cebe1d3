/** The three stores and the clock, and the effect of each single call the services make to them. */
module Stores {
  import opened Base
  import opened FileRows

  /** An open multipart upload: the key it will write and the parts received so far. */
  datatype Upload = Upload(key: Key, parts: map<nat, Bytes>)

  /** A validation job. Its id is the file id; `failures` counts the attempts already lost. */
  datatype Job = Waiting(failures: nat) | Active(failures: nat, worker: nat) | Failed

  const JOB_ATTEMPTS: nat := 3

  datatype Stores = Stores(
    rows: Rows,
    objects: map<Key, Bytes>,
    uploads: map<UploadId, Upload>,
    jobs: map<FileId, Job>,
    now: int)

  // ---- object storage ----

  predicate Ascending(selection: seq<nat>) {
    forall i, j :: 0 <= i < j < |selection| ==> selection[i] < selection[j]
  }

  function Assemble(parts: map<nat, Bytes>, selection: seq<nat>): Bytes
    requires forall p :: p in selection ==> p in parts
  {
    if selection == [] then [] else parts[selection[0]] + Assemble(parts, selection[1..])
  }

  /** The request is accepted: the upload is open under that key and every selected part is there, in order. */
  predicate Completable(s: Stores, key: Option<Key>, upload: Option<UploadId>, selection: seq<nat>) {
    && key.Some?
    && upload.Some?
    && upload.value in s.uploads
    && s.uploads[upload.value].key == key.value
    && selection != []
    && Ascending(selection)
    && forall p :: p in selection ==> p in s.uploads[upload.value].parts
  }

  /** `CompleteMultipartUpload`: the object appears and the upload id dies, at once. */
  function FinishUpload(s: Stores, key: Option<Key>, upload: Option<UploadId>, selection: seq<nat>): Stores
    requires Completable(s, key, upload, selection)
  {
    s.(objects := s.objects[key.value := Assemble(s.uploads[upload.value].parts, selection)],
       uploads := s.uploads - {upload.value})
  }

  predicate Abortable(s: Stores, key: Option<Key>, upload: Option<UploadId>) {
    key.Some? && upload.Some? && upload.value in s.uploads && s.uploads[upload.value].key == key.value
  }

  function Object(s: Stores, key: Option<Key>): Option<Bytes> {
    if key.Some? then Get(s.objects, key.value) else None
  }

  /** `DeleteObject`, idempotent. */
  function RemoveObject(s: Stores, key: Key): Stores {
    s.(objects := s.objects - {key})
  }

  function RemoveUpload(s: Stores, upload: UploadId): Stores {
    s.(uploads := s.uploads - {upload})
  }

  // ---- rows ----

  /** `file.update`: every write also moves `updatedAt`. */
  function SetState(s: Stores, id: FileId, state: FileState): Stores
    requires id in s.rows
  {
    s.(rows := s.rows[id := s.rows[id].(state := state, updatedAt := s.now)])
  }

  function RejectRow(s: Stores, id: FileId): Stores
    requires id in s.rows
  {
    s.(rows := s.rows[id := s.rows[id].(state := Rejected, storageKey := None, updatedAt := s.now)])
  }

  /** What is left of an expired file: no key, no password, the time of the transition. */
  function Tombstone(row: Row, now: int): Row {
    row.(state := Expired, storageKey := None, passwordHash := None, updatedAt := now)
  }

  function ExpireRow(s: Stores, id: FileId): Stores
    requires id in s.rows
  {
    s.(rows := s.rows[id := Tombstone(s.rows[id], s.now)])
  }

  function DropRow(s: Stores, id: FileId): Stores {
    s.(rows := s.rows - {id})
  }

  // ---- queue ----

  /** `queue.add` with the file id as job id: ignored while a job of that id is kept (a failed one is kept). */
  function Enqueue(s: Stores, id: FileId): Stores {
    if id in s.jobs then s else s.(jobs := s.jobs[id := Waiting(0)])
  }

  // ---- the `findMany` filters ----

  predicate ExpiryDue(row: Row, now: int) {
    row.state.Ready? && row.expiresAt < now
  }

  predicate GhostDue(row: Row, now: int) {
    (row.state.Expired? || row.state.Rejected?) && row.updatedAt < now - GHOST_ROW_TTL_DAYS * MS_PER_DAY
  }

  predicate ReapDue(row: Row, now: int) {
    row.state.Pending? && row.createdAt < now - ABANDONED_UPLOAD_TTL_HOURS * MS_PER_HOUR
  }

  predicate StaleScan(row: Row, now: int) {
    row.state.Scanning? && row.updatedAt < now - SCANNING_STALE_AFTER_MS
  }

  datatype Filter = ForExpiry | ForGhosts | ForReaper | ForRequeue

  predicate Selected(filter: Filter, row: Row, now: int) {
    match filter
    case ForExpiry => ExpiryDue(row, now)
    case ForGhosts => GhostDue(row, now)
    case ForReaper => ReapDue(row, now)
    case ForRequeue => StaleScan(row, now)
  }

  /** `ids` is an answer of `findMany`: the matching rows, each once, in whatever order. */
  ghost predicate Lists(s: Stores, filter: Filter, ids: seq<FileId>) {
    && (forall id :: id in ids <==> id in s.rows && Selected(filter, s.rows[id], s.now))
    && forall i, j :: 0 <= i < j < |ids| ==> ids[i] != ids[j]
  }
}
