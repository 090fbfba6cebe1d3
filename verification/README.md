# DataShare: a verified model

DataShare lets a user upload a file and share a link to it. One `File` row lives in Postgres, the bytes in an S3
store, the validation jobs in a queue, and no transaction spans the three. This project models that system and proves
what it keeps in every run.

`dafny verify dfyconfig.toml` checks everything.

## How the model is built

- **The protocol** (`FileRows`, `Stores`, `Protocol`, `History`, `World`). Every service method is cut at each
  `await`: `Protocol.Op` is what an operation in flight will do next, with the local variables that are still live,
  such as the row it read earlier. `World.Event` is all that can happen: a request, a PUT on a signed URL, a job handed
  to a worker, one await of one operation, a crash or an exception of one operation, a tick. `Run(events)` is the world
  after any sequence of events, so that a lemma about `Run(events)` speaks of every interleaving, crash and retry.
- **The invariant** (`FileInvariant`, `WorldInvariant`, `Interference`, `Calls`, `Preservation`). Each file is one
  cell (row, object, multipart upload, job, history). An operation in flight carries what it knows of its file, and
  `Rely` says all that one step of any other operation may do to a file. What operations know survives `Rely`, so
  pairs of operations are never compared.
- **What follows** (`Safety`, `Lifecycle`, `ExpiryCount`, `Revival`, `Reaping`, `Stalling`, `Integrity`, `Recipients`).
  `Runs` builds the concrete runs that show where the code keeps less than one might expect.
- **The services as written** (`Services`): a class over the stores whose methods call storage, database and queue in
  order. Each is proved to perform exactly the calls of the protocol when nothing interrupts it (`Alone.RunAlone`), and
  the planned tasks to do what `Sweep` says in one piece. Their contracts give every answer and the state it leaves.
  `Undisturbed` makes each such performance a run of the whole system, from any reachable state.
- **The browser** (`UploadParts`, `Uploader`, `Sessions`): part arithmetic, the retry loops with a log of every PUT,
  cancelling, resume and its samples, and what any series of attempts makes of a file.
- **MD5** (`Words`, `Rfc1321`, `Md5`): sections 3.1 to 3.5 of RFC 1321 written out, and the buffers and loops of the
  browser proved against them, with the signed 32-bit operators of JavaScript.
- **Smaller cores**: `ClamAv` (framing and reply), `MagicBytes` (signatures), `Poller` (back-off), `Retention`.

Assumptions about the outside, all of them visible in the definitions: a job id admits one job at a time; `HeadObject`
fails only when the object is absent; an upload id dies when it is completed or aborted; `update` and `delete` of a
missing row throw, and reading an object with an empty key fails; storage tags a part with its MD5 (`TagsAreMd5`, needed
only where resumed parts are checked). Row ids, object keys and upload ids are fresh random UUIDs in the source; here
one counter stands for the three of them, and ids that name nothing are negative.

Where the code and its documents differ, the code is followed:

- the state diagram gives the reaper an `abandoned` tombstone; the reaper deletes the row and nothing ever writes
  `abandoned` (backend/src/purge/purge.service.ts:96-110);
- the comment above `resolveToken` says that a link resolves only in `ready`; `uploaded` and `scanning` resolve to a
  page without a download (backend/src/download/download.service.ts:20-24);
- the comment above `verifyMagicBytes` says that an unknown extension is answered `unverifiable`; `constructor` and
  `__proto__` find an inherited property and throw (backend/src/scan/magic-bytes.ts:55-59);
- `rejected`, `expired` and, until its date, `ready` are drawn as final; the hourly requeue can drag such a row back to
  `uploaded` (`Revival.RejectedIsNotFinal`, `Revival.ExpiredIsNotFinal` and `Revival.ReadyIsNotFinal` are such runs).
  `Revival.OnlyTheRequeueRevives` and `Revival.OnlyTwoWritesEndReady` say exactly when, and `Safety.NeverReadyAgain`
  what holds all the same;
- the reaper is described as collecting `pending` rows; an upload that is completed and accepted after the reaper listed
  it goes with its object. The reaper does read the state once more, in `deleteFileCompletely`, but only to choose what
  to remove from storage; a completion may come before that read (`Reaping.AcceptedFileIsReaped` is such a run) and also
  after it, where the object just stored is taken for an orphan (`Reaping.FileAcceptedBehindTheReaperIsReaped`).
  `Reaping.ReaperDeletesDecidedFiles` says exactly when the row it deletes is no longer pending;
- three retry delays are listed, the last of 3000 ms is never used: the third refusal gives up
  (frontend/src/components/Uploader.tsx:13-14 and 194-195);
- a queued file is expected to get a verdict; after three lost attempts its job keeps its id, so that no requeue and no
  second completion starts another (`Stalling.AcceptedFileStalls` is such a run, `Stalling.FailedJobsStallForGood` the
  general statement).

## Model

| member | source | states |
|---|---|---|
| Safety.SigningIsSafe | backend/src/download/download.service.ts:64-133 | in every run, when a POST goes on to sign, the row is ready, unexpired and keyed; the bytes ever stored have the declared length of at most 1 GiB, pass the signature check and were scanned clean in full; the object is there unless a deletion of the row has begun |
| Safety.ObjectsAreImmutable | backend/src/files/files.service.ts:155-166 | in every run an object found twice under a key is the same bytes |
| Safety.SkipScanBranchIsDead | backend/src/scan/validation.service.ts:64-72 | no run reaches the branch that skips the antivirus scan |
| Safety.OneValidatorPerFile | backend/src/scan/scan-queue.service.ts:23-36 | the job id makes the validation of a file exclusive, requeues and retries included |
| Safety.NoOrphanedObject | backend/src/files/file-deletion.service.ts:48-86 | in every reachable state, crashes between storage and row included, a stored object is named by the key of a row |
| Safety.NoOrphanedUpload | backend/src/files/files.service.ts:148-238 | an open multipart upload that has received a part belongs to a pending row |
| Safety.DeletionIsFinal | backend/src/files/file-deletion.service.ts:48-86 | once a complete deletion returns, whatever was in flight, row, object and multipart are gone for ever |
| Safety.GoneStaysGone | backend/src/files/file-deletion.service.ts:97-108 | a created file without a row has left nothing in storage, and no later event of anybody brings anything back |
| Safety.NeverReadyAgain | backend/src/scan/scan.worker.ts:60-76 | a row that was once rejected or expired never becomes ready again and its object never comes back, a stale requeue notwithstanding |
| Safety.KeyIsEmptyExactlyWhenSettled | backend/src/purge/purge.service.ts:57-64 | the key of a row is empty if and only if the row was once rejected or expired, and otherwise it is its own |
| Revival.OnlyTheRequeueRevives | backend/src/scan/scan.worker.ts:67-71 | a rejected or expired row that lasts changes state if and only if the event is the unguarded write of the requeue, and it then reads uploaded with an empty key |
| Revival.ExpiredIsNotFinal | backend/src/purge/purge.service.ts:57-64 | a concrete run after which a row is expired, and one more event after which it is uploaded |
| Reaping.ReaperDeletesDecidedFiles | backend/src/purge/purge.service.ts:96-107 | in every run a row the reaper deletes was listed by it while pending and overdue, and it is no longer pending if and only if a completion wrote that file at any moment between the listing and the deletion |
| Reaping.ReaperMeetsDecidedFiles | backend/src/files/file-deletion.service.ts:48-77 | the same at every call of the reaper's deletion while the row is there |
| Reaping.ReaperFollowsItsListing | backend/src/purge/purge.service.ts:100-107 | every file the reaper deletes or still has to visit was named by a listing of the same sweep |
| Reaping.EventLeavesPending | backend/src/files/files.service.ts:163-194 | one event takes a row out of pending if and only if it is one of the two writes of a completion, and no event puts it back |
| Reaping.ReaperTakesItAll | backend/src/files/file-deletion.service.ts:48-77 | a file that is no longer pending loses its object and its row to the reaper all the same |
| Reaping.AcceptedFileIsReaped | backend/src/purge/purge.service.ts:100-107 | a concrete run in which a completed and accepted file stands before the reaper, whose next three calls remove its object and its row |
| Reaping.FileAcceptedBehindTheReaperIsReaped | backend/src/files/file-deletion.service.ts:54-76 | a concrete run in which the reaper reads a pending row, the upload is then completed and accepted, and the reaper deletes the accepted row, its object gone and its job waiting |
| Revival.OnlyTwoWritesEndReady | backend/src/scan/scan.worker.ts:67-71 | a ready row that lasts leaves ready if and only if the event is the expiry pass's guarded write, which finds it past its date, or the requeue's unguarded one, which leaves it uploaded with its key |
| Revival.ReadyIsNotFinal | backend/src/scan/scan.worker.ts:60-76 | a concrete run after which a row is ready and before its date, and one more event after which it is uploaded |
| Stalling.FailedJobsStallForGood | backend/src/scan/scan-queue.service.ts:23-36 | once the job of a file that is not ready has failed, whatever follows, it stays failed, nobody validates the file and the file never becomes ready |
| Stalling.AcceptedFileStalls | backend/src/scan/scan.worker.ts:46-76 | a concrete run in which an accepted file with its object is never ready, whatever follows |
| Safety.ThrowingNameIsNeverReady | backend/src/scan/magic-bytes.ts:55-59 | in every run a file whose extension makes the signature check throw is never ready |
| Safety.ExpiredRowsKeepNoHash | backend/src/purge/purge.service.ts:57-64 | in every run an expired row has no password hash and no key |
| Safety.RowsEndure | backend/src/files/files.service.ts:80-98 | between two sightings of a row in any run, what the sender said of the file is the same, and key and password hash are the same or gone |
| Lifecycle.EveryChangeIsAStep | backend/prisma/schema.prisma:51-74 | in every run an event changes a row only by one of seven writes of an operation on this very file; the new row is then given in full, and its state goes one step of the documented cycle, or is set back to uploaded by the requeue |
| Lifecycle.NobodyWritesAMissingRow | backend/src/scan/validation.service.ts:98-110 | an operation that meant to write a row that is gone changes nothing and throws, but for the expiry pass, whose guarded write matches nothing |
| Stalling.JobsHaveThreeAttempts | backend/src/scan/scan-queue.service.ts:23-36 | in every run a job waits or runs only while it has lost at most two attempts, and losing a third makes it failed |
| Undisturbed.AloneIsARun | backend/src/files/file-deletion.service.ts:48-77 | from every reachable state an operation of which every await follows the other runs to its end, and the stores are then what its calls make of them, whatever else is in flight |
| Undisturbed.OwnersDeletionSucceeds | backend/src/files/file-deletion.service.ts:16-77 | from every reachable state an owner's request to delete his file, run alone, removes its row, object and upload for good, and changes nothing of any other file |
| Undisturbed.SoundUploadBecomesReady | backend/src/scan/validation.service.ts:25-93 | from every reachable state an open upload whose parts make an object of the declared size that passes the signature check becomes ready with exactly that object, by the completion and then a validation with a clean scan, each run alone |
| Revival.RejectedIsNotFinal | backend/src/scan/scan.worker.ts:60-76 | a concrete run after which a row is rejected, and one more event after which it is uploaded |
| Preservation.RunKeepsInv | backend/src/files/file-deletion.service.ts:48-108 | every event of every actor keeps the invariant of all files and of all operations in flight |
| Preservation.CallKeepsInv | backend/src/files/files.service.ts:148-201 | one await of any service keeps the invariant and changes one file only, within what others rely on |
| Interference.KnowledgeIsStable | backend/src/scan/validation.service.ts:25-85 | what an operation learned from an earlier read survives any step of any other operation |
| Calls.CompleteCallIsSound | backend/src/files/files.service.ts:148-208 | each await of completeUpload is sound for its file and hands its successor what it needs |
| Calls.AbortCallIsSound | backend/src/files/files.service.ts:234-238 | the same for abortUpload |
| Calls.DeleteCallIsSound | backend/src/files/file-deletion.service.ts:16-86 | the same for deleteOwnedFile and deleteFileCompletely |
| Calls.ValidateCallIsSound | backend/src/scan/validation.service.ts:25-110 | the same for validate, markReady and reject |
| Calls.RequeueCallIsSound | backend/src/scan/scan.worker.ts:67-74 | the same for one element of the requeue |
| Calls.ExpireCallIsSound | backend/src/purge/purge.service.ts:50-66 | the same for one element of the expiry pass |
| Calls.EnqueueIsSound | backend/src/scan/scan-queue.service.ts:23-36 | a second job of the same id changes nothing at all, whether the first waits, runs or has failed; otherwise one job waits, and either is sound for the file |
| ExpiryCount.ReturnedCountIsExact | backend/src/purge/purge.service.ts:43-69 | a finished run of expireReadyFiles returned exactly the number of files that run moved from ready to expired, whatever ran beside it |
| ExpiryCount.EachMoveCountsOnce | backend/src/purge/purge.service.ts:57-65 | a move from ready to expired is one guarded write of one run, never attributed before and never attributed again |
| ExpiryCount.RunKeepsCounts | backend/src/purge/purge.service.ts:43-69 | at every point of every run the count of each sweep in flight, returned or dead equals the moves that sweep made, the result of its last write included |
| ExpiryCount.EachMoveAddsOneToTheSum | backend/src/purge/purge.service.ts:43-69 | over any number of concurrent sweeps, in flight, returned or dead, the sets of moved files are disjoint, together they are exactly the files some event moved from ready to expired, and the counts add up to their number |
| Integrity.AcceptedUploadIsTheFile | backend/src/files/files.service.ts:148-201 | in every run whose PUTs on an upload carry the file's own slices, in any order and number, a row that left pending and kept its key stores exactly the file |
| Integrity.RunKeepsFaithful | backend/src/files/files.service.ts:155-191 | in such a run every part is the file's own slice and every object of the file's length is the file |
| UploadParts.PartCountBounds | backend/src/files/files.service.ts:64-65 | every size from 1 byte to 1 GiB is cut in 1 to 128 parts |
| UploadParts.PartShape | frontend/src/components/Uploader.tsx:171-172 | every part but the last is full, and the last is not empty and ends the file |
| UploadParts.AllPartsAreTheFile | frontend/src/components/Uploader.tsx:170-173 | the slices from any part on concatenate to the rest of the file |
| UploadParts.SizeCheckForcesTheFile | backend/src/files/files.service.ts:155-191 | with the file's own slices, an ascending selection has the declared length if and only if it takes every part, and then the object is the file |
| UploadParts.MissingIsTheRest | backend/src/files/files.service.ts:125-133 | the missing parts are exactly the numbers of 1..N that storage does not have, ascending |
| UploadParts.SortOrders | frontend/src/components/Uploader.tsx:464-466 | sorting parts with distinct numbers gives them in strictly ascending order, the same parts |
| UploadParts.SortedPartsAreTheRange | frontend/src/components/Uploader.tsx:464-466 | parts that cover 1..N once each are sent as 1..N without gap or repeat |
| Uploader.Tab.SendPart | frontend/src/components/Uploader.tsx:175-202 | one to three PUTs of the part's own bytes, none after a click on cancel, each but the last refused, the second after a pause of 500 ms and the third after 1500 ms; refused is answered exactly after three refusals, stored and left only as the last PUT ended, aborted only on a click; a click sends one request to abort; progress stays within the part |
| Uploader.Tab.UploadParts | frontend/src/components/Uploader.tsx:153-215 | the parts are attempted in the order asked for, the next only once the last was confirmed; it fails only once the same part was refused three times, is left only in the middle of a PUT and is cancelled exactly on a click; the parts reported as sent are all those asked for, each stored with its own slice and tag; progress never exceeds and at the end equals the bytes already sent plus those of the parts |
| Uploader.EachPutIsOwn | frontend/src/components/Uploader.tsx:165-206 | the PUTs of a session are at least one and at most three for each part attempted, and each carries the file's own bytes of a part that was to be sent |
| Uploader.Tab.PutPart | frontend/src/components/Uploader.tsx:106-145 | one PUT: what storage may hold afterwards, the tag of a confirmed part, an aborted transfer exactly on a click, and progress within the part |
| Uploader.Tab.HandleCancelClick | frontend/src/components/Uploader.tsx:499-520 | the first click asks the server to abort, every other does nothing |
| Uploader.Tab.StartFreshUpload | frontend/src/components/Uploader.tsx:347-393 | a fresh session that asks for completion has stored every part; it fails only after three refusals of one part, is cancelled exactly on a click, with one request to abort, and sends nothing but the file's own parts |
| Uploader.Tab.HandleResumeFile | frontend/src/components/Uploader.tsx:412-470 | a resume that asks for completion posts 1..N with the tag of each stored part, leaves completed parts alone and fills the others with the selected file's slices; whatever it sends, the samples agreed first; a refusal sends nothing and changes nothing; failure and cancellation as in a fresh session |
| Uploader.Tab.SendMissing | frontend/src/components/Uploader.tsx:445-468 | the half of a resume after the samples: the missing parts, then the merged list |
| Uploader.ListingSplits | backend/src/files/files.service.ts:122-145 | completed and missing parts split 1..N exactly |
| Uploader.MergedInOrder | frontend/src/components/Uploader.tsx:464-466 | the merged and sorted list is 1..N, each with the tag of what storage holds |
| Uploader.VerifyCompletedParts | frontend/src/components/Uploader.tsx:222-247 | for every random draw the right file passes; the first and the last completed part and one in between were checked; up to three completed parts all were |
| Uploader.StrippedTag | frontend/src/components/Uploader.tsx:239-244 | without its quotes the tag of a part is the digest the browser computes |
| Sessions.RightFilePasses | frontend/src/components/Uploader.tsx:222-247 | every part of the file that was being sent agrees with its listed tag and size |
| Sessions.AllPartsMakeTheFile | backend/src/files/files.service.ts:155-191 | with every part stored, completing 1..N makes exactly the file and passes the size check |
| Sessions.FreshProgress | frontend/src/components/Uploader.tsx:208-211 | a fresh session that ends by asking has announced the size of the file |
| Sessions.ResumeProgress | frontend/src/components/Uploader.tsx:445-457 | the listed sizes and the sizes of the missing parts add up to the size of the file |
| Sessions.SendFile | frontend/src/components/Uploader.tsx:347-470 | a first attempt and any number of resumes, each after one that failed or was cut short at any PUT: no session refuses the file, what is completed is exactly the file, only its own parts are sent, progress never exceeds its size, and the server is asked to abort once if the user cancels and never otherwise |
| Sessions.SendFileToStorage | frontend/src/components/Uploader.tsx:347-470 | the same against storage that tags parts with their quoted MD5, with nothing assumed |
| Uploader.QuotedTagsAreMd5 | frontend/src/components/Uploader.tsx:239-244 | storage that answers quoted digests meets the assumption made of tags |
| Sessions.WrongFileNeedsACollision | frontend/src/components/Uploader.tsx:217-247 | another file of the same name, size and date that passes with every completed part checked stores the selected file, or MD5 collides on a part |
| Md5.Md5HexOf | frontend/src/lib/md5.ts:19-76 | the digest in buffers and loops is that of RFC 1321 for every buffer |
| Md5.Rounds | frontend/src/lib/md5.ts:44-67 | the rotating inner loop performs the 64 listed operations of section 3.4 on every block |
| Md5.StepPerforms | frontend/src/lib/md5.ts:46-67 | one turn of the loop is the listed operation of its step, seen through the turned registers |
| Md5.TableAgrees | frontend/src/lib/md5.ts:11-61 | the computed word index, the shift table and the step index are those of the 64 listed operations |
| Md5.FAtMixes | frontend/src/lib/md5.ts:49-61 | the signed intermediate value has the bits of the round's auxiliary function |
| Md5.FoldBlocks | frontend/src/lib/md5.ts:33-73 | the loop over blocks is the fold over the blocks of the padded message |
| Md5.PadBuffer | frontend/src/lib/md5.ts:20-31 | the buffer filled in place is the padding of sections 3.1 and 3.2 |
| Md5.PaddedLengthIsLeast | frontend/src/lib/md5.ts:25-25 | the padded length is the least multiple of 64 at or above n + 9 |
| Md5.LengthBytesSplit | frontend/src/lib/md5.ts:29-31 | the eight length bytes are the two little-endian words of the bit length |
| Md5.PadIsInjective | frontend/src/lib/md5.ts:20-31 | two messages padded alike are the same message |
| Words.ShiftsJoin | frontend/src/lib/md5.ts:7-9 | the two shifts joined by or are the circular shift, for every word and count |
| Words.RotateMovesBits | frontend/src/lib/md5.ts:7-9 | the circular shift moves every bit up by the count, the highest round to the low end |
| Rfc1321.FChooses | frontend/src/lib/md5.ts:49-50 | bit by bit the first auxiliary function chooses y or z by x, as section 3.4 of RFC 1321 says |
| Rfc1321.GChooses | frontend/src/lib/md5.ts:52-53 | the second chooses x or y by z |
| Rfc1321.HIsParity | frontend/src/lib/md5.ts:55-56 | the third is the parity |
| Rfc1321.IDiffers | frontend/src/lib/md5.ts:58-59 | the fourth differs from y exactly where x is set or z is not |
| Md5.HexOfWord | frontend/src/lib/md5.ts:78-81 | masks, shifts and padded digits write the word low-order byte first |
| Md5.SameHexSameDigest | frontend/src/lib/md5.ts:75-81 | the written digests are equal if and only if the digests are |
| MagicBytes.RangedReadSuffices | backend/src/scan/validation.service.ts:47-54 | the 64-byte read gives the verdict of a full read for every extension and object |
| MagicBytes.RefusalIsAContradiction | backend/src/scan/magic-bytes.ts:51-63 | a refusal means a listed extension all of whose signatures the object contradicts, and exactly two extensions throw |
| MagicBytes.VerdictIsExact | backend/src/scan/magic-bytes.ts:51-63 | which of the four verdicts is given, for every extension and object |
| MagicBytes.MatchIsAtOffset | backend/src/scan/magic-bytes.ts:34-41 | a signature matches if and only if its bytes stand at its offset |
| MagicBytes.CapitalsChangeNothing | backend/src/scan/magic-bytes.ts:55-55 | an extension in capitals is read as in small letters |
| ClamAv.Instream | backend/src/scan/clamav.client.ts:74-91 | what is written is the command and the framed buffer, from which the daemon recovers the buffer |
| ClamAv.FramingRoundTrip | backend/src/scan/clamav.client.ts:74-91 | reading length prefixes up to the first zero recovers every buffer exactly |
| ClamAv.FrameSizes | backend/src/scan/clamav.client.ts:76-91 | every data frame has 65536 bytes but the last, which has 1 to 65536, and only the terminator is empty |
| ClamAv.SignatureRoundTrip | backend/src/scan/clamav.client.ts:34-48 | a reported signature comes back exactly, also one that contains FOUND |
| ClamAv.CleanReplyIsRead | backend/src/scan/clamav.client.ts:34-40 | a reply is clean if, without its NULs, it is white space around a text that ends with OK and does not mention FOUND |
| ClamAv.OnlyOkIsClean | backend/src/scan/clamav.client.ts:34-40 | and every clean reply is of that form |
| ClamAv.FoundIsInfected | backend/src/scan/clamav.client.ts:38-48 | a reply that mentions FOUND anywhere is read as an infection |
| ClamAv.InfectionIsExact | backend/src/scan/clamav.client.ts:34-48 | a reply is an infection if and only if it mentions FOUND, and an error of the scanner if and only if it neither mentions FOUND nor ends with OK |
| ClamAv.SignatureIsBetween | backend/src/scan/clamav.client.ts:41-47 | for every infection the signature is the trimmed reply without a leading `stream:` and a final FOUND, each only if it stands there and each with the white space next to it |
| Poller.Poll.Run | frontend/src/lib/usePollUntil.ts:11-49 | the poller ends, calls back at most 33 times however late its timers are and exactly 33 times when none is, so 34 requests at most against a limit of 60 |
| Poller.TickSpendsBudget | frontend/src/lib/usePollUntil.ts:26-40 | each turn spends part of a budget that crosses the switch of intervals |
| Sweep.SweptRowByRow | backend/src/purge/purge.service.ts:32-110 | the three passes together treat each row on its own |
| Sweep.TasksSelect | backend/src/purge/purge.service.ts:43-105 | the four tasks select exactly ready rows past their date, refused and expired rows 7 days after their last write, pending rows 48 hours after their creation, and rows scanning for 15 minutes |
| Sweep.SweepInFull | backend/src/purge/purge.service.ts:32-110 | for every file the row, the object and the upload a sweep leaves, field by field: an expired row keeps neither key nor password hash |
| Sweep.RequeueInFull | backend/src/scan/scan.worker.ts:60-76 | for every file the row and the job a requeue leaves, and that objects and uploads are untouched |
| Sweep.PassesDoNotFeedEachOther | backend/src/purge/purge.service.ts:32-37 | a pass selects what it would have selected before the passes ahead of it |
| Sweep.SweepTwiceIsSweepOnce | backend/src/purge/purge.service.ts:32-110 | a second sweep at the same instant changes nothing in any store |
| Sweep.RecipientsSeeNoSweep | backend/src/purge/purge.service.ts:32-110 | a sweep changes no GET and no POST on any token, then or later, except that old tombstones go from expired to not valid |
| Recipients.SweepIsInvisible | backend/src/download/download.service.ts:48-133 | the same in every reachable state, where tokens are unique |
| Recipients.ReachableTokensAreUnique | backend/src/files/files.service.ts:75-98 | no run leaves two rows with one token |
| Recipients.ReachableIsTidy | backend/src/files/files.service.ts:80-98 | in every run keys and upload ids are the row's own, and pending and ready rows have a key |
| Recipients.HiddenRowsAreUnknownTokens | backend/src/download/download.service.ts:20-133 | databases that agree on uploaded, scanning, ready and expired rows answer every conversation of GETs and POSTs alike |
| Recipients.WithoutThePasswordNothingLeaks | backend/src/download/download.service.ts:48-133 | no conversation in which no POST carries a right password depends on the object keys or the hashes of protected files |
| Recipients.HiddenSendersStayHidden | backend/src/download/download.service.ts:135-154 | no conversation depends on the name of a sender who chose not to show it |
| Recipients.GetsRevealExactly | backend/src/download/download.service.ts:48-133 | GETs on two tokens agree at all times if and only if the tokens show the same |
| Retention.PendingIsReaped | backend/src/purge/purge.service.ts:96-110 | from every reachable state and for every endless schedule of sweeps at most a day apart, a file left pending stands with its parts until one sweep, more than 48 and at most 72 hours after its creation, removes row, parts and object |
| Retention.ReadyExpiresAndGoes | backend/src/purge/purge.service.ts:43-90 | likewise a ready file stands with its object until a sweep within a day of its expiry, and not before, leaves a tombstone and no object; the tombstone lives more than 7 days and at most 8 |
| Retention.DeadIsPurged | backend/src/purge/purge.service.ts:75-90 | likewise a refused or expired row, written at any instant, stands with nothing in storage until a sweep more than 7 and at most 8 days after its last write |
| Retention.RowsFollow | backend/src/purge/purge.service.ts:32-110 | after any number of sweeps each row of the stores is what the sweeps make of it alone |
| Retention.SweepsAreTheTasks | backend/src/purge/purge.service.ts:32-37 | from every reachable state each sweep of a schedule finds keys and upload ids as the tasks need them |
| FileRows.AdmissionIsExact | backend/src/files/files.service.ts:36-57 | a request is admitted, with its days, if and only if its body is valid, its extension not blocked, its size within the limit and no two tags alike but for case; otherwise the error names the first of these that fails |
| FileRows.KelvinSignIsBlocked | backend/src/files/upload.constants.ts:31-34 | a name ending in .ln and the Kelvin sign is blocked as lnk is |
| FileRows.LowerBlocksTheSame | backend/src/files/upload.constants.ts:10-34 | whatever the full lower-casing makes of other letters, the same extensions are blocked |
| MagicBytes.LowerFindsTheSame | backend/src/scan/magic-bytes.ts:55-59 | whatever the full lower-casing makes of other letters, the same signatures are found and the same names throw |
| FileRows.ThrowingNamesAreAdmitted | backend/src/scan/magic-bytes.ts:55-59 | names with either of the two throwing extensions are not blocked at admission, and no bytes are then answered |
| Download.OnlyThePasswordSigns | backend/src/download/download.service.ts:64-91 | for every row, which of the five answers a POST gives: a URL if and only if the file is ready, unexpired and its password, if any, was given; the wrong-password answer for such files only; "still scanning" exactly for uploaded and scanning rows, "expired" exactly for those that are over |
| Download.PageSaysHowItStands | backend/src/download/download.service.ts:20-62 | for every row, which page or error a GET gives: the ready page exactly while ready and unexpired, the scanning page exactly while uploaded or scanning, "expired" exactly when over; and the page shows the row's own name, type, size, date, whether there is a password, and the sender only if shown |
| Download.UnknownTokenIsNotValid | backend/src/download/download.service.ts:108-133 | a token of no row is not valid for GET and POST |
| FileRows.ExtensionFollowsLastDot | backend/src/files/upload.constants.ts:31-34 | the extension is what follows the last dot, lower-cased, and a name without a dot has none |
| Services.Backend.InitiateUpload | backend/src/files/files.service.ts:36-106 | refused exactly for an invalid body, a blocked extension, a size over the limit or tags alike but for case, and then nothing is created; a token already taken leaves an empty upload and no row; otherwise a pending row with the request's fields under a fresh key, an empty upload, and the part numbers 1..N that cut the declared size |
| Services.Backend.GetUploadParts | backend/src/files/files.service.ts:108-146 | the parts storage has and exactly the other numbers of 1..N; each of the three refusals exactly when it is due |
| Services.Backend.CompleteUpload | backend/src/files/files.service.ts:148-208 | each of the six answers exactly when it is due, by owner, state, what storage accepts and the assembled size; the whole new state for each: accepted leaves the object, an uploaded row and a job, a size refusal no object and a rejected row, anything else no change |
| Services.Backend.CheckSize | backend/src/files/files.service.ts:163-201 | which of the three answers is given, and the whole new state for each |
| Services.Backend.AbortUpload | backend/src/files/files.service.ts:234-238 | each of the four answers exactly when it is due; row and upload go together, or nothing changes |
| Services.Backend.DeleteOwnedFile | backend/src/files/file-deletion.service.ts:16-34 | not found exactly for a file that is not the owner's; in stores as every run leaves them the owner's file is deleted without exception; row, object and open upload go and nothing else changes; a failure changes nothing |
| Services.Backend.DeleteFileCompletely | backend/src/files/file-deletion.service.ts:48-77 | done exactly unless a pending row has lost its key; then row, object and open upload are gone and nothing else has changed; otherwise nothing changes |
| Services.Backend.DeleteOrphanedObject | backend/src/files/file-deletion.service.ts:79-86 | the object is gone, and nothing changes if there was none |
| Services.Backend.PurgeTombstone | backend/src/files/file-deletion.service.ts:93-108 | the row is gone and a missing row is success |
| Services.Backend.Validate | backend/src/scan/validation.service.ts:25-85 | skipped exactly for a row that is neither uploaded nor scanning; otherwise ready, rejected or failed exactly as the full object, the extension, the size and the scanner's reply say: rejected on a contradicting signature or an infection, failed without object, on a throwing name or on a scanner error; the whole new state for each |
| Services.Backend.Reject | backend/src/scan/validation.service.ts:98-110 | the object is gone, the row is rejected and has lost its key, and nothing else has changed |
| Services.Backend.ExpireReadyFiles | backend/src/purge/purge.service.ts:43-69 | the loop of guarded writes does the whole first pass and counts it |
| Services.Backend.PurgeGhostRows | backend/src/purge/purge.service.ts:75-90 | the loop does the whole second pass and counts it |
| Services.Backend.ReapAbandonedUploads | backend/src/purge/purge.service.ts:96-110 | the loop does the whole third pass and counts it, completions lost before the row write included |
| Services.Backend.RunDailySweep | backend/src/purge/purge.service.ts:32-37 | the three loops in order are the sweep, and the three counts are those of the state before it |
| Services.Backend.RequeueStaleScans | backend/src/scan/scan.worker.ts:60-76 | the loop moves exactly the stale rows to uploaded and enqueues each once |

## Left out

- Liveness: that a file whose job has not failed three times gets a verdict depends on the queue, which is free here to hand out a job or not; `Undisturbed.SoundUploadBecomesReady` says what happens when it does and nobody interferes.
- Two validators on one file: excluded by the job id, as the queue promises; a worker whose job the queue takes away while it still runs is modelled as dead.
- `HeadObject` failing although the object exists: `deleteOrphanedObject` would then leave the object behind without a row.
- Storage, database, queue, socket and transfer code: replaced by stores that succeed or fail at will; a completion does not check the posted tags, so the model admits more completions than storage does.
- Throwing calls inside the class of `Services` other than those the source branches on; in the protocol any operation may die at any await.
- Uploader.VerifyCompletedParts: beyond three completed parts only the sampled ones are known to agree, which is all the code checks.
- Sessions.WrongFileNeedsACollision: MD5 collisions exist and are not excluded.
- Uploader.Tab.HandleResumeFile: one tab at a time; parts arriving from a page closed earlier are covered by `Integrity.AcceptedUploadIsTheFile` instead.
- Cancelling one attempt and starting another in the same tab: the cancel flag is shared and reset, so cancellation is stated within one attempt.
- Md5.Md5HexOf: the 64 constants are a fixed table shared by code and specification; their computation by `Math.sin` is not modelled.
- FileRows.ExtensionFollowsLastDot: `Lower` changes ASCII letters and the Kelvin sign, the one other character whose lower case is an ASCII letter; other letters are left as they are, which no list and no table can tell (`FileRows.LowerBlocksTheSame`, `MagicBytes.LowerFindsTheSame`).
- Services.Backend.InitiateUpload: the lower case of a tag is a foreign call, and the minimum length of a password is checked before its hash, which is all the model sees.
- Passwords, signatures and tokens: the comparison is an uninterpreted function, the signer's arguments are returned unsigned, random values are parameters.
- The throttler guards: outside the statements on what recipients can tell apart, which are about the service alone.
- `getUploadStatus`, `listFiles`, display helpers, dialogs and the polling of the scan status: they only read and would add easy members.
- Services.Backend.RunDailySweep, with its first and third pass, asks for stores whose keys and upload ids are the row's own: `Recipients.ReachableIsTidy` proves that of every reachable state.
- Retention.PendingIsReaped: a schedule of successful sweeps, begun by the time the row falls due, is assumed; a sweep that crashes is no sweep of the schedule.
- Poller.Poll.Run: the clock does not go backwards.
