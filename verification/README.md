# NPSync, verified

NPSync synchronizes end-to-end encrypted text files between Notepad++ plugins through a server. This project models
its hard parts in Dafny and proves what they promise:

- **Three-way merge** (`Lines`, `Diff`, `Merge`, `MergeLaws`, `Sweep`): splitting into lines, the longest-common-subsequence
  table and its backtracking, and the sweep of two edit scripts over the base. The imperative code is proved equal to
  functions, and the functions are proved correct, optimal, honest about conflicts, and symmetric.
- **Store and server** (`Store`, `StoreLaws`, `Mem`, `Handlers`, `HandlerLaws`, `Server`, `Restore`, `Feed`, `BlobSafety`):
  the in-memory store, its history and change feed, and the create, update, delete, restore and changes handlers with
  retention and blobs.
- **Sync protocol** (`SyncClient`, `Engine`, `Protocol`, `ProtocolLaws`, `SyncSafety`, `TextSafety`, `RecordSafety`,
  `SyncExamples`): any number of clients upload, run into conflicts, merge, resolve and apply remote heads of one file, interleaved at the
  server's operations.
- **Google sign-in** (`OAuth`, `LoginRace`, `GoogleAuth`): any number of browser callbacks and plugin polls race on one
  session.
- **Matching and limiting** (`Glob`, `GlobLaws`, `Ignore`, `IgnoreLaws`, `RateLimit`).
- **Codecs and paths** (`Base64Url`, `Base64Bits`, `VersionVector`, `VectorJson`, `PathUtil`, `PathLaws`).

Objects that the program updates in place are classes here (`Mem`, `Server`, `LoginStore`, `SyncEngine`, `LoginLimiter`,
`VersionVector`); their methods are proved against functions on values, and runs and interleavings are stated over those
functions. Clocks, network answers, random identifiers, decryption and hashing are parameters. Hashes are taken to be
injective where the client compares texts by hash, and a ciphertext hash determines its plaintext.

Some promises turned out not to hold on every input. For each of them a lemma shows an input on which it
fails, and a theorem says when it holds:

| promise | fails on | holds when |
|---|---|---|
| a cleanly merged text splits back into the merged lines | `MergeLaws.ReadBackCanFail` | `MergeLaws.SweptTextReadsBack`, `MergeLaws.PlainSidesReadBack` |
| no needed blob is deleted | `BlobSafety.SharedHashLosesBlobHere` | `BlobSafety.RetainKeepsBlobsExactly`, `BlobSafety.BlobsNeverMissing` |
| a client merges against the version it recorded | `SyncExamples.MergeOverOldBase` | `SyncSafety.BaseIsRecordedVersion`, `SyncSafety.AutoMergeReplacesWhatItMerged` |
| an edit that was never uploaded stays on disk | `SyncExamples.TombstoneRemovesEdit`, `SyncExamples.KeepLocalLosesEdit`, `SyncExamples.OpenedFileIsOverwritten` | `TextSafety.FileTextLostExactly` |
| the text that a conflict preserved stays on disk | `SyncExamples.SecondConflictLosesCopy` | `TextSafety.CopyLostExactly`, `TextSafety.PutAsideLostExactly` |
| a client records the vector of the version it records | `SyncExamples.ReplayRecordsOwnVector`, `SyncExamples.KeptCopyIsConcurrent` | `RecordSafety.RecordsMatchTheLog` |
| an upload's vector dominates the replaced version's | `SyncExamples.KeptCopyIsConcurrent` | `SyncSafety.AutoMergeMovesVectorOn`, `SyncSafety.UploadMovesVectorOnWhen` |
| a restore's or a tombstone's vector dominates the replaced version's | every tombstone: `Restore.DerivedVectorsMoveOnWhen` | `Restore.DerivedVectorsMoveOnWhen` |
| the greedy glob scan finds every match | `GlobLaws.ScanCanMiss` | `GlobLaws.GlobIsExact`, `GlobLaws.SafePatternsAreExact` |
| a vector survives its text form | `VectorJson.QuotedNameIsLost`, `VectorJson.NegativeCounterIsDropped` | `VectorJson.JsonRoundTrip` |
| vectors with equal counters are not concurrent | `VersionVectors.ZeroLooksConcurrent` | `VersionVectors.ConcurrentMeans` |
| what decodes is an encoding | `Base64Url.NotEveryStringIsAnEncoding` | `Base64Url.DecodeThenEncode` |

Where the program and its documentation disagree, the model follows the program:

- `SyncEngine.cpp` says that a missing base leads to a manual conflict; the code merges against an empty base.
- `LocalDb.h` calls `remoteHash` a ciphertext hash; the code stores the hash of the plaintext.
- `store.go` says that `UpdateFile` also checks the record's own version number; the code compares only the base version.
- `store.go` says that `PruneVersions` returns keys that became unreferenced; the code looks at one file only.
- `architecture.md` says that the server merges version vectors; only a restore does, an update stores the client's vector.
- `PathUtil.cpp` says that names must not end in a dot or a space; the code looks at the last name only.
- `IgnoreRules` describes `**` as any number of segments; the code lets it cover any text.

## Model

| member | source | states |
|---|---|---|
| Lines.DominantEol | plugin/src/core/Merge.cpp:107-114 | picks CRLF exactly when at least as many lines end in CRLF as in a bare LF |
| Lines.SplitLines | plugin/src/core/Merge.cpp:107-128 | the loop's lines and line ending are those of the defining functions, without a phantom last line |
| Lines.LinesHaveNoNewline | plugin/src/core/Merge.cpp:115-125 | no line of any text contains a newline |
| Lines.JoinSplitRoundTrip | plugin/src/core/Merge.cpp:107-128 | joining lines and splitting again gives the same lines exactly when none holds a newline and, under LF, none ends in CR; a non-empty list then also gets its ending back |
| Lines.LinesMakeTheText | plugin/src/core/Merge.cpp:107-128 | the lines, each with its own end, are the text: a CR before a newline belongs to the end and only a last, non-empty line may lack one; CRLF is dominant exactly when at least as many ends are CRLF as bare LF |
| Diff.ScriptCorrect | plugin/src/core/Merge.cpp:51-103 | the grouped script is in bounds, ordered with a kept line between neighbours, renders the target, and keeps as many lines as the table says |
| Diff.WellFormedMeans | plugin/src/core/Merge.cpp:24-29 | well-formedness spelled out for every pair of neighbouring edits |
| Diff.LcsIsUpperBound | plugin/src/core/Merge.cpp:44-49 | no common subsequence of the two texts is longer than the table entry |
| Diff.EditsAreOptimal | plugin/src/core/Merge.cpp:32-103 | applying the edits gives the target, and the kept lines are a common subsequence of maximal length |
| Diff.EditedStretchDiffers | plugin/src/core/Merge.cpp:237-255 | a stretch that an optimal script edits is really different in the two texts |
| Diff.LcsFits | plugin/src/core/Merge.cpp:22-45 | within the cell budget every table entry fits its 32-bit cell |
| Diff.FillTable | plugin/src/core/Merge.cpp:44-49 | the flat row-major array ends up holding the maximal common length of every pair of suffixes |
| Diff.Backtrack | plugin/src/core/Merge.cpp:51-103 | the loop with its open region produces exactly the edit script |
| Diff.DiffLines | plugin/src/core/Merge.cpp:32-103 | refuses exactly the oversized tables and otherwise returns the optimal edits |
| Merge.FoldIsLeastClosed | plugin/src/core/Merge.cpp:201-218 | folding ends at the least end at or after the start that no edit of either side touches, with all edits up to it taken |
| Merge.FoldSymmetric | plugin/src/core/Merge.cpp:201-218 | the same region is reached whichever side is absorbed first |
| Merge.ChunksDecompose | plugin/src/core/Merge.cpp:182-260 | the sweep consumes both scripts, and its chunks put together are the base, the local and the remote lines |
| Merge.CleanHasNoHunks | plugin/src/core/Merge.cpp:262-265 | a clean result reports no hunk |
| MergeLaws.ChunksHonest | plugin/src/core/Merge.cpp:219-238 | a region counted as changed by a side differs from the base there, and one counted as unchanged does not |
| MergeLaws.RegionsFollowDiff3 | plugin/src/core/Merge.cpp:240-255 | every region obeys diff3: equal sides are taken, else the only side that differs from the base, else a conflict |
| MergeLaws.HunksAreRealConflicts | plugin/src/core/Merge.cpp:252-255 | in every reported hunk base, local and remote differ pairwise |
| MergeLaws.MergeDecomposes | plugin/src/core/Merge.cpp:130-265 | stable lines and regions partition the three texts; nothing of either side is lost, clean or not |
| MergeLaws.CleanChoosesEverywhere | plugin/src/core/Merge.cpp:240-251 | there is no conflict exactly when every region has a chosen side, so a clean text is the stable lines plus one side per region |
| MergeLaws.MergeMeans | plugin/src/core/Merge.cpp:130-265 | the result on any three texts: equal sides give that text, a side equal to the base the other side verbatim, and three different texts the diff3 outcome of every region, its lines or its conflicts, unless the table would exceed 16 million cells |
| MergeLaws.MergeSymmetric | plugin/src/core/Merge.cpp:130-265 | swapping local and remote keeps the verdict and the text and mirrors every hunk |
| MergeLaws.SweptTextReadsBack | plugin/src/core/Merge.cpp:107-128 | a swept clean text splits back into the merged lines exactly when none of them ends in CR under LF |
| MergeLaws.PlainSidesReadBack | plugin/src/core/Merge.cpp:107-170 | a clean swept merge splits back into its lines whenever the base uses CRLF or no line of either side ends in CR |
| MergeLaws.ReadBackCanFail | plugin/src/core/Merge.cpp:165-170 | a concrete clean merge whose text does not split back |
| Sweep.FoldRegion | plugin/src/core/Merge.cpp:201-218 | the growing loop computes the least closed region and both counts |
| Sweep.Build | plugin/src/core/Merge.cpp:221-235 | the replacement loop renders a side's edits over the region |
| Sweep.SweepBase | plugin/src/core/Merge.cpp:161-260 | the sweep terminates and yields the text and hunks of the chunk decomposition |
| Sweep.ThreeWayMerge | plugin/src/core/Merge.cpp:130-265 | the whole imperative merge equals the merge function that the laws are about |
| Store.FileKeyInjective | server/internal/store/mem.go:54 | for account ids without a slash the text key stands for the pair of account and file |
| Store.RunKeepsValid | server/internal/store/mem.go:436-482 | over every run retained history is consecutive and ends in the head, change numbers strictly increase, and a file's changes are its versions 1 to head |
| Store.RunExtends | server/internal/store/mem.go:436-549 | heads only move up, history is dropped but never rewritten, the feed only grows with larger numbers |
| Store.OneWritePerBase | server/internal/store/mem.go:458-482 | over every run each base version is written at most once, and exactly those the head moves over |
| Store.VersionDeterminesRecord | server/internal/store/mem.go:458-482 | a file's version number determines its record, however far apart two states are |
| Store.RetainedVersionWasHead | server/internal/store/mem.go:484-521 | over every run from the empty store, each retained version was the head at some time, and whenever the head had its number |
| StoreLaws.CreateMeans | server/internal/store/mem.go:436-456 | creating writes the given payload as version 1 of a file that is not there, as head, history entry and change, and is refused exactly when it is |
| StoreLaws.UpdateMeans | server/internal/store/mem.go:458-482 | updating writes the given payload as the next version exactly over the named base, and tells a missing file from a stale base |
| StoreLaws.FoundExactly | server/internal/store/mem.go:511-521 | a version is found exactly when one with its number is retained, the first such |
| StoreLaws.ReadableVersions | server/internal/store/mem.go:511-521 | in a valid store the readable versions are the last ones up to the head, as many as are retained |
| StoreLaws.PruneMeans | server/internal/store/mem.go:523-549 | pruning leaves exactly the newest `keep` versions of that file, or all if there are no more, and nothing else differs |
| StoreLaws.PruneKeepsReadable | server/internal/store/mem.go:523-549 | after pruning exactly the newest `keep` version numbers can be read, each as before |
| MemStore.Mem.CreateFile | server/internal/store/mem.go:436-456 | in place: commits version 1 with history and change, or changes nothing on a duplicate |
| MemStore.Mem.UpdateFile | server/internal/store/mem.go:458-482 | in place: compare-and-set on the base version, with the two error cases |
| MemStore.Mem.GetVersion | server/internal/store/mem.go:511-521 | the loop finds the first retained record with that number |
| MemStore.Mem.PruneVersions | server/internal/store/mem.go:523-549 | keeps the newest versions and returns the dropped keys that neither a kept version nor the head uses |
| MemStore.Mem.ListChangesSince | server/internal/store/mem.go:551-564 | the loop with its early exit returns the first page of the account's later changes |
| MemStore.Mem.SaveIdempotentResponse | server/internal/store/mem.go:573-578 | remembers one answer and changes nothing else |
| Restore.MergeVectors | server/internal/store/models.go:136-148 | the two loops compute the merged vector |
| Restore.MergeIsMaximum | server/internal/store/models.go:136-148 | the merge is the element-wise maximum exactly when the first vector has no negative counter for a device that the second leaves out |
| Restore.MergeIsLeastUpperBound | server/internal/store/models.go:136-148 | on non-negative counters the merge is the least vector at or above both |
| Restore.RestoreDerivedFromReplaced | server/internal/api/sync_handlers.go:355-387 | in every run and under any interleaving, a committed restore replaces exactly the head it read and carries the payload of the head at some earlier time when the chosen number was current, with the merge of the two vectors |
| Restore.DerivedVectorsMoveOnWhen | server/internal/api/sync_handlers.go:283-387 | a restore's vector dominates that of the head it replaces exactly when the restored version has seen something the head has not; a tombstone's is the same and never does |
| Restore.TombstoneDerivedFromReplaced | server/internal/api/sync_handlers.go:283-302 | under any interleaving a committed tombstone is made from exactly the record it replaces |
| Feed.PageSplits | server/internal/store/mem.go:551-564 | one page and what follows its last number are together all later changes |
| Feed.PollsDeliver | server/internal/api/sync_handlers.go:493-527 | polling from the last number, with any writes in between, returns every later change once and in order |
| Feed.ShortPageCatchesUp | server/internal/api/sync_handlers.go:503-526 | once a page is not full nothing is missing |
| Feed.SnapshotPlusDelta | server/internal/api/sync_handlers.go:493-527 | folding the later changes onto the heads at the cursor gives the current versions and deleted flags |
| HandlerLaws.RefusalMeans | server/internal/api/sync_handlers.go:56-98 | an upload is taken exactly when it is well shaped and, unless a tombstone, its content is within the limit and as declared; too large is told apart from every other fault |
| HandlerLaws.CreateOutcome | server/internal/api/sync_handlers.go:194-227 | done exactly for a fresh upload of a file that is not there: then version 1 with every field as uploaded, its content stored, its answer saved; otherwise which answer, and no change to the store |
| HandlerLaws.UpdateOutcome | server/internal/api/sync_handlers.go:229-281 | done exactly for a fresh upload over the head's version: then the next version with every field as uploaded, one change, and the content still there after retention; a stale base gets the head |
| HandlerLaws.UpdateKeepsVersions | server/internal/api/sync_handlers.go:229-316 | after an accepted update exactly the newest `retention` versions of the file can be read, each as it was, and every other file's as before |
| HandlerLaws.RestoreOutcome | server/internal/api/sync_handlers.go:355-387 | a restore of version n is done exactly when the file is there and n is retained, and then carries n's payload over the head with the larger counter of each device |
| HandlerLaws.DeleteOutcome | server/internal/api/sync_handlers.go:283-302 | a delete is done exactly when the file is there, and then the head is the old one, deleted, with no size |
| HandlerLaws.RetainMeans | server/internal/api/sync_handlers.go:304-316 | retention changes one file's history, and takes away exactly the blobs that lose their last version in it |
| ServerApi.Server.HandleCreateFile | server/internal/api/sync_handlers.go:194-227 | checks, replay, blob before record, then create; equal to the request function |
| ServerApi.Server.HandleUpdateFile | server/internal/api/sync_handlers.go:229-281 | checks, replay, blob before record, compare-and-set, retention, saved answer; the current record on a conflict |
| ServerApi.Server.ApplyRetention | server/internal/api/sync_handlers.go:304-316 | prunes with a positive retention only and deletes exactly the returned blobs |
| ServerApi.Server.HandleDeleteFile | server/internal/api/sync_handlers.go:283-302 | writes a tombstone over the head it read |
| ServerApi.Server.HandleRestoreVersion | server/internal/api/sync_handlers.go:355-387 | writes an old version's payload as a new head |
| ServerApi.Server.HandleChanges | server/internal/api/sync_handlers.go:493-527 | returns one page of at most 1000 and the largest number seen |
| BlobSafety.BlobsNeverMissing | server/internal/api/sync_handlers.go:194-387 | in every sequence of complete requests in which no two files declare one hash, every live head and retained version has its blob |
| BlobSafety.RetainKeepsBlobsExactly | server/internal/api/sync_handlers.go:304-316 | retention keeps every needed blob exactly when no other file's live retained version has the key of a dropped version that nothing kept of this file has |
| BlobSafety.SharedHashLosesBlob | server/internal/store/mem.go:531-546 | any two files that declare one hash: an update of the one deletes the blob of the other's head |
| BlobSafety.SharedHashLosesBlobHere | server/internal/store/mem.go:531-546 | the same for three concrete one-byte uploads |
| BlobSafety.ReplayChangesNothing | server/internal/api/sync_handlers.go:531-553 | an upload, of a new file or a new version, answered once under a key is answered the same ever after, and repeats change nothing |
| Engine.SyncEngine.UploadFile | plugin/src/SyncEngine.cpp:726-783 | what is sent (as a new file or over the recorded version, with the bumped vector) and the new record, vector, base, file, conflict and online flag, for each answer of the server |
| Engine.SyncEngine.HandleConflict | plugin/src/SyncEngine.cpp:808-899 | fetch, merge, write, upload over the version and vector named in the refusal, else a preserved copy, if it can be written, and an open conflict; a file that cannot be written stops it |
| Engine.SyncEngine.ResolveConflict | plugin/src/SyncEngine.cpp:901-1035 | keeping the local copy, the remote head, or both with the copy put aside under the date, for every failing exit, with what is sent and what each strategy does to the recorded vector |
| Engine.SyncEngine.OnFileOpened | plugin/src/SyncEngine.cpp:1242-1256 | a file without a record gets one at version 0 that knows neither text; any other record stays |
| Engine.SyncEngine.ApplyRemoteFile | plugin/src/SyncEngine.cpp:1065-1227 | newer heads replace the file, tombstones delete it, own edits open a conflict instead unless the record knows no text; ignored paths, known versions, content that does not check out and failing writes leave it alone |
| ProtocolLaws.RunKeeps | plugin/src/SyncEngine.cpp:726-1227 | the protocol's invariant holds after every run of client, server and foreign steps |
| SyncSafety.BaseIsRecordedVersion | plugin/src/SyncEngine.cpp:762-780 | in every reachable state a client's base and recorded texts are the plaintext of the version it recorded exactly when that version is live, also as the server still retains it; else it recorded a tombstone, and the base is the plaintext of an earlier live version |
| SyncSafety.AutoMergeReplacesWhatItMerged | plugin/src/SyncEngine.cpp:820-881 | every auto-merged version is the merge of the client's base, its text, and exactly the version it replaces, although the head is fetched after the refusal; the base is the recorded version's plaintext whenever that is live |
| SyncSafety.AutoMergeMovesVectorOn | plugin/src/SyncEngine.cpp:859-863 | an auto-merged version's vector is the replaced version's with one counter raised, and dominates it |
| SyncSafety.UploadMovesVectorOnWhen | plugin/src/SyncEngine.cpp:700-707 | over every run, the vector of a version from a plain upload or a kept copy is the one the client had recorded, bumped; on non-negative counters it dominates the replaced version's exactly when the recorded one is at least that, or is one behind on this device alone and ahead on another |
| SyncSafety.ReplayIsTruthful | server/internal/api/sync_handlers.go:531-553 | over every run, an upload answered from memory is answered with a version that carries exactly the text that was sent |
| SyncSafety.NobodyFallsOut | plugin/src/SyncEngine.cpp:726-1227 | on a file nobody deletes every client with a record stays in step, in every reachable state |
| SyncSafety.ConflictInStages | plugin/src/SyncEngine.cpp:808-899 | the protocol's single stages of a conflict add up to the engine's whole step, in what is kept and what is sent |
| SyncSafety.AnswersInStages | plugin/src/SyncEngine.cpp:751-783 | so do plain uploads, and keeping the local side of a conflict |
| TextSafety.FileChangesExactly | plugin/src/SyncEngine.cpp:808-1227 | over every step of the protocol the file changes only by an own step, and exactly so: the user's edit, the preserved copy written back, a head taken or applied, a newer tombstone, or a clean merge |
| TextSafety.CopiesChangeExactly | plugin/src/SyncEngine.cpp:883-1190 | over every step the preserved and put-aside texts change exactly so: a new conflict preserves its text over what had its name, and keeping both moves the copy over what had its date |
| TextSafety.FileTextLostExactly | plugin/src/SyncEngine.cpp:808-1227 | a text that is only in the file leaves the disk over a step exactly when the user edits it away, or a preserved copy is written back, a head with another text is taken, or applied without own edits in the record's eyes, or a newer tombstone is applied; no such step commits it |
| TextSafety.CopyLostExactly | plugin/src/SyncEngine.cpp:883-1190 | a preserved text that is nowhere else leaves the disk exactly when a new conflict preserves another text under its name |
| TextSafety.PutAsideLostExactly | plugin/src/SyncEngine.cpp:995-1010 | a text that was put aside and is nowhere else leaves the disk exactly when another copy is put aside under its date and the head that takes the file is another text too |
| TextSafety.HeldTextLostExactly | plugin/src/SyncEngine.cpp:847-899 | a local text that went into a merge and is nowhere else is given up exactly when the answer arrives that the merge is accepted |
| TextSafety.ConflictKeepsLocalText | plugin/src/SyncEngine.cpp:838-899 | handling a conflict changes the file exactly for a clean merge with another text, and keeps the local text beside it unless the server accepted that |
| TextSafety.ApplyKeepsLocalText | plugin/src/SyncEngine.cpp:1151-1193 | applying a head takes unsynced text off the disk exactly for a newer tombstone, or for a file without a record or with unknown texts; else it opens a conflict |
| TextSafety.ResolveChangesFileWhen | plugin/src/SyncEngine.cpp:920-1012 | resolving a conflict changes the file exactly when it can be written and the side that is kept has another text |
| TextSafety.KeepBothKeepsBoth | plugin/src/SyncEngine.cpp:980-1024 | keeping both puts the copy aside and the head on disk, and loses neither when the file cannot be written |
| RecordSafety.RecordChangesExactly | plugin/src/SyncEngine.cpp:726-1256 | over every step of the protocol a client's record, base and open conflict change only by an own step, and exactly so for each kind of step |
| RecordSafety.RecordsMatchTheLog | plugin/src/SyncEngine.cpp:762-1225 | over every run, an applied or taken head is recorded as the last version committed, with its text and vector, and an accepted upload or merge as the version it committed; one answered from memory, and a kept copy, as the version named and its text, and with its vector exactly when the sent, or the recorded, vector is equal to that |
| RecordSafety.EditsAreSeen | plugin/src/SyncEngine.cpp:743-1183 | in every reachable state a client with a live recorded version skips its upload exactly when its file is that version's text, and sees own edits exactly when it is another |
| RecordSafety.CommitsExactly | plugin/src/SyncEngine.cpp:747-932 | over every own step a version is committed exactly when the client asks for one over the head's number, with the text and vector that were sent |
| RecordSafety.UploadRequestMeans | plugin/src/SyncEngine.cpp:682-753 | an upload carries the file's text over the recorded version, as a new file exactly when none is recorded, and counts one more of this device |
| RecordSafety.UploadOutcome | plugin/src/SyncEngine.cpp:726-899 | what an upload call sends, records and opens, and when it counts as done, for every answer and every failure of the disk |
| RecordSafety.ApplyOutcome | plugin/src/SyncEngine.cpp:1065-1227 | what applying a head records, and when it counts as done |
| RecordSafety.ResolveOutcome | plugin/src/SyncEngine.cpp:901-1035 | what resolving sends and records, and that the conflict closes exactly when it counts as done |
| SyncExamples.TombstoneRemovesEdit | plugin/src/SyncEngine.cpp:1151-1161 | a run in which a tombstone removes an edit that was never uploaded and is then in no file, copy or version |
| SyncExamples.KeepLocalLosesEdit | plugin/src/SyncEngine.cpp:920-932 | a run in which keeping the local side of a conflict does the same to an edit made after the conflict was found |
| SyncExamples.OpenedFileIsOverwritten | plugin/src/SyncEngine.cpp:1180-1202 | a run in which the head does the same to a file whose record was only made by opening it |
| SyncExamples.SecondConflictLosesCopy | plugin/src/SyncEngine.cpp:1183-1190 | a run in which a second conflict writes its text over the copy that the first preserved, which was never uploaded |
| SyncExamples.MergeOverOldBase | plugin/src/SyncEngine.cpp:826-881 | a run in which, after a tombstone, a merge is committed whose base is two versions older than the one the client recorded |
| SyncExamples.KeptCopyIsConcurrent | plugin/src/SyncEngine.cpp:923-948 | a run in which a kept local copy commits a version whose vector is concurrent with the one it replaces, and the client's next upload carries the very vector it replaces |
| SyncExamples.ReplayRecordsOwnVector | server/internal/api/sync_handlers.go:531-553 | a run in which two devices upload one text over one base: the second is answered from memory and records its own vector, concurrent with the committed one |
| GoogleAuth.LoginStore.PurgeExpired | server/internal/store/mem.go:172-179 | drops exactly the sessions that expired more than a day ago |
| GoogleAuth.LoginStore.CreateOAuthLogin | server/internal/store/mem.go:181-197 | purges, then adds the session unless its state is taken |
| OAuth.CreateMeans | server/internal/store/mem.go:172-197 | purging drops exactly the sessions expired for more than a day, and a new one goes in exactly when its state is not taken by one that is left |
| GoogleAuth.LoginStore.ClaimOAuthLogin | server/internal/store/mem.go:210-220 | pending to exchanging, before expiry only |
| GoogleAuth.LoginStore.MarkOAuthReady | server/internal/store/mem.go:222-235 | exchanging to ready, with the account and without the verifier |
| GoogleAuth.LoginStore.MarkOAuthError | server/internal/store/mem.go:237-249 | exchanging to error, without the verifier |
| GoogleAuth.LoginStore.ConsumeOAuthLogin | server/internal/store/mem.go:251-262 | ready to consumed |
| GoogleAuth.LoginStore.ReopenOAuthLogin | server/internal/store/mem.go:264-273 | consumed back to ready |
| GoogleAuth.Server.HandleGoogleCallback | server/internal/api/google_auth.go:123-212 | by itself has the effect of one callback of the race, run alone, and reports success exactly for an unexpired session that has not failed and, if this callback claims it, signs in |
| GoogleAuth.Server.HandleGooglePoll | server/internal/api/google_auth.go:214-268 | by itself has the effect of one poll of the race; each of its ten answers is given exactly under its condition on the session, the secret, the clock and what befalls the poll, and exactly the polls with a wrong session or secret count against the limit |
| GoogleAuth.Server.RejectGooglePoll | server/internal/api/google_auth.go:270-276 | unauthorized within the limit, rate limited beyond it |
| GoogleAuth.Server.FinishGoogleLogin | server/internal/api/google_auth.go:278-304 | creates the device or gives the session back |
| LoginRace.RunKeeps | server/internal/store/mem.go:210-273 | the session invariant holds after every interleaving, with failures, deaths, reopens and purges |
| LoginRace.OneExchangeOneDevice | server/internal/api/google_auth.go:156-304 | one session exchanges its code at most once and creates at most one device, owned by the account of that exchange |
| LoginRace.SettledSessions | server/internal/store/mem.go:222-273 | ready, failed and consumed sessions hold no verifier, name the exchange's account, and never become ready again once there is a device |
| LoginRace.OneAtATime | server/internal/api/google_auth.go:156-268 | at most one callback may exchange and at most one poll may create a device at any time |
| LoginRace.CallbackAlone | server/internal/api/google_auth.go:123-212 | a lone callback settles a pending session as ready or failed, and leaves any other alone |
| LoginRace.PollAlone | server/internal/api/google_auth.go:214-304 | a lone poll on a ready session gets a device, or leaves the session ready when it fails |
| LoginRace.FailedPollCanBeRepeated | server/internal/api/google_auth.go:254-302 | after a failed poll gives the session back, the next poll gets the device of the same account |
| Glob.GlobMatch | plugin/src/core/IgnoreRules.cpp:104-147 | the loop over both cursors terminates and equals the recursive scan |
| Glob.GlobIsSound | plugin/src/core/IgnoreRules.cpp:104-147 | every reported match has a reading of the pattern that covers the string |
| GlobLaws.GlobIsExact | plugin/src/core/IgnoreRules.cpp:104-147 | on strings without a star the scan finds exactly the matches, without slashes or for stars in a safe order |
| GlobLaws.CollapseAlwaysMisses | plugin/src/core/IgnoreRules.cpp:113-146 | every pattern that ends in a `**` with its '/' misses some match |
| GlobLaws.SafePatternsAreExact | plugin/src/core/IgnoreRules.cpp:104-147 | a pattern with its stars in a safe order is scanned exactly, on all strings without a star, if and only if it does not end so |
| GlobLaws.ScanCanMiss | plugin/src/core/IgnoreRules.cpp:110-147 | four matches the scan misses, one for each condition |
| Ignore.MatchRule | plugin/src/core/IgnoreRules.cpp:71-102 | a rule matches exactly when the path or a directory above it is hit, directory rules only directories |
| Ignore.DirectoryRulesReachDown | plugin/src/core/IgnoreRules.cpp:76-86 | a rule that matches a directory matches everything below it |
| Ignore.Ignored | plugin/src/core/IgnoreRules.cpp:60-69 | a path is ignored exactly when the last rule to match it exists and is not negated, and there is only one such rule |
| IgnoreLaws.RulesMatchSegments | plugin/src/core/IgnoreRules.cpp:71-102 | a rule without a slash matches exactly the paths with a segment its pattern fits, any other rule those with first segments it fits; for a directory rule the last segment counts only for a directory |
| IgnoreLaws.SpellingDoesNotMatter | plugin/src/core/IgnoreRules.cpp:60-69 | two paths are taken as the same exactly when they are alike but for the case of ASCII letters and the slant of slashes |
| RateLimit.LoginLimiter.constructor | server/internal/api/ratelimit.go:27-39 | a limit of ten per minute when none is set |
| RateLimit.LoginLimiter.Attempt | server/internal/api/ratelimit.go:56-70 | one attempt on the buckets, in place |
| RateLimit.LoginLimiter.Gc | server/internal/api/ratelimit.go:41-53 | the collecting loop drops exactly the buckets that are over |
| RateLimit.CollectingIsInvisible | server/internal/api/ratelimit.go:41-70 | whenever buckets are collected, every attempt is answered as if they never were |
| RateLimit.AdmissionsAreBounded | server/internal/api/ratelimit.go:56-70 | every closed interval of one window's length admits at most twice the limit less one, for any history |
| RateLimit.BoundIsMet | server/internal/api/ratelimit.go:56-70 | for every limit and window some history admits exactly that many |
| RateLimit.RefusalsAreEarned | server/internal/api/ratelimit.go:56-70 | an attempt is refused only when the full limit of attempts of the same key got through within one window's length before it |
| Base64Url.EncodeBytes | plugin/src/core/Crypto.cpp:213-236 | the loop and its tail compute the encoding |
| Base64Url.DecodeString | plugin/src/core/Crypto.cpp:238-268 | the loop with its wrapping accumulator computes the decoding, or fails |
| Base64Url.WrappingIsHarmless | plugin/src/core/Crypto.cpp:255-266 | the decoder behaves as if it kept only the pending bits, although the accumulator is never cleared |
| Base64Url.RoundTrip | plugin/src/core/Crypto.cpp:213-268 | decoding an encoding gives back every byte string |
| Base64Url.EncodeShape | plugin/src/core/Crypto.cpp:213-236 | four thirds of the length, rounded up, all in the alphabet, no padding (sections 3.2 and 5 of RFC 4648) |
| Base64Url.DecodeSucceeds | plugin/src/core/Crypto.cpp:238-268 | exactly the strings over the alphabet decode, to three quarters of their length, rounded down |
| Base64Url.DecodeThenEncode | plugin/src/core/Crypto.cpp:238-268 | encoding again gives the string back exactly when it has no lone last symbol and no stray bits |
| Base64Url.NotEveryStringIsAnEncoding | plugin/src/core/Crypto.cpp:255-267 | a lone symbol and a symbol with stray bits decode, although nothing encodes to them |
| Base64Bits.SymbolsAreTheTable | plugin/src/core/Crypto.cpp:213-260 | the symbols are those of the table in section 5 of RFC 4648, in its order, both ways |
| Base64Bits.EncodingIsTheBits | plugin/src/core/Crypto.cpp:213-236 | the bits of an encoding are the bits of the bytes, in order, filled up with zeros |
| Base64Bits.DecodingIsTheBits | plugin/src/core/Crypto.cpp:238-268 | decoding any string over the alphabet gives its bits cut into eights, as many as are full |
| VersionVectors.VersionVector.BumpDevice | plugin/src/core/VersionVector.cpp:14-16 | raises one counter by one |
| VersionVectors.VersionVector.MergeWith | plugin/src/core/VersionVector.cpp:18-22 | takes the larger counters and enters the other's devices |
| VersionVectors.VersionVector.Dominates | plugin/src/core/VersionVector.cpp:24-36 | the two loops decide dominance as the code defines it |
| VersionVectors.DominatesMeans | plugin/src/core/VersionVector.cpp:24-36 | on non-negative counters: at least as large everywhere and larger somewhere |
| VersionVectors.DominatesIsStrictOrder | plugin/src/core/VersionVector.cpp:24-36 | irreflexive, asymmetric and transitive |
| VersionVectors.BumpDominates | plugin/src/core/VersionVector.cpp:14-36 | an edit's vector dominates the one it came from |
| VersionVectors.MergeIsLeastUpperBound | plugin/src/core/VersionVector.cpp:18-22 | the merge is the least vector at or above both |
| VersionVectors.ConcurrentMeans | plugin/src/core/VersionVector.cpp:38-40 | concurrent exactly when each is ahead somewhere, or when equal counters are spelled differently |
| VersionVectors.ZeroLooksConcurrent | plugin/src/core/VersionVector.cpp:38-40 | a spelled-out zero is concurrent with the empty vector |
| VectorJson.Print | plugin/src/core/VersionVector.cpp:42-54 | the printing loop yields the text form |
| VectorJson.Parse | plugin/src/core/VersionVector.cpp:56-103 | the parsing loops yield the entries and whether a number overflowed |
| VectorJson.PrintedReadsBack | plugin/src/core/VersionVector.cpp:42-103 | for quote-free names, reading back drops exactly the negative entries and overflows only if the vector does |
| VectorJson.JsonRoundTrip | plugin/src/core/VersionVector.cpp:42-103 | a vector survives exactly when its names are quote-free and its counters not negative, and then without overflow |
| VectorJson.PrintedIsJson | plugin/src/core/VersionVector.cpp:42-54 | the text form is a JSON object with one member for each entry, a name and an integer of section 6 of RFC 8259, with commas between them |
| VectorJson.SpaceIsIgnored | plugin/src/core/VersionVector.cpp:56-103 | white space of section 2 of RFC 8259 before, between and after the tokens makes no difference to what is read |
| VectorJson.QuotedNameIsLost | plugin/src/core/VersionVector.cpp:76-81 | a name with a quote comes back as no entry at all |
| VectorJson.NegativeCounterIsDropped | plugin/src/core/VersionVector.cpp:86-98 | a negative counter is read and dropped |
| PathUtil.NormalizeRelative | plugin/src/core/PathUtil.cpp:34-74 | the segment stack loop computes the normal form, or fails |
| PathUtil.JoinInsideRoot | plugin/src/core/PathUtil.cpp:110-139 | succeeds exactly when the path can be normalized: the final containment check never rejects, and the result is inside the root |
| PathLaws.NormalizedSegments | plugin/src/core/PathUtil.cpp:49-70 | the output's segments are non-empty names without slash, backslash, "." or ".." |
| PathLaws.NormalizeIsIdempotent | plugin/src/core/PathUtil.cpp:34-74 | normalizing again changes nothing |
| PathLaws.FailsIffEscapes | plugin/src/core/PathUtil.cpp:49-64 | the walk fails exactly when some first part has more ".." than names |
| PathLaws.EscapeMeans | plugin/src/core/PathUtil.cpp:49-64 | the same for whole paths, with the depth of the result |
| PathLaws.WalkKeepsSurvivors | plugin/src/core/PathUtil.cpp:49-64 | the walk from the front keeps exactly the names left when reading from the end, each ".." striking out the nearest name before it |
| PathLaws.NormalizeMeans | plugin/src/core/PathUtil.cpp:34-108 | a path is taken exactly when it is relative, at most 4096 long, never above its start, and leaves plain names, the last without a dot or space at its end; the result is those names |
| PathLaws.NeighboursAreOutside | plugin/src/core/PathUtil.cpp:110-121 | what follows a root is inside it exactly when a slash comes first: a neighbour whose name begins like the root's is outside |
| PathLaws.StrangersAreOutside | plugin/src/core/PathUtil.cpp:110-121 | a path that differs from the root anywhere, but for case and the slant of slashes, is outside |

## Left out

- `postgres.go`: the isolation of its transactions is not visible in the code; store and feed are modelled on `mem.go`.
- HTTP, WebSocket, file system, dialogs, logging and settings: their answers are parameters or do not appear.
- Encryption, hashing, password and token checks: abstract functions or outcomes given by parameters.
- The batch handler: each of its uploads is the create or update step that is modelled, without replay and retention.
- Listing files and versions, devices, pairing, recovery keys, editor sessions: reads or single-step changes.
- Creating a file from several clients: the protocol starts from a file all its clients know. A client that forgot it, or
  only opened it, uploads under a new file id, which is another file.
- Paths as keys across clients: the uploaded path carries a root prefix that the receiver does not accept, so files are
  told apart by their id.
- The backup copies the client makes of files it replaces or deletes: of what `TextSafety.FileTextLostExactly` reports as
  taken off the disk, they keep the last few texts that a head or a tombstone replaced, but not what a preserved copy did.
- Two files under one retry key: the client's key joins path, base and hash without separators; the protocol studies one
  file and takes keys of different base and text as different.
- Crashes inside a client step, and threads within one client: each client is sequential, and writing the file, the
  record and the base is one step. Server operations of other clients do come in between. In the protocol's runs local
  files can be read and written.
- A restore whose blob is pruned between its read and its write: blob safety is stated for complete requests.
- Parsing the ignore file, and file names outside ASCII in lower-casing.
- GlobLaws.GlobIsExact: for patterns with stars out of the safe order, the strings on which the scan is still right are
  not characterized; whether it ever fails then depends on how a stretch between stars overlaps itself.
- Engine.SyncEngine.UploadFile: leaves out the status line and the error text shown to the user.
- Engine.SyncEngine.HandleConflict: leaves out the status line.
- Engine.SyncEngine.ResolveConflict: leaves out the status line; there is one open conflict, as the client's database
  keeps one per file.
- Engine.SyncEngine.ApplyRemoteFile: takes the mapping of the path and the outcome of the ignore rules as given.
- Restore.MergeIsLeastUpperBound: needs non-negative counters; with negative ones an entry that is left out counts as 0.
- Restore.DerivedVectorsMoveOnWhen: needs non-negative counters, for the same reason.
- HandlerLaws.RestoreOutcome: says which counters the new vector has when the head's are not negative.
- SyncSafety.UploadMovesVectorOnWhen: needs non-negative counters for its second half; the client drops negative ones.
- PathUtil.JoinInsideRoot: takes the conversion to wide characters as any function; a path that fails to convert becomes
  empty there, and the result is the root itself.
- RateLimit.AdmissionsAreBounded: needs a clock that does not run backwards.
- RateLimit.RefusalsAreEarned: the same.
- Expiry is compared on an abstract integer clock, and day and minute are constants in one unit each.
