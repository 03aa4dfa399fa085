# Boxwarden protocol models

Boxwarden is a control plane for sandboxed workstations. This project models
its hard protocols in Dafny 4.11 and proves what they are for. `dafny verify
dfyconfig.toml` checks the whole project.

- **Export.** The BWEX receiver is a function on byte streams (`ExportReceiver`),
  a declarative rule on object lists (`ExportTheory`), the format byte by byte
  (`ExportLayout`), a byte account of every reachable state (`ExportAccounts`) and the loop over machine integers with
  its private parent directory (`ExportHost`). A stream is accepted exactly when
  it encodes an admissible object list, and the loop computes that verdict.
- **Guest actions.** `ActionStore` is a state machine in which any number of
  helpers make one filesystem call at a time, may stop anywhere, and power may
  fail. `ActionSafety` proves at-most-once execution, `ActionDurability` shows
  that durable directories are exactly what power loss demands,
  `ActionReplay` that undisturbed helpers do complete and replay, and
  `ActionReceipts` which answers survive power loss.
- **Prepared bases.** `PreparedDisk` and `PreparedCache` model the phase journal,
  scratch files, publication by link and recovery, with a stop or a failure
  possible at every call.
- **Import.** `ImportSelection`, `ImportCapture`, `ImportManifest`, `ImportWalker`,
  `ImportShape`, `ImportInspect`, `ImportStaged` and `ImportRoundTrip` follow a
  source tree through selection, capture, manifest, re-admission, the trip
  through the export receiver and the final comparison. `ImportMeaning` says
  what these accept in terms of bytes, sizes and digests alone.
- **Clipboards.** `GuestClipboard` and `HostClipboard` are the two parent/child
  commit protocols with the outcomes that are finally reported.
- **Ownership.** `DiskLease` (interleavings) and `ManagedDisks` (objects) follow
  disk files and locks; `OwnedScript` is the race between killing and reaping.
- **Codecs and parsers.** `Cpio`, `Base64`, `SerialFrame`, `SudoOptions`,
  `SudoPolicy`, `SudoParser` and `ProjectEvents`. `SudoMeaning` and `SudoListings`
  say in the listing's own text what the parser reads.

`Bytes`, `Paths` and `Sorting` hold byte strings, relative names and the order
of names.

## What the models found

- **Fork return.** In `guest/ubuntu-24.04-arm64/clipboard.py` an exception raised
  while `os.fork()` returns (the deadline signal is one) is caught by the handler
  meant for a failing fork: the parent reports `error` although the child lives.
  A child already past its lease test then claims the selection.
  `GuestClipboard.ForkReturnInterrupted` is such a run and
  `GuestClipboard.ErrorExactly` says that nothing else makes `error` wrong.
- **Action directories.** A helper syncs the parent of `action-attempts`, or of the
  session directory, only if it found that directory missing. So a command may
  start under a path of which power loss can still drop an entry, even if its own
  helper synced the directory it made; then the command can run again.
  `ActionDurability.DurableExactly` says that nothing else lets it.
- **Early answers.** A helper that reads a receipt back does not sync the directory. If
  the publisher has not yet synced it either, a power loss forgets a success that was
  already answered, and the next helper answers indeterminate; the command does not run
  again. `ActionReceipts.EarlyAnswer` is such a run, `ActionReceipts.ForgetExactly` the
  condition, and `ActionReceipts.PublishedLasts` says that the publisher's own answer lasts.
- **Record bound.** A prepared record above 4096 encoded bytes is stored and returned
  once, and refused by every later load. `PreparedCache.Recovery` carries exactly
  that condition.
- **Rival attempts.** Two attempts for one key may both be left with a pending journal.
  The first to publish wins and the other's journalled record is not returned
  (`PreparedCache.RivalAttempt`); recovery is stated for calls that use one attempt.
- **Serial frame.** The encoder does not check the installed digests and sshd settings
  that the decoder demands; `SerialFrame.FrameRoundTrip` says for which results the
  round trip holds.
- **Case folding.** Import accepts names that differ only in case, the receiver
  does not. `ImportRoundTrip.AcceptedIffNoCollision` makes it an equivalence.
- **Root directory.** A sudo rule for the directory `/` is not recognised as covering a
  program directly in `/`; `SudoPolicy.MatcherExactly` shows that this is the
  only kind of target the matcher is wrong about.
- **Length arithmetic.** The end index of a length-prefixed string wraps only for
  inputs within four bytes of a multiple of four gigabytes
  (`SerialFrame.SlicesSafeExactly`); the protocol's inputs are far smaller.

## Modelling decisions

- SHA-256 is any function to 32 bytes. It is never assumed injective: a result that
  rests on it says "equal, or these two inputs collide".
- JSON text is an encoder and a decoder given as parameters, with the round trip
  as a precondition where it is used. The selection text is modelled in full.
- Ownership, mode, link, inode and ACL checks are one predicate per object.
- Cancellation, deadlines, free space, failing calls and random names are oracles
  or nondeterministic steps.
- Where code and comments differ the code is followed: `openActionChild` syncs a parent
  only after creating a child; the chunk check against the total limit is kept
  although it can never be the one that fails.

## Model

| member | source | states |
|---|---|---|
| `ExportWire.DecodeEncodeRecord` | internal/exportx/receiver.go:337-349 | decoding the 47-byte record header gives back every record that fits its field widths |
| `ExportWire.EncodeDecodeRecord` | internal/exportx/receiver.go:337-349 | every 47-byte header is the encoding of what it decodes to |
| `ExportLayout.RecordLayout` | internal/exportx/receiver.go:337-349 | kind, path length, chunk length, size and digest lie at these bytes, big-endian |
| `ExportLayout.HeaderLayout` | internal/exportx/receiver.go:130-140 | a stream starts with BWEX, version 1 and the transaction |
| `ExportLayout.ObjectLayout` | internal/exportx/receiver.go:192-256 | the records of a directory and of a file, with their kinds and lengths as numbers |
| `ExportLayout.ContentLayout` | internal/exportx/receiver.go:232-266 | the chunk, file end and terminal records likewise |
| `ExportLayout.OptionsRefusedExactly` | internal/exportx/receiver.go:306-323 | options are refused exactly for a zero or ill-sized transaction, a zero or too large limit, over 1024 selections, an unsafe one, or two that differ only in letter case |
| `Paths.LowerExactly` | internal/exportx/receiver.go:373-379 | two names fold alike exactly if they differ only in ASCII letter case |
| `ExportTheory.ValidPathExactly` | internal/exportx/receiver.go:351-371 | a path is accepted exactly if its length, depth and every byte of every component are allowed |
| `ExportItems.AcceptsEncoding` | internal/exportx/receiver.go:165-304 | the encoding of any object list the object rules admit is accepted, whatever its legal chunking |
| `ExportItems.AcceptedIsEncoding` | internal/exportx/receiver.go:165-304 | every accepted stream is the encoding of an admitted object list, recovered from it |
| `ExportTheory.ItemsOkMeaning` | internal/exportx/receiver.go:192-256 | the receiver's step-by-step checks hold exactly when each object has a safe path, differs from all earlier names by more than letter case, is below an earlier directory, selected and within all limits |
| `ExportTheory.AcceptedExactly` | internal/exportx/receiver.go:106-304 | a stream is accepted with a tree if and only if it encodes an exportable object list with that tree |
| `ExportTheory.PrefixFree` | internal/exportx/receiver.go:257-304 | no accepted stream has an accepted proper extension, hence no accepted proper prefix |
| `ExportTheory.PublishedShape` | internal/exportx/receiver.go:192-266 | published paths have up to 16 components of 1 to 64 letters, digits, dots, underscores and hyphens, none of them one dot or two, are parent-closed and differ by more than letter case; every selection is present; files lie at or below a selection, other directories above one |
| `ExportAccounts.PathAccounted` | internal/exportx/receiver.go:165-256 | in every reachable state the total is the finished bytes plus the open file's bytes, and what the open file still owes fits the total limit |
| `ExportAccounts.ChunkTotalCheckRedundant` | internal/exportx/receiver.go:232-242 | no subtraction goes below zero, and a chunk within the declared length never fails the total limit |
| `ExportAccounts.StagedShape` | internal/exportx/receiver.go:373-389 | at every moment staged paths, the open file among them, have their parents staged as directories and differ by more than letter case |
| `ExportHost.Session.OnDirectory` | internal/exportx/receiver.go:193-211 | refuses for exactly the stated reason, or adds the directory to the staged state |
| `ExportHost.Session.OnFile` | internal/exportx/receiver.go:212-231 | refuses for exactly the stated reason, or opens the file; unsigned subtractions do not wrap |
| `ExportHost.Session.CheckChunk` | internal/exportx/receiver.go:232-242 | the chunk check in 64-bit unsigned arithmetic agrees with the check on integers |
| `ExportHost.Session.CopyChunk` | internal/exportx/receiver.go:395-422 | bounded copying appends exactly the chunk's bytes to the file and the digest, or reports a short stream or an interruption |
| `ExportHost.Session.OnFileEnd` | internal/exportx/receiver.go:243-256 | closes a file only when its length and digest match |
| `ExportHost.Session.OnTerminal` | internal/exportx/receiver.go:257-266 | accepts the end only with the right total and every selection present in its own spelling |
| `ExportHost.RunSession` | internal/exportx/receiver.go:165-270 | the record loop over machine integers computes the stream's verdict and leaves exactly its tree staged |
| `ExportHost.ExportParent.Receive` | internal/exportx/receiver.go:106-304 | publishes the verdict's tree under a new name, or changes nothing; interruption and an uncertain sync are reported as such |
| `ActionSafety.NextKeeps` | internal/guestproto/action_store.go:26-141 | every helper call, on either directory level or in the store, every stop and every power loss under durable directories keeps the protocol invariant |
| `ActionSafety.AtMostOnce` | internal/guestproto/action_exec.go:90-129 | over every run of concurrent helpers with stops, and power losses under durable directories, the command starts at most once |
| `ActionSafety.ReceiptOnlyForSuccess` | internal/guestproto/action_store.go:26-141 | a receipt is returned only when the one started command succeeded, for that request or one with the same digest and metadata |
| `ActionSafety.AnswerSound` | internal/guestproto/action_exec.go:90-129 | a helper that answers success has been handed a receipt, so the one started command succeeded for that digest and metadata |
| `ActionDurability.UnsyncedDirectoryReachable` | internal/guestproto/action_store.go:180-216 | a command can start under a synced session directory whose parent's entry is not synced |
| `ActionDurability.LostDirectoryRunsAgain` | internal/guestproto/action_store.go:188-216 | from any state with an unsynced entry a power loss lets any request run |
| `ActionDurability.DurableExactly` | internal/guestproto/action_store.go:151-216 | once a command has started, some continuation starts another if and only if one of the two directory entries is not synced |
| `ActionReplay.Completes` | internal/guestproto/action_exec.go:90-129 | an undisturbed helper without a file of its attempt, whichever directories exist, runs its command once, returns its receipt and leaves exactly claim and receipt |
| `ActionReplay.Replays` | internal/guestproto/action_store.go:26-82 | a later helper that finds claim and receipt runs nothing, changes nothing, and succeeds exactly for a request with the same digest and metadata, failing otherwise |
| `ActionReplay.ClaimWithoutReceipt` | internal/guestproto/action_store.go:63-73 | an undisturbed helper that finds its own claim alone ends indeterminate, one that finds another claim or a receipt with two links fails, and nothing is run or changed |
| `ActionReplay.ReadsBack` | internal/guestproto/action_store.go:68-79 | beside its own claim a helper accepts exactly its own receipt, with or without a final newline, and fails on any other bytes |
| `ActionReplay.ReceiptWithoutClaim` | internal/guestproto/action_store.go:38-43 | a receipt without a claim is refused before anything is created |
| `ActionReceipts.DurableRunHeld` | internal/guestproto/action_store.go:26-141 | in every state of every durable run the claim of a success is whole and has one link, and a synced receipt is the visible one |
| `ActionReceipts.PublishedLasts` | internal/guestproto/action_store.go:82-141 | once a publisher has answered, claim and receipt are whole in every later state, whatever stops and power losses follow |
| `ActionReceipts.AnsweredAgain` | internal/guestproto/action_store.go:26-80 | from then on an undisturbed helper runs nothing and succeeds exactly for such a request |
| `ActionReceipts.ForgetExactly` | internal/guestproto/action_store.go:63-80 | after an answer of success, some continuation loses the receipt if and only if its entry is not synced; then the next helper is indeterminate |
| `ActionReceipts.EarlyAnswer` | internal/guestproto/action_store.go:68-80 | a run in which a success is read back and answered before its entry is synced |
| `PreparedCache.Machine.WriteAttempt` | internal/basebuild/build.go:427-471 | a journal is replaced whole or not at all, wherever it stops |
| `PreparedCache.Machine.CompleteAdmission` | internal/basebuild/prepare.go:302-318 | the pending journal beside its record becomes admitted |
| `PreparedCache.Machine.FinishPublished` | internal/basebuild/prepare.go:602-632 | in no reachable state is a mismatched scratch record found, and an interrupted publication is finished |
| `PreparedCache.Machine.LoadPrepared` | internal/basebuild/prepare.go:447-523 | returns exactly the published record of the key, refused only beyond 4096 bytes |
| `PreparedCache.Machine.StorePrepared` | internal/basebuild/prepare.go:525-600 | publishes a whole record by link, never replacing one; wherever it stops, a newly published record is this one |
| `PreparedCache.Machine.ResumePending` | internal/basebuild/prepare.go:262-300 | admits a journalled candidate after rechecking it, to exactly the journalled record; wherever it stops, only the attempt's own record can have been published |
| `PreparedCache.Machine.FailAttempt` | internal/basebuild/build.go:179-224 | a failure is journalled, and only before admission is pending |
| `PreparedCache.Machine.Build` | internal/basebuild/build.go:179-360 | phases only move forward; success leaves a fresh attempt at the stopped candidate, and undisturbed it succeeds exactly for a new directory; a verifier that cannot be removed still fails the attempt |
| `PreparedCache.Machine.Qualify` | internal/basebuild/prepare.go:126-221 | success leaves a pending journal with a valid receipt and identity, and undisturbed it succeeds exactly for a passed receipt with matching fields and digests of 64 digits |
| `PreparedCache.Machine.Prepare` | internal/basebuild/prepare.go:89-221 | every stop keeps the journal and cache invariant; a returned record is the cached one beside an admitted journal, its receipt passed for this key and candidate on another object and names digests of 64 hexadecimal digits; wherever it stops, only the request's own attempt can have published; undisturbed, it returns the journalled record exactly if that is not yet published or fits its bound, unless another attempt published; an undisturbed fresh call builds and admits exactly the qualified candidate |
| `PreparedCache.Recovery` | internal/basebuild/prepare.go:262-341 | after any stopped and failing calls with one attempt for the key, a pending journal is still there and one undisturbed call returns exactly its record, unless that is published and longer than 4096 bytes; a published record is the journalled one |
| `PreparedCache.RivalAttempt` | internal/basebuild/prepare.go:126-221 | with two attempts for one key, the one with the pending journal gets the other's published record |
| `PreparedCache.History` | internal/basebuild/prepare.go:89-221 | over any history of stopped and failing calls, all successful calls for one key return the same record, of a passed qualification |
| `PreparedDisk.ValidReceiptExactly` | internal/basebuild/prepare.go:223-240 | a receipt is valid exactly if it passed, names this candidate and key, another object with a plain identifier, and two digests of 64 lower-case hexadecimal digits |
| `PreparedDisk.PublishedIsQualified` | internal/basebuild/prepare.go:207-221 | every published record of an invariant disk has such a receipt and a matching pending or admitted journal |
| `PreparedDisk.ForwardExactly` | internal/basebuild/build.go:179-360 | phases move forward in the written order, and to failed only before admission is pending |
| `PreparedDisk.AdmissionIsFinal` | internal/basebuild/prepare.go:302-318 | a journal at or after pending admission keeps its identity and receipt in every later disk |
| `ImportSelection.PredecessorsSuffice` | internal/importx/selection.go:25-57 | in sorted order, checking predecessors is equivalent to having no overlapping pair |
| `ImportSelection.NormalizeExactly` | internal/importx/selection.go:25-57 | exactly the selections of at most 32 well-formed, non-overlapping paths and an empty or 64-digit digest are accepted, with their exclusions sorted |
| `ImportSelection.NormalizeInvariant` | internal/importx/selection.go:25-57 | the normal form does not depend on the order of exclusions |
| `ImportSelection.EncodingFits` | internal/importx/selection.go:61-71 | the 16 KiB bound is never reached by a valid selection |
| `ImportSelection.ParseInvertsCanonical` | internal/importx/selection.go:61-90 | every acceptable selection has a canonical text, which parses to its normal form |
| `ImportSelection.CanonicalTextUnique` | internal/importx/selection.go:73-90 | two accepted texts that parse alike are equal |
| `ImportSelection.EmptyText` | internal/importx/selection.go:61-71 | the canonical text without exclusions, byte by byte |
| `ImportSelection.OneText` | internal/importx/selection.go:61-71 | the canonical text with one exclusion, byte by byte |
| `Paths.LessExactly` | internal/importx/selection.go:30-30 | the sorting order is decided by the first differing byte, a proper prefix first |
| `ImportCapture.EntryBoundImplied` | internal/importx/source.go:256-266 | the entry bound that grows with the exclusions never refuses what the counters admit |
| `ImportCapture.CaptureExactly` | internal/importx/source.go:238-333 | the bounded walk succeeds exactly when the sorted pruned listing meets all rules and limits, and returns that listing with its counts and met exclusions |
| `ImportMeaning.CaptureRules` | internal/importx/source.go:238-333 | a source is captured exactly if every listed entry has a plain name of at most 63 bytes, is owned and within the size, length and depth bounds, and the counts and total fit |
| `ImportMeaning.ValidComponentExactly` | internal/importx/source.go:439-449 | a component is accepted exactly if it is 1 to 63 letters, digits, dots, underscores and hyphens, starting with a letter or digit |
| `ImportManifest.HitsMeaning` | internal/importx/selection.go:108-114 | non-overlapping exclusions are met exactly when they name something in the tree |
| `ImportManifest.PruneListing` | internal/importx/source.go:267-280 | listing with exclusions is listing the pruned tree |
| `ImportManifest.ExclusionIsPruning` | internal/importx/selection.go:97-139 | capturing with exclusions gives the same entries, counts and digest as capturing the pruned tree, or fails if the selection is bad or names nothing |
| `ImportMeaning.SnapshotFacts` | internal/importx/selection.go:115-139 | a snapshot has a file, a manifest of at most 4 MiB and the digest of that manifest |
| `ImportMeaning.ExpectedDigestDecides` | internal/importx/selection.go:134-138 | with an expected digest the capture succeeds exactly if it would without one and has that digest |
| `ImportMeaning.HexInjective` | internal/importx/selection.go:135-136 | a digest is determined by its text |
| `ImportWalker.ReadDirectory` | internal/importx/source.go:256-267 | a directory listing in any order holds exactly its names |
| `ImportWalker.Walker.CaptureDirectoryAt` | internal/importx/source.go:238-333 | in whatever order directories are read, the in-place walk computes the specified capture and never collides in staging |
| `ImportWalker.Walker.CaptureOne` | internal/importx/source.go:268-326 | one entry updates counters, entries, met exclusions and staging as specified |
| `ImportWalker.Walk` | internal/importx/source.go:112-140 | walk and manifest give the specified snapshot, and staging holds exactly its objects |
| `ImportWalker.Preview` | internal/importx/selection.go:145-170 | a preview returns the snapshot, counts and digest a capture would |
| `ImportShape.CaptureShaped` | internal/importx/source.go:268-326 | captured names are valid, distinct and each below a directory listed earlier |
| `ImportInspect.InspectDirectory` | internal/importx/inspect.go:203-245 | the walk succeeds exactly when every object below is declared, unseen and as declared, in any reading order, and the size bound adds nothing |
| `ImportInspect.CheckEntry` | internal/importx/inspect.go:92-137 | accepts an entry exactly when it may follow those before it and is on disk as declared |
| `ImportInspect.CheckEntries` | internal/importx/inspect.go:92-137 | accepts exactly the well-formed manifests matching the disk, with their index and counts |
| `ImportInspect.Inspect` | internal/importx/inspect.go:24-148 | re-admission succeeds exactly when the disk holds a canonical manifest and exactly what it declares |
| `ImportInspect.PublishedWalk` | internal/importx/published.go:47-115 | the published walk and the entry count together mean that the tree is exactly the declared one |
| `ImportInspect.ComparePublished` | internal/importx/published.go:15-45 | returns the snapshot exactly when the published tree is the snapshot's |
| `ImportMeaning.ManifestedExactly` | internal/importx/inspect.go:45-86 | a manifest is read exactly from its own private file in canonical text of at most 4 MiB |
| `ImportMeaning.InspectableMeans` | internal/importx/inspect.go:76-148 | re-admission demands of every entry a plain unused path below a declared directory, sizes and digests in bounds, and on disk a private directory or a private file of that length and digest; nothing else may be there |
| `ImportMeaning.InspectableExactly` | internal/importx/inspect.go:92-148 | a staged capture is re-admitted exactly if the disk still holds each captured object, files with equal length and equal digest |
| `ImportMeaning.PublishedExactly` | internal/importx/published.go:47-115 | a published tree matches exactly if it holds exactly the captured names, each as a private directory or a private file of equal length and digest |
| `ImportMeaning.CompareCaptured` | internal/importx/published.go:15-45 | re-admission and comparison of a capture succeed exactly in these cases |
| `ImportStaged.CapturedIsInspectable` | internal/importx/inspect.go:24-148 | the staged result of any capture is re-admitted with the same entries, counts and digest |
| `ImportStaged.StagingParent.Capture` | internal/importx/source.go:63-179 | the whole snapshot appears under its transaction name, or nothing does |
| `ImportStaged.StagingParent.CaptureThenInspect` | internal/importx/selection.go:142-170 | preview, capture and re-admission of one static tree agree |
| `ImportRoundTrip.ImportPathFits` | internal/exportx/receiver.go:351-371 | every captured path below the transaction directory meets the receiver's length, depth and component rules |
| `ImportRoundTrip.ExportableIffNoCollision` | internal/exportx/receiver.go:373-389 | a captured snapshot under its transaction directory meets the receiver's rules exactly when no two names differ only in letter case |
| `ImportRoundTrip.AcceptedIffNoCollision` | internal/app/project.go:608-610 | under the single import selection and roomy limits the stream is accepted exactly when no two names differ only in letter case, with the snapshot's tree |
| `ImportRoundTrip.ReturnedMatches` | internal/importx/published.go:47-115 | what the receiver published below the transaction directory is exactly the captured tree |
| `ImportRoundTrip.CompareReturned` | internal/importx/published.go:15-45 | comparing the returned tree yields the original snapshot, or nothing when names collide |
| `GuestClipboard.NextKeeps` | guest/ubuntu-24.04-arm64/clipboard.py:467-547 | every step of parent, child, deadline and death keeps the relation between phases, receipt and selection |
| `GuestClipboard.ErrorExactly` | guest/ubuntu-24.04-arm64/clipboard.py:474-478 | after a reported error the selection can be claimed exactly if the child is past its last check, which needs an exception at the return of fork |
| `GuestClipboard.ErrorIsFinal` | guest/ubuntu-24.04-arm64/clipboard.py:61-77 | otherwise a reported error means that the selection is never claimed in any continuation |
| `GuestClipboard.ForkReturnInterrupted` | guest/ubuntu-24.04-arm64/clipboard.py:474-478 | a run that reports an error and claims the sent text |
| `GuestClipboard.UndisturbedWrite` | guest/ubuntu-24.04-arm64/clipboard.py:597-599 | an undisturbed write reports ok and has claimed the text |
| `GuestClipboard.ReportSound` | internal/guestproto/clipboard.go:378-404 | a final ok means an undisturbed command, a binding that still holds and that exactly the sent bytes were claimed, even if the helper could have read fewer; a final error means they never are, save for that window |
| `GuestClipboard.RespondExactly` | internal/guestproto/clipboard.go:378-404 | ok exactly for an admitted, undisturbed and still bound write whose receipt has the full length; error exactly for an admitted one with an error receipt; failure exactly if not admitted |
| `GuestClipboard.FailedChild` | guest/ubuntu-24.04-arm64/clipboard.py:503-547 | a child that fails before its claim is reported as an error, with the selection untouched |
| `HostClipboard.ReceivedFrame` | internal/clipboardhost/process.go:196-213 | whatever part of frame and token has arrived, a text read from it is the framed text |
| `HostClipboard.NextKeeps` | internal/clipboardhost/process.go:132-180 | every step of parent, helper and cancellation keeps the pipe, helper and receipt invariants |
| `HostClipboard.OutcomeSound` | internal/clipboardhost/helper_darwin.go:47-77 | unchanged means no commit ever, committed means exactly one commit of the text, which is UTF-8 of at most 1 MiB without NUL, unknown needs a ready helper, and no run commits twice |
| `HostClipboard.UndisturbedCommit` | internal/clipboardhost/process.go:143-179 | an undisturbed write of any valid text returns committed, with exactly these bytes in both pipes |
| `HostClipboard.ExecuteNeverStrengthens` | internal/clipboardx/service.go:82-220 | the service's outcome is never stronger than the destination's answer, and the destination gets exactly the source |
| `HostClipboard.AttemptedExactly` | internal/clipboardx/service.go:82-175 | the destination is asked exactly for a known, bound, admitted request that no look found cancelled and whose source is a readable valid text; otherwise the outcome is unchanged with a failure |
| `HostClipboard.RefusedAdmission` | internal/clipboardx/service.go:108-121 | a refused admission is returned as such and nobody is asked |
| `HostClipboard.AnswerBelieved` | internal/clipboardx/service.go:150-220 | a clear answer of the destination is passed on, an unclear one is unknown, and a paste is committed exactly if all of it was written |
| `HostClipboard.PullSound` | internal/clipboardx/service.go:153-155 | the outcome of a pull is true of the pasteboard now and later |
| `DiskLease.StepKeeps` | internal/backend/managed_disk.go:180-335 | every step of every interleaved operation keeps ownership balanced and every open lifetime in someone's hands |
| `DiskLease.Conservation` | internal/backend/managed_disk.go:202-259 | in every interleaving each file and lock has one owner or was released exactly once |
| `DiskLease.AtMostOneTake` | internal/backend/managed_disk.go:319-335 | two takes that both succeed share no disk |
| `DiskLease.TakenSet` | internal/backend/managed_disk.go:266-281 | a successful take has one to four distinct disks, all transferred to its own lifetimes |
| `DiskLease.UndisturbedTake` | internal/backend/managed_disk.go:299-335 | from every start an operation can take any such set, and no other disk changes |
| `DiskLease.NoLeak` | internal/backend/managed_disk.go:283-297 | after CloseUnclaimed each disk of the set is released or held by an operation that took it |
| `ManagedDisks.ManagedDisk.TakeForStart` | internal/backend/managed_disk.go:203-215 | transfers an available lease to a new lifetime, or changes nothing |
| `ManagedDisks.ManagedDisk.Close` | internal/backend/managed_disk.go:219-234 | releases an unclaimed lease once and never a transferred one |
| `ManagedDisks.Lifetime.Close` | internal/backend/managed_disk.go:253-259 | releases on the first call only |
| `ManagedDisks.CloseUnclaimed` | internal/backend/managed_disk.go:286-297 | releases exactly the leases still held |
| `ManagedDisks.TakeForStart` | internal/backend/managed_disk.go:299-335 | takes all leases exactly when all checks pass; a partial take is rolled back with one release each |
| `ManagedDisks.TakeOrGiveBack` | internal/backend/managed_disk.go:283-335 | a failed take and CloseUnclaimed release every lease exactly once |
| `OwnedScript.NextKeeps` | internal/basebuild/owned_script.go:142-197 | every step of child, reaper, stoppers and caller keeps mutual exclusion and truthful flags |
| `OwnedScript.SignalsOnlyUnreaped` | internal/basebuild/owned_script.go:142-155 | the process group is signalled only while the direct child is unreaped |
| `OwnedScript.MutualExclusion` | internal/basebuild/owned_script.go:142-197 | no two threads are inside the mutex |
| `OwnedScript.FreedOnlyAfterReap` | internal/basebuild/owned_script.go:81-127 | a return without the unproven mark, and so the release of verifier and tool link, follows a proven reap |
| `OwnedScript.HandleClosesAfterReap` | internal/basebuild/installer_launcher.go:159-191 | however often Wait times out and is called again, serial and ISO are closed at most once and only after a proven reap |
| `OwnedScript.EndsByItself` | internal/basebuild/owned_script.go:81-127 | from every start some run reaps a child that ended, returns proven and frees |
| `OwnedScript.StoppedChild` | internal/basebuild/owned_script.go:142-155 | from every start with a stopper some run kills the child, reaps it, returns proven and frees |
| `OwnedScript.WaitCloses` | internal/basebuild/installer_launcher.go:159-191 | from every start with a waiter some run closes serial and ISO after the reap |
| `Cpio.WriteEntry` | internal/exportx/bundle_integrity.go:130-141 | the writer appends exactly the newc encoding of the entry |
| `Cpio.HeaderFields` | internal/exportx/bundle_integrity.go:130-141 | the magic and all thirteen fields as they are read back, the link count and the zero fields among them |
| `Cpio.HexTextDigits` | internal/exportx/bundle_integrity.go:130-141 | digit k of a field is the lower-case hexadecimal digit of that place |
| `Cpio.EntryLayout` | internal/exportx/bundle_integrity.go:130-141 | header, name, zero bytes to a boundary of four, data, zero bytes to the next boundary |
| `Cpio.ReadWritten` | internal/exportx/bundle_integrity.go:130-141 | a newc reader recovers every entry with sizes below 2^32 and stops on a boundary |
| `Cpio.ReadArchiveWritten` | internal/exportx/bundle_integrity.go:109-113 | a newc reader recovers exactly the written entries up to the trailer |
| `Cpio.PackedEntries` | internal/exportx/bundle_integrity.go:109-113 | names, inode numbers and modes of the packed probe, request and trailer |
| `Cpio.InspectInitrd` | internal/exportx/bundle_integrity.go:70-128 | an image is accepted exactly if it has the base's digest as prefix, then padding, probe, request and trailer and nothing else |
| `Cpio.AcceptedUnique` | internal/exportx/bundle_integrity.go:70-128 | an accepted image is that one byte string, or its prefix collides with the base |
| `Cpio.AcceptedReads` | internal/exportx/bundle_integrity.go:109-123 | a reader of the appended part finds the probe, the request and nothing else |
| `Base64.CanonicalExactly` | internal/guestproto/protocol.go:306-309 | decode-and-compare accepts exactly the encoder's outputs, each with one decoding |
| `Base64.DecodedLengthExact` | internal/guestproto/protocol.go:471-482 | for canonical text the length read off is the decoded length |
| `Base64.Alphabet` | internal/guestproto/protocol.go:306-309 | the 64 symbols in order |
| `SerialFrame.SlicesSafeExactly` | internal/guestproto/protocol.go:318-327 | the 32-bit slice bounds are safe exactly for the stated input lengths, among them all below 4 GiB |
| `SerialFrame.ReadWireString` | internal/guestproto/protocol.go:318-327 | for every input on which no slice fails, reads a string exactly when its length passes the truncated check, and the input is its encoding and the rest |
| `SerialFrame.KeyWordsExactly` | internal/guestproto/protocol.go:301-316 | exactly one blob, in its one base64 text, is accepted per 32-byte key |
| `SerialFrame.KeyUnique` | internal/guestproto/protocol.go:301-316 | equal key texts mean equal keys |
| `SerialFrame.KeyLineValid` | internal/guestproto/protocol.go:301-316 | the one-line form of every 32-byte key is valid |
| `SerialFrame.BlobBytes` | internal/guestproto/protocol.go:301-316 | the accepted blob byte by byte |
| `SerialFrame.WordEnds` | internal/guestproto/protocol.go:301-303 | a word ends at the first of the six white space bytes |
| `SerialFrame.LineFits` | internal/guestproto/protocol.go:467-469 | every end line, also with a carriage return, fits the reader's bound |
| `SerialFrame.FrameRoundTrip` | internal/guestproto/protocol.go:402-465 | a frame is produced exactly for a matching result of at most 64 KiB and, also with a carriage return, decodes to the same result exactly if its digests and sshd settings are the required ones |
| `SerialFrame.AcceptedLineCanonical` | internal/guestproto/protocol.go:419-443 | an accepted line is the canonical line of its payload, up to that carriage return |
| `SerialFrame.LineBytes` | internal/guestproto/protocol.go:402-417 | the end line byte by byte |
| `SerialFrame.ValidNonceExactly` | internal/guestproto/protocol.go:262-272 | a nonce is 1 to 128 letters, digits, dots, colons, hyphens and underscores |
| `SerialFrame.AcceptedSettings` | internal/guestproto/protocol.go:419-465 | only a matching result with exactly these installed files, digests of 64 digits and these sshd settings is accepted |
| `SudoOptions.ScanTokens` | internal/hostx/doctor_os.go:426-469 | the scanning loop computes the specified tokens |
| `SudoOptions.TokensInvertWriting` | internal/hostx/doctor_os.go:426-469 | however tokens are quoted, escaped and separated, the text is cut into exactly the non-empty ones |
| `SudoOptions.TokensExactly` | internal/hostx/doctor_os.go:426-469 | a text is cut into tokens exactly if it is a legal writing of some, and every legal writing of it has the same tokens |
| `SudoMeaning.TwoTokens` | internal/hostx/doctor_os.go:426-469 | ordinary words are cut at a comma, a space or a tab |
| `SudoMeaning.QuotedToken` | internal/hostx/doctor_os.go:426-469 | within either quote separators belong to the token |
| `SudoMeaning.EscapedToken` | internal/hostx/doctor_os.go:426-469 | a backslash takes any byte as it is |
| `SudoPolicy.ReadAuthentication` | internal/hostx/doctor_os.go:408-424 | the last authentication token decides |
| `SudoMeaning.AuthenticationExactly` | internal/hostx/doctor_os.go:408-424 | however tokens are written, none is needed exactly if some token is `!authenticate` and no later one is that or `authenticate`, some is exactly in the opposite case, and neither if no token is one of them |
| `SudoMeaning.TrimExactly` | internal/hostx/doctor_os.go:281-285 | trimming drops white space at both ends and nothing else |
| `SudoMeaning.SectionExactly` | internal/hostx/doctor_os.go:353-397 | each section of defaults lasts from its own heading to the next heading |
| `SudoMeaning.DefaultExactly` | internal/hostx/doctor_os.go:353-397 | the defaults are the other non-empty lines of the two sections |
| `SudoMeaning.ExemptExactly` | internal/hostx/doctor_os.go:353-397 | a default exempts exactly if one of its trimmed options holds `exempt_group` and is not `!exempt_group` |
| `SudoPolicy.InheritedMeaning` | internal/hostx/doctor_os.go:353-397 | the inherited option is no-authentication exactly if a default sets it and no later one unsets it |
| `SudoPolicy.ReadDefaults` | internal/hostx/doctor_os.go:353-397 | fails exactly on a malformed, command-specific or exempting default, and otherwise gives the inherited option |
| `SudoPolicy.MatchMeaning` | internal/hostx/doctor_os.go:471-504 | an answer is right about whether the command grants everything, the target or its directory |
| `SudoPolicy.RootDirectoryMissed` | internal/hostx/doctor_os.go:497-502 | for a target directly in the root directory the directory rule is missed |
| `SudoPolicy.MatcherExactly` | internal/hostx/doctor_os.go:471-504 | the matcher is right about every line exactly for targets not directly in the root directory |
| `SudoMeaning.MatchProblemExactly` | internal/hostx/doctor_os.go:471-504 | exactly which command lines are not judged |
| `SudoMeaning.ListsExactly` | internal/hostx/doctor_os.go:471-504 | a command grants `ALL`, the program with any arguments, or the directory it lies in |
| `SudoParser.EffectiveMeaning` | internal/hostx/doctor_os.go:290-309 | the accumulated option of an entry is the last one set, or the inherited one |
| `SudoParser.CommandsMeaning` | internal/hostx/doctor_os.go:310-319 | the accumulated commands are exactly the non-blank lines after the command heading |
| `SudoMeaning.HeaderExactly` | internal/hostx/doctor_os.go:399-406 | an entry starts at its heading, alone or followed by a space or tab and a name |
| `SudoMeaning.EntryOkExactly` | internal/hostx/doctor_os.go:270-330 | an entry is read exactly if options and one heading come before its commands, other lines there have a colon, and there is a command, none with a comma |
| `SudoParser.CollectStanzas` | internal/hostx/doctor_os.go:266-332 | succeeds exactly when there are entries and all are in order, and yields every entry with its effective option and commands |
| `SudoParser.MatchStanzas` | internal/hostx/doctor_os.go:333-347 | true only with a matching command of an entry without authentication, false only if no such command matches, a problem only with one that cannot be judged |
| `SudoParser.ParsePasswordlessRule` | internal/hostx/doctor_os.go:261-348 | true only if some entry that needs no authentication grants the target, false only if none does; answers only well-formed listings, and all of those whose unauthenticated commands can be judged |
| `SudoListings.JudgeOwnOption` | internal/hostx/doctor_os.go:261-348 | an entry with `Options: !authenticate` and the target answers true, with `Options: authenticate` false |
| `SudoListings.JudgeInherited` | internal/hostx/doctor_os.go:261-397 | an entry without an option answers as the matching defaults say |
| `SudoListings.DefaultsRefused` | internal/hostx/doctor_os.go:353-397 | for any user, command-specific defaults about authentication and an exempt group are refused |
| `ProjectEvents.ErrorFitsReserve` | internal/app/project_json.go:53-79 | a truncated error event always fits the 64 KiB reserve |
| `ProjectEvents.EventBytes` | internal/app/project_json.go:58-79 | the bytes of an event of each kind |
| `ProjectEvents.Events.Emit` | internal/app/project_json.go:58-89 | an event is sent whole or its failure recorded, one that has no JSON form changes nothing, an error message is cut to its first 4096 bytes, an event is refused as full exactly beyond the limit, and the first error is never refused for lack of room |
| `ProjectEvents.Events.Write` | internal/app/project_json.go:90-104 | bytes are sent in order as progress events of at most 4096 bytes, or a prefix of them before a failure |

## Left out

- ImportRoundTrip.AcceptedIffNoCollision: limits are at least those of an import plus one directory; smaller receiver limits are covered by ExportTheory.AcceptedExactly.
- PreparedCache.Recovery: calls for the key of the recovered request use its attempt, because the property is false otherwise (PreparedCache.RivalAttempt).
- ActionSafety.ReceiptOnlyForSuccess: SHA-256 is not assumed injective, so two requests with equal digests and equal metadata are not told apart.
- Cpio.WriteEntry: header fields of 2^32 and more, which the source would print with more than eight digits, are not modelled.
- SudoParser.ParsePasswordlessRule: white space is ASCII white space and options are read as bytes.
- SerialFrame.KeyWordsExactly: Unicode white space between words is not modelled.
- SudoPolicy.MatchMeaning: targets are clean paths, as the caller resolves them.
- ImportInspect.InspectDirectory: one method stands for the snapshot walk and the published walk, which differ in the contents check and in skipping the manifest.
- ImportWalker.Walker.CaptureDirectoryAt: the source tree is static; changes between stat and read, which the code refuses, and a case-insensitive staging volume are not modelled.
- PreparedCache.Machine.Build: the installer, the guest and the qualifier are oracles; only their journal effects are modelled.
- DiskLease.StepKeeps: nil disks and set members with different roots or domains are refused before any lease moves and are not modelled.
- HostClipboard.ExecuteNeverStrengthens: source and destination are oracles with the answers their interfaces allow.
- Directory and file system identity checks around every open, and removal of partial staging trees, appear only as all-or-nothing publication.
- Wall-clock time, system calls, AppKit and GTK calls, and the VM, SSH and session layers are not part of this model.
- The general JSON token walks, UTF-8 validation and project command parsing would only add easy members.
