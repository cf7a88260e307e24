# Zero Vault: verified models of synchronisation, recovery, codecs and generators

This project models the parts of the Zero Vault repository in which several functions, a server that cannot be
trusted, crashes or threads have to work together, and proves what they promise. It is checked with
`dafny verify dfyconfig.toml` (Dafny 4.11).

**Item-level synchronisation** (`ItemSync` to `ClientRuns`). A client holds items, revisions, timestamps, pending
mutations and conflicts. A sync pushes capped plans until nothing is left to push and then pulls pages of changes. The
loops are methods of classes that update the state in place; each is proved against a function on values, and the
theorems are about those functions. The server is a script of arbitrary replies: a script that runs out is a lost
connection. Only the exactly-once theorem assumes a server that executes each mutation id once. Throughout, `rng` is a
source of fresh values (`StateOk` says that it repeats neither itself nor a stored mutation id), vault items have unique
ids, `updatedAt` names a content version, and decryption is a partial function that returns an item with the requested id.

**Codecs** (`Bits`, `Base64Url`, `Transcript`, `Text`, `Base32`, `Csv`, `CsvForeign`). Canonical base64url (section 5 of
RFC 4648) and the length-prefixed recovery transcript; three base32 implementations (section 6 of RFC 4648) compared with
each other; CSV export and import. Shifts and masks are defined one bit at a time and connected to arithmetic for the
widths that occur.

**Native handles** (`NativeHandles`). Sessions and one-shot recovery proofs live in two maps under separate locks. Every
call is a sequence of steps under one lock, and any interleaving of any calls is a run.

**Generators** (`PasswordGenerators`, `PasswordReach`), **recovery commit** (`RecoveryCommit`) and the **offline queue**
(`OfflineQueue`) are loops over a source of randomness, over storage whose writes may fail, and over requests that may
fail.

Most functions that the loops are proved against also have a theorem that says what they compute without naming them: the
fields of what is sent or stored, the exact condition of every refusal, the numbers a codec writes.

## Where the code promises less than one might read into it

Each of these is proved: the exact condition under which the promise holds, and where that helps a concrete run in which
it does not.

- A recovery proof must be *taken* within ten minutes and its session must be live *after* that, but the signature itself
  may come out at any later time, also after the session was locked (`NativeHandles.LateSignature`). Lock and cancel
  silence a session if and only if no signing call of it is past its liveness check when they remove it
  (`NativeHandles.RemovalSilencesExactlyWhen`). A proof past its lifetime signs no more if and only if no call holds it
  past that check, or before it with the session still live (`NativeHandles.LateExactlyWhen`).
- Once the recovery proofs of a session are dropped, none is stored again, however the threads go on, if and only if no
  opening call is at that moment still to add its proof (`NativeHandles.DroppingErases`). It happens: locking everything
  while a session is being opened can return, and then the recovery seed is stored (`NativeHandles.SeedOutlivesLockAll`).
- A web *pull* commit writes the vault before the sync keys. If the page dies in between, a pulled version looks edited
  if and only if its timestamp was not yet written and differs, and a pulled removal looks like a deletion if and only
  if not even the revisions were written and the id was known (`CrashRuns.TornPullLooksEdited`). The item is then sent
  as a new operation, a second time if it had been sent before (`CrashRuns.TornPullSendsAgain`,
  `CrashRuns.TornPullRepeats`). Both happen: the false edit (`CrashRuns.TornPullHappens`) and an item executed twice
  (`SentTwice.ItemExecutedTwice`). One operation for each item is what a client sends, however it goes on, if and only
  if no page was torn so that it brought an executed item back in this way (`OnceExactly.OneOperationExactlyWhen`);
  pages stored up to their timestamps never do (`CrashRuns.StoredPagesRespendNone`).
- The native base32 decoder trims U+0085, which the JavaScript decoders do not know as white space: they agree on an
  accepted secret if and only if it contains no such character (`Base32.NativeAgrees`). It also accepts a whole surplus
  letter of zero bits, and then the secret does not encode back (`Base32.NativeReencodes`).
- Replaying the offline queue counts every entry if and only if all stored kinds are known; an entry of another kind is
  dropped and counted nowhere (`OfflineQueue.ReplayCounts`).
- A replayed mutation flags its own record whatever item the answered conflicts are about: flags and the list of conflicts
  agree if and only if the answer names that item or it was listed before, or a delete has no record to flag
  (`OfflineQueue.UpsertFlags`, `OfflineQueue.DeleteFlags`, over a replay `OfflineQueue.ReplayKeepsFlags`).
- A CSV export imports as it was if and only if every item is free of line feeds, has no field with white space at an end
  and is accepted by the row schema (`Csv.ComesBackExactlyWhen`): the importer splits lines before it looks at quotes, and
  trims every cell.
- A recovery that fails may leave something changed, and says so: exactly which failing writes lead to either message, and
  what then reads back key by key, is `RecoveryCommit.RollbackIncompleteExactly` and
  `RecoveryCommit.MetadataNotRolledBackExactly`. A single failing write does so if and only if it is the one that puts the
  revision map back after preparing the new vault threw; the merged map then stays (`RecoveryCommit.Recover`).

## Model

| member | source | states |
|---|---|---|
| ItemSync.BuildItemLevelSyncPlan | packages/browser-vault/src/item-sync.ts:37-123 | the two capped loops build the plan of the first hundred units of work of one ordered list, and the pending record that goes with it |
| ItemSync.PlanUpserts | packages/browser-vault/src/item-sync.ts:55-101 | the first loop: replayed or new upserts for the first hundred dirty items, in vault order |
| ItemSync.PlanDeletes | packages/browser-vault/src/item-sync.ts:103-114 | the second loop: deletes of known ids the vault no longer holds, in what room is left |
| ItemSync.TakeWork | packages/browser-vault/src/item-sync.ts:65-106 | capping upserts first and deletes with the rest is capping the one work list |
| PlanLaws.EntryReplays | packages/browser-vault/src/item-sync.ts:66-113 | a task whose stored entry came from an operation replays exactly that operation and stores the same entry again |
| PlanLaws.SameWork | packages/browser-vault/src/item-sync.ts:94-113 | storing the new pending entries leaves the work list and its order as they were |
| PlanLaws.PlanIdempotent | packages/browser-vault/src/item-sync.ts:53-122 | rebuilding with the pending map just returned, under any other randomness, gives the identical plan and the identical map, and draws nothing |
| PlanLaws.PlanMeetsSchema | packages/shared/src/index.ts:257-277 | every plan from a reachable state has at most a hundred operations on distinct items under distinct mutation ids, and the state stays reachable |
| PlanLaws.WorkListDistinct | packages/browser-vault/src/item-sync.ts:103-106 | the work list names every id once |
| PlanLaws.WorkListMembers | packages/browser-vault/src/item-sync.ts:55-105 | exactly which items and ids are on the work list |
| PlanFields.PlannedFields | packages/browser-vault/src/item-sync.ts:66-114 | every operation of every plan and the entry stored for it, field by field: the stored upsert of the same version and account again, or a new one with the item's dates, its content sealed under a fresh nonce and mutation id, and as revision and base the stored base of that version or else the last known revision; deletes likewise; entries of other ids stay |
| PlanFields.EditedAgain | packages/browser-vault/src/item-sync.ts:67-92 | an item edited again since its operation was stored is sent as a new operation against the revision held for it |
| PlanFields.PlanSize | packages/browser-vault/src/item-sync.ts:65-106 | a plan takes all the work there is, up to a hundred operations |
| PlanFields.WorkInOrder | packages/browser-vault/src/item-sync.ts:55-106 | the order of the work: items in vault order, then gone ids in the order of the revisions, then of the pending entries |
| PushReplies.CheckReply | packages/browser-vault/src/sync.ts:28-46 | the checks before a reply may touch the state: the first fault, if there is one; accepted exactly when the server revision does not go back, every receipt and conflict matches an operation of its own and every operation is answered |
| PushReplies.RefusedExactlyFor | packages/browser-vault/src/sync.ts:28-46 | each fault exactly, over the fields of the reply: a receipt fits with its mutation id, id and kind and any revision above the base up to the server's, a conflict with its id, kind and base; nothing else is refused |
| PushReplies.AnswersCover | packages/browser-vault/src/sync.ts:30-46 | the receipts and conflicts of an accepted reply cover every submitted id, by counting |
| PushReplies.AcceptedAnswersOnce | packages/browser-vault/src/sync.ts:27-46 | an accepted reply answers every operation exactly once, as one receipt or as one conflict, never both |
| PushRounds.RoundHasEffect | packages/browser-vault/src/sync.ts:47-57 | an accepted reply settles every planned id that did not come back as a conflict, and touches no other id |
| PushRounds.RoundDrains | packages/browser-vault/src/sync.ts:22-59 | after an accepted reply the work list is the old one without exactly the planned prefix, in the same order, and the state is reachable again |
| PlanFields.RoundLeaves | packages/browser-vault/src/sync.ts:47-57 | the whole state after an accepted reply: what each receipt settles and each conflict leaves, the server revision, the list of conflicts, and that nothing else changes |
| SyncRuns.PushDrains | packages/browser-vault/src/sync.ts:22-59 | the push loop ends after exactly one round per hundred units of work, with nothing left to push, unless a reply was refused or missing |
| SyncRuns.PushEnds | packages/browser-vault/src/sync.ts:22-59 | every reply the push loop counts was accepted by the plan it answered, and a fault is that of the very next reply |
| SyncRuns.DrainedMeans | packages/browser-vault/src/sync.ts:26 | nothing is left to push if and only if every pending id is a conflict, every other local item is acknowledged at its version, and every known id is local or a conflict |
| SyncRuns.RoundAcks | packages/browser-vault/src/sync.ts:35-51 | what a round newly regards as settled, it has a receipt for, and the receipted envelope held that version |
| SyncRuns.NoLocalEditLost | packages/browser-vault/src/sync.ts:60-82 | for every server behaviour: an input item missing or changed afterwards was no conflict, had nothing pending, and its exact version had been acknowledged |
| SyncRuns.SyncDrains | packages/browser-vault/src/sync.ts:17-85 | a sync that ends without a fault, or on a page, leaves nothing to push: what is pulled is never owed; nothing is pulled unless everything was pushed |
| SyncRuns.SyncStateOk | packages/browser-vault/src/sync.ts:17-85 | a whole sync, wherever it stops, leads from a reachable state to a reachable state |
| Pull.FoldConcat | packages/browser-vault/src/sync.ts:64-76 | applying two change lists one after the other is applying their concatenation |
| Pull.FoldKeeps | packages/browser-vault/src/sync.ts:66 | no change list alters the item, revision or timestamp of a pending or conflicting id |
| Pull.PagesProgress | packages/browser-vault/src/sync.ts:60-82 | the cursor grows on every page but the last, the server revision never decreases, and at most a thousand pages are read |
| Pull.PagesAreOneFold | packages/browser-vault/src/sync.ts:60-82 | items and their order, revisions and timestamps after the pages equal one fold of all committed changes |
| Pull.SplitsAgree | packages/browser-vault/src/sync.ts:60-82 | two ways of cutting the same changes into pages end in the same vault |
| PullLaws.TakenExactlyWhen | packages/browser-vault/src/sync.ts:64-76 | a list of changes in ascending order is taken if and only if every upsert of an id that is neither pending nor conflicting is of this account and opens |
| PullLaws.PageReconciles | packages/browser-vault/src/sync.ts:61-80 | one page: refused for its cursor exactly when it goes back or stands still with more to come; taken, it moves cursor and revision to its own; with nothing new about an id, item, revision and timestamp stay; with changes in order the last decides: a removal leaves none of the three, an upsert its content, revision and date |
| PullLaws.PageTakenExactlyWhen | packages/browser-vault/src/sync.ts:61-76 | a page of changes in order is taken if and only if its cursor is in order and all its open upserts are usable |
| PullLaws.PullReconciles | packages/browser-vault/src/sync.ts:60-82 | the same of all the pages that were read: every id nothing local protects is left as the changes have it |
| PullLaws.PullEnds | packages/browser-vault/src/sync.ts:60-82 | where a pull stands when it ends, and that its fault is what the page that stopped it says there, the limit of a thousand pages included |
| SyncVaults.SyncSession.PlanRound | packages/browser-vault/src/sync.ts:23-25 | plans, stores the pending map and commits before anything is sent |
| SyncVaults.SyncSession.SettleReceiptsInPlace | packages/browser-vault/src/sync.ts:47-51 | the in-place loop over receipts computes the settled state |
| SyncVaults.SyncSession.NoteConflicts | packages/browser-vault/src/sync.ts:54-57 | the in-place loop adds each conflict id once, in order |
| SyncVaults.SyncSession.PushRound | packages/browser-vault/src/sync.ts:22-59 | one round; a refused reply leaves state and disk as the plan left them |
| SyncVaults.SyncSession.PushPhase | packages/browser-vault/src/sync.ts:22-59 | the loop computes the specified run of rounds |
| SyncVaults.SyncSession.ApplyChangeInPlace | packages/browser-vault/src/sync.ts:64-75 | one change, applied to the maps in place |
| SyncVaults.SyncSession.PullPage | packages/browser-vault/src/sync.ts:61-80 | one page: checked, applied and committed, or failing without a commit |
| SyncVaults.SyncSession.PullPhase | packages/browser-vault/src/sync.ts:60-82 | the loop over pages computes the specified run |
| SyncVaults.SyncSession.Sync | packages/browser-vault/src/sync.ts:17-85 | the whole of `syncVault` computes the specified run of rounds and pages |
| CrashRuns.WebStorage.Commit | apps/web/lib/vault-sync.ts:292-297 | the six ordered writes; dying after any number of them leaves exactly that torn state |
| CrashRuns.KeyOrder | apps/web/lib/vault-sync.ts:292-297 | a key that was written stands behind all keys written before it; the cursor is last |
| CrashRuns.ExactlyOnce | apps/web/lib/vault-sync.ts:281-304 | over any run of pulled pages and push attempts, with crashes between writes of either, lost replies and arbitrary answers: as long as no torn page brings an executed item back, two operations ever sent for one item are the same operation, and an idempotent server executes each sent operation once |
| OnceExactly.OneOperationExactlyWhen | apps/web/lib/vault-sync.ts:281-304 | for every run, that condition is exact: from any point of the run, however it goes on with push attempts, one operation is sent for each item, if and only if no page of the run was torn so that it brought an executed item back |
| SentTwice.ItemExecutedTwice | apps/web/lib/vault-sync.ts:292-296 | a run in which the condition fails: a pushed and acknowledged item is pulled in a newer version, the page dies right after the vault, and the next push sends, and the server executes, a second operation for the item |
| OnceExactly.ReachesWire | packages/browser-vault/src/sync.ts:22-59 | whatever is on the work list with nothing pending, at any place, can come to be sent, and then under a fresh mutation id |
| CrashRuns.PageSafeExactly | apps/web/lib/vault-sync.ts:292-297 | one page, torn anywhere: every executed operation stays settled or replayable as it is, if and only if the page brings no executed item back |
| CrashRuns.StoredPagesRespendNone | apps/web/lib/vault-sync.ts:292-294 | a run whose pages are stored at least up to their timestamps brings no executed item back |
| CrashRuns.StillOwedUnchanged | packages/browser-vault/src/item-sync.ts:66-113 | what was sent is, after any such run, settled or still owed in exactly the form it was sent: same id, base and envelope |
| CrashRuns.TornPullLooksEdited | apps/web/lib/vault-sync.ts:292-296 | after a torn pull commit a pulled version looks edited if and only if its timestamp was not yet written and differs; a pulled removal looks like a deletion if and only if the revisions were not written and the id was known |
| CrashRuns.TornPullSendsAgain | apps/web/lib/vault-sync.ts:292-296 | what the next plan sends for such an id: a new operation under a fresh mutation id with the pulled content, against the old or the pulled revision, whichever is stored |
| CrashRuns.TornPullRepeats | apps/web/lib/vault-sync.ts:292-296 | if the item had been executed before, that is a second, different operation, and it takes a page that brings an executed item back |
| CrashRuns.TornPullHappens | apps/web/lib/vault-sync.ts:292-296 | a first page pulled by an empty client and torn right after the vault leaves the pulled item on the work list |
| ConflictResolution.ScanFinds | apps/extension/src/vault.ts:201-208 | the scan comes through if and only if the pages are a whole feed, with growing cursors and within the limit, and has then found the last change about the id |
| ConflictResolution.ScanStops | apps/extension/src/vault.ts:203-208 | why a scan fails: a cursor out of order, the page limit or a missing page, each exactly |
| ConflictResolution.ResolutionFixesNextPush | apps/extension/src/vault.ts:209-221 | after "local" the item is pushed against the last revision of the feed, as an upsert or a delete; after "remote" it is left alone; after "copy" the vault holds an item with the new id and dates, the local content and the marked title, to be pushed as new; the vault then holds just these and the other items, whose work and state stay |
| ConflictResolution.ResolutionSends | apps/extension/src/vault.ts:209-221 | what the next plan then sends for the item and for the copy, field by field |
| ConflictResolution.ResolvedOrder | apps/extension/src/vault.ts:209-216 | the items that stay keep their order in front, the copy is next, the remote item last |
| ConflictResolution.RefusedExactlyWhen | apps/extension/src/vault.ts:201-215 | over a whole feed, only its last change about the id can refuse a resolution: it does if and only if the choice is not "local" and that change is an item of another account or one that cannot be opened, whatever came before it |
| ConflictResolution.ExtensionDisk.FindRemote | apps/extension/src/vault.ts:201-208 | the loop over pages computes the specified scan, with its cursor and page-limit faults |
| ConflictResolution.ExtensionDisk.ResolveConflict | apps/extension/src/vault.ts:198-223 | the in-place resolution computes the specified one; a failing resolution changes nothing |
| ClientRuns.EveryPlanMeetsSchema | packages/shared/src/index.ts:257-277 | from the empty state, after any sequence of syncs, resolutions, edits and rounds or pages that die between two writes, the next plan meets the schema and can be rebuilt identically |
| Base64Url.CanonicalTail | packages/shared/src/index.ts:13-36 | the canonicity test says exactly that the bits after the last byte are zero and fewer than six; the length function counts the bytes |
| Base64Url.EncodeThenDecode | packages/shared/src/index.ts:49-82 | decoding what was encoded returns the bytes, for every non-empty byte string |
| Base64Url.DecodeThenEncode | packages/shared/src/index.ts:49-82 | encoding what was decoded returns the string, for every canonical string |
| Base64Url.DecodedInjective | packages/shared/src/index.ts:49-66 | canonical strings with equal bytes are equal |
| Base64Url.AlphabetIs | packages/shared/src/index.ts:27 | the alphabet of RFC 4648, section 5, and no character beside it |
| Base64Url.DecodedNumeral | packages/shared/src/index.ts:49-66 | a canonical text writes in radix 64 the number its bytes write in radix 256, shifted by the bits that fill the last character |
| Base64Url.TestVectors | packages/shared/src/index.ts:68-82 | the encodings of RFC 4648, section 10, without padding |
| Base64Url.DecodedLengthIs | packages/shared/src/index.ts:13-25 | which texts have a decoded length, with padding or without, and that it counts the whole bytes |
| Base64Url.Decode | packages/shared/src/index.ts:49-66 | the accumulator loop decodes; the accumulator stays below 2^12 and the buffer is filled exactly |
| Base64Url.Encode | packages/shared/src/index.ts:68-82 | the loop over groups of three bytes encodes |
| Transcript.LaxIsCanonical | packages/shared/src/index.ts:13-26 | 24 or 48 bytes leave no room for padding or spare bits: the laxer envelope fields are canonical |
| Transcript.ValidDecodes | packages/shared/src/index.ts:655-708 | a schema-valid input never makes the base64url decoder throw |
| Transcript.FramesReadBack | packages/shared/src/index.ts:733-740 | parsing length-prefixed frames gives back the fields, whatever they contain |
| Transcript.TranscriptDetermines | packages/shared/src/index.ts:726-785 | within the size limit, equal transcripts come from inputs that parse to the same value, field by field, and only from those |
| Transcript.SchemaExactly | packages/shared/src/index.ts:655-708 | the schema takes an input exactly when every base64url text decodes to as many bytes as its field has, and the fixed values are as given |
| Transcript.Layout | packages/shared/src/index.ts:726-785 | reading the frames gives the 27 named fields in order, with their sizes; within the limit, and only then, the native signer takes the transcript |
| Transcript.Writer.Append | packages/shared/src/index.ts:733-740 | appends length and field; throws exactly when the running length exceeds the limit |
| Transcript.Writer.Output | packages/shared/src/index.ts:778-784 | the copy loop yields the concatenation of the chunks |
| Transcript.BuildTranscript | packages/shared/src/index.ts:726-785 | returns the transcript; for a schema-valid input the only failure is the size limit, and exactly above it |
| NativeHandles.AtMostOneSignature | crates/crypto-core/src/mobile.rs:1008-1029 | over all interleavings a proof signs at most once, with the seed and session it was issued with |
| NativeHandles.SpentForever | crates/crypto-core/src/mobile.rs:313-321 | a proof that is neither stored nor carried by a call never signs again |
| NativeHandles.RejectedTranscriptSpends | crates/crypto-core/src/mobile.rs:1017-1022 | an attempt with a bad transcript consumes the proof all the same |
| NativeHandles.SignaturesAreJustified | crates/crypto-core/src/mobile.rs:272-345 | every signature's proof was taken within its lifetime, and its session was live after that |
| NativeHandles.LivenessWasSeen | crates/crypto-core/src/mobile.rs:338-350 | that is what the map held: at the step the signature names, its call checked the session at that time and found it with that last use |
| NativeHandles.OnlyUseRenews | crates/crypto-core/src/mobile.rs:338-350 | only opening, signing or using a session renews it; asking whether it is valid does not, and answers by its last use |
| NativeHandles.NoSignatureAfterRemoval | crates/crypto-core/src/mobile.rs:1048-1166 | once lock or cancel removed a session, no later liveness check on its proofs succeeds |
| NativeHandles.SilentExactlyWhen | crates/crypto-core/src/mobile.rs:1023-1027 | a session that is gone signs nothing more, in any continuation, if and only if no call is past its liveness check |
| NativeHandles.RemovalSilencesExactlyWhen | crates/crypto-core/src/mobile.rs:1048-1166 | lock and cancel silence a session if and only if no signing call of it is past its check at that moment |
| NativeHandles.LateExactlyWhen | crates/crypto-core/src/mobile.rs:1017-1027 | a proof past its lifetime signs nothing more if and only if no call holds it past the check, or before the check with a live session |
| NativeHandles.DroppingErases | crates/crypto-core/src/mobile.rs:284-290 | dropping leaves no proof of the session stored, and none comes back in any continuation, if and only if no opening call is at that moment still to add its proof |
| NativeHandles.SeedOutlivesLockAll | crates/crypto-core/src/mobile.rs:1157-1177 | a run in which locking everything returns during an opening call, and the recovery seed is stored after it |
| NativeHandles.ErasedForever | crates/crypto-core/src/mobile.rs:284-290 | erased proofs stay erased |
| NativeHandles.LateSignature | crates/crypto-core/src/mobile.rs:1017-1027 | a run in which the signature comes after the proof's lifetime and after the lock |
| NativeHandles.NewHandle | crates/crypto-core/src/mobile.rs:261-270 | the first drawn handle that is not in the map |
| NativeHandles.SignOutcome | crates/crypto-core/src/mobile.rs:1008-1029 | an undisturbed signing: which of the answers is given, exactly, by the age of the proof, the size and prefix of the transcript and the last use of the session; the proof is gone after every attempt, expired entries with it, and the session is used now |
| NativeHandles.OpenOutcome | crates/crypto-core/src/mobile.rs:919-964 | an undisturbed opening adds one session and one proof and keeps exactly the entries still alive |
| NativeHandles.CancelOutcome | crates/crypto-core/src/mobile.rs:1032-1068 | what discarding and cancelling answer and leave, entry by entry |
| NativeHandles.LockOutcome | crates/crypto-core/src/mobile.rs:1139-1154 | the same of locking |
| NativeHandles.UseOutcome | crates/crypto-core/src/mobile.rs:338-351 | using a session and asking for it find it exactly within the hour; only using it renews it |
| NativeHandles.HandleStore.InsertSession | crates/crypto-core/src/mobile.rs:323-336 | sweeps expired sessions and inserts under a new handle |
| NativeHandles.HandleStore.InsertRecoveryProof | crates/crypto-core/src/mobile.rs:292-311 | sweeps expired proofs and inserts under a new handle |
| NativeHandles.HandleStore.TakeRecoveryProof | crates/crypto-core/src/mobile.rs:313-321 | sweeps, and removes the proof it returns |
| NativeHandles.HandleStore.WithSession | crates/crypto-core/src/mobile.rs:338-351 | sweeps, and renews the session it finds |
| NativeHandles.HandleStore.Open | crates/crypto-core/src/mobile.rs:919-964 | undisturbed, opening is its two steps of the state machine |
| NativeHandles.HandleStore.SignRecoveryFinish | crates/crypto-core/src/mobile.rs:1008-1029 | undisturbed, signing is its steps, with the exact outcome; it signs with the stored seed and the handle is gone |
| NativeHandles.HandleStore.DiscardProof | crates/crypto-core/src/mobile.rs:1032-1045 | removes the proof |
| NativeHandles.HandleStore.CancelRecovery | crates/crypto-core/src/mobile.rs:1048-1068 | undisturbed, cancelling is its three steps |
| NativeHandles.HandleStore.LockVault | crates/crypto-core/src/mobile.rs:1139-1154 | undisturbed, locking is its two steps, and reports whether the session was there |
| NativeHandles.HandleStore.LockAllVaults | crates/crypto-core/src/mobile.rs:1157-1177 | leaves both maps empty |
| NativeHandles.HandleStore.SessionIsValid | crates/crypto-core/src/mobile.rs:1127-1136 | answers for a session used within the hour, without renewing it |
| PasswordGenerators.IndexUnbiased | crates/crypto-core/src/mobile.rs:1220-1232 | every index is the reading of equally many accepted 32-bit values, and of at least one |
| PasswordGenerators.ByteUnbiased | packages/browser-vault/src/password-generator.ts:15-20 | every character is the reading of equally many accepted bytes, and of at least one |
| PasswordGenerators.RandomWords.RandomIndex | crates/crypto-core/src/mobile.rs:1220-1232 | the rejection loop returns the first accepted draw, reduced |
| PasswordGenerators.ShuffleRearranges | crates/crypto-core/src/mobile.rs:1212-1215 | any choices give a rearrangement |
| PasswordGenerators.ShuffleOnto | crates/crypto-core/src/mobile.rs:1212-1215 | every rearrangement is reached by some choices |
| PasswordGenerators.ShuffleOneToOne | crates/crypto-core/src/mobile.rs:1212-1215 | on distinct elements different choices give different orders |
| PasswordGenerators.Shuffle | crates/crypto-core/src/mobile.rs:1212-1215 | the in-place loop makes exactly the drawn swaps |
| PasswordGenerators.Fill | crates/crypto-core/src/mobile.rs:1204-1212 | one character of each class, then any characters, at the drawn indices |
| PasswordGenerators.GenerateNative | crates/crypto-core/src/mobile.rs:1180-1218 | the password the random words determine, or `InvalidInput` |
| PasswordGenerators.GeneratedHasEveryClass | crates/crypto-core/src/mobile.rs:1187-1217 | requested length, allowed characters only, every selected class present |
| PasswordReach.NativePassword | crates/crypto-core/src/mobile.rs:1180-1218 | read off the flags: refused exactly when none is set, or the length is below 4, above 256 or below their number; otherwise the length, a character of every selected kind, and none of another |
| PasswordReach.NativeReachesAll | crates/crypto-core/src/mobile.rs:1198-1217 | every password that fits the flags comes out for some random 32-bit words |
| PasswordGenerators.GenerateBrowser | packages/browser-vault/src/password-generator.ts:9-23 | the refill loop reads the accepted bytes in order, as many as wanted |
| PasswordGenerators.BrowserPasswordAllowed | packages/browser-vault/src/password-generator.ts:3-8 | requested length; characters of the set only; the set honours every option |
| PasswordReach.BrowserSetIs | packages/browser-vault/src/password-generator.ts:3-8 | the set, character by character, from the options |
| PasswordReach.BrowserReachesAll | packages/browser-vault/src/password-generator.ts:9-23 | refused exactly when the length is below 8 or above 128 or no character is left; otherwise every text of the length over the set comes out of some buffer of 128 bytes |
| RecoveryCommit.LocalStorage.Restore | apps/web/lib/vault-recovery.ts:316-329 | puts one key back as it was, or fails and changes nothing |
| RecoveryCommit.WriteAll | apps/web/lib/vault-recovery.ts:308-314 | the four writes up to the first that fails, and what reads back then, key by key |
| RecoveryCommit.RollBack | apps/web/lib/vault-recovery.ts:314-334 | tries every write; each key reads as given unless its own write failed |
| RecoveryCommit.Commit | apps/web/lib/vault-recovery.ts:305-339 | committed if and only if the four writes succeed; undone means everything reads back as before; otherwise exactly what was written and could not be undone stays; one failing write never breaks the roll-back |
| RecoveryCommit.Merge | apps/web/lib/sync-vault.ts:162-191 | the loop merges decryptable items and lists the others |
| RecoveryCommit.MergeFailures | apps/web/lib/sync-vault.ts:171-188 | nothing fails if and only if every item but the whole-vault envelope decrypts |
| RecoveryCommit.MergeKeepsLast | apps/web/lib/sync-vault.ts:171-188 | without failures, every id has its last entry and that entry's revision |
| RecoveryCommit.MergedExactly | apps/web/lib/sync-vault.ts:171-188 | with failures or without: for every id the last entry that decrypts decides item and revision, and without one both stay; exactly the ids of the others are reported |
| RecoveryCommit.MergeKeepsPlaces | apps/web/lib/sync-vault.ts:175-181 | merged items take the places of the local ones; new items come after them |
| RecoveryCommit.SaveMerged | apps/web/lib/vault-recovery.ts:252-266 | saves the merged revisions and puts the old ones back when an item failed; goes on if and only if none failed and the write succeeded; every other end, and what then reads back, by the numbers of the failing writes |
| RecoveryCommit.Finish | apps/web/lib/vault-recovery.ts:270-366 | prepares and commits, for every pattern of failing writes |
| RecoveryCommit.RollbackIncompleteExactly | apps/web/lib/vault-recovery.ts:314-366 | the message that the roll-back is incomplete, exactly, in the numbers of the failing writes, and which keys stay changed |
| RecoveryCommit.MetadataNotRolledBackExactly | apps/web/lib/vault-recovery.ts:352-366 | the message that the revision map was not rolled back, exactly, and which map and which keys stay |
| RecoveryCommit.OneFaultEnds | apps/web/lib/vault-recovery.ts:252-366 | a single failing write never gives the first message, and the second in exactly one case |
| RecoveryCommit.Recover | apps/web/lib/vault-recovery.ts:252-366 | for every pattern of failing writes, the end and what reads back; success is the new vault, the new packet and nothing pending; any error but the two roll-back messages leaves vault, packet, pending and revision map reading as before |
| Base32.EncodeThenDecode | apps/web/lib/totp.ts:14-56 | decoding what was encoded returns the bytes |
| Base32.AlphabetIs | apps/web/lib/totp.ts:8 | the alphabet of RFC 4648, section 6, and no character beside it |
| Base32.EncodedNumeral | apps/web/lib/totp.ts:37-56 | the encoding writes in radix 32 the number its bytes write in radix 256, shifted by the zero bits that fill the last letter |
| Base32.DecodedExactly | apps/web/lib/totp.ts:14-32 | which ASCII texts decode, skipping blanks, `=` and `-` and whatever the case, and to which bytes |
| Base32.DecodeWeb | apps/web/lib/totp.ts:14-32 | the unmasked 32-bit accumulator computes the regrouping of bits, on every input |
| Base32.EncodeWeb | apps/web/lib/totp.ts:37-56 | so does the encoder |
| Base32.DecodeDesktop | apps/desktop/src/lib/totp.ts:15-43 | the bit-list decoder computes the same function |
| Base32.EncodeDesktop | apps/desktop/src/lib/totp.ts:45-58 | the bit-list encoder computes the same function |
| Base32.DecodeNative | crates/crypto-core/src/mobile.rs:1377-1403 | the masked accumulator computes the stricter function and stays below 2^16 |
| Base32.NativeAgrees | crates/crypto-core/src/mobile.rs:1377-1403 | on an accepted secret the browser decoders return the same bytes if and only if it has no U+0085 |
| Base32.NativeExactly | crates/crypto-core/src/mobile.rs:1377-1403 | accepted exactly when the trimmed body is 16 to 2048 letters or digits from 2 to 7 with zero bits after the last byte; the bytes are those of the number |
| Base32.BodyBetween | crates/crypto-core/src/mobile.rs:1378 | white space around the secret and padding after it are cut off |
| Base32.NativeReencodes | crates/crypto-core/src/mobile.rs:1399-1401 | an accepted secret is what its bytes encode to, if and only if fewer than five bits are left over |
| Base32.DisagreementsOccur | crates/crypto-core/src/mobile.rs:1378 | both disagreements, on concrete secrets |
| Csv.SplitCsvLine | apps/web/lib/csv-import.ts:4-27 | the character loop computes the specified split |
| Csv.SplitRow | apps/web/lib/vault-settings.ts:68-72 | splitting an exported row gives back every value trimmed, for arbitrary text |
| Csv.LinesOfJoin | apps/web/lib/csv-import.ts:42-45 | splitting joined lines gives the lines back |
| Csv.ParsePasswordCsv | apps/web/lib/csv-import.ts:41-73 | the import loop; rows and rejections add up to the data lines of any file |
| Csv.RoundTrip | apps/web/lib/csv-import.ts:41-73 | importing an export of newline-free items gives the accepted ones in order, each field trimmed, and one rejection for every other |
| Csv.SameExactlyWhenTrimmed | apps/web/lib/csv-import.ts:26 | the fields survive if and only if they are trimmed |
| Csv.ImportsAreOneLine | apps/web/lib/csv-import.ts:42-53 | no import of any file yields a field with a line feed |
| Csv.LineFeedLosesItem | apps/web/lib/vault-settings.ts:64-74 | an exported item with a line feed never comes back as it was |
| Csv.ComesBackExactlyWhen | apps/web/lib/csv-import.ts:41-73 | an export imports as it was, in order and complete, if and only if every item is free of line feeds, trimmed and accepted |
| Csv.ItemComesBack | apps/web/lib/csv-import.ts:42-53 | an accepted item without a line feed comes back, trimmed, whatever the other items of the file hold |
| CsvForeign.AnyBreaks | apps/web/lib/csv-import.ts:42-45 | lines joined by line feeds, with carriage returns or without, split back |
| CsvForeign.FileReads | apps/web/lib/csv-import.ts:42-73 | any file, with a byte order mark or without: the first filled line is the header, every later filled line is read under it, and the accepted rows are imported in order |
| CsvForeign.HeaderRead | apps/web/lib/csv-import.ts:29 | a header is trimmed, lower-cased, and its blanks become underscores |
| CsvForeign.LastColumn | apps/web/lib/csv-import.ts:56 | of several columns under one header the last decides |
| CsvForeign.ColumnsRead | apps/web/lib/csv-import.ts:55-63 | each field is the value of the only column under one of its names, wherever it stands, and empty without one |
| CsvForeign.NamesRanked | apps/web/lib/csv-import.ts:31-63 | of several columns for a field the first filled one in the order of the names counts |
| CsvForeign.ExportLayout | apps/web/lib/vault-settings.ts:64-74 | an export is the header and one line for every item, with its five values in order |
| OfflineQueue.EnqueueKeepsQueueOk | apps/desktop/src/lib/offline-queue.ts:76-93 | at most 500 entries after any enqueue; one per item stays one per item |
| OfflineQueue.EnqueueLosesOnlyOldest | apps/desktop/src/lib/offline-queue.ts:76-93 | the entry is there; of the unexpired others only the oldest goes, and only for a new item on a full queue |
| OfflineQueue.UnexpiredExactly | apps/desktop/src/lib/offline-queue.ts:60-65 | an entry survives exactly when its timestamp is a date less than seven days back |
| OfflineQueue.EnqueueOrder | apps/desktop/src/lib/offline-queue.ts:76-93 | where everything stands after an enqueue: in the place of the entry for the item, or last, the oldest of 500 gone |
| OfflineQueue.ReplayCounts | apps/desktop/src/state/vault-state.ts:596-741 | the two counts cover every entry of a known kind once, and all entries if and only if every kind is known |
| OfflineQueue.FailuresAre | apps/desktop/src/state/vault-state.ts:731-735 | exactly the entries whose request failed on the network are put back |
| OfflineQueue.FailuresLeaveNoTrace | apps/desktop/src/state/vault-state.ts:606-741 | an item none of whose requests was answered keeps its local record |
| OfflineQueue.AnswerLeaves | apps/desktop/src/state/vault-state.ts:635-729 | what one answer leaves, field by field: an answered delete no record, or with conflicts the marked one; an upsert its content, dates and revision; the rest of the store |
| OfflineQueue.ReplayLeaves | apps/desktop/src/state/vault-state.ts:606-741 | after a whole replay, the record of every answered item is what its answer leaves of the record before the replay |
| OfflineQueue.UpsertFlags | apps/desktop/src/state/vault-state.ts:637-661 | flagged records stay among the listed conflicts after an upsert if and only if an answer with conflicts names the item that was sent, or it was listed before |
| OfflineQueue.DeleteFlags | apps/desktop/src/state/vault-state.ts:703-719 | the same after a delete, unless the item has no record |
| OfflineQueue.ReplayKeepsFlags | apps/desktop/src/state/vault-state.ts:606-741 | over a replay flags stay listed after every entry if and only if every answer with conflicts names its item, or one listed by then, or deletes an item without a record |
| OfflineQueue.QueueIsFailures | apps/desktop/src/state/vault-state.ts:743-746 | putting the failures back leaves exactly them, in order |
| OfflineQueue.Desktop.Enqueue | apps/desktop/src/lib/offline-queue.ts:76-93 | the in-place enqueue computes the specified queue |
| OfflineQueue.Desktop.Dequeue | apps/desktop/src/lib/offline-queue.ts:99-104 | returns the unexpired entries and empties the queue |
| OfflineQueue.Desktop.ApplyUpsert | apps/desktop/src/state/vault-state.ts:635-688 | the store after an answered upsert, with or without conflicts |
| OfflineQueue.Desktop.ApplyDelete | apps/desktop/src/state/vault-state.ts:691-729 | the store after an answered delete |
| OfflineQueue.Desktop.PushOfflineQueue | apps/desktop/src/state/vault-state.ts:582-749 | the whole replay: store, counts and the queue afterwards |

## Left out

- `itemInfos`, `appliedCount` and `conflictDetails`: reporting only, nothing branches on them.
- Cryptography (Argon2id, XChaCha20-Poly1305, AES-GCM, HKDF, X25519, Ed25519, OPAQUE, HMAC): abstract values; an envelope
  is an item somebody sealed or foreign bytes, a signature is the seed and the transcript.
- The server's item-sync handler: not in the repository's files; every reply is allowed.
- The web, mobile and desktop handlers that resolve conflicts; `readRemoteItemState`; only the extension's is modelled.
- The legacy whole-envelope sync and `performItemLevelSync`, superseded by `syncVault`.
- User interface, form filling, origin matching, storage encodings other than the record texts of the recovery.
- EveryPlanMeetsSchema: the counts and distinctness of the plan schema and non-negative base revisions; not the UUID, date
  and envelope formats inside each operation.
- ExactlyOnce: the user does not edit the vault between the attempts; an edited item is meant to be sent again. The
  commit of the extension is one write, so none of its pages is torn.
- TranscriptDetermines: text fields are their UTF-8 bytes, so two different lone surrogates count as one; the patterns and
  lengths of text fields (UUIDs, email, names) only reject more and are not part of `SchemaValid`. Trimming and lower-casing
  of the email is a function parameter.
- BuildTranscript: the sequence of appender calls is a list that a loop goes through.
- SignRecoveryFinish: the maps of OPAQUE states, poisoned locks and the panic boundary are not modelled.
- NoSignatureAfterRemoval: as in the exact conditions beside it, it is assumed that a session handle, 128 random bits, is
  not drawn a second time.
- GenerateNative: the random source is a finite list of words, and `OutOfRandom` stands for a loop that would draw on; the
  same holds for the byte blocks of `GenerateBrowser` and the handles of `NewHandle`.
- GenerateBrowser: the length is an integer; the source rejects a number that is not one as invalid.
- Recover: reads of storage do not fail, and a page that dies between the writes is not modelled; pulling, decrypting,
  sealing and verifying are parameters.
- DecodeWeb: characters are Unicode scalar values; `toUpperCase` is any function that agrees with ASCII upper-casing on
  ASCII and U+0085.
- ParsePasswordCsv: the row schema (`importLoginRowSchema`) is any predicate; a header named like a property every object
  inherits is not special.
- PushOfflineQueue: the clock stands still, nothing else enqueues meanwhile, storage writes succeed, and a failure that is
  not the network's leaves the local store untouched; the list of visible items and the outer error handler are not
  modelled.
