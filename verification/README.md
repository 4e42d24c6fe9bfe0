# The passalong server, modelled and proved

A Dafny model of the workspace engine of `passalong-server-core` and of the
parts around it that have an algorithm of their own, with proofs of what they
promise. Every file is one module:

- `Wrappers`, `Sums`, `Ids`, `Stores`: the values. A shelf is staging places and
  numbered generations of items; a record is everything the rules remember.
- `Protocol`: what each of the fifteen operations decides, as a change and an
  answer; what a change does to the shelf and then to the record; and which
  destructive steps it leaves for after the commit.
- `MemoryShelf`, `Rules`, `Engine`: the code itself, imperative as it is: the
  memory shelf and the bounded copy loop, the rules at work on a record, the
  ledger and the transaction around a rule. Each method is proved to do what
  `Protocol` decides, so everything proved of decisions is true of it.
- `Shown`, `Answers`, `Sessions`: of each operation, exactly when it is answered
  what and what it leaves, and what is shown of the encryption, field by field
  of the record and the shelf and without the words of `Protocol`.
- `World`: a workspace over time. Events are transactions, transactions that die
  after their shelf step, deaths anywhere else, openings, content that arrives
  or breaks off, clean-ups that are taken or lost, and the passing of time. A
  history that nobody in the system keeps says who made what.
- `Changes`, `Invariants`, `Preservation`, `Runs`: when a change may be made,
  what always holds, that every event keeps it, and that every run does.
- `Recovery`, `Safety`, `Outcomes`, `Rewrites`, `Replays`, `Quota`: the results,
  for every run.
- `Counterexamples`: runs in which a comment's promise does not hold.
- `ShelfCalls`, `FsTree`, `FsCalls`, `FsShelf`: the calls of a shelf as values;
  the filesystem shelf as single changes of a directory tree, with a death
  possible between any two; and runs of calls against the memory shelf.
- `FsWorld`: the engine over that directory tree, as a workspace over time; each
  of its runs is a run of `World`.
- `SqliteLedger`: the record as nullable columns and rows, and back.
- `Control`: API keys against the history of the commands that made them.
- `FailureLimiter`, `Clock`, `Bridge`, `Ranges`: the sliding window, civil dates
  as text, the channels between asynchronous bodies and blocking readers, and
  what a `Range` header asks for.

## What the code relies on

The proofs take these as hypotheses; each is where the code takes it.

- The clock does not go back, limits stay as configured, and `staging_secs` is
  at least 1 (the results on replays need that).
- Upload ids are drawn once. `begin_upload` looks only among tickets and
  outcomes it still knows; an id that was forgotten could otherwise come again.
- Content takes effect before or after a transaction, never inside one. It is
  sent outside the workspace's lock, so without this the checks of a commit
  could be overtaken by the owner's own transfer.
- Shelf and ledger calls fail only by the death of the process. What a process
  did before it died stays; the loss of power is not modelled.
- SHA-256 and the parser of `meta` are arbitrary functions.
- Numbers are unbounded, but for what the code makes explicit: saturating sums
  (`Stores.SaturatingAdd`), the 63 bits of a database integer, the largest quota.

## Where code and comments differ

The model follows the code.

- The repair of a commit (`upload.rs:371-382`) takes a missing staging place
  beside an item of the right id and size for this upload's own publish. After a
  deletion it may be another's: `Counterexamples.RepairMayClaimAnothers`. It is
  its own exactly when nothing deleted the item or ended its generation since:
  `Outcomes.RepairClaimsItsOwn`, `Outcomes.RepairClaimsWhatStayed`.
- The quota (`upload.rs:98-103`) is said to be exceeded at most twofold and only
  while a rewrite is open. That is so exactly as long as each rewrite, when it is
  committed, leaves room for the plain items and for the ordinary uploads that
  are live under its key: `Quota.CommitLeavesExactly`, `Quota.FitsExactly`,
  `Quota.QuotaOverRuns`. Otherwise a settled workspace may hold twice its quota
  for good, and three times with a rewrite open, which is the most:
  `Counterexamples.PlainItemsMayDoubleTheQuota`,
  `Counterexamples.FormerKeyMayDoubleTheQuota`, `Quota.ThreeTimesAtMost`. Promises
  under other keys than the next are not counted, since their commits are refused
  until the workspace is back under their key, which takes another rewrite. With
  a quota of `u64::MAX` the saturating sum never exceeds it and nothing is
  refused.
- Every shelf is said to behave as the one in memory (`shelf/mod.rs:4-7`). A death
  inside the making of a staging place leaves a directory without content, which
  the file shelf writes to, publishes and lists, and of which the memory shelf
  would know nothing: `FsCalls.DivergesExactly`, `FsCalls.DeathMayLeaveBare`. The
  rules never publish such a place, since it has no size, and remove it once it
  has no ticket: `FsWorlds.DecidedCallAgrees`, `FsWorlds.FilesRecover`. So every
  workspace on files is, but for bare places, a world that is reachable with the
  memory shelf: `FsWorlds.FilesRefineMemory`.
- A `Range` header (`bridge.rs:181-183`) is read a little more loosely and a
  little more narrowly than section 14.1 of RFC 9110 has it:
  `Ranges.AsInRfcExactly` says exactly for which headers and sizes.
- `key prune` (`control/mod.rs:581-582`) is said to delete keys that expired or
  were revoked long enough ago. It goes by the revocation when there is one:
  `Controls.PrunesUnlessRevokedSince`, `Controls.PruneKeepsLateRevocation`.
- The bridge (`bridge.rs:6-9`) is said to hold at most as many pieces as its
  channel is deep, whatever the item's size. One more may be on its way into the
  channel and, inbound, one at the reader, so that it holds exactly of bodies
  that fit into the channel whole: `Bridges.InboundCommentHolds`,
  `Bridges.OutboundCommentHolds`, `Bridges.TenPiecesAreHeld`.

## Model

| member | source | states |
|---|---|---|
| `Recovery.CrashRecovery` | crates/passalong-server-core/src/workspace.rs:591-625 | After a death anywhere (inside the transaction, after the commit, between clean-ups, in any number of reopenings) and a last opening with its clean-ups: books equal the shelf in every live generation, no item-holding generation is unpointed-to, every staging place has a ticket, and the Current and Plain partitions are exactly those of before the operation or those of after it |
| `Recovery.OpeningRepairs` | crates/passalong-server-core/src/workspace.rs:520-541 | Whatever state satisfying the invariant the stores were left in, opening and its clean-ups leave nothing half done and change neither partition |
| `Recovery.HalfIsBeforeOrAfter` | crates/passalong-server-core/src/workspace.rs:591-613 | A transaction that dies after its shelf step and before its commit leaves the partitions of before the operation or of after it |
| `Safety.CleanupsAreSafe` | crates/passalong-server-core/src/workspace.rs:183-191 | A pending clean-up, run however late and after whatever else, destroys no item and no staged content the record points to |
| `Safety.NumbersAreNotReused` | crates/passalong-server-core/src/rewrite.rs:209-221 | A generation number that is not live now is never live again, over every run |
| `Safety.NextGenerationIsBornEmpty` | crates/passalong-server-core/src/rewrite.rs:209-221 | In every reachable state the next generation number is not on the shelf, not on the books, not live, and no drop of it is pending |
| `Safety.FindsTheOnlyOne` | crates/passalong-server-core/src/workspace.rs:1049-1059 | In every reachable state a generation has at most one item of a content key, and `find_in` finds an id exactly when it is that item |
| `Safety.PublishAlwaysTakes` | crates/passalong-server-core/src/upload.rs:390-405 | The answer of the shelf's publish that a commit ignores is always yes: the id was absent and the item is there afterwards, with the staged content |
| `Safety.KeysAreHomogeneous` | crates/passalong-server-core/src/rewrite.rs:66-76 | In every reachable state Current items are under the seal's key (none when plaintext), Plain items under none, staged items under the session's next key; rewrite tickets exist only during their session |
| `Safety.SealedForGood` | crates/passalong-server-core/src/workspace.rs:408-463 | Over every run a sealed workspace never becomes plaintext again, and the plain partition stays one generation that only loses items |
| `Safety.PlaintextIsHonest` | crates/passalong-server-core/src/upload.rs:251-280 | With the content check on, every live item stored under no key has as content key the first twelve digits of the hash of its stored bytes, `meta` says that hash and size, and the size is one that was announced for its id |
| `Outcomes.OneOutcome` | crates/passalong-server-core/src/upload.rs:356-436 | After a commit has answered an outcome, over every run with deaths and by whomever it is sent again, it answers that outcome or NOT_FOUND; to its owner that outcome until the staging time is over |
| `Outcomes.RetryAnswersAlike` | crates/passalong-server-core/src/upload.rs:371-405 | A commit that died inside its transaction and is sent again after any deaths, reopenings and clean-ups, its ticket still live, answers what the dead commit would have |
| `Outcomes.ContentAfterCommit` | crates/passalong-server-core/src/upload.rs:324-332 | Content sent after a commit that answered, whatever happened since, changes nothing; the sender is answered that all is well exactly until the staging time is over, and NOT_FOUND from then on |
| `Outcomes.RepairClaimsItsOwn` | crates/passalong-server-core/src/upload.rs:371-382 | A repaired commit did publish once, and the item it claims is its own if and only if that item has not left the workspace since |
| `Outcomes.GoneExactly` | crates/passalong-server-core/src/upload.rs:371-382 | An item that was published leaves the workspace in an event exactly when the event deletes it (recorded or dying before), commits the rewrite that replaces its generation, or aborts the one that staged it; and stays away unless published again |
| `Outcomes.RepairClaimsWhatStayed` | crates/passalong-server-core/src/upload.rs:371-382 | Over every run from the last publish of an upload on, a repair claims its own item if and only if no event of the run deleted that item or ended its generation |
| `Outcomes.NoDeathNoRepair` | crates/passalong-server-core/src/upload.rs:371-382 | Without a death inside a transaction no commit is ever repaired |
| `Counterexamples.RepairMayClaimAnothers` | crates/passalong-server-core/src/upload.rs:371-382 | With any limits, as long as `staging_secs` is at least 1: a reachable state of a sealed workspace (a death, a deletion, an upload of the same id by another) in which a repeated commit is answered that it created an item another upload made |
| `Rewrites.AbortConserves` | crates/passalong-server-core/src/rewrite.rs:318-365 | Whatever anyone did since a session was opened (staging, take-overs, ordinary requests, janitor, deaths), the holder's or the operator's abort restores state, pointers, what readers are shown, and every item of before |
| `Rewrites.AbortedKeyNeverOpens` | crates/passalong-server-core/src/rewrite.rs:190-197 | Over every run, beginning a rewrite to a key id whose rewrite was aborted is refused |
| `Rewrites.LeaseIsExclusive` | crates/passalong-server-core/src/rewrite.rs:231-307 | From any begin, heartbeat or take-over until `lease_secs` later, whatever everybody but the holder does, deaths included and a forced operator abort apart, session and staged items stay exactly as they are |
| `Rewrites.HolderChangesByTakeOver` | crates/passalong-server-core/src/rewrite.rs:248-268 | The holder of an open session changes only by a take-over of a writer, at or after the lease's end |
| `Rewrites.FormerHolderStaysOut` | crates/passalong-server-core/src/rewrite.rs:231-307 | Over every run, who does not hold a session does not hold it until a take-over of its own |
| `Rewrites.NonHolderIsRefused` | crates/passalong-server-core/src/rewrite.rs:49-112 | In every reachable state with a session, who does not hold it is refused every request of it: staging, commits of uploads begun earlier, heartbeat, commit, abort, a take-over before the end, and reading staged items |
| `Rewrites.RenewingRenews` | crates/passalong-server-core/src/rewrite.rs:57-63 | Every answer that shows a session to begin, heartbeat or take-over leaves a lease of its caller that runs for `lease_secs` from now |
| `Rewrites.WhatOthersCanDo` | crates/passalong-server-core/src/rewrite.rs:49-76 | While a session is open, anyone but its holder can at most give up or sweep uploads; ending or taking it needs the lease to be over |
| `Sessions.ReadersAreShownTheirKey` | crates/passalong-server-core/src/workspace.rs:200-227 | In every reachable state each current item is under the key that is shown (none when none is), and each staged one under the key the session shows |
| `Sessions.ShownAsBegun` | crates/passalong-server-core/src/workspace.rs:200-227 | Over every run since a rewrite was begun, and while it is open: readers are shown key and header of before, over the items of before; and of the session the kind, key and header it was begun with and the number of those items |
| `Shown.EncryptionIsShown` | crates/passalong-server-core/src/workspace.rs:210-227 | Field by field: key and header of the seal the record settled on, or had before the open rewrite; kind, holder, lease, next key and header of the session, exactly its staged ids in descending order, and the number of current items |
| `Sessions.TakeOverExactly` | crates/passalong-server-core/src/rewrite.rs:248-268 | A take-over is granted if and only if a session is open, the caller may write, and it is the holder or the lease is over; it then holds the same session for `lease_secs` from now and nothing else changes; each refusal if and only if its condition holds |
| `Sessions.HeartbeatExactly` | crates/passalong-server-core/src/rewrite.rs:231-239 | A heartbeat renews the lease if and only if the caller may write and holds the session; each refusal if and only if its condition holds |
| `Sessions.BeginAgainExactly` | crates/passalong-server-core/src/rewrite.rs:165-185 | While a session is open a begin renews it if and only if it is the holder's, of the same kind and key; otherwise it is refused as in progress |
| `Sessions.BeginExactly` | crates/passalong-server-core/src/rewrite.rs:165-223 | A settled workspace is opened to a rewrite if and only if the caller may write, the kind fits, the key named is the current one and the next is another that no aborted rewrite was to; the session is the one asked for, on the next generation number |
| `Sessions.BeginRefusedExactly` | crates/passalong-server-core/src/rewrite.rs:165-208 | Each refusal of a begin if and only if its condition holds, in the order of the checks |
| `Sessions.CommitExactly` | crates/passalong-server-core/src/rewrite.rs:288-307 | An open rewrite is committed if and only if its holder names its key and as many items are staged as are current; seal, generation, books and tickets are then those of the switch and nothing else changes |
| `Sessions.CommitAgainExactly` | crates/passalong-server-core/src/rewrite.rs:276-287 | With no session open a commit shows the state if and only if the workspace is under the key it names, and changes nothing |
| `Sessions.CommitRefusedExactly` | crates/passalong-server-core/src/rewrite.rs:276-299 | Each refusal of a commit if and only if its condition holds, an incomplete one with both counts |
| `Sessions.AbortExactly` | crates/passalong-server-core/src/rewrite.rs:318-353 | An open rewrite is aborted if and only if its holder names its key; the seal of before is back, the key is ended, the rewrite's tickets and books are gone and nothing else changes; each refusal if and only if its condition holds |
| `Sessions.AbortAgainExactly` | crates/passalong-server-core/src/rewrite.rs:318-326 | With no session open an abort shows the state to whoever may write, and changes nothing |
| `Sessions.OperatorAbortExactly` | crates/passalong-server-core/src/rewrite.rs:355-365 | The operator ends a session if and only if its lease is over or by force |
| `Sessions.StagedReadsExactly` | crates/passalong-server-core/src/rewrite.rs:85-112 | A staged item is read, as it is, if and only if the caller holds the session and it is staged; the holder, and nobody else, is listed exactly the staged ids, newest first |
| `Replays.ReplayIsIdempotent` | crates/passalong-server-core/src/upload.rs:158-245 | Any of the eleven repeatable transactions that succeeded, sent again with the clock still after any of its clean-ups, answers the same and leaves record and shelf unchanged |
| `Replays.ContentSentAgain` | crates/passalong-server-core/src/upload.rs:324-342 | Sending content, the twelfth: sent again, after any other attempt and at any later time at which ticket and outcome are still what they were, it is answered and leaves the shelf as it would have at first |
| `Replays.ContentSentTwice` | crates/passalong-server-core/src/upload.rs:324-342 | Of two transfers alike the second answers as the first and changes nothing |
| `Quota.CommitLeavesExactly` | crates/passalong-server-core/src/upload.rs:98-130 | For every reachable running state and every commit that switches: current and plain items with what may still be committed among them are afterwards exactly the staged and plain bytes on the books before it and the bytes promised to live ordinary uploads under the next key; so they fit the quota if and only if those did |
| `Quota.StepBound` | crates/passalong-server-core/src/upload.rs:207-217 | Every event but that commit keeps current and plain items with what may still be committed among them within the quota or where they were, and every event so keeps the staged items with their promises |
| `Quota.FitsExactly` | crates/passalong-server-core/src/upload.rs:98-130 | Over every run, to whatever keys its rewrites are and whatever dies: those totals fit the quota at every point if and only if they do by the record before each commit of a rewrite |
| `Quota.QuotaOverRuns` | crates/passalong-server-core/src/upload.rs:98-130 | Over every run of a new workspace in which each committed rewrite left room: the bytes of all live generations, on the shelf and on the books, are within the quota when no rewrite is open, and within twice the quota when one is |
| `Quota.NewKeysKeepQuota` | crates/passalong-server-core/src/upload.rs:98-130 | That is so whenever the rewrites are to keys the workspace was never under and there are no plain items |
| `Quota.ThreeTimesAtMost` | crates/passalong-server-core/src/upload.rs:98-130 | In every reachable state, whatever the keys and whether rewrites left room or not: at most three times the quota, and twice when no rewrite is open |
| `Quota.StagedOverRuns` | crates/passalong-server-core/src/upload.rs:207-217 | Over every run staged items with live rewrite promises stay within the quota (or where they were) |
| `Quota.BooksOverRunsWithoutDeath` | crates/passalong-server-core/src/upload.rs:98-130 | In runs of a new workspace without a death inside a transaction the record's own books and reservations obey the same bounds under the same condition |
| `Quota.QuotaRefusesExactly` | crates/passalong-server-core/src/upload.rs:186-217 | In every reachable running workspace an upload that meets nothing else in its way is refused exactly when the bytes on the shelf, the bytes promised and its own exceed the quota; the subtraction of staged bytes takes off nothing else |
| `Changes.ReadersAreRefused` | crates/passalong-server-core/src/workspace.rs:45-50 | A key that may only read is refused every operation but the end of an upload of its own, and changes nothing without one |
| `Quota.LargestQuotaRefusesNothing` | crates/passalong-server-core/src/upload.rs:207-217 | With a quota of `u64::MAX` no upload is ever refused for it |
| `Counterexamples.PlainItemsMayDoubleTheQuota` | crates/passalong-server-core/src/upload.rs:98-103 | For every quota of 64 bits, with an item limit of none or at least the quota, `staging_secs` at least 1 and some content as large as the quota that an id and a `meta` describe truly: a reachable state with no rewrite open and twice the quota on the books, and one with a rewrite open and three times. The server's own ledger stores sizes within 63 bits; for quotas above that the states are those of the memory ledger |
| `Counterexamples.FormerKeyMayDoubleTheQuota` | crates/passalong-server-core/src/upload.rs:98-103 | With the same limits and no plain item ever: a reachable state with no rewrite open and twice the quota on the books, by an upload begun under a key the workspace was rotated back to; for quotas above 63 bits, again, of the memory ledger |
| `Runs.InitialHasInv` | crates/passalong-server-core/src/ledger/mod.rs:46-60 | A new workspace satisfies the invariant |
| `Runs.NextKeepsInv` | crates/passalong-server-core/src/workspace.rs:591-625 | Every event (operation, death inside one, death elsewhere, opening, content, a bare place made one, clean-up, lost clean-up, passing of time) keeps the invariant |
| `Runs.ReachableHasInv` | crates/passalong-server-core/src/workspace.rs:591-625 | The invariant holds at the end of every run |
| `Changes.DecisionsAreJustified` | crates/passalong-server-core/src/workspace.rs:171-191 | No operation of any caller makes a change outside the conditions stated for that change |
| `Runs.CleaningSparesLive` | crates/passalong-server-core/src/workspace.rs:183-191 | A pending clean-up leaves live generations and the places of tickets as they are |
| `Preservation.KeepsGenerations` | crates/passalong-server-core/src/rewrite.rs:209-221 | A justified change keeps live generations distinct, all numbers below the next, and asks only for the drop of what nothing points to |
| `Preservation.KeepsDeduplicated` | crates/passalong-server-core/src/upload.rs:390-405 | A justified change keeps one item per content key in every generation |
| `Preservation.KeepsKeys` | crates/passalong-server-core/src/rewrite.rs:276-307 | A justified change keeps every live generation under one key |
| `Preservation.KeepsHonest` | crates/passalong-server-core/src/upload.rs:251-280 | A justified change keeps plaintext items honest |
| `Preservation.KeepsMakers` | crates/passalong-server-core/src/upload.rs:371-405 | A justified change keeps every live item traceable to the upload that made it, and every upload's item standing until it leaves |
| `Preservation.KeepsBooks` | crates/passalong-server-core/src/workspace.rs:349-370 | A justified change of a running workspace keeps the books equal to the shelf |
| `Preservation.ReconcileMakesBooks` | crates/passalong-server-core/src/upload.rs:499-515 | Reconciling makes the books equal to the shelf whatever they were |
| `Preservation.KeepsOneTicket` | crates/passalong-server-core/src/upload.rs:186-205 | A justified change keeps at most one live ticket for a request of an owner |
| `Rules.Rules.BeginUpload` | crates/passalong-server-core/src/upload.rs:158-245 | Changes record and shelf and answers as the decision, of which `Answers.BeginRefusedExactly`, `BeginStoredExactly`, `BeginAgainExactly` and `BeginNewExactly` say, case by case and together for every request, what it answers and leaves; and the id that is drawn names no ticket and no outcome |
| `Answers.BeginFindsTheItem` | crates/passalong-server-core/src/upload.rs:172-192 | In every reachable state a begin answers an outcome if and only if nothing refuses it and content with the key of the request is stored where it would go; the id it answers is the only item with that content there, and is not said to be created |
| `Answers.BeginStoredExactly` | crates/passalong-server-core/src/upload.rs:172-192 | In any state it answers the oldest such item, gives up exactly the caller's tickets for the same request, and changes nothing else |
| `Answers.BeginAgainExactly` | crates/passalong-server-core/src/upload.rs:193-206 | A request that is under way is answered its ticket and its expiry again; its place is made if it is missing and nothing else changes |
| `Answers.BeginNewExactly` | crates/passalong-server-core/src/upload.rs:207-245 | In every reachable state any other upload is begun if and only if the bytes on the shelf, those of all live uploads of its sort and its own are within the quota, or the quota is `u64::MAX`; the ticket is the caller's for `staging_secs` and its place is empty |
| `Answers.BeginRefusedExactly` | crates/passalong-server-core/src/upload.rs:142-171 | Each other refusal if and only if its condition holds, in the order of the checks, and no refusal changes anything |
| `Rules.Rules.UnknownId` | crates/passalong-server-core/src/upload.rs:223-230 | Drawing ends with an id that names no upload and no remembered outcome |
| `Rules.Rules.CommitUpload` | crates/passalong-server-core/src/upload.rs:356-406 | Answers and changes as the decision, of which `Answers.CommitAgainExactly`, `CommitNowhereExactly`, `CommitExactly` and `CommitOutcomeExactly` say, for every upload, what it answers and leaves |
| `Answers.CommitNamesTheItem` | crates/passalong-server-core/src/upload.rs:356-406 | In every reachable state a commit that ends its upload answers an id that is then the only item with the content where the upload goes |
| `Answers.CommitExactly` | crates/passalong-server-core/src/upload.rs:361-406 | An upload under way is finished if and only if all of its content is staged, and is what a plaintext `meta` says, or its item is there in its size and its place is gone; otherwise it is mismatched and nothing changes; the outcome is remembered for `staging_secs` |
| `Answers.CommitOutcomeExactly` | crates/passalong-server-core/src/upload.rs:371-406 | It is answered as created if and only if its item was there already or nothing has its content, with its own id, and otherwise the oldest item of that content; exactly then the staged content becomes the item, under the key and `meta` of the request, and the books grow by it or are taken from the shelf |
| `Answers.CommitAgainExactly` | crates/passalong-server-core/src/upload.rs:356-364 | A remembered outcome is answered again; an upload that is not under way is not found; neither changes anything |
| `Answers.CommitNowhereExactly` | crates/passalong-server-core/src/upload.rs:365-366 | An upload whose target is gone is refused as its begin would be now |
| `Rules.Rules.PublishOrFind` | crates/passalong-server-core/src/upload.rs:389-406 | Publishes the staged content under the request's id, or answers the item that has its content key |
| `Rules.Rules.FinishPublished` | crates/passalong-server-core/src/upload.rs:371-382 | Takes the books of the target from the shelf and records the outcome |
| `Rules.Rules.FinishUpload` | crates/passalong-server-core/src/upload.rs:413-436 | The ticket goes, the outcome stays for the staging time, the place is to be removed |
| `Rules.Rules.AbortUpload` | crates/passalong-server-core/src/upload.rs:444-456 | Gives up the caller's own ticket and nobody else's |
| `Answers.AbortUploadExactly` | crates/passalong-server-core/src/upload.rs:444-456 | An abort is always answered that it is done; the ticket goes if and only if it is the caller's, and nothing else changes |
| `Rules.Rules.PutUploadContent` | crates/passalong-server-core/src/upload.rs:324-342 | Answers and leaves the shelf as `Protocol.Put`: ignored and answered well after the commit, not found without a live ticket or a place, else the place holds all that was sent, or nothing when that was too much or broke off, each with its error |
| `Answers.ContentExactly` | crates/passalong-server-core/src/upload.rs:324-342 | Content is taken in if and only if no commit is remembered, the caller's upload is under way and has a place; all of it when it is whole and no longer than announced, hashed if and only if it will be checked, and nothing otherwise, each with its error |
| `Rules.Rules.ReservedBy` | crates/passalong-server-core/src/upload.rs:109-117 | The loop's total is the sum of the sizes of live uploads of the kind asked for |
| `Rules.Rules.FindOldest` | crates/passalong-server-core/src/workspace.rs:1049-1059 | The last match of the ids, newest first, is the oldest item with the content key |
| `Rules.Rules.Reconcile` | crates/passalong-server-core/src/upload.rs:499-515 | The loop over live generations and the sweep make the record and ask for the clean-ups of one reconciliation |
| `Rules.Rules.CleanStaging` | crates/passalong-server-core/src/upload.rs:521-548 | Forgets exactly what expired, asks for the removal of every place without a ticket and every unpointed-to generation that holds items, and counts the places |
| `Answers.SweepExactly` | crates/passalong-server-core/src/upload.rs:521-548 | A sweep keeps exactly the tickets and outcomes that have not expired, drops the books of exactly the generations that hold items and are pointed to by nothing, and answers the number of places of no unexpired ticket |
| `Answers.ReconcileExactly` | crates/passalong-server-core/src/upload.rs:499-515 | Reconciling does the same and takes the books of every generation pointed to from the shelf |
| `Answers.AsksExactly` | crates/passalong-server-core/src/workspace.rs:183-191 | In every reachable state an operation that is no sweep asks for exactly this to be removed: the places of the tickets that go with it, and the generation it stops pointing to |
| `Answers.SweepAsksExactly` | crates/passalong-server-core/src/upload.rs:531-545 | A sweep asks for exactly the places without a ticket and the generations with items that nothing points to |
| `Rules.Rules.DropRewriteUploads` | crates/passalong-server-core/src/upload.rs:477-490 | Exactly the tickets of the rewrite go and their places are to |
| `Rules.Rules.DeleteItem` | crates/passalong-server-core/src/workspace.rs:380-400 | Changes and answers as the decision, of which `Answers.DeleteExactly` and `DeletesPrecisely` say when the item of which partition goes, and every refusal |
| `Answers.DeleteExactly` | crates/passalong-server-core/src/workspace.rs:380-396 | An item is answered as removed if and only if the caller may write, the workspace is settled under the key it expects, and the partition it names is a generation that holds the item; each refusal if and only if its condition holds |
| `Answers.DeletesPrecisely` | crates/passalong-server-core/src/workspace.rs:380-400 | Precisely that item of that generation goes, with its size from the books, saturating, and its description is answered |
| `Answers.PartitionsLoseTheirOwn` | crates/passalong-server-core/src/workspace.rs:380-400 | In every reachable state the two partitions are different generations, and a deletion from one leaves every other generation as it is |
| `Rules.Rules.EnableEncryption` | crates/passalong-server-core/src/workspace.rs:408-425 | Seals an empty plaintext workspace; a replay only answers |
| `Answers.EnableExactly` | crates/passalong-server-core/src/workspace.rs:408-425 | A workspace is sealed if and only if it is plaintext without items, and shown again, as it is, if and only if it is under that key; each refusal if and only if its condition holds |
| `Rules.Rules.FreshStart` | crates/passalong-server-core/src/workspace.rs:434-453 | Sets the items aside as the plain partition by moving a pointer; an empty workspace is only sealed |
| `Answers.FreshStartExactly` | crates/passalong-server-core/src/workspace.rs:434-470 | A plaintext workspace is sealed; if it holds items they become the plain partition and the next generation becomes current; each refusal if and only if its condition holds |
| `Rules.Rules.ReplaceHeader` | crates/passalong-server-core/src/workspace.rs:473-493 | Only the header changes, and only under the current key id |
| `Answers.ReplaceHeaderExactly` | crates/passalong-server-core/src/workspace.rs:473-493 | The header is the one given, and is shown so, if and only if the caller may write and the workspace is settled under the key it names; nothing else changes |
| `Rules.Rules.BeginRewrite` | crates/passalong-server-core/src/rewrite.rs:165-223 | Renews the holder's own session, or opens an empty next generation under the conditions of its kind |
| `Rules.Rules.HeartbeatRewrite` | crates/passalong-server-core/src/rewrite.rs:231-239 | Renews the holder's lease |
| `Rules.Rules.TakeOverRewrite` | crates/passalong-server-core/src/rewrite.rs:248-268 | Changes and answers as the decision, of which `Sessions.TakeOverExactly` says when the session is handed over, to whom and until when, and every refusal |
| `Rules.Rules.CommitRewrite` | crates/passalong-server-core/src/rewrite.rs:276-307 | Switches generation and seal together once as many items are staged as there are; drops the old books and the rewrite's uploads |
| `Rules.Rules.AbortRewrite` | crates/passalong-server-core/src/rewrite.rs:318-332 | Ends the holder's session; on a settled workspace only answers |
| `Rules.Rules.EndAborted` | crates/passalong-server-core/src/rewrite.rs:336-353 | Restores the prior seal, ends the key id for good, asks for the drop of what was staged |
| `Rules.Rules.OperatorAbort` | crates/passalong-server-core/src/rewrite.rs:355-365 | Ends a session whose lease is over, or any when forced |
| `Rules.Rules.StagedItem` | crates/passalong-server-core/src/rewrite.rs:100-112 | The holder alone reads a staged item |
| `Rules.Rules.StagedItemIds` | crates/passalong-server-core/src/rewrite.rs:85-88 | The holder alone lists staged items, newest first |
| `Rules.Rules.ShowEncryption` | crates/passalong-server-core/src/workspace.rs:210-227 | Shows key and header of the seal, during a rewrite those of before it, and of the open session its kind, holder, lease, next key and header, exactly the staged ids, newest first, and the number of current items |
| `Engines.Engine.Write` | crates/passalong-server-core/src/workspace.rs:591-625 | Stores the changed record whole only when the rule succeeds and takes every clean-up it asked for after that; a refusal leaves both stores as they were; other workspaces' records stay |
| `Engines.Engine.Open` | crates/passalong-server-core/src/workspace.rs:520-541 | Makes the record when it is new, reconciles, and cleans up |
| `Engines.Engine.PutUploadContent` | crates/passalong-server-core/src/workspace.rs:817-824 | Changes no record, and answers and leaves the shelf as `Protocol.Put` for the record there is |
| `Engines.Engine.CleanUp` | crates/passalong-server-core/src/workspace.rs:614-623 | The loop takes all the clean-ups |
| `Engines.MemoryLedger.Create` | crates/passalong-server-core/src/ledger/memory.rs:15-19 | A record that exists is left alone |
| `Engines.RefusalsChangeNothing` | crates/passalong-server-core/src/workspace.rs:587-592 | An operation that answers an error decides no change, whichever it is |
| `Engines.WriteIsARun` | crates/passalong-server-core/src/workspace.rs:591-625 | What the engine leaves after a transaction is the end of a run of the world, its clean-ups taken in any order, whatever clean-ups of others are pending |
| `Engines.OpenIsARun` | crates/passalong-server-core/src/workspace.rs:520-541 | What the engine leaves after opening a workspace that is down, or new, is the end of a run of the world |
| `Engines.CleaningAll` | crates/passalong-server-core/src/workspace.rs:614-623 | The order in which pending clean-ups are taken does not matter |
| `MemoryShelves.Pump` | crates/passalong-server-core/src/shelf/mod.rs:227-255 | Passes on exactly what the reader yielded up to its end, never more than announced, and says which of the two went wrong |
| `MemoryShelves.MemoryShelf.StageWrite` | crates/passalong-server-core/src/shelf/memory.rs:23-49 | The place holds all of the content and its digest, or nothing when it was refused, each with its error |
| `MemoryShelves.MemoryShelf.Publish` | crates/passalong-server-core/src/shelf/memory.rs:113-138 | A staged upload becomes an item unless that item exists; an item is never replaced |
| `MemoryShelves.MemoryShelf.OpenContentFrom` | crates/passalong-server-core/src/shelf/memory.rs:149-166 | What is left of the content from the offset on, nothing at or past its end |
| `MemoryShelves.FromExactly` | crates/passalong-server-core/src/shelf/memory.rs:149-166 | Byte for byte what follows the offset, and nothing past the end |
| `MemoryShelves.MemoryShelf.Remove` | crates/passalong-server-core/src/shelf/memory.rs:177-184 | Only that item goes, and its description is answered |
| `MemoryShelves.MemoryShelf.CountBytes` | crates/passalong-server-core/src/shelf/memory.rs:201-213 | The loop's total is the sum of the sizes of the generation's items |
| `ShelfCalls.Perform` | crates/passalong-server-core/src/shelf/mod.rs:52-153 | Whichever of the fourteen calls is made, the memory shelf answers and is left as `Replies` and `LeftAs` say |
| `ShelfCalls.LeftAlike` | crates/passalong-server-core/src/shelf/mod.rs:52-153 | Shelves that differ only in generations without items are left alike by every call |
| `Ids.ParsedItemIdsSortByTime` | crates/passalong-server-core/src/ids.rs:19-47 | Item ids that parse sort by the time they begin with, and their content key is twelve lower-case hex digits |
| `Ids.ItemIdsExactly` | crates/passalong-server-core/src/ids.rs:19-47 | A text is an item id if and only if it is eight lower-case hex digits, a dash and twelve more, and its content key is those twelve |
| `Ids.HexReadsBack` | crates/passalong-server-core/src/upload.rs:262-264 | The hash as text is lower-case hex of which each byte can be read off two digits |
| `Ids.NewestFirstSorted` | crates/passalong-server-core/src/shelf/memory.rs:168-175 | The listing is strictly descending |
| `Ids.Oldest` | crates/passalong-server-core/src/workspace.rs:1049-1059 | Of a nonempty set of ids there is exactly one that is older than all the others |
| `FsCalls.RunRefines` | crates/passalong-server-core/src/shelf/mod.rs:6-7 | For every sequence of calls, any of them dying after any number of its changes, and of reopenings: there is a run of the reference (the memory shelf, the bare places and the directories in the way of an item) that the tree follows, so that any call made at any point is answered as the reference answers it |
| `FsCalls.EveryCallIsSafe` | crates/passalong-server-core/src/shelf/fs.rs:302-486 | Every call leaves what the reference leaves; and after any number of its changes a death and reopening leave what was before the call or what is after it, but that the making of a place may leave it bare, and a write may leave what was staged or a beginning of what came without a digest |
| `FsCalls.DivergesExactly` | crates/passalong-server-core/src/shelf/fs.rs:302-486 | The answer is that of the memory shelf if and only if the call does not write to, publish or list a bare place nor publish onto a directory in the way; and then so is what is left |
| `FsCalls.AnswersAsMemory` | crates/passalong-server-core/src/shelf/mod.rs:6-7 | From a sound tree with nothing bare or in the way, over every run of calls, deaths and reopenings in which no death falls inside the making of a place: at the end the tree is such a tree, answers every call as the memory shelf with the tree's contents, and is left by every call with what that is left with |
| `FsCalls.BareComesOfDeath` | crates/passalong-server-core/src/shelf/fs.rs:303-311 | A place without content comes only of a death inside the making of it |
| `FsCalls.HollowComesOfBare` | crates/passalong-server-core/src/shelf/fs.rs:363-404 | A directory in the way of an item comes only of publishing a place without content |
| `FsCalls.DeathMayLeaveBare` | crates/passalong-server-core/src/shelf/fs.rs:303-311 | Such a death, from an empty shelf: content is then taken in and the place is listed, where the memory shelf answers NOT_FOUND and lists nothing |
| `FsWorlds.FilesRefineMemory` | crates/passalong-server-core/src/shelf/mod.rs:1-5 | For every run of a workspace on files (transactions, content, clean-ups and openings, any of them dying after any number of its changes of the tree, clean-ups left out, time) there is a reachable world, whose shelf is the one in memory, with the same record, the same staged content, the same items, and pending all that is pending but bare places; every operation decides the same change in both and answers the same, but that a sweep counts the bare places too |
| `FsWorlds.StepSimulates` | crates/passalong-server-core/src/workspace.rs:591-625 | Each single event on files is some events of the world: a transaction the same transaction; one that dies inside its shelf call either a death before it or one after the whole of its shelf step, never anything between; an opening an opening; the others no transaction |
| `FsWorlds.FilesRecover` | crates/passalong-server-core/src/workspace.rs:520-541 | After a death between any two changes of the tree in any operation, any further deaths, transfers and openings, and a last opening with its clean-ups: the books equal the files in every live generation, nothing is left that nothing points to, every directory under `staging/`, bare ones included, belongs to a ticket, and the Current and Plain partitions are those of before the operation or those of after it |
| `FsWorlds.FilesAreSafe` | crates/passalong-server-core/src/shelf/fs.rs:363-404 | In every reachable state on files no directory is in the way of an item; and while the process is up, live items are under the key of their generation, content keys are unique, checked plaintext is honest, and the books equal the files |
| `FsWorlds.DecidedCallAgrees` | crates/passalong-server-core/src/upload.rs:383-405 | What a decision publishes is staged, never bare; and the one shelf call a decision makes is answered by the files, and leaves them, as the memory shelf |
| `FsWorlds.AlikeDecides` | crates/passalong-server-core/src/shelf/mod.rs:1-5 | Every operation decides the same on two shelves with the same staged content and the same items, whatever empty generations they have |
| `FsWorlds.CallDies` | crates/passalong-server-core/src/shelf/fs.rs:302-486 | After any number of changes of a call there is a view the death may leave that the reopened tree shows, and nothing in the way of an item |
| `FsTrees.OpeningIsFinished` | crates/passalong-server-core/src/shelf/fs.rs:133-144 | An opening cut short anywhere and made again leaves what one opening leaves |
| `FsShelves.FsShelf.Perform` | crates/passalong-server-core/src/shelf/fs.rs:302-486 | Whichever call is made, the file shelf answers as the reference for what its tree shows, makes the changes listed for the call and no others, and is safe against a death between any two |
| `FsShelves.FsShelf.constructor` | crates/passalong-server-core/src/shelf/fs.rs:133-144 | Opening empties the trash and removes exactly the digests whose place is gone |
| `FsShelves.FsShelf.EmptyTrash` | crates/passalong-server-core/src/shelf/fs.rs:236-241 | The loop empties the trash, each step leaving a tree that opens to the same |
| `FsShelves.FsShelf.SweepDigests` | crates/passalong-server-core/src/shelf/fs.rs:220-234 | The loop removes exactly the digests whose place is gone |
| `FsShelves.FsShelf.StageCreate` | crates/passalong-server-core/src/shelf/fs.rs:303-311 | Leaves a staged place, one with content as it is and one without as an empty one, safely |
| `FsShelves.FsShelf.StageWrite` | crates/passalong-server-core/src/shelf/fs.rs:181-217 | For every place, bare ones included, answers and leaves what the reference does, safely: all of the content and its digest, or an empty place when it was refused |
| `FsShelves.FsShelf.Copy` | crates/passalong-server-core/src/shelf/mod.rs:227-255 | The loop appends exactly the pieces there is room for and answers as the bounded copy |
| `FsShelves.FsShelf.StageDigest` | crates/passalong-server-core/src/shelf/fs.rs:331-338 | A digest that is answered is that of the staged content; a note that is not whole is none |
| `FsShelves.FsShelf.StageSize` | crates/passalong-server-core/src/shelf/fs.rs:340-347 | The size is that of the staged content, and none for a place without content |
| `FsShelves.FsShelf.StageRemove` | crates/passalong-server-core/src/shelf/fs.rs:349-352 | The place goes and its digest with it, safely |
| `FsShelves.FsShelf.Staged` | crates/passalong-server-core/src/shelf/fs.rs:354-361 | Lists the staged places and the bare ones |
| `FsShelves.FsShelf.Publish` | crates/passalong-server-core/src/shelf/fs.rs:363-404 | For every place, bare ones included: an item whole or none, answered whether it was taken, safely |
| `FsShelves.FsShelf.Get` | crates/passalong-server-core/src/shelf/fs.rs:264-299 | Answers the description of the item the tree holds |
| `FsShelves.FsShelf.OpenContentFrom` | crates/passalong-server-core/src/shelf/fs.rs:410-427 | What is left of the item's content from the offset on |
| `FsShelves.FsShelf.ListIds` | crates/passalong-server-core/src/shelf/fs.rs:429-438 | Lists the ids of the items the tree holds, newest first |
| `FsShelves.FsShelf.Remove` | crates/passalong-server-core/src/shelf/fs.rs:440-450 | The item goes whole and is described, safely; a directory in the way stays |
| `FsShelves.FsShelf.DropGeneration` | crates/passalong-server-core/src/shelf/fs.rs:452-457 | The generation goes whole, safely |
| `FsShelves.FsShelf.Generations` | crates/passalong-server-core/src/shelf/fs.rs:459-474 | The loop finds exactly the generations with an item |
| `FsShelves.FsShelf.CountBytes` | crates/passalong-server-core/src/shelf/fs.rs:476-486 | The loop's total is the sum of the sizes of the generation's items |
| `SqliteLedgers.ReadsWhatWasWritten` | crates/passalong-server-core/src/ledger/sqlite.rs:219-493 | For every record whose numbers fit 63 bits, reading after writing gives the record back, state and session through their nullable columns and all four tables included |
| `SqliteLedgers.OthersReadAsBefore` | crates/passalong-server-core/src/ledger/sqlite.rs:448-452 | Writing one workspace's record leaves the reading of every other as it was, be it sound, damaged or missing |
| `SqliteLedgers.RowRoundTrip` | crates/passalong-server-core/src/ledger/sqlite.rs:253-288 | The columns of a settled or a rewriting state read back as that state |
| `SqliteLedgers.StorableExactly` | crates/passalong-server-core/src/ledger/sqlite.rs:407-529 | A record can be stored if and only if every number in it is below 2^63 |
| `SqliteLedgers.SqliteLedger.Write` | crates/passalong-server-core/src/ledger/sqlite.rs:407-493 | The loops store exactly the record, or fail when a number does not fit |
| `SqliteLedgers.SqliteLedger.Transact` | crates/passalong-server-core/src/ledger/sqlite.rs:513-531 | All or nothing: a refusal, a damaged record or a number that does not fit leaves the database as it was; success leaves the changed record to read and every other as it read |
| `SqliteLedgers.SqliteLedger.Create` | crates/passalong-server-core/src/ledger/sqlite.rs:498-507 | A workspace that exists is left alone; a new one gets the new record's row |
| `SqliteLedgers.InsertUsed` | crates/passalong-server-core/src/ledger/sqlite.rs:453-459 | The loop inserts every row of the books, or fails when a number does not fit |
| `SqliteLedgers.InsertTickets` | crates/passalong-server-core/src/ledger/sqlite.rs:460-477 | The loop inserts every ticket's row, or fails when a number does not fit |
| `Controls.AcceptsExactly` | crates/passalong-server-core/src/control/mod.rs:644-720 | After any history a secret is accepted exactly when the history holds its key's creation, no removal and no revocation since, and the expiry given last is absent or to come; refused as revoked or as expired exactly when it would be but for that; and as unknown exactly when no creation with that secret stands |
| `Controls.AcceptedAsCreated` | crates/passalong-server-core/src/control/mod.rs:644-720 | Who is accepted is answered the workspace, the role and the device of the key's creation |
| `Controls.AcceptedUntilItsEnd` | crates/passalong-server-core/src/control/mod.rs:415-550 | A key that was created or extended for a period and left alone since is accepted exactly before the second that ends it, or always without a period, and is refused as expired from then on |
| `Controls.HistoryTells` | crates/passalong-server-core/src/control/mod.rs:415-604 | After any history every key's row is what one creation in it, the last extension and the first revocation since say; without such a creation there is no row |
| `Controls.RevokedForGood` | crates/passalong-server-core/src/control/mod.rs:542-565 | Whatever follows, a revoked key's row keeps the date it was revoked or is removed, and no secret of it is accepted |
| `Controls.PruneSparesActive` | crates/passalong-server-core/src/control/mod.rs:588-604 | Pruning removes no key that is active now |
| `Controls.PrunesUnlessRevokedSince` | crates/passalong-server-core/src/control/mod.rs:581-604 | Pruning removes a key exactly as its documentation says if and only if it is not one that had expired long enough ago and was revoked since |
| `Controls.PrunableExactly` | crates/passalong-server-core/src/control/mod.rs:588-604 | A key is to be pruned exactly when its revocation, or its expiry if there was none, is not after the second |
| `Controls.PruneKeepsLateRevocation` | crates/passalong-server-core/src/control/mod.rs:581-604 | A key that expired before the date and was revoked after it: the documentation says it is pruned, the statement keeps it |
| `Controls.StateIsWhatIsAnswered` | crates/passalong-server-core/src/control/mod.rs:71-82 | The state an operator is shown is what the holder of the secret is told |
| `Controls.Control.CreateKey` | crates/passalong-server-core/src/control/mod.rs:415-475 | Adds one key under an id that named none, and nothing else: the id and the secret drawn last, the workspace, device and role asked for, no expiry without a period, and with one the second that ends it, or the largest number of 63 bits when that does not fit |
| `Controls.Control.ChangeKey` | crates/passalong-server-core/src/control/mod.rs:509-535 | One row changes as its statement says, or there is no such key |
| `Controls.Control.ExtendKey` | crates/passalong-server-core/src/control/mod.rs:542-550 | The one row has no expiry without a period, and with one the second from now that ends it, or the largest number of 63 bits; nothing else of it changes |
| `Controls.Control.RevokeKey` | crates/passalong-server-core/src/control/mod.rs:558-566 | The first revocation date stays; a key without one gets the second of now, and nothing else changes |
| `Controls.Control.DeleteKey` | crates/passalong-server-core/src/control/mod.rs:573-580 | The row goes |
| `Controls.Control.PruneKeys` | crates/passalong-server-core/src/control/mod.rs:588-604 | Exactly the keys go whose revocation, or whose expiry if there was none, was at least that long ago; the others stay as they are, and the count is of those that went |
| `Controls.Control.DeleteWorkspace` | crates/passalong-server-core/src/control/mod.rs:389-409 | The workspace goes with exactly its keys, and every other key stays as it is |
| `Controls.Control.Authenticate` | crates/passalong-server-core/src/control/mod.rs:644-720 | Answers by the row; and notes the second as the last use exactly when none was noted in the last sixty |
| `FailureLimiters.LimitedExactly` | crates/passalong-server-api/src/rate.rs:58-72 | After any calls with a clock that does not go back, an address no full table evicted in the last minute is limited exactly when the log of that minute holds `per_minute` counted failures, and the wait (1 to 60) is the first second at which it no longer is |
| `FailureLimiters.CountedExactly` | crates/passalong-server-api/src/rate.rs:75-89 | A failure of such an address is counted exactly when the log of the last minute has room for it |
| `FailureLimiters.RunIsSound` | crates/passalong-server-api/src/rate.rs:24-89 | After any calls the table is within its capacity and every deque is in order, not empty, at most `per_minute` long, and agrees with the log since its last eviction |
| `FailureLimiters.EvictsTheStalest` | crates/passalong-server-api/src/rate.rs:108-121 | Only a full table evicts, only when nothing has cleared, and then an address whose last failure is the oldest |
| `FailureLimiters.RecentIsWithin` | crates/passalong-server-api/src/rate.rs:100-104 | Of an ordered deque, dropping from the front is the window of the plain log |
| `FailureLimiters.CountedTogether` | crates/passalong-server-api/src/rate.rs:32-44 | Two IPv6 addresses that map no IPv4 one are counted together exactly when they share their /64 |
| `FailureLimiters.CountedAsItself` | crates/passalong-server-api/src/rate.rs:32-44 | What an address is counted as is counted as itself |
| `FailureLimiters.CountedAsMapped` | crates/passalong-server-api/src/rate.rs:32-44 | An IPv4 address counts as itself, and of IPv6 addresses exactly the one that maps it counts as it |
| `FailureLimiters.FailureLimiter.Limited` | crates/passalong-server-api/src/rate.rs:58-72 | Answers the wait and leaves the deque trimmed or gone |
| `FailureLimiters.FailureLimiter.Failed` | crates/passalong-server-api/src/rate.rs:75-89 | Makes room when it must and counts the failure when there is room |
| `FailureLimiters.FailureLimiter.ForgetOld` | crates/passalong-server-api/src/rate.rs:100-104 | The loop leaves the window |
| `FailureLimiters.FailureLimiter.MakeRoom` | crates/passalong-server-api/src/rate.rs:108-121 | The loop finds an address whose last failure is the oldest |
| `Clocks.CivilIsCounted` | crates/passalong-server-core/src/clock.rs:9-27 | For every day the arithmetic gives the date reached by counting days one at a time from 1970-01-01 by the Gregorian rules, and it is a valid date |
| `Clocks.CountedIncreases` | crates/passalong-server-core/src/clock.rs:9-27 | Dates strictly increase with days |
| `Clocks.TextIsDateTime` | crates/passalong-server-core/src/clock.rs:9-27 | Up to the year 9999 the text is a date-time of section 5.6 of RFC 3339, and reading it back gives the very second |
| `Clocks.TextsSort` | crates/passalong-server-core/src/clock.rs:9-27 | Up to the year 9999 the texts sort as the times do |
| `Clocks.UpTo9999` | crates/passalong-server-core/src/clock.rs:9-27 | The year has at most four digits exactly below 253402300800 seconds |
| `Bridges.ReadsWhatArrives` | crates/passalong-server-api/src/bridge.rs:59-107 | At every interleaving of the two sides what was read is in order the beginning of what arrived, all of it when the reader sees the end, and at most (DEPTH + 2) pieces are counted |
| `Bridges.TenPiecesAreHeld` | crates/passalong-server-api/src/bridge.rs:6-9 | A run in which (DEPTH + 2) full pieces are counted, where the comment says DEPTH |
| `Bridges.InPeakIsExact` | crates/passalong-server-api/src/bridge.rs:59-107 | Of bodies of at most so many bytes, any bound holds of what is counted in every run if and only if it is at least the size or (DEPTH + 2) pieces, whichever is less |
| `Bridges.InboundCommentHolds` | crates/passalong-server-api/src/bridge.rs:6-9 | The comment's bound, DEPTH pieces, holds in every run that takes in at most `size` bytes if and only if `size` is at most DEPTH pieces |
| `Bridges.OutPeakIsExact` | crates/passalong-server-api/src/bridge.rs:121-179 | Of what is sent, any bound holds of what is counted in every run if and only if it is at least what is sent or (DEPTH + 1) pieces, whichever is less |
| `Bridges.OutboundCommentHolds` | crates/passalong-server-api/src/bridge.rs:6-9 | The comment's bound holds of what is sent if and only if all of it, the shorter of the length asked for and the content, is at most DEPTH pieces |
| `Bridges.StepKeepsInOk` | crates/passalong-server-api/src/bridge.rs:59-107 | Every step of either side keeps: read, current piece, channel, waiting piece and rest of the frame are what arrived, and what is counted is what is on its way |
| `Bridges.StreamsExactly` | crates/passalong-server-api/src/bridge.rs:121-179 | At every interleaving the client has the beginning of the content, the size it is told is to come is exact, the body ends with exactly `length` bytes, at most (DEPTH + 1) pieces are counted, and content that is long enough never fails for being short |
| `Bridges.OutStepKeepsOk` | crates/passalong-server-api/src/bridge.rs:121-179 | Every step of either side keeps: emitted, channel and waiting piece are the content read so far |
| `Ranges.AsInRfcExactly` | crates/passalong-server-api/src/bridge.rs:184-207 | For every header and every size of content the answer is the one section 14.1.2 of RFC 9110 has (the offsets of exactly the bytes selected, refused if and only if the range is not satisfiable, the whole when the header is not one valid range of bytes) if and only if the header and the size are none of these: a range with its unit not in lower case, in a list with empty elements, with a count of 0 or with a number above 64 bits; a suffix that is read, of a count above 0, on empty content; or a text with plus signs or inner blanks that would be a range without them |
| `Ranges.ReadsLooseRanges` | crates/passalong-server-api/src/bridge.rs:184-202 | Trimming, cutting at the first dash, trimming and parsing again reads exactly the texts of a grammar with blanks and plus signs |
| `Ranges.ZeroSuffix` | crates/passalong-server-api/src/bridge.rs:196-199 | `bytes=-0` selects nothing, and the whole is sent |
| `Ranges.SuffixOfNothing` | crates/passalong-server-api/src/bridge.rs:203-205 | `bytes=-5` on empty content is satisfiable and selects all there is, and is refused |
| `Ranges.EmptyElement` | crates/passalong-server-api/src/bridge.rs:188-190 | `bytes=5-,` is a list of one range, and the whole is sent |
| `Ranges.OtherLetters` | crates/passalong-server-api/src/bridge.rs:185 | `Bytes=5-` is a range, and the whole is sent |
| `Ranges.BeyondSixtyFourBits` | crates/passalong-server-api/src/bridge.rs:193 | A first byte of 2^64 is beyond all content, and the whole is sent |
| `Ranges.PlusSign` | crates/passalong-server-api/src/bridge.rs:193 | `bytes=+5-` is no range, and is served as one |
| `Ranges.BlankInside` | crates/passalong-server-api/src/bridge.rs:193 | `bytes=5 -` is no range, and is served as one |
| `Ranges.RangeResponseIsTheSlice` | crates/passalong-server-api/src/handlers/items.rs:262-296 | A range response that ended is exactly the asked slice of the item |

## Left out

- The order in which clean-ups are taken within a run of the world: pending ones are a set, and any order may happen. `Engines.CleaningAll` says that it does not matter.
- A rule that reads the clock twice reads the same second; the model reads it once.
- Locks: a transaction is one event, which is what the ledger's exclusiveness means.
- `probe_write`, `resolve_item`, `items_after`, `item_ids_after` and the other plain queries: single-branch facts.
- The answers of `begin_upload` and of the views are modelled whole; log lines and the counts in them are not.
- `find_in` when several live tickets answer one request: the invariant says there is one, so the choice is of that one.
- Recording which of several equally stale addresses a full table evicts: any of them may be.
- The order of `staged` and `generations`, ascending on both shelves: their answers are sets here. An offset of 2^63 or more, which a seek refuses; a range never asks for one.
- `World`: its shelf is the one in memory, and a place that a death left bare is no place there; `FsWorlds` has the files. A call of the file shelf and a transaction are there one event, so a transfer's single changes do not fall between those of a transaction.
- Flushing (`sync_all`, `sync_dir`): what a process did before its death is taken to stay.
- The text of paths, the bytes of `server.json`, permissions of files and directories.
- SQLite itself, its migrations, WAL mode and busy time-outs: a transaction is a value that replaces another.
- `client_address`, TLS, HTTP routing, problem bodies, telemetry, configuration, the command line, service installation and certificates.
- Workspace names, quotas of workspaces, the audit trail's text; the history of keys is a ghost that only the proofs see.
- Sharing of the bridge's counter between transfers; that a reader which leaves early never gives back what was counted is in the model (`lost`) and not a result of its own.
- Randomness: a source of ids is an endless sequence that at some point offers one that is unknown.
- `Ranges.RangeResponseIsTheSlice`: the handler looks up the size of the item and opens its content in two reads; the model has one item for both, so that an item replaced in between is not in it.
