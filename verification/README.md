# Verified model of the ERP engines

A Dafny model of the engines of this ERP that carry state or encode data, and proofs of what they promise.
`dafny verify dfyconfig.toml` checks the whole project.

Tables are maps and sequences; a transaction, or a function that holds a row lock throughout, is one atomic step.
Each engine has a step machine or specification functions (values), theorems over whole runs of them, and, where the
engine changes things in place, classes and loops whose contracts equal those specifications.

| Files | Subject |
|---|---|
| `Text.dfy` | Decimal numerals, splitting, joining, trimming, byte order. |
| `AuditEvidence`, `AuditLog`, `AuditLogInvariant`, `AuditLogTheorems`, `AuditPass`, `AuditStore`, `AuditTampering` | Signed audit rows, sealed windows, archive, restore, verification. |
| `CommandIdempotency`, `CommandSpine` | Command claims with leases, and the economic command around them. |
| `Assets`, `AssetLedger`, `AssetRuns`, `AssetSchedule`, `AccountingPeriods` | Depreciation plans, their ledger, disposal, the yearly schedule, period overlap. |
| `RuleMatch`, `BankBooks`, `BankInvariant`, `BankTheorems`, `BankAnswers`, `BankStore` | Matching statement lines to book postings. |
| `CourierGuard`, `CourierTheorems`, `CourierDesk` | The guard around a courier request that must not be repeated. |
| `ApprovalRules`, `Approvals`, `ApprovalTheorems`, `ApprovalDesk` | Amount slabs and the maker-checker flow. |
| `TokenText`, `Tokens`, `TokenRing`, `TokenAnswers` | Claim tokens, their encodings and the key ring. |
| `MigrationNames`, `Migrations` | The order of migration files and the ledger runner. |
| `Code128Table`, `Code128` | Code 128-B barcodes. |
| `AmountWords`, `EnglishWords`, `AmountPrinter` | Amounts in words. |
| `LiveState` | The live user-state cache. |
| `Backflush`, `BackflushSale`, `BackflushAnswers` | What a sale consumes with each line. |
| `Bundles`, `BundleAssembly` | Bundle availability, expansion, assembly. |

## Where the code promises more than it keeps

Each of these is an if-and-only-if in the model, with a concrete run or state on its failing side.

* A slow command holder whose lease was taken over can still commit: completion checks neither status nor owner
  (`CommandIdempotency.CommitKeepsConsistentExactlyWhenOpen`, `SlowHolderCommitsTwice`).
* An archive run removes its file on any error of its commit, also when the commit had taken effect and only its answer
  was lost: the rows of the window are then nowhere
  (`AuditLogTheorems.MisreportedCommitKeepsInvExactlyWhenRaceLost`, `MisreportedCommitLosesARow`).
* Two archive runs of one window within a second write the same file; the one that loses the race removes it
  (`AuditLogTheorems.StageKeepsInvExactlyWhenPathFree`, `SameSecondLosesARow`).
* An audit restore that commits after its window was restored and archived again leaves an archive record without a
  checkpoint (`AuditLogTheorems.RestoreLeavesOrphanExactlyWhenStale`, `StaleRestoreLeavesAnOrphan`).
* Verification does not check a row, or a checkpoint, of a scheme without keys: one relabelled so is never called
  tampered, and only the counts of signed and verified rows differ (`AuditTampering.EditIsReportedExactlyWhen`,
  `CheckpointEditIsReportedExactlyWhen`, `RelabelledEditIsNotReported`).
* A depreciation month that charges nothing leaves no posting, so every later run reports it as posted again
  (`AssetRuns.SecondRunAddsNothing`, `CheapAssetIsReportedAgain`, `Assets.ZeroChargeExactlyWhenCostTooSmall`).
* Disposal proceeds received into 1400 or 1410 leave those accounts uncleared
  (`AssetLedger.DisposalClearsExactlyWhenReceiptElsewhere`, `ProceedsIntoFixedAssetsStay`).
* A transfer reads an asset and writes it back, status included, without a lock: a disposal in between is undone, with
  nothing left on 1400 (`AssetLedger.LateTransferKeepsInvExactlyWhenNotDisposed`, `LateTransferUndoesADisposal`).
* Two accounting periods created at once can overlap: check and insert take no lock
  (`AccountingPeriods.InsertKeepsDisjointExactlyWhenFree`, `RacingPeriodsOverlap`).
* A manual bank match that names one posting twice counts it twice
  (`BankInvariant.ManualMatchKeepsInvExactlyWhenIdsDiffer`, `RepeatedIdBreaksTheBooks`).
* A POS payout relinks the row it finds whatever it was linked to, and charges its fee to 5230 even when that is the
  bank's own account (`BankInvariant.PayoutKeepsInvExactlyWhenSafe`, `PayoutTakesAMatchedRow`,
  `FeeOnItsOwnAccountBreaksTheBooks`).
* The exact pass, and a marketplace match, read postings without a lock and write unconditionally, so they can take a
  posting that was matched in between (`BankTheorems.LatePairKeepsInvExactlyWhenUntaken`,
  `LatePairOverwritesAManualMatch`, `LateBatchKeepsInvExactlyWhenFree`, `LateBatchTakesAManualMatch`).
* They look at closed periods only when they read, so they can also write into a period closed in between
  (`BankTheorems.LatePairKeepsFrozenLinesExactlyWhenPeriodOpen`, `LateBatchKeepsFrozenLinesExactlyWhenPeriodOpen`,
  `LatePairWritesIntoAClosedPeriod`).
* A caller who leaves a pickup or cancel early gives up a claim that had been taken over unconfirmed; and a pickup
  confirmed with a blank reference is not seen as done
  (`CourierTheorems.LeavingKeepsGuardedExactlyWhenNothingToAsk`, `LeavingActsTwice`,
  `SuccessKeepsGuardedExactlyWhenNamed`, `BlankReferenceActsTwice`).
* An approval-rule edit tests overlap against the record type passed in, while the row keeps its own; and two rules saved
  at once can overlap, the check and the write being two statements
  (`ApprovalRules.EditKeepsDisjointExactlyWhenChecked`, `EditUnderAnotherTypeOverlaps`,
  `WriteKeepsDisjointExactlyWhenClear`, `RacingCreatesOverlap`).
* A submission, and the reset of an edited document, write the status first and the log row afterwards. Until that row
  is there, and for good if it fails, whoever sent or changed the round can decide it
  (`ApprovalTheorems.DecideKeepsInvExactlyWhenLogged`, `SubmitterDecidesWithoutTheLogRow`).
* A save tests the status it read, and its write looks at the version at most, which only saves count up. One that still
  sends Approved approves a document sent back in between, until its own reset follows or for good if that fails; one that
  still sends Rejected overwrites a later approval for good
  (`ApprovalTheorems.SaveKeepsStatusExactlyWhenUnmoved`, `StaleSaveApproves`, `StaleSaveRejectsForGood`).
* Two migrators at once can apply a file twice (`Migrations.StepAppliesOnceExactlyWhenUnrecorded`,
  `TwoMigratorsApplyTwice`).
* Dropping a cached user state is undone by a request that read the row before and stores it after
  (`LiveState.InvalidationHoldsExactlyWhenNothingInFlight`, `DroppedRoleIsAnsweredAgain`).
* Two packaging overrides of one item and group: the earlier one is dropped without a word; and with no rules at all
  every override is (`Backflush.EveryOverrideInForceExactlyWhen`, `RepeatedKeyDropsTheFirst`,
  `NoRulesDropEveryOverride`).
* A SKU with a bar shares its override key with another item and group (`Backflush.KeysTellLinesApart`, `BarMixesLines`).
* A bundle assembled from an oversold bucket cannot be taken apart again
  (`BundleAssembly.DisassemblyGoesThroughExactlyWhen`, `OversoldBundleStaysTogether`).

## What the theorems assume

* Audit: no archive run writes a file that a record or another run names (`FreshPaths`; shown for distinct windows), an
  archive commit that takes effect is not answered with an error (`TruthfulCommits`), rows become visible in the order of
  their numbers, checkpointing is one step, MAC and hash are collision-free functions, signatures are hex, opening a
  sealed file gives back what was sealed.
* Commands: a request whose lease was taken over makes no further step (`OwnersOnly`). A command without a key is not
  protected at all and is modelled so.
* Assets: the plan's fields stay as they were at capitalisation; proceeds are not received into 1400 or 1410
  (`ReceiptsElsewhere`); a transfer writes before a disposal or not at all (`TransfersOnTime`).
* Bank: line amounts and the GL code of an account do not change; `Careful` names what the unguarded steps need: different
  posting ids, a safe payout, and a late pair or batch whose postings nobody has taken in between. For closed periods,
  besides, a late write finds its own line's period still open (`PeriodStillOpen`); the other workbench steps look and
  write at once.
* Courier: `Orderly` (a call ends before its claim goes stale, nobody leaves an unconfirmed claim, results are not
  blank) for "no blind request"; `Truthful` besides for "at most once". The courier acts, if at all, when it is sent the
  request.
* Approval: edits and late writes are `Checked` for the slab theorem. For the maker-checker theorem, nobody who may not
  decide their own round decides while the log is owed a row of theirs (`AllLogged`); that no pending spell is decided
  twice needs nothing. For decided statuses, a save that goes through writes over the status it read (`GatedRun`); sending
  the version guarantees that against other saves only (`VersionGuardsAgainstSaves`).
* Tokens: values are bytes; the HMAC is any function from key and text to bytes.
* Migrations: one migrator at a time for `EffectsAtMostOnce`; for several, no file is recorded between a migrator's start
  and its turn (`UnrecordedRun`).
* Live state: tenant ids hold no bar, and a row is stored at most one gap after it was read (`Timely`).
* Backflush: rule ids differ. Bundles: what the save-time validation demands (`Saved`).

## Model

| member | source | states |
|---|---|---|
| Text.TrimIsTrimmed | engines/courier_step_guard.go:180 | what is trimmed is the text without the spaces around it |
| AuditEvidence.SignatureDeterminesRow | engines/audit_evidence.go:127-156 | two rows share a signature exactly when scheme, tenant and every signed column agree |
| AuditEvidence.DigestRange | engines/audit_evidence.go:399-451 | one pass over a window gives its digest, its row count and its number of unsigned rows |
| AuditEvidence.DigestDetectsEveryChange | engines/audit_evidence.go:431-441 | two windows have the same digest exactly when they hold the same signatures, or ids of unsigned rows, in the same order |
| AuditEvidence.UnsignedMarkerCanBeForged | engines/audit_evidence.go:382-441 | without hex signatures a signed row can pass for an unsigned one |
| AuditLogInvariant.StepKeepsInv | engines/audit_archive.go:593-918 | writing, key rotation, sealing, archiving, restoring and crashes in between all keep windows contiguous and every row in one place; an archive commit that takes effect must not answer with an error |
| AuditLogInvariant.RunKeepsInv | engines/audit_archive.go:593-918 | the same over every run with racing archive runs and restores, with truthful archive commits |
| AuditLogTheorems.ReachableStates | engines/audit_evidence.go:168-517 | from a fresh tenant every run keeps placement and the authenticity of every row, checkpoint and archive, with truthful archive commits |
| AuditLogTheorems.EveryRowInExactlyOnePlace | engines/audit_archive.go:693-790 | where the invariant holds, every row ever committed is live and in no archive its checkpoint names, or gone and in exactly one |
| AuditLogTheorems.MisreportedCommitKeepsInvExactlyWhenRaceLost | engines/audit_archive.go:775-790 | an archive commit answered with an error after taking effect keeps the invariant exactly when another run had archived the window first |
| AuditLogTheorems.MisreportedCommitLosesTheWindow | engines/audit_archive.go:775-790 | otherwise every row of the window is neither live nor in any archive |
| AuditLogTheorems.MisreportedCommitLosesARow | engines/audit_archive.go:775-790 | a run from a fresh tenant that ends so |
| AuditLogTheorems.StageKeepsInvExactlyWhenPathFree | engines/audit_archive.go:718-737 | writing an archive file keeps the invariant exactly when no record and no other run names that file |
| AuditLogTheorems.SharedPathLosesTheWindow | engines/audit_archive.go:775-778 | two runs of a window under one name: the loser of the race removes the winner's file |
| AuditLogTheorems.SameSecondLosesARow | engines/audit_archive.go:718-778 | a run from a fresh tenant in which that loses a row |
| AuditLogTheorems.VerificationAccepts | engines/audit_evidence.go:308-391 | in every reachable state each checkpoint, live or archived, verifies |
| AuditLogTheorems.WindowTamperingIsReported | engines/audit_evidence.go:308-391 | a sealed live window passes exactly when it still holds the sealed evidence row for row, whatever else the table holds |
| AuditLogTheorems.SealLeavesNothingOpen | engines/audit_evidence.go:471-531 | a seal adds one window exactly when some live row is above every window, and after it every live row lies in one |
| AuditTampering.RowVerdictMeans | engines/audit_evidence.go:248-272 | each of the five verdicts on a row, said of its columns and the keys of its scheme |
| AuditTampering.CheckpointVerdictMeans | engines/audit_evidence.go:337-391 | a checkpoint passes exactly when its scheme has no key, or some key signs its line and its window, live or archived, is as it states |
| AuditTampering.IntactExactlyWhen | engines/audit_evidence.go:218-391 | a report says intact exactly when every signed live row of a scheme with keys has the MAC of its own columns under one of them, and every checkpoint passes; the failed checkpoints are exactly the others |
| AuditTampering.FailingRowIsNamed | engines/audit_evidence.go:259-272 | a row that fails makes the report not intact and is named by id while there is room, or by its missing key |
| AuditTampering.TamperedRowFails | engines/audit_evidence.go:266-271 | every id called tampered is that of a live row that fails |
| AuditTampering.AllVerifiedExactlyWhen | engines/audit_evidence.go:241-262 | verified and signed rows are equally many exactly when every signed live row is genuine |
| AuditTampering.EditIsReportedExactlyWhen | engines/audit_evidence.go:218-273 | any row put in the place of a signed one of a reachable state, signature kept: the report stays intact exactly when no signed column changed, or the scheme named has no key; otherwise the row or its missing key is named |
| AuditTampering.RelabelledEditIsNotReported | engines/audit_evidence.go:248-254 | a row given another scheme name with its details changed leaves the report intact; only its counts differ |
| AuditTampering.CheckpointTextDetermines | engines/audit_evidence.go:457-462 | without bars in its texts the signed line of a checkpoint determines every column it covers |
| AuditTampering.CheckpointEditIsReportedExactlyWhen | engines/audit_evidence.go:337-391 | a checkpoint of a reachable state changed, its signature and archive kept: intact exactly when nothing signed changed, or the scheme named has no key |
| AuditTampering.RestoreIsStagedExactlyWhen | engines/audit_archive.go:436-537 | a restore passes its checks exactly when its archive is the one its checkpoint points at and file, signature, digest and counts are as recorded |
| AuditTampering.ChangedWindowStays | engines/audit_archive.go:641-660 | a window that is not what its checkpoint states is not archived, whatever the tables hold |
| AuditLogTheorems.RestoreUndoesArchive | engines/audit_archive.go:842-918 | archive then restore gives back rows, checkpoints and archive records, up to the restore's own signed event |
| AuditLogTheorems.RestoreLeavesOrphanExactlyWhenStale | engines/audit_archive.go:842-918 | a restore leaves an unreferenced archive record exactly when its checkpoint no longer points at the archive restored |
| AuditLogTheorems.StaleRestoreLeavesAnOrphan | engines/audit_archive.go:842-918 | a run from a fresh tenant with two racing restores and an archive in between leaves such a record |
| AuditPass.WindowArchivedExactlyWhenAllowed | engines/audit_archive.go:593-685 | unless its transaction is misreported, a window is archived exactly when it is within the ceiling, holds no row held when the pass began, and its transaction goes through; otherwise nothing changes |
| AuditPass.MisreportedWindowIsLost | engines/audit_archive.go:775-790 | with a misreported transaction the pass reports the window as not archived and its rows are nowhere |
| AuditPass.PassKeepsEverything | engines/audit_archive.go:593-685 | a whole pass with truthful commits keeps the invariants and leaves windows off its list alone |
| AuditPass.ProtectedRowsStay | engines/audit_archive.go:333-385 | no pass, however its transactions end, deletes a row newer than the cutoff or under a legal hold that was in force when the pass began |
| AuditPass.CandidateExactlyWhen | engines/audit_archive.go:364-386 | a window is taken up exactly when it is unarchived, periodic or sealed, has a live row, and all its live rows are older than the cutoff |
| AuditPass.RestoreCommitsExactlyWhen | engines/audit_archive.go:842-918 | a restore's transaction goes through exactly when its checkpoint exists, no row's number is live and no two rows share one |
| AuditPass.RestoreBringsBack | engines/audit_archive.go:842-918 | each row is back under its own number, beside all that was live and the restore's event |
| AuditPass.ReachableReportIsClean | engines/audit_evidence.go:218-295 | verification of a reachable state reports every signed row verified, every checkpoint good and no key missing |
| AuditPass.DistinctWindowsDistinctPaths | engines/audit_archive.go:718-721 | archives of different windows of a pass get different file names |
| AuditStore.RowIsHeld | engines/audit_archive.go:333-362 | a row is held exactly when some hold's set fields all match it |
| AuditStore.CandidatesComplete | engines/audit_archive.go:364-385 | the eligible windows are exactly the unarchived ones wholly older than the cutoff |
| AuditStore.Store.WriteAuditEvidenceTx | engines/audit_evidence.go:168-212 | one row more, under the next number, with the caller's columns and their MAC under the current key |
| AuditStore.Store.WriteAuditCheckpoint | engines/audit_evidence.go:471-531 | seals exactly the rows after the last window, or nothing when there are none |
| AuditStore.Store.VerifyAuditEvidence | engines/audit_evidence.go:218-391 | its counts, its tampered ids and its missing keys are those of the rows and checkpoints classified one by one |
| AuditStore.NotedAreTheMissing | engines/audit_evidence.go:297-306 | the missing keys are listed once each, ten at most, and all of them while there is room |
| AuditStore.Store.WriteArchiveWindow | engines/audit_archive.go:693-790 | stages the file, then ends as its transaction does: archived, raced, rolled back, or misreported with the file removed |
| AuditStore.Store.RecordArchive | engines/audit_archive.go:739-790 | record, pointer and deletion take effect together or not at all; the file is removed on every error, also a misreported one |
| AuditStore.Store.RunAuditArchive | engines/audit_archive.go:593-685 | a run is the pass over the candidates in order |
| AuditStore.Store.RestoreAuditArchive | engines/audit_archive.go:842-918 | puts back the file's rows and repoints the checkpoint, or changes nothing |
| CommandIdempotency.CommitKeepsConsistentExactlyWhenOpen | engines/command_idempotency.go:197-208 | a commit keeps at-most-once exactly when it finds its claim present and not completed |
| CommandIdempotency.AtMostOnceWhenOpen | engines/command_idempotency.go:98-273 | if every commit finds its claim open no key commits twice, over every interleaving |
| CommandIdempotency.AtMostOnce | engines/command_idempotency.go:98-273 | with no step after a lost lease each key commits at most once until purged and is Completed exactly when it has committed |
| CommandIdempotency.SlowHolderCommitsTwice | engines/command_idempotency.go:172-208 | claim, expiry, takeover and two commits: the key commits twice |
| CommandIdempotency.ClaimAnswersFromTheCommit | engines/command_idempotency.go:98-190 | a replay carries the one committed response; a key that has committed is never acquired |
| CommandIdempotency.OnePayloadPerKey | engines/command_idempotency.go:130-190 | over every interleaving a row keeps the payload it was inserted with until it is deleted; a request with any other is told of the mismatch and nothing moves, one with it is answered as the row's status and lease say |
| CommandIdempotency.FirstClaimSetsThePayload | engines/command_idempotency.go:113-150 | the payload a row keeps is the first claimant's |
| CommandSpine.EconomicStore.ClaimCommand | engines/command_idempotency.go:98-190 | a new key is inserted with its payload; a key present under another payload is a mismatch and the table stays; under the same one the row's status and lease decide between replay, wait, retry and takeover |
| CommandSpine.EconomicStore.FailCommand | engines/command_idempotency.go:214-227 | only a claim in progress becomes failed |
| CommandSpine.EconomicStore.ReleaseCommand | engines/command_idempotency.go:266-273 | only a claim in progress is deleted |
| CommandSpine.EconomicStore.PurgeSettledCommandClaims | engines/command_idempotency.go:244-259 | exactly the settled claims past retention go |
| CommandSpine.EconomicStore.RunEconomicCommand | engines/command_spine.go:43-111 | a call leaves claims, documents and postings as specified; a key used for another payload is refused and nothing changes |
| CommandSpine.AllOrNothing | engines/command_spine.go:43-111 | a call posts all or nothing and its reply says which, unless the commit itself misreports |
| CommandSpine.PostsExactlyWhen | engines/command_spine.go:43-111 | a call posts, once and under its key, exactly when it may claim the key, the document is at the version it expects, the callback accepts it and the commit takes effect; else nothing moves, and Ok is the recorded response |
| CommandSpine.RepeatAnswersTheFirst | engines/command_spine.go:43-111 | a keyed command that has posted never posts again and answers its first response |
| CommandSpine.FailureCanBeRetried | engines/command_spine.go:86-111 | a keyed command refused without posting can be claimed again at once |
| CommandSpine.CallIsARun | engines/command_spine.go:43-111 | a call is a run of the many-client machine and posts exactly when that run commits |
| Assets.PlanChargesCostExactly | engines/asset_depreciation.go:61-105 | the monthly charges of a plan sum to its cost exactly |
| Assets.ZeroChargeExactlyWhenCostTooSmall | engines/asset_depreciation.go:98-105 | a month charges nothing exactly when the cost is below the life in months and it is not the last |
| Assets.ChargesAreEven | engines/asset_depreciation.go:98-105 | every month but the last charges the cost divided over the life, to the paisa below, and the last what is left |
| AssetLedger.RunKeepsInv | engines/asset_depreciation.go:249-322 | over every run, late transfers that find the asset undisposed included, entries balance, each month is posted at most once and 1410 is the sum of the posted months |
| AssetLedger.AccumulatedWithinCost | engines/asset_depreciation.go:249-322 | accumulated depreciation lies between zero and cost |
| AssetLedger.DisposalClearsExactlyWhenReceiptElsewhere | engines/asset_depreciation.go:456-646 | disposal brings 1400 and 1410 to zero exactly when no proceeds go into those accounts |
| AssetLedger.DisposalBooksTheOutcome | engines/asset_depreciation.go:456-646 | the receipt account takes the proceeds, and their distance from the book value goes to loss or gain |
| AssetLedger.ProceedsIntoFixedAssetsStay | engines/asset_depreciation.go:456-646 | a disposal the inputs allow that leaves its proceeds on 1400 |
| AssetLedger.NothingPostsAfterDisposal | engines/asset_depreciation.go:249-283 | with transfers on time no step posts anything for a disposed asset |
| AssetLedger.LateTransferKeepsInvExactlyWhenNotDisposed | engines/assets.go:223-241 | a transfer's write keeps the books in order exactly when the asset was not disposed of since its read |
| AssetLedger.LateTransferUndoesADisposal | engines/assets.go:223-241 | a disposed asset that a transfer makes capitalised again |
| AssetRuns.RunFollowsPreview | engines/asset_depreciation.go:286-322 | a run posts and skips exactly the months its preview lists |
| AssetRuns.StopsAtTheFirstFailure | engines/asset_depreciation.go:286-322 | a run stops at its first failing month, with exactly the months before it done |
| AssetRuns.RetryCompletesTheRun | engines/asset_depreciation.go:286-322 | running again afterwards leaves the ledger a run without the failure would have left |
| AssetRuns.PreviewPredictsDisposal | engines/asset_depreciation.go:501-646 | with no step in between the preview equals what disposal posts: months, accumulated, gain or loss, lines |
| AssetRuns.RunLeavesOnlyClosed | engines/asset_depreciation.go:286-322 | after a run a due month is unposted only if its period is closed or it charges nothing |
| AssetRuns.RunPostsWhatHasEnded | engines/asset_depreciation.go:106-116 | after a run that ends well a month is posted exactly when it was before, or it ended before today's month, charges something and its period takes entries |
| AssetRuns.PreviewListsWhatHasEnded | engines/asset_depreciation.go:501-564 | a preview lists exactly the ended months not posted yet, the closed ones as skipped |
| AssetRuns.DisposesExactlyWhen | engines/asset_depreciation.go:569-646 | a disposal goes through exactly when its inputs are allowed, the asset is capitalised, its months could be posted and today takes entries: its own entry always balances |
| AssetRuns.SecondRunAddsNothing | engines/asset_depreciation.go:249-322 | a second run leaves the ledger as it is and reports again exactly the open months that charge nothing |
| AssetRuns.CheapAssetIsReportedAgain | engines/asset_depreciation.go:249-322 | a capitalised asset whose first month every run reports as posted |
| AssetRuns.DearAssetIsNotReportedAgain | engines/asset_depreciation.go:249-322 | an asset that costs at least a paisa a month is never reported as posted again |
| AssetRuns.FullyDepreciated | engines/asset_depreciation.go:61-116 | once every charging month is posted 1410 holds the cost |
| AssetRuns.AssetStore.CapitalizeAssetWithLife | engines/assets.go:162-219 | capitalises a draft with a cost and opens its life in the ledger, or changes nothing |
| AssetRuns.AssetStore.PostAssetDepreciationMonth | engines/asset_depreciation.go:249-283 | posts one month's entry unless not capitalised, already posted or closed |
| AssetRuns.AssetStore.DepreciateAsset | engines/asset_depreciation.go:286-322 | posts the due months in order, collecting posted and closed ones, and stops at any other failure; when it ends well a month is posted exactly when it was, or it has ended and can be charged |
| AssetRuns.AssetStore.DisposeAssetWithProceeds | engines/asset_depreciation.go:569-646 | catches up, then books the disposal and marks the asset, or refuses, also when catching up failed |
| AssetRuns.AssetStore.PreviewAssetDisposal | engines/asset_depreciation.go:501-564 | computes the preview of exactly the ended months without changing anything |
| AssetSchedule.BuildSchedule | engines/asset_lifecycle.go:104-147 | the loop's year lines follow the plan month by month |
| AssetSchedule.SchedulePartitionsThePlan | engines/asset_lifecycle.go:104-147 | the years partition the months, each closing opens the next, the last closes at zero, posted plus to come is the charge |
| AccountingPeriods.PeriodBook.CreateAccountingPeriod | engines/accounting_periods.go:28-78 | adds a period only if it overlaps none |
| AccountingPeriods.DisjointMeansOnePeriodPerDate | engines/accounting_periods.go:28-78 | periods are disjoint exactly when no date lies in two |
| AccountingPeriods.InsertKeepsDisjointExactlyWhenFree | engines/accounting_periods.go:46-66 | an insert keeps periods apart exactly when its range is free in the table it meets |
| AccountingPeriods.RacingPeriodsOverlap | engines/accounting_periods.go:46-66 | two creations checked at once overlap |
| RuleMatch.RulePass | engines/bank_reconciliation_workbench.go:375-450 | one decision a line: each gets the outcome it deserves of the postings no earlier line used |
| RuleMatch.FindCandidates | engines/bank_reconciliation_workbench.go:385-402 | a line's candidates are the unused compatible postings |
| RuleMatch.Pick | engines/bank_reconciliation_workbench.go:403-440 | only a unique candidate is ever picked, by reference, then alone, then by exact amount |
| RuleMatch.PassIsSound | engines/bank_reconciliation_workbench.go:375-450 | four outcomes split the lines, no posting is used twice, and a no-candidate line fits no posting left unused |
| RuleMatch.EveryLineGetsWhatItDeserves | engines/bank_reconciliation_workbench.go:403-450 | a line is matched to the unique posting its reference names, else the only one that fits, else the only one of its amount; ambiguous names how many fit, at least two, with neither unique; no candidate when none fits |
| RuleMatch.PassIgnoresBookOrder | engines/bank_reconciliation_workbench.go:351-450 | every order of the book postings gives the same pass |
| BankInvariant.LinkAllSum | engines/bank_reconciliation_workbench.go:197-225 | linking a list adds its whole sum exactly when no posting is listed twice |
| BankInvariant.ManualMatchKeepsInvExactlyWhenIdsDiffer | engines/bank_reconciliation_workbench.go:177-239 | a manual match keeps the books in order exactly when its posting ids differ |
| BankInvariant.RepeatedIdBreaksTheBooks | engines/bank_reconciliation_workbench.go:177-239 | books a repeated posting id leaves out of balance |
| BankInvariant.UnmatchKeepsInv | engines/bank_reconciliation_workbench.go:243-278 | an unmatch frees the line's own postings and keeps every other line balanced |
| BankInvariant.MarketplaceKeepsInv | engines/bank_reconciliation_workbench.go:577-622 | matching a settlement batch keeps the invariant |
| BankInvariant.PayoutKeepsInvExactlyWhenSafe | engines/bank_reconciliation_workbench.go:626-703 | a POS payout keeps the invariant exactly when the row it finds is free and no fee goes to the bank's own account |
| BankInvariant.PayoutTakesAMatchedRow | engines/bank_reconciliation_workbench.go:684-691 | a payout that takes the row of another matched line |
| BankInvariant.FeeOnItsOwnAccountBreaksTheBooks | engines/bank_reconciliation_workbench.go:626-703 | a payout whose fee goes to the bank account itself |
| BankTheorems.ExactPassIsMaximal | engines/bank_reconciliation.go:134-182 | after the greedy pass no open line has a free posting within a paisa and 72 hours of it |
| BankTheorems.PairsAreFirstFits | engines/bank_reconciliation.go:134-182 | each pair takes the first posting, in the order read, within a paisa and 72 hours of its line that no earlier pair took |
| BankTheorems.LatePairKeepsInvExactlyWhenUntaken | engines/bank_reconciliation.go:134-182 | writing a pair decided on earlier reads keeps the books in order exactly when neither line nor posting is matched with anything else |
| BankTheorems.LatePairOverwritesAManualMatch | engines/bank_reconciliation.go:170-182 | books in which it breaks a manual match |
| BankTheorems.FitsStays | engines/bank_reconciliation.go:134-170 | no step makes a pair that fitted when read unfit |
| BankTheorems.LateBatchKeepsInvExactlyWhenFree | engines/bank_reconciliation_workbench.go:549-622 | a marketplace match keeps the books in order exactly when the postings it read are still free |
| BankTheorems.LateBatchTakesAManualMatch | engines/bank_reconciliation_workbench.go:549-622 | books in which a marketplace match takes a posting matched in between |
| BankTheorems.LatePairKeepsFrozenLinesExactlyWhenPeriodOpen | engines/bank_reconciliation.go:73-182 | a pair written late leaves every frozen line alone exactly when its own line is not frozen by then, or it is there already |
| BankTheorems.LateBatchKeepsFrozenLinesExactlyWhenPeriodOpen | engines/bank_reconciliation_workbench.go:120-148 | the same of a marketplace match |
| BankTheorems.LatePairWritesIntoAClosedPeriod | engines/bank_reconciliation.go:73-182 | books in which the exact pass writes into a period closed in between |
| BankTheorems.LinkPairsKeepsInv | engines/bank_reconciliation_workbench.go:436-450 | pairs of different open lines and free postings keep the invariant one by one |
| BankTheorems.StepKeepsInv | engines/bank_reconciliation_workbench.go:177-703 | every match, unmatch, exception, explanation, posting, closing and late write that is careful keeps each matched line accounted for |
| BankTheorems.RunKeepsInv | engines/bank_reconciliation_workbench.go:177-703 | the same over every run |
| BankTheorems.ReachableBooks | engines/bank_reconciliation_workbench.go:177-703 | so every reachable matched line's postings sum to amount less recorded difference, within a paisa for the exact pass |
| BankTheorems.ClosedPeriodLinesAreFrozen | engines/bank_reconciliation_workbench.go:120-148 | no careful step changes the row or the links of a line dated in a closed period, if late writes find their own line's period open |
| BankAnswers.ManualMatchGoesThroughExactlyWhen | engines/bank_reconciliation_workbench.go:120-239 | a manual match goes through exactly when the line waits in an open period and the named postings, on its account, unlinked and not zero on its side, sum to it; it links exactly them |
| BankAnswers.UnmatchGoesThroughExactlyWhen | engines/bank_reconciliation_workbench.go:243-278 | an unmatch goes through exactly for a matched or explained line in an open period; it reopens the line and frees its postings |
| BankAnswers.ExceptionsGoThroughExactlyWhen | engines/bank_reconciliation_workbench.go:467-545 | a waiting line can be queued, a queued one explained in full; either changes that line alone |
| BankAnswers.BatchIsWhatPaysOut | engines/bank_reconciliation_workbench.go:549-573 | a batch's postings are exactly its unlinked payouts on the account, each once |
| BankAnswers.MarketplaceGoesThroughExactlyWhen | engines/bank_reconciliation_workbench.go:577-622 | a marketplace match goes through exactly for a waiting credit line those postings sum to |
| BankAnswers.MarketplaceLinksTheBatch | engines/bank_reconciliation_workbench.go:577-622 | and links all of them and nothing else |
| BankAnswers.PayoutMovesTheMoney | engines/bank_reconciliation_workbench.go:626-703 | a first payout moves the amount from clearing, which holds it, to the bank account and charges the fee to 5230, balanced on every account; a later one posts nothing |
| BankTheorems.UnmatchUndoesMatch | engines/bank_reconciliation_workbench.go:177-278 | unmatching a manual match gives the books back but for the line's own status |
| BankStore.Workbench.MatchBankLine | engines/bank_reconciliation_workbench.go:177-239 | links the chosen postings when each may be chosen and they sum to the line, else nothing changes |
| BankStore.Workbench.UnmatchBankLine | engines/bank_reconciliation_workbench.go:243-278 | needs a reason and a closed line, clears all its links |
| BankStore.Workbench.RaiseBankException | engines/bank_reconciliation_workbench.go:467-506 | needs an active owner and a reason and an open line |
| BankStore.Workbench.ExplainBankException | engines/bank_reconciliation_workbench.go:510-545 | needs the role, ten characters and a line in the queue; the whole amount becomes the difference |
| BankStore.Workbench.MatchMarketplacePayout | engines/bank_reconciliation_workbench.go:549-622 | links the batch's free payouts when they sum to the credit |
| BankStore.Workbench.MatchPOSPayout | engines/bank_reconciliation_workbench.go:626-703 | posts the payout once per line within the clearing balance and links its bank row |
| BankStore.Workbench.RuleMatchBankStatement | engines/bank_reconciliation_workbench.go:297-457 | carries out the rule pass's decisions and reports them |
| BankStore.Workbench.ReconcileBankStatement | engines/bank_reconciliation.go:40-200 | carries out the greedy pass, counts its pairs and lists the lines and postings left over |
| BankStore.MissedExactlyWhenUnpaired | engines/bank_reconciliation.go:134-168 | each open line is in a pair of the pass or in its list of misses, not both |
| BankStore.ReportSplitsTheLines | engines/bank_reconciliation_workbench.go:426-447 | the report counts every line once and names each outcome's lines |
| CourierDesk.Booking.ClaimCourierStep | engines/courier_step_guard.go:88-130 | done, refused or claimed as the row says, with what is written for each |
| CourierDesk.Booking.Attempt | engines/courier.go:206-304 | one pickup or cancel call leaves the row as a run of the guard machine does, and answers as the claim, the lookup and the courier's answer say |
| CourierDesk.Booking.ResolveUnconfirmed | engines/courier_step_guard.go:172-232 | records or releases only an unconfirmed claim |
| CourierDesk.AttemptIsARun | engines/courier.go:206-304 | each way a call can go is a run of the machine that ends the call |
| CourierTheorems.ClaimAnswers | engines/courier_step_guard.go:88-130 | a done step answers its result; any other is claimed exactly when the precheck passes and it is unclaimed, or nobody is still sending and the courier can be asked; the claim is stamped and marked for asking |
| CourierTheorems.ResolveAnswers | engines/courier_step_guard.go:172-232 | an operator settles a step exactly with a known outcome, a short one-word reference, nothing recorded and a claim nobody is still sending; what is recorded |
| CourierTheorems.StepKeepsGuarded | engines/courier_step_guard.go:88-232 | every step keeps an outstanding request behind its claim |
| CourierTheorems.LeavingKeepsGuardedExactlyWhenNothingToAsk | engines/courier.go:232-235 | leaving early keeps the guard exactly when the claim was not one to ask about first |
| CourierTheorems.LeavingActsTwice | engines/courier.go:232-235 | a run in which leaving early lets the courier act twice |
| CourierTheorems.SuccessKeepsGuardedExactlyWhenNamed | engines/courier.go:249-255 | recording a success keeps the guard exactly when the result is not blank |
| CourierTheorems.NoBlindRequest | engines/courier_step_guard.go:88-232 | over every run no request is sent while an earlier one may have reached the courier |
| CourierTheorems.CourierActsAtMostOnce | engines/courier_step_guard.go:88-232 | with truthful lookups, operators and answers the courier acts at most once |
| CourierTheorems.RecordedResultStays | engines/courier_step_guard.go:88-232 | a recorded result is never cleared or replaced |
| CourierTheorems.StepsAreIndependent | engines/courier_step_guard.go:64-67 | nothing done for pickup is seen by cancel, or the other way round |
| CourierTheorems.BlankReferenceActsTwice | engines/courier.go:249-255 | a blank pickup reference lets the courier act twice |
| ApprovalRules.RuleTable.UpsertApprovalRule | engines/approval.go:68-108 | with nothing in between check and write: accepted exactly when named, proper and clashing with no other row of the passed type; then the row is added or edited |
| ApprovalRules.RuleTable.DeleteApprovalRule | engines/approval.go:116-133 | removes exactly the rows of the id |
| ApprovalRules.OverlapMeansSharedAmount | engines/approval.go:82-92 | the overlap query finds a row exactly when some amount would fall into both ranges |
| ApprovalRules.EditKeepsDisjointExactlyWhenChecked | engines/approval.go:82-100 | an edit keeps slabs apart exactly when it clashes with no other row of the row's own type |
| ApprovalRules.EditUnderAnotherTypeOverlaps | engines/approval.go:82-100 | an accepted edit that makes two slabs overlap |
| ApprovalRules.WriteKeepsDisjointExactlyWhenClear | engines/approval.go:82-108 | whatever was checked before, a write keeps slabs apart exactly when its range is clear in the table it meets |
| ApprovalRules.RacingCreatesOverlap | engines/approval.go:82-108 | two creates checked at once overlap |
| ApprovalRules.SlabsStayDisjoint | engines/approval.go:68-133 | over every sequence of checked changes, late writes included, no amount has two slabs |
| ApprovalRules.RequiredRoleIsTheSlabs | engines/approval.go:138-152 | the role asked for is that of the one slab holding the amount |
| ApprovalRules.RequiredRoleIgnoresRowOrder | engines/approval.go:138-152 | and does not depend on row order |
| ApprovalRules.GatedHasARule | engines/approval.go:194-201 | a type is gated exactly when some rule is of that type |
| ApprovalTheorems.NotMakerDidNotMakeRound | engines/approval.go:323-338 | passing the check on row and log means not having made the round in the document's history, unless the log is owed a row |
| ApprovalTheorems.MakerMadeIt | engines/approval.go:318-345 | the check without self-decision is: created or last saved it, or sent or changed it with no decision logged since |
| ApprovalTheorems.StepKeepsInv | engines/approval.go:252-478 | every statement of a submission, save or decision keeps row, log, owed rows and history in step, if a barred decider is owed no row |
| ApprovalTheorems.MakersNeverDecideTheirRound | engines/approval.go:252-478 | over every logged interleaving, whoever decided while the policy then in force asked for a second person (always, under neither "anyone" nor "admins", or under "admins" without full access) had not made the round |
| ApprovalTheorems.NoSpellIsDecidedTwice | engines/approval.go:380-478 | over every interleaving no pending spell is decided twice |
| ApprovalTheorems.DecideKeepsInvExactlyWhenLogged | engines/approval.go:252-338 | a decision keeps the promise exactly when the decider may decide their own or no submission or reset of theirs lacks its log row |
| ApprovalTheorems.SubmitterDecidesWithoutTheLogRow | engines/approval.go:252-338 | a run in which a submitter whose log row failed approves their own round |
| ApprovalTheorems.DecidedOnlyByTheFlow | engines/approval.go:348-358 | while gated and with saves writing over the status they read, a document is Approved or Rejected exactly when the flow's last word is that |
| ApprovalTheorems.SaveKeepsStatusExactlyWhenUnmoved | internal/server/handlers_core_doc_engine.go:1047-1250 | a save leaves that true exactly when the version refuses it, or it writes no decided status or the one the row has |
| ApprovalTheorems.StaleSaveApproves | internal/server/handlers_core_doc_engine.go:1047-1290 | a run in which a save at the version it read approves a document sent back in between, until its own reset |
| ApprovalTheorems.StaleSaveRejectsForGood | internal/server/handlers_core_doc_engine.go:1047-1290 | a run in which a save at the version it read overwrites an approval with Rejected for good |
| ApprovalTheorems.VersionGuardsAgainstSaves | internal/server/handlers_core_doc_engine.go:1205-1250 | a version-checked save with only saves in between is refused or meets the status it read |
| ApprovalTheorems.DecidedOrderIsReached | engines/approval.go:252-478 | the orders of those two runs are reached from a new draft |
| ApprovalTheorems.SentOrderIsReached | engines/approval.go:252-283 | by these submissions |
| ApprovalTheorems.DeciderHasTheSlabsRole | engines/approval.go:447-458 | without full access the decider holds the role of the one slab of the amount and is at the document's location |
| ApprovalDesk.Desk.SentSinceDecision | engines/approval.go:323-338 | whether the user sent or changed the round after the last decision |
| ApprovalDesk.Desk.CheckDecision | engines/approval.go:380-459 | the refusals of a decision in their order, none exactly when it may go through |
| ApprovalDesk.Desk.SubmitForApproval | engines/approval.go:252-283 | exactly a draft with a matching slab and passed checks is submitted: the status, then the log row, wherever the call stops |
| ApprovalDesk.Desk.DecideApproval | engines/approval.go:380-478 | each refusal exactly when the policy, the row and the log say so, in their order, and nothing changes; else status and log row, and the round is closed |
| ApprovalDesk.Desk.SaveDocument | internal/server/handlers_core_doc_engine.go:1178-1290 | a save records its editor, is refused at another version, cannot set a decided status, and sends an approved document back, wherever the call stops |
| ApprovalDesk.Desk.ResetToPendingOnEdit | engines/approval.go:666-675 | the document becomes pending, then the Modified row is written, wherever the call stops |
| TokenText.EscapeRoundTrip | engines/auth.go:171 | unescaping an escaped value gives it back, for every byte string |
| TokenText.EscapedIsInert | engines/auth.go:151-171 | an escaped value holds no separator |
| TokenText.Base64RoundTrip | engines/auth.go:176-181 | decoding the URL-safe base64 of a text gives it back |
| Tokens.PlainFieldsNeedNoEscape | engines/auth.go:235-281 | numbers and ids printed without escaping are their own escape |
| Tokens.ParseOfSigned | engines/auth.go:293-357 | a signed claim list reads as exactly its claims if a ring key signs it the same |
| Tokens.TokenReadsBackExactlyWhen | engines/auth.go:293-357 | it reads back exactly when a ring key signs it the same and it has not expired, with every claim and no other |
| TokenAnswers.AcceptedTokenIsSigned | engines/auth.go:293-357 | whatever text is accepted carries the MAC of its first part under a ring key, decodes, and names an expiry not yet passed |
| TokenAnswers.SignedTokenIsAcceptedExactlyWhen | engines/auth.go:202-357 | a signed claim list is accepted exactly when some ring key gives it the same MAC and its time has not passed |
| Tokens.EveryKindReadsBack | engines/auth.go:235-281 | every kind of token gives back what it was made with, under any key still in the ring |
| TokenAnswers.TokenSaysItsHolder | engines/auth.go:235-281 | an unexpired token of each kind says its holder's fields under their names, its key id and its expiry |
| Tokens.SessionKeepsItsRole | engines/auth.go:151-171 | no value of a session can set its role or add a purpose |
| TokenRing.VerifyClaimSignature | engines/auth.go:202-211 | true exactly when some ring key signs the claims the same |
| TokenRing.ParseToken | engines/auth.go:293-357 | the loop over pairs gives the specified claims or none |
| TokenRing.LoadJWTKeyring | engines/auth.go:111-150 | every numbered key and the legacy one verify, the highest number signs |
| TokenAnswers.EntryIsKeyExactlyWhen | engines/auth.go:122-138 | an environment entry is a key exactly when it is JWT_SECRET_<n>=<secret> with a positive number and a secret |
| TokenAnswers.FoundAreTheEntries | engines/auth.go:117-138 | the keys found are exactly those of the entries |
| TokenRing.RotationKeepsTokens | engines/auth.go:82-150 | a token signed before a rotation reads back after it |
| MigrationNames.CompareMigrationNames | db/migrate.go:395-445 | the two-index loop compares the names' token lists |
| MigrationNames.CompareIsLexicographic | db/migrate.go:395-445 | negative, zero, positive are before, same tokens, after in lexicographic order |
| MigrationNames.NumbersGoByValue | db/migrate.go:380-445 | after the same text without digits the smaller number comes first, however many digits either has |
| MigrationNames.CompareIsAntisymmetric | db/migrate.go:395-445 | swapping the names flips the sign |
| MigrationNames.CompareIsTransitive | db/migrate.go:395-445 | the order is transitive |
| MigrationNames.MigrationFileNames | db/migrate.go:354-368 | exactly the .sql entries, in that order |
| Migrations.RunAppliesPendingPrefix | db/migrate.go:54-138 | a run applies and records a prefix of what is pending, all of it when it reports success |
| Migrations.EffectsAtMostOnce | db/migrate.go:54-138 | over failed and repeated runs each file's effect is in the schema at most once, and the ledger names exactly the files applied and those baselined |
| Migrations.StepAppliesOnceExactlyWhenUnrecorded | db/migrate.go:78-135 | of several migrators, a file one of them runs is applied once exactly when nobody has recorded it by then |
| Migrations.FleetAppliesOnce | db/migrate.go:78-135 | over every interleaving in which that holds ledger and effects agree |
| Migrations.TwoMigratorsApplyTwice | db/migrate.go:78-135 | two migrators that apply one file twice |
| Migrations.PendingIsWhatRuns | db/migrate.go:316-332 | what is named pending is what a run without failures applies, and then nothing is pending |
| Migrations.RetryResumesAtFailure | db/migrate.go:54-138 | after any failed run a clean one completes exactly the original list |
| Migrations.RunFollowsNameOrder | db/migrate.go:54-138 | a run's files go in name order |
| Migrations.Database.ApplyPendingMigrations | db/migrate.go:54-138 | ledger and schema after a run, and one result per file up to the first failure |
| Migrations.Database.PendingMigrations | db/migrate.go:316-332 | the unrecorded files in order |
| Code128Table.PatternIsGood | engines/code128.go:36-60 | every symbol is six widths of one to four modules, eleven together |
| Code128Table.SymbolOfPattern | engines/code128.go:36-60 | no pattern stands for two symbols |
| Code128.EncodeCode128B | engines/code128.go:76-115 | refused exactly for empty or unprintable text, else start, data, checksum and stop |
| Code128.BarcodeShape | engines/code128.go:68-115 | n characters give an odd number of widths and 11(n + 2) + 13 modules |
| Code128.DecodeUndoesEncode | engines/code128.go:76-115 | reading a barcode gives back what was encoded |
| Code128.SwapChangesChecksum | engines/code128.go:88-93 | exchanging unequal neighbours always changes the checksum |
| Code128.SubstitutionChangesChecksumExactlyWhen | engines/code128.go:88-93 | a single substitution changes it exactly when the position is not a multiple of 103 |
| Code128.DrawBars | engines/code128.go:121-148 | each bar starts where the widths before it end, after the quiet zone |
| Code128.BarsKeepApart | engines/code128.go:121-148 | bars never touch and both quiet zones are kept |
| AmountWords.IntegerWordsRoundTrip | engines/amount_words.go:63-94 | a reader of the words gives the number back, crores of crores included |
| AmountWords.AmountRoundTrip | engines/amount_words.go:105-117 | the printed amount determines sign, rupees and paise |
| EnglishWords.MeaningOfIsDictionary | engines/amount_words.go:21-32 | the engine's own words can all be told apart |
| EnglishWords.IntegerWordsInjective | engines/amount_words.go:63-94 | no two numbers print alike |
| EnglishWords.AmountTextInjective | engines/amount_words.go:105-117 | no two amounts print alike |
| AmountPrinter.TwoDigitWords | engines/amount_words.go:36-44 | the words of a number below one hundred |
| AmountPrinter.ThreeDigitWords | engines/amount_words.go:47-56 | the words of a number below one thousand |
| AmountPrinter.IntegerWords | engines/amount_words.go:63-94 | the parts appended from crore down make the specified words |
| AmountPrinter.AmountInWords | engines/amount_words.go:105-117 | the whole text, rounded to the nearest paisa |
| LiveState.KeysTellUsersApart | engines/auth_livestate.go:115 | without a bar in tenant ids no two users share a key |
| LiveState.AnswersAreFresh | engines/auth_livestate.go:93-189 | every answer is the row as it stood no longer ago than the cache time plus one gap; no empty role; at most 10000 entries |
| LiveState.InvalidationHoldsExactlyWhenNothingInFlight | engines/auth_livestate.go:200-204 | dropping an entry lasts exactly when no earlier read is still to be stored |
| LiveState.DroppedRoleIsAnsweredAgain | engines/auth_livestate.go:93-204 | a run in which a dropped role is answered from the cache again |
| LiveState.TenantDropIsExact | engines/auth_livestate.go:208-217 | dropping a tenant drops its users and no others |
| LiveState.AuthStateCache.Lookup | engines/auth_livestate.go:115-130 | a hit exactly when there is an entry younger than the cache time; a rejected user is none |
| LiveState.AuthStateCache.Settle | engines/auth_livestate.go:156-175 | stores what was read, a rejection for a missing row or empty role |
| LiveState.AuthStateCache.CacheAuthState | engines/auth_livestate.go:179-189 | stores the entry and, of the others, keeps all unless the cache was full, then none |
| LiveState.AuthStateCache.InvalidateLiveUserState | engines/auth_livestate.go:200-204 | drops the user's entry |
| LiveState.AuthStateCache.InvalidateLiveUserStatesForTenant | engines/auth_livestate.go:208-217 | drops exactly the keys with the tenant's prefix |
| Backflush.FindBest | engines/backflush_rules.go:334-345 | the loop's winner of each group |
| Backflush.BestIsMinimum | engines/backflush_rules.go:334-345 | each group's rule beats every other candidate: by its more specific basis, then as the store's own, then by priority, then by id; a group is missing exactly when it has no candidate |
| Backflush.BestIgnoresRuleOrder | engines/backflush_rules.go:334-345 | whatever order the rules arrive in |
| Backflush.ApplyConsumptionOverride | engines/backflush_rules.go:379-414 | a change is refused exactly when the rule fixes the component, offers no such choice, allows no leaving out, or asks for a reason not given; else the line shows it |
| Backflush.ChoicesAreOfferedOnce | engines/backflush_rules.go:305-320 | a group's offered components are those its rules name, all different, in the order of their names |
| Backflush.ChoiceIgnoresOrder | engines/backflush_rules.go:393-406 | so a change picks the same one in whatever order they are offered |
| Backflush.EveryOverrideIsApplied | engines/backflush_rules.go:296-377 | when the call succeeds every override in force shows on a line of its key |
| Backflush.EveryLineIsAccountedFor | engines/backflush_rules.go:325-372 | every line is the best rule's of a packed sold line, in its quantity per unit, as changed by the override in force |
| BackflushAnswers.EveryPackedGroupIsConsumed | engines/backflush_rules.go:325-372 | every group of rules that packs a sold line has its line in the result |
| BackflushAnswers.LinesAreCounted | engines/backflush_rules.go:325-372 | and there are no more lines than groups that pack sold lines |
| BackflushAnswers.RefusedExactlyWhen | engines/backflush_rules.go:296-377 | a sale has no consumption exactly when the store has rules and a change has nothing to change or is refused by the best rule of its group |
| Backflush.EveryOverrideInForceExactlyWhen | engines/backflush_rules.go:296-377 | when the call succeeds every override sent is the one in force for its key and shows on a line exactly when the store has rules (or none was sent) and no two different ones share a key |
| Backflush.NoRulesDropEveryOverride | engines/backflush_rules.go:300-303 | without rules any override is accepted and changes nothing |
| Backflush.RepeatedKeyDropsTheFirst | engines/backflush_rules.go:321-324 | a sale in which the second override of a key replaces the first |
| Backflush.KeysTellLinesApart | engines/backflush_rules.go:321-323 | without a bar in SKUs a key tells item and group apart |
| Backflush.BarMixesLines | engines/backflush_rules.go:321-323 | with one it does not |
| BackflushSale.ResolveSaleConsumption | engines/backflush_rules.go:296-377 | the sale's lines in order, each with its group's choices by name, or refused |
| BackflushSale.ConsumptionComponentTotals | engines/backflush_rules.go:417-425 | what the lines consume of each component |
| BackflushSale.SplitConsumption | engines/backflush_rules.go:488-499 | the strict and the lenient quantities |
| BackflushSale.StrictAndLenientMakeTheTotals | engines/backflush_rules.go:488-499 | together they are the totals |
| BackflushAnswers.StrictIsTheBlockingLines | engines/backflush_rules.go:488-499 | strict is what the blocking lines consume, and offline nothing |
| BackflushSale.ComponentActions | engines/backflush_rules.go:435-444 | the loop keeps a component's strongest action |
| BackflushSale.StrongestOfIsStrongest | engines/backflush_rules.go:435-444 | which is one of its lines' actions and at least each of them |
| BackflushSale.CheckConsumptionStock | engines/backflush_rules.go:430-463 | exactly the components held short, in text order, each once with its strongest action |
| BackflushSale.SaleIsBlocked | engines/backflush_rules.go:466-474 | refused exactly when short of a component some line may not go short of |
| Bundles.VirtualBundleATSAtLocation | engines/bundles.go:183-199 | the running minimum over components |
| Bundles.VirtualATSIsLargest | engines/bundles.go:183-199 | it is the largest number of bundles every component covers |
| Bundles.ComputeNetworkATS | engines/bundles.go:205-248 | the sum over places |
| Bundles.NetworkWithinEveryRatio | engines/bundles.go:205-248 | never more than any component's total allows |
| Bundles.ExpandLine | engines/bundles.go:300-339 | one bundle line's parts, together worth what it was sold for |
| Bundles.ExpansionKeepsValue | engines/bundles.go:300-339 | in every pricing mode the parts keep the line's value |
| Bundles.ExpansionKeepsQuantities | engines/bundles.go:319-335 | every part in its quantity per bundle, once |
| Bundles.ExpandSalesOrderBundles | engines/bundles.go:289-343 | an order is refused for a bundle line without quantity, or is each line's expansion in order with a summary per bundle line |
| Bundles.ExpandedKeepsValue | engines/bundles.go:289-343 | the expanded order is worth what it was sold for |
| Bundles.ExpandedKeepsQuantities | engines/bundles.go:289-343 | and ships of every SKU exactly what was ordered, parts times bundles |
| Bundles.SummariesMakeTheSale | engines/bundles.go:305-340 | summaries and untouched lines together make what the order was sold for |
| BundleAssembly.MoveAllIs | engines/bundles.go:413-440 | movements of different SKUs go through exactly when each is allowed, and move exactly their buckets |
| BundleAssembly.DisassemblyGoesThroughExactlyWhen | engines/bundles.go:386-440 | after assembly the bundle can be taken apart exactly when its bucket was not oversold |
| BundleAssembly.OversoldBundleStaysTogether | engines/bundles.go:386-440 | stock on which an assembled bundle cannot be taken apart |
| BundleAssembly.DisassembleUndoesAssemble | engines/bundles.go:386-440 | taking apart gives every bucket back |
| BundleAssembly.StockRoom.PostBundleAssembly | engines/bundles.go:345-445 | all movements or none; a repeated request key changes nothing |

## Left out

- HTTP, webhooks, schedulers, SQL text, JSON and file-system behaviour: steps are modelled by their effect on tables and files.
- Cryptography, gzip and AES: functions with the stated hypotheses; key files and environment loading are not modelled beyond the token key ring.
- AuditStore.Store.VerifyAuditEvidence: does not model the coverage statement and the messages in the report, which are worded from its counts.
- Audit: a restore whose commit is misreported removes nothing and is not a step of its own.
- Audit: two live rows with one id (only the row number conflicts here), NULL against empty text in a restored row, and file permissions.
- AuditTampering.CheckpointTextDetermines: is for texts without bars, the signed line being joined plainly.
- AssetLedger.RunKeepsInv: does not model the location and custodian a transfer writes, nor assets capitalised under an older plan.
- Asset register, catch-up reporting by tenant, and approved backdated postings: only the period check of an entry is modelled.
- BankStore.Workbench.ReconcileBankStatement: is a pass with nothing in between its reads and its writes; a pass that writes late is the machine's EvLatePair. It works in paise, so a gap that is 0.01 only up to floating-point error is decided exactly here.
- Bank workbench screens, candidate suggestions, notes, error codes and audit messages.
- Courier booking (AWB allocation), adapters and the wording of answers; a courier that acts some time after the request was sent.
- ApprovalTheorems.MakersNeverDecideTheirRound: is about one document; the hooks that run around a save or after a decision are not modelled.
- ApprovalDesk.Desk.SubmitForApproval, SaveDocument, ResetToPendingOnEdit: are one uninterrupted call each; what may come between their statements is the machine's.
- AccountingPeriods.PeriodBook.CreateAccountingPeriod, ApprovalRules.RuleTable.UpsertApprovalRule: are one uninterrupted call each; a write that comes late has its own exact condition.
- Token lifetimes and password handling; tokens minted before values were escaped.
- TokenRing.LoadJWTKeyring: two variables with the same number keep an unspecified order in the source; here the later one comes first.
- Migrations: checksums of applied files are not modelled.
- FormatIndianCurrency and amounts that are not finite.
- LiveState.AnswersAreFresh: store access and tenant status are read with the row; the tenant check is an input.
- BackflushSale.ResolveSaleConsumption: choices of the same name keep the order the rules name them in; the source leaves it open.
- Backflush: effective dates, aliases and item policy are inputs; stock-ledger writes and cost posting are not modelled.
- Bundles.VirtualATSIsLargest: is stated for availabilities below the largest integer, which the source uses as its marker for "none".
- Bundles: money is real numbers; stock ledger rows and document numbers of an assembly are not modelled.
- Loyalty, tills, e-invoicing, manufacturing, dashboards, connectors and the other engines.
