# AgenticPay: verified models of the escrow, the audit trail and three supporting algorithms

This project models five parts of AgenticPay in Dafny and proves what they keep over every run or every input.

* **Escrow and multisig contract** (`contracts/src/lib.rs`, with the module twins `escrow.rs`, `dispute.rs`,
  `multisig.rs`). `EscrowContract` and `MultisigContract` hold the entry points in the contract's own form: a class
  with the stored maps and counters, the reentrancy latch and the pause flag. Each method is proved equal to one step of
  the ledgers in `EscrowLedger` and `MultisigLedger`; `EscrowSafety` and `MultisigSafety` prove what all runs of those
  ledgers keep. `EscrowProvenance` and `MultisigProvenance` say who may call what and which accepted call stands behind
  every record and payment, `EscrowLog` that the published events account for the money, and `MultisigRejection` when a
  rejection finalises exactly the proposals that are out of reach.
  `ThresholdPolicy` and `ApprovalBitmaps` cover the tiered policies and the packed approval masks.
* **Audit trail** (`backend/src/audit`). `AuditChain` is the logger and the chain verifier, `AuditCoverage` which edits
  of a logged entry the verifier sees, `CanonicalJson` the canonical form of the hashed details, `Retention` the tiers
  and the archive store, `ArchivedChain` logging interleaved with retention sweeps, `Alerting` the folding of alerts,
  `AlertContent` what alerts say and which are kept, and `AlertRules` the order of the alert rules.
* **Refresh-token families** (`backend/src/auth/token-rotation.ts`). `TokenStore` is the table with its operations,
  `TokenFamilies` what their runs keep, `TokenReuse` when the reuse of a rotated token is noticed, and `TokenRotation`
  what every presented token is answered.
* **Calendar export** (`frontend/lib/generateICS.ts`). `IcsText`, `IcsFolding` and `IcsDocument` are the writer;
  `IcsReading` is a reader written from sections 3.1 and 3.3.11 of RFC 5545, and `IcsRoundTrip` shows that it recovers
  every usable event.
* **Redis Cluster slots** (`backend/src/cache/cluster-client.ts`). `Crc16` is the nibble-table checksum,
  `LinearRegister` and `CrcDivision` the polynomial division it stands for, `CrcLaws` and `CrcBursts` what it keeps
  apart, and `ClusterSlots` the hash tag and the slot.

`Primitives` holds the integer ranges and `Option`.

## How the code is read

* A Soroban call that panics leaves no trace: the host discards its writes. The methods take a snapshot and `Revert` to
  it. This decides `contracts/src/lib.rs:1109-1116`, where the `Expired` write is undone by the panic that follows.
* Integer overflow panics (`u64` counters, `i128` deposits), as `overflow-checks = true` in `contracts/Cargo.toml:23` demands.
* `require_auth` holds for the caller named in the call; `initialize` is the constructor.
* The ledger clock and `Date.now()` are parameters of the steps. Where a result needs the clock not to go back, it says
  so (`Clocked`).
* SHA-256, the text of timestamps, `JSON.stringify` and the order of keys are parameters. The order is any strict weak
  one: `localeCompare` calls canonically equivalent keys equal, so two different keys may tie. SHA-256 is only given its
  64-character output; no injectivity is assumed, and `Forged` names the two payloads that collide or the payload that
  hashes to the genesis value.
* Rates and widths follow the code: signer counts and thresholds are `u32`, a mask has 128 bits, an age in days is the
  unrounded quotient.
* The entries given to the chain verifier are objects, because `indexOf` compares references.
* Sorts are stable insertion sorts, as `Array.prototype.sort` is required to be stable.
* On code units the checksum uses 16-bit vectors, where shifting left and masking with `0xffff` are one operation.

## Where the code and its documentation differ

* The transition table of `contracts/src/security_properties.rs:38-51` is not the code's: `approve_work` goes straight
  from WorkSubmitted to Completed, `Verified` and `InProgress` are never reached, and a dispute can be raised in every
  status. `EscrowSafety.CallShape` states the moves that exist. A late dispute of a settled project moves no money.
* `contracts/src/lib.rs:1155-1156` says that a proposal is marked Rejected when the rejections make the threshold
  unreachable. The code counts rejections and looks at nothing else. `MultisigRejection.FinalisesExactly` gives, for
  every wallet and every record of votes, the two ways to miss the promise in numbers known before the call:
  rejections by removed signers and approvals by accounts that reject as well finalise too early, and signers listed
  twice too late. `StaleRejectionBlocks`, `WaveringApproverBlocks` and `RepeatedSignerStalls` are a run of each kind;
  the second needs neither an edited nor a repetitive signer list. For distinct, unedited signers and a threshold of at
  least two the promise holds exactly if nobody both approved and rejected the proposal (`UneditedWallets`).
* A wallet of threshold 1 needs two approvals, because the proposer's own approval is recorded without a threshold test
  (`Quorum`).
* `backend/src/audit/alerting.ts:205` says that the highest-severity matching rule is found, and lines 54-57 that the
  rules are ordered most-severe first. In the shipped list the high rule for suspicious entries stands before the critical
  rule for privileges: `AlertRules.ShippedRulesAreOvertaken` is an event that both match. `FirstIsMostSevereExactly` and
  `OrderGuaranteesExactly` say for which lists the statement is true.
* `backend/src/audit/retention.ts:14` says purged entries leave cold storage too; the code only drops them from the hot
  store. `backend/src/audit/retention.ts:19-21` says that the tamper evidence survives archival. What is left verifies
  exactly if only the newest entries were dropped: unless the hash is broken a drop before anything kept is always seen,
  and a dropped tail never is (`ArchivedChain.VerifiesExactlyWhenTailDropped`, with a run of each kind).
* `contracts/src/escrow.rs:337-338` says that validation keeps tiers from overlapping. An open tier overlaps every tier
  after it and shadows them, and the validator accepts such a policy. Tiers are pairwise disjoint, and the scan finds the
  tier with the greatest minimum, exactly when no tier but the last is open
  (`ThresholdPolicy.DisjointExactlyWhenOnlyLastOpen`, `ScanIsLookupExactlyWhen`).
* `backend/src/auth/token-rotation.ts:5` says that reuse of a rotated token revokes its family. It does exactly as long
  as no prune has run past one of the row's deadlines: `TokenReuse.ReuseEndsFamilyExactly`, with a failing run in
  `PrunedReplayGoesUnnoticed`.
* `revokeAllUserTokens` always reports zero tokens, because the families are revoked before the rows are counted
  (`TokenFamilies.SignOutReportsZero`).
* `frontend/lib/generateICS.ts:82` says that continuation lines leave 74 octets for content; the code counts the leading
  space twice, so they carry at most 73 (`IcsFolding.ContinuationContent`).
* `frontend/lib/generateICS.ts:29` says that `end` is ignored for all-day events; lines 114-116 use it when it is a valid
  date.
* `frontend/lib/generateICS.ts:18-19` says that invalid dates are skipped. That holds for the start; a default end past the
  last instant is still written (`IcsDocument.LateEndIsNoDate`).
* The id of a log entry is not hashed, and fields are hashed without separators: `AuditCoverage.UnseenEdits`.
* Years are written without padding, so a date has the eight digits of section 3.3.4 of RFC 5545 only for years 1000 to
  9999 (`IcsDocument.DateReadsBack`).

## Model

| member | source | states |
|---|---|---|
| EscrowContract.Contract.constructor | contracts/src/lib.rs:202-210 | a fresh contract: no projects, no receipts, unlocked, unpaused |
| EscrowContract.Contract.AcquireLock | contracts/src/lib.rs:163-175 | succeeds exactly when the latch was free, and leaves it taken |
| EscrowContract.Contract.CreateProject | contracts/src/lib.rs:271-324 | the whole new state and the id, or a panic with storage unchanged: paused, locked, or counter full |
| EscrowContract.Contract.BatchCreateProjects | contracts/src/lib.rs:333-389 | the loop with one counter write at the end leaves the state, events and ids of calling `create_project` once per input with deadline 0, or panics with nothing stored |
| EscrowContract.Contract.FundProject | contracts/src/lib.rs:397-433 | only the client, only in Created, only positive amounts and no `i128` overflow; Funded once the total reaches the amount |
| EscrowContract.Contract.SubmitWork | contracts/src/lib.rs:436-470 | only the freelancer of a funded project; stores the repository and the status |
| EscrowContract.Contract.ApproveWork | contracts/src/lib.rs:479-526 | zeroes the escrow, completes the project and issues one receipt for all it held, in one step or not at all |
| EscrowContract.Contract.RecordReceipt | contracts/src/lib.rs:528-561 | the next receipt id with project, amount, parties and time; fails when the counter is full |
| EscrowContract.Contract.RaiseDispute | contracts/src/lib.rs:564-593 | either party, in any status; only the status changes |
| EscrowContract.Contract.ResolveDispute | contracts/src/lib.rs:602-645 | only the stored admin on a disputed project; the escrow is emptied and the verdict stored |
| EscrowContract.Contract.CheckDeadline | contracts/src/lib.rs:660-711 | cancels and empties an overdue open project and answers true; otherwise answers false and changes nothing |
| EscrowContract.Contract.SetPaused | contracts/src/lib.rs:226-254 | only the admin, never while the latch is taken |
| EscrowSafety.CreateEachAppends | contracts/src/lib.rs:333-389 | creating one by one succeeds exactly when the counter has room for all, and appends one fresh project per input under consecutive ids, touching nothing else |
| EscrowSafety.CallShape | contracts/src/lib.rs:397-711 | from every reachable state a call that names a project changes nothing, moves that project along one of the listed status edges, or pays it out with one receipt |
| EscrowSafety.StepKeepsInv | contracts/src/lib.rs:226-711 | every call keeps the storage invariant |
| EscrowSafety.RunKeepsInv | contracts/src/lib.rs:226-711 | in every run ids are exactly 1..count, the latch is free between calls, InProgress and Verified are never stored, Completed and Cancelled hold nothing, Funded covers the amount, and no project has two receipts |
| EscrowSafety.Conservation | contracts/src/lib.rs:397-711 | in every run, for the contract and for each single project: all accepted deposits equal what is held, receipted, resolved and refunded; receipts equal what approvals released |
| EscrowSafety.HeldOfOne | contracts/src/lib.rs:397-433 | the account of a single project in that law is its stored balance |
| EscrowSafety.NeverBack | contracts/src/lib.rs:271-711 | between any two moments of any run a project keeps its parties and terms and never returns to an earlier stage |
| EscrowSafety.PayoutSettles | contracts/src/lib.rs:479-711 | a payout takes the whole balance and settles the project; a settled project takes no deposit and pays nothing again |
| EscrowSafety.SettledForever | contracts/src/lib.rs:397-711 | settled stays settled over every further run, with no further deposit counted |
| EscrowSafety.OnePayout | contracts/src/lib.rs:479-711 | over every run at most one step pays out of a project, and it pays exactly all that was ever deposited into it |
| EscrowSafety.NothingOut | contracts/src/lib.rs:397-433 | until its payout a project holds everything deposited into it |
| EscrowSafety.SubmittedByFreelancer | contracts/src/lib.rs:436-470 | a project in WorkSubmitted got there by an accepted submission of its own freelancer |
| EscrowSafety.ReceiptNeedsBoth | contracts/src/lib.rs:436-561 | behind every receipt of every run stand an accepted submission by its recipient and, later, an accepted approval by its sender, at the receipt's time and for the amount paid out then |
| EscrowProvenance.AcceptedExactly | contracts/src/lib.rs:163-711 | in every reachable state a call is accepted exactly when caller, stage, pause flag, amount and counters allow it |
| EscrowProvenance.PausedExactly | contracts/src/lib.rs:226-254 | the contract is paused exactly when the administrator's last switch was on |
| EscrowProvenance.StageHasCause | contracts/src/lib.rs:271-711 | over every run, behind the stage of each project stands an accepted call that brought it there for good: Completed an approval by its client or a ruling of the administrator for the freelancer, Cancelled a ruling against or a check at or after a deadline that is set, Disputed one of its parties, WorkSubmitted its freelancer, Funded its client |
| EscrowProvenance.RulingCloses | contracts/src/lib.rs:602-645 | the administrator's ruling on any disputed project is accepted and stored as given, with nothing left in escrow |
| EscrowProvenance.ApprovalCloses | contracts/src/lib.rs:479-526 | the client's approval of submitted work is accepted, completes the project and empties it |
| EscrowProvenance.DeadlineCloses | contracts/src/lib.rs:660-711 | a check cancels and empties exactly the open projects whose set deadline has come, paused or not, and otherwise changes nothing |
| EscrowProvenance.TermsAreAsCreated | contracts/src/lib.rs:271-389 | every project has the parties, amount, description, deadline and creation time of the accepted call that created it; batches set no deadline |
| EscrowProvenance.RepoIsAsSubmitted | contracts/src/lib.rs:436-470 | the repository reference changes exactly by an allowed submission, to the one submitted |
| EscrowLog.StepSays | contracts/src/lib.rs:271-711 | every call publishes exactly the events its arguments and the records before it call for, and nothing when it is refused |
| EscrowLog.LogAccounts | contracts/src/lib.rs:397-711 | in every run the published deposits, releases and refunds add up to what was deposited, released and refunded |
| MultisigContract.Contains | contracts/src/lib.rs:1021-1029 | the flag-setting signer loop is membership |
| MultisigContract.Contract.CreateWallet | contracts/src/lib.rs:831-878 | at least two signers and a threshold between one and their number, or nothing stored |
| MultisigContract.Contract.AddSigner | contracts/src/lib.rs:893-932 | a current signer adds a new one at the end |
| MultisigContract.Contract.RemoveSigner | contracts/src/lib.rs:937-995 | removes the last occurrence of the signer, never below the threshold or below two |
| MultisigContract.Contract.CreateProposal | contracts/src/lib.rs:1001-1077 | the proposer is recorded as first approver; the expiry is the sum of now and the wallet timeout, or none |
| MultisigContract.Contract.Approve | contracts/src/lib.rs:1082-1149 | a signer who has not voted is appended; the proposal executes and publishes its payment at the threshold; past the expiry the call fails and even its Expired write is undone |
| MultisigContract.Contract.Reject | contracts/src/lib.rs:1157-1218 | a new rejection is appended; Rejected once rejections reach signers minus threshold plus one |
| MultisigContract.Contract.Cancel | contracts/src/lib.rs:1221-1268 | any signer of the wallet cancels a pending proposal |
| MultisigContract.Contract.CheckExpiry | contracts/src/lib.rs:1281-1312 | marks a pending overdue proposal Expired and answers true; otherwise nothing |
| MultisigSafety.RunKeepsInv | contracts/src/lib.rs:831-1312 | in every run wallets keep 1 <= threshold <= signers and at least two signers, approvals and rejections hold no repeats, Executed has exactly max(2, threshold) approvals and every other status fewer |
| MultisigSafety.DecidedForever | contracts/src/lib.rs:1082-1312 | a proposal that has left Pending never changes again, and its terms never change at all |
| MultisigSafety.PaidExactlyOnce | contracts/src/lib.rs:1125-1149 | in every run the payment event of a proposal is published once if it is Executed and never otherwise |
| MultisigSafety.ApprovalWasCast | contracts/src/lib.rs:1001-1149 | every recorded approver signed for the wallet at the moment of an accepted proposal or approval of its own |
| MultisigSafety.WhenExecuted | contracts/src/lib.rs:1105-1149 | an executed proposal was executed by an approval that ran before its expiry |
| MultisigSafety.ExecutionIsAuthorised | contracts/src/lib.rs:1082-1149 | an executed proposal has exactly quorum many distinct approvals, each cast by a signer of that moment, and executed in time |
| MultisigSafety.BlockingCount | contracts/src/lib.rs:1202-1204 | the rejection count reaches the blocking size exactly when too few distinct signers remain, counted with repeats and stale rejections |
| MultisigSafety.RejectionLaw | contracts/src/lib.rs:1157-1218 | for every signer list: a new rejection finalises the proposal if and only if the accounts that have not rejected, plus repeated entries, fall short of the threshold plus stale rejections |
| MultisigSafety.RejectedExactly | contracts/src/lib.rs:1157-1218 | over every run that never edits the wallet, with distinct signers, Rejected holds exactly when fewer than threshold signers have not rejected, whoever approved |
| MultisigProvenance.AcceptedExactly | contracts/src/lib.rs:831-1312 | in every reachable state a call is accepted exactly when membership, stage, expiry, pause flag, amount and counters allow it |
| MultisigProvenance.PausedExactly | contracts/src/lib.rs:226-254 | paused exactly when the administrator's last switch was on |
| MultisigProvenance.TermsAreAsProposed | contracts/src/lib.rs:1001-1077 | every proposal has the wallet, amount, recipient and description of the accepted call that proposed it, made by its first approver, and expires the wallet's timeout later |
| MultisigProvenance.StepSays | contracts/src/lib.rs:831-1312 | every call publishes exactly the events its arguments and the records before it call for |
| MultisigProvenance.LogIsTrue | contracts/src/lib.rs:1125-1312 | everything ever published stays true of the records: a payment names the wallet, amount and recipient of its executed proposal, and a rejection, cancellation or expiry its proposal's status |
| MultisigProvenance.PaymentIsAuthorised | contracts/src/lib.rs:1001-1149 | behind every published payment stand an accepted proposal of exactly that wallet, amount and recipient, quorum many distinct approvals by signers of their moment, and an approval in time that executed it |
| MultisigProvenance.DecisionHasCause | contracts/src/lib.rs:1082-1312 | behind every decided proposal stands one accepted step that decided it as it is: a signer's approval, rejection or cancellation, or a check at or after its expiry |
| MultisigProvenance.CancelCancels | contracts/src/lib.rs:1221-1268 | a signer's cancellation of a pending proposal is accepted and stored, and nothing else in it changes |
| MultisigProvenance.ExpiryExpires | contracts/src/lib.rs:1281-1312 | a check marks exactly the pending proposals whose expiry has come, paused or not |
| MultisigProvenance.EditsAreExact | contracts/src/lib.rs:893-995 | an added signer goes to the end of the list, and a removed one leaves its last place |
| MultisigProvenance.RemovingUndoesAdding | contracts/src/lib.rs:893-995 | adding a signer and removing it again restores the wallet |
| MultisigProvenance.SignerHasCause | contracts/src/lib.rs:831-995 | every signer of every run was named at the wallet's creation or added by an account that signed for it then |
| MultisigProvenance.WalletIsAsCreated | contracts/src/lib.rs:831-878 | every wallet has the threshold and timeout of the accepted call that created it |
| MultisigProvenance.NewWalletIsCreated | contracts/src/lib.rs:831-878 | a new wallet has exactly the signers given |
| MultisigRejection.ReachableMeans | contracts/src/lib.rs:1082-1149 | recorded approvers and signers who have not rejected are quorum many exactly when some of those signers, approving in some order, execute the proposal |
| MultisigRejection.FinalisesExactly | contracts/src/lib.rs:1157-1218 | for every new rejection, from the records before the call: when it finalises, when it finalises a proposal that is still within reach, and when it leaves one open that is not |
| MultisigRejection.UneditedWallets | contracts/src/lib.rs:1157-1218 | over every run with distinct, unedited signers: a Rejected proposal is out of reach exactly when nobody both approved and rejected it or the threshold is 1; a Pending one is within reach unless the threshold is 1 and all signers left have approved |
| MultisigRejection.StaleRejectionBlocks | contracts/src/lib.rs:1155-1218 | a run of threshold 2 in which a removed signer's rejection finalises a proposal that another signer could have executed one step earlier |
| MultisigRejection.WaveringApproverBlocks | contracts/src/lib.rs:1155-1218 | the same for three distinct, unedited signers, when the proposer rejects as well |
| MultisigRejection.RepeatedSignerStalls | contracts/src/lib.rs:1155-1218 | a run in which a signer listed twice keeps an unreachable proposal Pending |
| ApprovalBitmaps.ApprovalBitmap.Approve | contracts/src/storage.rs:108-112 | sets the signer's bit and no other; a position of 128 or more is ignored |
| ApprovalBitmaps.ApprovalBitmap.Reject | contracts/src/storage.rs:114-118 | the same on the rejection mask |
| ApprovalBitmaps.WithBitSets | contracts/src/storage.rs:94-118 | after setting bit i, bit j reads as before or j is i and below 128 |
| ApprovalBitmaps.AgreeingCounts | contracts/src/storage.rs:120-127 | a mask that agrees with a list of distinct voters has as many ones as the list has entries |
| ApprovalBitmaps.PushAgrees | contracts/src/storage.rs:108-118 | mask and list stay in agreement after a vote exactly when the signer's position is below 128 |
| ApprovalBitmaps.BitmapAgrees | contracts/src/storage.rs:77-127 | for at most 128 distinct signers any votes in any order leave masks with the members and the counts of the lists |
| ThresholdPolicy.GetRequiredSigners | contracts/src/escrow.rs:349-366 | the first tier that covers the amount, else the default; at least one on a validated policy |
| ThresholdPolicy.AnswerIsTheTiers | contracts/src/escrow.rs:349-366 | the answer is the number of signers of the first tier that covers the amount, or the default if none does |
| ThresholdPolicy.TierBounds | contracts/src/escrow.rs:353-358 | both ends of a tier are included, and without a maximum there is no upper end |
| ThresholdPolicy.ValidateThresholdPolicy | contracts/src/escrow.rs:374-419 | the neighbour-by-neighbour loop accepts exactly the well-formed policies |
| ThresholdPolicy.BoundedTiersAreDisjoint | contracts/src/escrow.rs:374-419 | in a validated policy a bounded tier shares no amount with any later tier |
| ThresholdPolicy.DisjointExactlyWhenOnlyLastOpen | contracts/src/escrow.rs:374-419 | in a validated policy no amount falls into two tiers if and only if no tier but the last is open |
| ThresholdPolicy.ScanIsLookup | contracts/src/escrow.rs:349-366 | with only the last tier open, the scan is the tier with the greatest minimum not above the amount |
| ThresholdPolicy.ScanIsLookupExactlyWhen | contracts/src/escrow.rs:349-419 | on a validated policy the two agree for every amount if and only if no tier but the last is open |
| CanonicalJson.SortKeepsDetails | backend/src/audit/immutable-logger.ts:25-33 | sorting keeps every value under its key, at every depth, whatever the comparison does |
| CanonicalJson.SortIsInOrder | backend/src/audit/immutable-logger.ts:28-30 | no sorted key should come before an earlier one |
| CanonicalJson.SameDetailsSortAlike | backend/src/audit/immutable-logger.ts:21-33 | details that differ only in the order of keys at any depth have one canonical form if no keys of one object tie |
| CanonicalJson.SortAlikeIsSameDetails | backend/src/audit/immutable-logger.ts:21-33 | details that share a canonical form are equal up to key order, ties or not |
| CanonicalJson.OrderIsForgottenExactly | backend/src/audit/immutable-logger.ts:21-33 | all orders of a value's keys share one canonical form if and only if no two keys of one of its objects tie |
| CanonicalJson.CanonicalExactly | backend/src/audit/immutable-logger.ts:21-33 | where no keys tie, two details have the same canonical form if and only if they are equal up to key order |
| CanonicalJson.SortIsIdempotent | backend/src/audit/immutable-logger.ts:25-33 | sorting a canonical form changes nothing, ties or not |
| AuditChain.VerifyAuditChain | backend/src/audit/chain-verifier.ts:17-58 | valid exactly for chains from genesis with correct hashes; otherwise the report names the first broken entry and both values |
| AuditChain.CheckedCountsLinks | backend/src/audit/chain-verifier.ts:17-58 | the reported count never exceeds the number of entries before the break, and equals it exactly when the broken object is not listed before |
| AuditChain.ImmutableAuditLogger.Log | backend/src/audit/immutable-logger.ts:60-101 | appends one entry linked to the newest hash; a chain stays a chain |
| AuditChain.ChainSplits | backend/src/audit/chain-verifier.ts:17-58 | a chain may be cut anywhere and resumed from the hash before the cut, and only so |
| AuditChain.HeadFixesHistory | backend/src/audit/immutable-logger.ts:35-52 | two verified chains with the same last hash have the same length and the same hashed payloads, or exhibit a collision or a payload that hashes to genesis |
| AuditCoverage.EditsAreSeenExactly | backend/src/audit/immutable-logger.ts:35-52 | an edit that leaves the stored hashes alone goes unnoticed if timestamp, actor, action, resource and sorted details run together to the same text, and otherwise only by a collision |
| AuditCoverage.TextIsCovered | backend/src/audit/immutable-logger.ts:35-52 | another actor, action or resource alone is seen unless the hash collides |
| AuditCoverage.TimeAndDetailsAreCovered | backend/src/audit/immutable-logger.ts:35-52 | so are another timestamp and details that differ in more than key order, given texts that tell them apart |
| AuditCoverage.LinksAreCovered | backend/src/audit/chain-verifier.ts:17-58 | a changed hash or previous hash always breaks the chain |
| AuditCoverage.UnseenEdits | backend/src/audit/immutable-logger.ts:35-52 | a changed id, and text moved across the border of actor and action or of action and resource, are never seen |
| AuditCoverage.EntryTellsInput | backend/src/audit/immutable-logger.ts:60-101 | a logged entry has the id, action, resource, actor and details given, with `system` and an empty object as defaults |
| AuditCoverage.EntryContinues | backend/src/audit/immutable-logger.ts:68-68 | it continues from the store's newest hash, else from the newest in memory, else from genesis |
| AuditCoverage.GenesisIsZeros | backend/src/audit/immutable-logger.ts:3-3 | the genesis value is 64 zeros |
| Retention.OlderTier | backend/src/audit/retention.ts:69-74 | an older entry is never in a younger tier |
| Retention.TiersByAge | backend/src/audit/retention.ts:69-74 | in milliseconds, both horizons included: purged from the delete horizon, archived from the archive horizon, hot before |
| Retention.PlanRetention | backend/src/audit/retention.ts:83-96 | the three arrays are the three tiers in input order |
| Retention.TiersCountAll | backend/src/audit/retention.ts:83-96 | every entry is in exactly one tier |
| Retention.TiersAreContiguous | backend/src/audit/retention.ts:83-96 | a log in time order is its purge tier, then its archive tier, then its hot tier |
| Retention.AuditArchiveStore.WriteArchive | backend/src/audit/retention.ts:131-162 | a new file with the batch in time order and its manifest, or nothing for an empty batch or a taken name; older files are never changed |
| Retention.ManifestSealsFile | backend/src/audit/retention.ts:136-152 | the manifest of a new file gives its name, entry count, size, time range, the chain hashes at both ends and the digest of its contents |
| Retention.ArchiveReadsBack | backend/src/audit/retention.ts:143-192 | reading a file line by line gives back the lines of its entries in order |
| Retention.SortedStays | backend/src/audit/retention.ts:131-140 | a batch already in time order is archived as it stands |
| Retention.EnforceRetention | backend/src/audit/retention.ts:210-240 | the hot entries that remain, the file written and its id, and each count as the size of its tier |
| ArchivedChain.RunKeepsInv | backend/src/audit/retention.ts:210-240 | over every interleaving of log writes and sweeps with a clock that does not go back: evictions in order, then the hot store, are the whole verified log, and the files are the filed evictions with true manifests |
| ArchivedChain.ArchivesKeepTheChain | backend/src/audit/retention.ts:16-21 | while nothing was dropped, all archives then the hot store are the full history, each manifest begins where the one before ended, and the hot store verifies from the last archived hash |
| ArchivedChain.VerifiesExactlyWhenTailDropped | backend/src/audit/retention.ts:16-21 | after every run archives and hot store verify from genesis if only the newest entries were dropped, and otherwise only by a break of the hash; they are the whole log exactly if nothing was dropped |
| ArchivedChain.DroppedTailIsUnnoticed | backend/src/audit/retention.ts:210-240 | a run in which the only entry is dropped and what is left still verifies |
| ArchivedChain.DroppedHeadIsNoticed | backend/src/audit/retention.ts:210-240 | a run in which the first of two entries is dropped and the other no longer verifies from genesis |
| Alerting.AuditAlerter.Dispatch | backend/src/audit/alerting.ts:221-236 | nothing below the threshold; otherwise the folded alert, and a page exactly when it is new |
| Alerting.AuditAlerter.Dedupe | backend/src/audit/alerting.ts:238-274 | the first active alert of rule, actor and resource is extended in place; otherwise a new one goes in front and the list is cut |
| Alerting.OpensMeans | backend/src/audit/alerting.ts:238-274 | an event opens a burst exactly when no earlier event of its rule, actor and resource lies within the window |
| Alerting.BurstsSplit | backend/src/audit/alerting.ts:238-274 | bursts cut the times of a key into runs with inner gaps within the window and outer gaps beyond it |
| Alerting.BurstsAreTheOnlySplit | backend/src/audit/alerting.ts:238-274 | no other cut has that property |
| Alerting.AlertsAreBursts | backend/src/audit/alerting.ts:221-274 | with at most `maxRecentAlerts` bursts, the alerts of every key are exactly its bursts, occurrences add up to the alertable events and one page went out per burst |
| Alerting.ExactlyUpToMax | backend/src/audit/alerting.ts:221-274 | the alerts are exactly the bursts if and only if the stream has at most `maxRecentAlerts` of them |
| Alerting.RetainsAtMostMax | backend/src/audit/alerting.ts:271-272 | the list never exceeds its limit |
| AlertContent.AlertableExactly | backend/src/audit/alerting.ts:206-214 | an event is alertable exactly if the first rule that matches it is at least as severe as the threshold, inclusive |
| AlertContent.SeveritiesRise | backend/src/audit/alerting.ts:22-28 | the severities are in their order |
| AlertContent.AlertSaysItsOpening | backend/src/audit/alerting.ts:253-269 | in every stream a retained alert has the rule, severity, parties, time and id of the event that opened it |
| AlertContent.OldestAreDropped | backend/src/audit/alerting.ts:271-272 | of too many alerts those opened first are dropped |
| AlertContent.RetainedNewestFirst | backend/src/audit/alerting.ts:271-272 | in every stream the list runs from the alert opened last to the one opened first |
| AlertRules.FirstIsMostSevereExactly | backend/src/audit/alerting.ts:205-208 | the first matching rule is the most severe one for every event if and only if, wherever a rule and a more severe later one both match, a rule before them matches too |
| AlertRules.OrderGuaranteesExactly | backend/src/audit/alerting.ts:54-57 | the severities alone guarantee it, whatever the rules match, if and only if they never rise along the list |
| AlertRules.ShippedRulesAreOvertaken | backend/src/audit/alerting.ts:58-117 | an event that matches a critical rule of the shipped list is classified by the high rule before it, and an alerter set to critical stays silent |
| TokenStore.TokenService.IssueTokenFamily | backend/src/auth/token-rotation.ts:87-122 | one new unrevoked row with both deadlines, or nothing when the token hash exists |
| TokenStore.TokenService.RotateRefreshToken | backend/src/auth/token-rotation.ts:137-210 | every branch: unknown, reused, blacklisted, expired, or a new row in the family with the old one revoked |
| TokenStore.TokenService.RevokeTokenFamily | backend/src/auth/token-rotation.ts:56-74 | every row of the family is revoked, and blacklisted when Redis answers |
| TokenStore.TokenService.RevokeToken | backend/src/auth/token-rotation.ts:213-231 | true exactly when an unrevoked row was revoked |
| TokenStore.TokenService.RevokeAllUserTokens | backend/src/auth/token-rotation.ts:234-259 | all live families of the user are revoked one after the other, then the remaining rows, which are counted |
| TokenStore.TokenService.ListUserTokenFamilies | backend/src/auth/token-rotation.ts:262-282 | live tokens by last use, one per family; nothing is filtered out when families have one live token |
| TokenStore.TokenService.PruneExpiredTokens | backend/src/auth/token-rotation.ts:285-296 | removes exactly the rows past a deadline and counts them |
| TokenStore.FirstOfEachCovers | backend/src/auth/token-rotation.ts:262-282 | the list shows every family once and only its own tokens |
| TokenFamilies.FamiliesAreLines | backend/src/auth/token-rotation.ts:56-296 | in every run a family has at most one unrevoked token and it is the newest row; a blacklisted family has none |
| TokenFamilies.LineHasOneLive | backend/src/auth/token-rotation.ts:262-282 | so the family filter of the session list never drops a token |
| TokenFamilies.LiveIsNewest | backend/src/auth/token-rotation.ts:137-210 | the unrevoked token is the newest one ever created in its family, pruned rows included |
| TokenFamilies.DeadForever | backend/src/auth/token-rotation.ts:56-296 | a family without an unrevoked token never gets one again |
| TokenFamilies.ReplayEndsFamily | backend/src/auth/token-rotation.ts:149-162 | once a revoked token is presented no rotation of its family ever succeeds |
| TokenFamilies.RowsKeepDeadline | backend/src/auth/token-rotation.ts:87-210 | however often a family rotates, all its rows carry the absolute deadline of its issue |
| TokenFamilies.RowsKeepOwner | backend/src/auth/token-rotation.ts:87-210 | however often a family rotates, its rows belong to the user and tenant it was issued to |
| TokenFamilies.NoRotationAfterDeadline | backend/src/auth/token-rotation.ts:167-173 | no rotation succeeds after issue time plus absolute lifetime |
| TokenFamilies.BlacklistNeverDecides | backend/src/auth/token-rotation.ts:41-54 | in a sequential run a reported family has no live token, so Redis being up or down never changes a rotation |
| TokenFamilies.SignOutIsExact | backend/src/auth/token-rotation.ts:234-259 | afterwards the user has no unrevoked token and no row of anyone else has changed |
| TokenFamilies.SignOutReportsZero | backend/src/auth/token-rotation.ts:234-259 | the count that signing out returns is always zero |
| TokenReuse.StoredExactly | backend/src/auth/token-rotation.ts:285-296 | over every run with fresh token hashes, the row created by step i is stored if and only if no later prune ran past one of its deadlines |
| TokenReuse.ReuseEndsFamilyExactly | backend/src/auth/token-rotation.ts:137-162 | presenting a superseded token revokes its family if and only if its row is still stored; otherwise the answer is `not_found` and nothing changes |
| TokenReuse.RowDeadlines | backend/src/auth/token-rotation.ts:87-210 | the two deadlines of a created row, from the call that created it and the issue of its family |
| TokenRotation.AnswerExactly | backend/src/auth/token-rotation.ts:137-210 | over every run with fresh families and tokens, for the token created by any step: it is rotated exactly if stored, unrevoked, within its sliding and its family's absolute lifetime and the new hash is free; otherwise exactly when each other answer is given |
| TokenRotation.UsableIsNewest | backend/src/auth/token-rotation.ts:137-210 | such a token is the newest of its family |
| TokenRotation.NoRotationWhenIdle | backend/src/auth/token-rotation.ts:167-173 | no token is rotated after its sliding lifetime or the absolute lifetime of its family |
| TokenRotation.RotationReplaces | backend/src/auth/token-rotation.ts:177-203 | a rotation revokes the presented row as rotated and appends one with the new hash, the same owner, family and absolute deadline, and a new sliding one |
| TokenRotation.ExpiryRevokes | backend/src/auth/token-rotation.ts:167-173 | an expired token is revoked as expired and nothing else changes |
| TokenRotation.IssueAdds | backend/src/auth/token-rotation.ts:87-110 | an issue adds one unrevoked row for its user with both deadlines counted from now |
| TokenRotation.RevokingIsExact | backend/src/auth/token-rotation.ts:213-231 | one row revoked as manual, and true, exactly if an unrevoked row has the token's hash |
| TokenRotation.RevokedIsReported | backend/src/auth/token-rotation.ts:41-74 | a revoked family is reported for thirty days by Redis, and by its rows without it |
| TokenRotation.ListIsOrdered | backend/src/auth/token-rotation.ts:262-275 | the session list has the same tokens, last used first |
| TokenReuse.PrunedReplayGoesUnnoticed | backend/src/auth/token-rotation.ts:285-296 | a run in which a reused token is answered `not_found` because its row was pruned, and the family stays usable |
| IcsText.EscapeIsOnePass | frontend/lib/generateICS.ts:41-47 | the four successive replacements are one character map |
| IcsText.EscapeRoundTrip | frontend/lib/generateICS.ts:41-47 | the escaped text has no raw break, `;` or `,` and no stray backslash, and reads back as the input with LF breaks |
| IcsText.EachBreakIsOne | frontend/lib/generateICS.ts:46-46 | CRLF, CR and LF each count as one break |
| IcsText.EscapeIsOnto | frontend/lib/generateICS.ts:41-47 | every well-escaped value is the escape of exactly what it reads as |
| IcsFolding.FoldICSLine | frontend/lib/generateICS.ts:75-101 | the loop over characters, octets and limit yields the folding of the line joined by CRLF |
| IcsFolding.OctetsAreShortest | frontend/lib/generateICS.ts:86-86 | the counted length of a character is the shortest UTF-8 sequence with room for it |
| IcsFolding.FoldIsFolding | frontend/lib/generateICS.ts:75-101 | folding splits no character, keeps the content, starts continuations with one space, fills no line over its limit and breaks only when the next character does not fit |
| IcsFolding.OnlyFolding | frontend/lib/generateICS.ts:75-101 | it is the only split with those properties |
| IcsFolding.ContinuationContent | frontend/lib/generateICS.ts:82-97 | a continuation carries at most 73 octets of the content line |
| IcsDocument.SerializeEvent | frontend/lib/generateICS.ts:104-133 | nothing for an event without uid, summary or valid start; otherwise its lines in order, with the default end |
| IcsDocument.GenerateICS | frontend/lib/generateICS.ts:139-157 | the document of the header, every usable event in order and the closing line, each folded |
| IcsDocument.DateReadsBack | frontend/lib/generateICS.ts:49-56 | a written date reads back as its year, month and day if and only if the year has four digits |
| IcsDocument.DateTimeReadsBack | frontend/lib/generateICS.ts:59-64 | a written date-time reads back as its date, hours, minutes and seconds, under the same condition |
| IcsRoundTrip.PhysicalLines | frontend/lib/generateICS.ts:139-157 | for every event list, splitting the document at CRLF gives the folded lines, none over 75 octets |
| IcsRoundTrip.DocumentRoundTrip | frontend/lib/generateICS.ts:104-157 | for every event list, unfolding gives back exactly the content lines, and reading those gives every usable event in order with its texts, kind and dates |
| IcsRoundTrip.EventReadsBack | frontend/lib/generateICS.ts:104-133 | for each complete event of any list a reader finds its entry in order, by cases on the input: the day form unless `allDay` is false, a valid end as given, otherwise 24 hours or one hour after the start, and the stamp of now |
| IcsRoundTrip.CalendarIsFramed | frontend/lib/generateICS.ts:139-156 | every document opens with the six fixed properties and ends with the closing line |
| IcsDocument.LateEndIsNoDate | frontend/lib/generateICS.ts:114-122 | a default end past the last instant is written as text that is not a date |
| Crc16.Crc16 | backend/src/cache/cluster-client.ts:117-132 | two table look-ups per code unit compute the bit-by-bit division of the message times x^16 |
| Crc16.TwoNibbles | backend/src/cache/cluster-client.ts:126-129 | both look-ups together are eight single steps of the register |
| Crc16.ShiftIsConditionalXor | backend/src/cache/cluster-client.ts:118-121 | a single step is the shift with 0x1021 added when a bit leaves |
| CrcDivision.QuotientAndRemainder | backend/src/cache/cluster-client.ts:117-132 | bit-by-bit division writes every bit string as a multiple of x^16 + x^12 + x^5 + 1 plus the register |
| CrcDivision.CrcIsTheRemainder | backend/src/cache/cluster-client.ts:117-132 | the checksum is the one 16-bit value that makes the message divisible when put after it |
| CrcLaws.CrcIsLinear | backend/src/cache/cluster-client.ts:117-132 | checksums of equally long strings add up under exclusive or |
| CrcLaws.OnlyLowBytesCount | backend/src/cache/cluster-client.ts:124-129 | only the low 8 bits of each code unit count |
| CrcLaws.ChecksumCancels | backend/src/cache/cluster-client.ts:117-132 | a string followed by its own checksum has checksum zero |
| CrcLaws.NeighboursAreToldApart | backend/src/cache/cluster-client.ts:117-132 | two strings that differ only in two neighbouring code units have the same checksum exactly when their low bytes agree |
| CrcBursts.BurstsAreSeen | backend/src/cache/cluster-client.ts:117-132 | two strings whose message bits differ only within 16 consecutive ones, at any offset, have the same checksum exactly when those bits agree |
| ClusterSlots.CalculateSlot | backend/src/cache/cluster-client.ts:106-112 | the slot of the hash tag, or of the whole key, always below 16384 |
| ClusterSlots.HashTagExactly | backend/src/cache/cluster-client.ts:108-109 | the tag is what stands between the first `{` not followed at once by `}` and the next `}`, and there is no tag otherwise |
| ClusterSlots.UntaggedSlot | backend/src/cache/cluster-client.ts:106-112 | a key in which no tag stands has the slot of the whole key |
| ClusterSlots.Braces | backend/src/cache/cluster-client.ts:108-108 | the tag stands between the two braces |
| ClusterSlots.SameTagSameSlot | backend/src/cache/cluster-client.ts:106-112 | keys whose first `{` opens the same tag share a slot, whatever else stands around it |

## Left out

- Escrow and multisig are two classes with a latch and a pause flag each; in `lib.rs` they share both. No entry point of one reads the other's records.
- The length limit of Soroban vectors (`u32`) and the host's storage limits: sequences are unbounded.
- Re-running `initialize`, `upgrade`, metadata, the proxy and the bridge: administration with one-branch claims.
- HTLC and the v1-to-v2 migration: time guards and field copies that would add easy members.
- Token transfers: the contract itself only records them.
- AuditChain.ImmutableAuditLogger.Log: store failures and process restarts are not modelled; the newest stored hash is a parameter.
- CanonicalJson.SortJson: keys that look like array indices, which JavaScript orders first, are not treated apart; the key order is any strict weak order.
- Retention.AuditArchiveStore.WriteArchive: the creation time, the ISO text of the time range and the file operations are not modelled; a taken name stands for the exclusive-create error.
- Retention.ClassifyAge: ages are exact quotients; floating-point rounding of the division by a day is not modelled.
- AlertRules.CriticalEventRules: lower-casing is modelled for ASCII letters only, and the amount in the details is given as already parsed.
- Alerting.AuditAlerter.Dispatch: alerts are values, so a caller that keeps a returned alert does not see later occurrences on it; sinks and the optional fields are not modelled.
- TokenStore.TokenService.RotateRefreshToken: calls are atomic; two interleaved rotations of one token are outside the model. Fresh family ids and token hashes are hypotheses (`FreshFamilies`, `FreshTokens`).
- IcsDocument.GenerateICS: the UTC getters of `Date` are a parameter, so calendar arithmetic is not modelled; characters are Unicode scalar values, so lone surrogates do not occur. The download helper and the UID helpers are left out.
- ClusterSlots.SlotOf: the tag rule is the expression in the code; agreement with the Redis rule for keys such as `a{}{b}` is not claimed.
- Redis connection handling, redirection, the slot map and pipelines: network code.
- CSV and log sanitising, compliance, payment routing, credential rotation, feature flags, the edge worker and the user interface: foreign libraries, simulated data or presentation.
