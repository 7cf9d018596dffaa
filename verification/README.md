# Verified model of the milestone escrow

A client and a freelancer agree on milestones; the client's deposits sit in one escrow contract, and each
milestone is later released (minus a protocol fee), refunded, or settled in a dispute. The escrow serves any number
of such contracts at once, with one token balance, one fee pot and one ledger of reputation credits shared by all of
them. This project models every entrypoint that moves money, changes a status, closes a contract or changes its
parties, and proves what the escrow promises about them: over single calls, and over runs of any length with any
number of contracts.

## How the project is organised

- **Specification.** `Types.dfy` holds the domain types and the storage (`State`). One module per component gives
  each entrypoint as a function `State -> Result<State, Error>`, with the checks in the order of the source:
  `Creation`, `Deposit`, `MilestoneApprovals`, `Release`, `Refund`, `Dispute`, `Finalize`, `Participants`, `Ratings`,
  `Fees`. `Protocol.dfy` gathers them into a state machine: `Step` is one call, `After` a run; a call that aborts
  leaves no trace.
- **Invariant.** `AccountInvariant` says what holds of one contract in each status, `LedgerInvariant` adds the shared
  ledgers, and `StepsKeepInvariant` proves that every call keeps them. `Effects` states, command by command, exactly
  which contract a successful call rewrites and how the balance and the fee pot move.
- **Calls.** `MoneyCalls`, `ApprovalCalls`, `DisputeCalls` and `PartyCalls` say of each entrypoint, over the storage
  and without the functions that define it, exactly when it goes through, the whole storage it leaves, and that the
  error it reports otherwise is true. `Calls` gathers the conditions into one for every command.
- **Theorems.** `Books`, `Solvency`, `ReleaseGuard`, `StatusMachine`, `ReputationLedger`, `FinalizationFreeze`,
  `BatchSettlement`, `DisputeSettlement`, `RefundOrder`, `ReleaseInverse`, `ApprovalTrace`, `Parties`, `IdAllocation`,
  `FeeRounding`. `Scenarios` and `ExpectationRuns` hold concrete runs in which a stated or expected property fails.
- **The object.** `EscrowContract.dfy` is the contract as the source writes it: a class with one field per storage
  table, whose methods check, loop over milestones, assign fields and write back. Each entrypoint is proved to behave
  exactly as its specification function (`Outcome`: the same error and unchanged storage, or the same new storage)
  and to keep the invariant; `EscrowRuns.dfy` lifts this to whole runs, so the theorems hold of the object.
  `EscrowOutcomes.dfy` holds the facts that connect the two.

A panic reverts a transaction, so methods compute on local copies and write back once nothing can fail any more.
Where the source has a check that can never fire (the accounting check of a release, the distribution check of a
resolution, the overflow checks of new totals), the specification keeps the branch and the method asserts that it
passes.

## What was found

Properties that hold of every reachable state are stated for all runs from a fresh deployment, or for every state
satisfying the invariant `Ok`, which every call keeps. Some expectations turned out false; each comes with the exact
condition and a concrete run from a fresh deployment:

- *Solvency with a 100 percent fee.* At 10 000 basis points nothing is ever released net, so a cancellation returns
  the retained fees as well and the fee pot is left uncovered (`Scenarios.FullFeeBreaksSolvency`). Below that rate and
  without milestone rollbacks the escrow is always solvent. Over all runs `Solvency.SolventExactly` gives the price, and
  `Solvency.SolventStep` says of each call, from the storage it is made in, whether the escrow stays solvent.
- *The documented balance equation* (docs/escrow/balance-conservation-invariant.md) adds the fee pot to the
  contracts' claims, which already contain it. `Books.DocumentedBalance` gives the exact condition over runs,
  `Books.DocumentedStep` the one per call, `Books.BooksBalance` the equations that always hold, and
  `Scenarios.DocumentedBalanceFails` a run.
- *A fully funded, approved milestone can be released.* The release guard subtracts the fees of all contracts from
  this contract's own balance. `ReleaseGuard.ReleaseExactly` says exactly when it lets a release through, and
  `Scenarios.SharedPotBlocks` shows two contracts of which the second is blocked.
- *Each approval resets the approval lifetime* (contracts/escrow/docs/approvals-and-release.md:77). It does so only
  when at most a day is left: `ApprovalTrace.ApprovalExpiry`, with the run `ExpectationRuns.SecondApprovalKeepsExpiry`.
- *Resolution outcomes* (docs/escrow/README.md:559-561). A full refund after a release completes the contract, and a
  partial refund of at most three stroops refunds it: `DisputeSettlement.ResolutionStatus`, with the runs
  `ExpectationRuns.FullRefundCompletes` and `ExpectationRuns.PartialRefundRefunds`.

Two further observations: `create_contract` does not require initialization (the documentation at
contracts/escrow/src/lib.rs:534-536 says it does), and initializing afterwards restarts the id counter, after which no
contract can ever be created again (`IdAllocation.CollisionExactly`, `IdAllocation.StuckForever`, and the run
`ExpectationRuns.EarlyCreateCollides`); and a client migration, and nothing else, can make the arbiter of an
`ArbiterOnly` contract its client, whose approvals are then refused (`Parties.AuthorizationGap`,
`Parties.ArbiterBecomesClient`, `Parties.ClientArbiterLocked`, and the run `ExpectationRuns.MigratedContractLocked`).

## Model

| member | source | states |
|---|---|---|
| StepsKeepInvariant.StepKeeps | contracts/escrow/src/lib.rs:1449-1693 | No call of any entrypoint, successful or aborted, breaks the invariant: totals agree with milestone flags in every live contract, closed contracts are fully distributed, credits and ratings count completed contracts, records are frozen, parties are distinct |
| StepsKeepInvariant.RunKeeps | contracts/escrow/src/lib.rs:1449-1693 | The invariant holds after every run from every state that satisfies it |
| Effects.StepMoves | contracts/escrow/src/lib.rs:1591-1645 | A successful call rewrites at most the contract it names, in the way stated for its command, moves balance and fee pot by the stated amounts, and leaves the other tables alone |
| Books.BooksBalance | contracts/escrow/src/lib.rs:1591-1626 | In every run, rollbacks included: balance + withdrawn + rolled back = sum of the contracts' claims + unpaid resolutions; and balance = fee pot + reserves of live contracts up to four exact corrections |
| Books.StepBalances | contracts/escrow/src/lib.rs:1782-1824 | Each successful call posts exactly what keeps both equations |
| Books.DocumentedBalance | docs/escrow/balance-conservation-invariant.md:10-18 | The documented equation holds exactly when unpaid resolutions equal withdrawn fees, rolled-back payouts and the fee pot together |
| Books.StepSlack | contracts/escrow/src/lib.rs:1782-1824 | How each successful call moves the excess over fees and reserves, and the gap of the documented equation |
| Books.DocumentedStep | docs/escrow/balance-conservation-invariant.md:27-33 | Where the documented equation holds, a release keeps it exactly if it charges no fee, a cancellation always, a resolution exactly if nothing was left to distribute |
| Scenarios.DocumentedBalanceFails | docs/escrow/balance-conservation-invariant.md:10-18 | One contract, one release with a fee: the documented equation is off by the fee |
| Solvency.SolventRun | contracts/escrow/src/lib.rs:2012-2050 | Without milestone rollbacks and below 10 000 bps the balance covers the fee pot plus, for every live contract, funded minus gross settled |
| Solvency.SolventExactly | contracts/escrow/src/lib.rs:1782-1824 | Over all runs: solvent if and only if rolled-back payouts, unrecovered fees and fees returned by cancellations do not exceed the reserves stranded by resolutions |
| Solvency.SolventStep | contracts/escrow/src/refund.rs:228-250 | Per call, from the storage alone: a solvent escrow stays solvent exactly when the fees a cancellation returns, or the payout (and missing fee) a rollback takes back, fit into balance minus fees minus reserves |
| Solvency.NeverShort | contracts/escrow/src/lib.rs:3757-3785 | In such runs no release, refund, cancellation or fee withdrawal fails for lack of balance |
| Solvency.NothingReleased | contracts/escrow/src/refund.rs:228-230 | When every release netted something, a net released total of zero means that nothing was released, which cancellation relies on |
| Scenarios.FullFeeBreaksSolvency | contracts/escrow/src/refund.rs:228-250 | A concrete run at 10 000 bps ends insolvent, with a fee withdrawal that fails |
| ReleaseGuard.FundingExactly | contracts/escrow/src/lib.rs:1542-1589 | The funding checks pass exactly when the fee is computable and the fees of all contracts fit into this contract's own fees plus its other open milestones |
| ReleaseGuard.BookSucceeds | contracts/escrow/src/lib.rs:1602-1634 | Once the funding checks pass, the accounting of the release neither overflows nor exceeds the deposit |
| ReleaseGuard.ReleaseExactly | contracts/escrow/src/lib.rs:1542-1645 | After the entry checks a release succeeds exactly when the fee is computable, the pot leaves room and the balance covers the payment; otherwise the first of these decides the error |
| ReleaseGuard.ReleaseNeverTraps | contracts/escrow/src/lib.rs:1628-1634 | In a reachable state a release never reports a violated accounting invariant and never leaves the i128 range unchecked |
| Scenarios.SharedPotBlocks | contracts/escrow/src/lib.rs:1578-1589 | A concrete run in which a fully funded and approved milestone cannot be released because of another contract's fee |
| StatusMachine.StatusImplies | contracts/escrow/src/deposit.rs:121-130 | In every run: what each status implies for funding and milestones, and that live totals are the sums of the flags |
| StatusMachine.FlagsExclusive | contracts/escrow/src/lib.rs:1610-1614 | In every run no milestone is both released and refunded, and an unreleased one carries no fee and no funded amount |
| StatusMachine.StatusMoves | contracts/escrow/src/lib.rs:1639-1645 | Every call leaves a contract's status alone or makes one of the listed moves |
| StatusMachine.FinalForever | contracts/escrow/src/lib.rs:1966-1971 | Completed, Cancelled and Refunded are absorbing over every run, for status, totals, milestones and both parties |
| StatusMachine.Closes | contracts/escrow/src/lib.rs:2052-2063 | A contract is closed only by a release, a refund, a cancellation or a resolution, and each leaves its books fully distributed in its own way |
| StatusMachine.TerminalBooks | contracts/escrow/src/lib.rs:1639-1645 | In every run: where the money of a closed contract went |
| StatusMachine.RollBackExactly | contracts/escrow/src/lib.rs:1733-1826 | A milestone rollback succeeds exactly when the admin names a settled milestone of a funded, unfinalized contract; its checked subtractions never fail |
| StatusMachine.NoRefundFromCreated | contracts/escrow/src/lib.rs:1966-1971 | Although the status check admits it, a refund of a contract without deposits never succeeds |
| ReputationLedger.CreditsConserved | contracts/escrow/src/lib.rs:1375-1381 | In every run, per freelancer: credits plus issued ratings are the completed contracts, and points are one to five per rating |
| ReputationLedger.CreditWaits | contracts/escrow/src/lib.rs:3111-3118 | A completed contract that was not rated has a credit to spend |
| ReputationLedger.IssueExactly | contracts/escrow/src/lib.rs:3054-3126 | A rating succeeds exactly on its caller-side conditions; the self-rating and credit checks never fire, the counters never overflow |
| ReputationLedger.AverageInRange | contracts/escrow/src/lib.rs:3382-3395 | The scaled average exists for every rated freelancer, is the exact quotient rounded down, and lies in [10 000, 50 000] |
| FinalizationFreeze.FrozenForever | contracts/escrow/src/finalize.rs:40-44 | Until it is reopened, no run changes a finalized contract's record or, up to the reputation flag, its contract and milestones; summarizing again gives the stored summary |
| FinalizationFreeze.RecordStays | contracts/escrow/src/finalize.rs:144-176 | Only reopening removes or replaces a finalization record |
| BatchSettlement.ItemsAreSingles | contracts/escrow/src/lib.rs:920-960 | A batch is the fold of single finalizations: same state, same verdict and same error code per entry, duplicates included, and no delegated call aborts it |
| BatchSettlement.PreCheckExact | contracts/escrow/src/lib.rs:967-1010 | The repeated checks pass exactly when the single call succeeds, and otherwise report the error it raises first |
| BatchSettlement.BatchExactly | contracts/escrow/src/lib.rs:898-920 | A batch is refused only for the pause flags and its size |
| BatchSettlement.DuplicateRefused | contracts/escrow/src/lib.rs:984-992 | A contract listed twice is closed once; the later entry reports the earlier record |
| BatchSettlement.LoadIdempotent | contracts/escrow/src/dispute.rs:269-308 | Loading dispute metadata keeps what was recorded, never fails for a disputed contract, and loading again changes nothing |
| DisputeSettlement.PayoutsExactly | contracts/escrow/src/dispute.rs:104-148 | A resolution is accepted exactly when splittable; its legs are non-negative, add up to the available balance, and a partial refund gives the freelancer the exact floor share |
| DisputeSettlement.ResolveExactly | contracts/escrow/src/dispute.rs:360-407 | From any reachable disputed state the arbiter's resolution succeeds exactly when its split is acceptable; the distribution check never fires |
| DisputeSettlement.ResolutionStatus | docs/escrow/README.md:561 | A resolution refunds the contract exactly when nothing was released before and the freelancer's share is nothing, and completes it otherwise |
| ExpectationRuns.FullRefundCompletes | docs/escrow/README.md:559 | A concrete run: a full refund after one release ends Completed |
| ExpectationRuns.PartialRefundRefunds | docs/escrow/README.md:561 | A concrete run: a partial refund of three stroops ends Refunded |
| DisputeSettlement.RollBackRestores | contracts/escrow/src/rollback.rs:64-88 | A dispute rollback restores exactly the contract and milestones from before the dispute was raised, whatever happened in between |
| DisputeSettlement.RefundForbidsRollBack | contracts/escrow/src/rollback.rs:72-78 | A refund made during a dispute makes every later rollback fail, forever |
| RefundOrder.RefundExactly | contracts/escrow/src/lib.rs:1940-2050 | When a refund succeeds, in closed form, and what it leaves |
| RefundOrder.Append | contracts/escrow/src/lib.rs:1978-2050 | Refunding a list is refunding all but its last entry and then the last, with the same verdict and state |
| RefundOrder.AnyOrder | contracts/escrow/src/lib.rs:1951-2089 | Refunding a list goes through exactly when single refunds in any order do; both leave the same state, and the single calls return the value of the list refund in total |
| RefundOrder.TotalsAdd | contracts/escrow/src/lib.rs:1977-2031 | The value a list refund returns is that of all but its last entry plus that of the last |
| ReleaseInverse.ReleaseThenRollBack | contracts/escrow/src/lib.rs:1602-1626 | Rolling a release back restores contract, milestones, fee pot and everything else but the payment and the approvals, and is possible exactly while the release left the contract funded |
| ReleaseInverse.ReleaseCancelsOut | contracts/escrow/src/lib.rs:1782-1831 | The same after any successful calls aside in between: releases and refunds of other milestones, approvals, new contracts, deposits into other contracts, time; the result is the run without the release |
| ApprovalTrace.ReleaseApproved | contracts/escrow/src/approvals.rs:160-186 | Every release happens under a live record that satisfies the mode, and each flag was set by the holder of its role and live ever since |
| ApprovalTrace.FlagOrigin | contracts/escrow/src/approvals.rs:88-124 | A live flag was set by an approval of the address holding the role at that time, and not cleared, revoked or expired since |
| ApprovalTrace.TouchedInTime | contracts/escrow/src/approvals.rs:123-130 | While a flag is live, the record was touched within the approval lifetime: no two touches are further apart |
| ApprovalTrace.FreshApprovals | contracts/escrow/src/approvals.rs:311-314 | One set of approvals authorises at most one release, even across a milestone rollback |
| ApprovalTrace.ApprovalExpiry | contracts/escrow/docs/approvals-and-release.md:77 | An approval sets the record back to its full lifetime exactly when at most a day (or all of it) is left |
| ExpectationRuns.SecondApprovalKeepsExpiry | contracts/escrow/docs/approvals-and-release.md:77 | A concrete run: a second approval a thousand ledgers later leaves the expiry unchanged |
| Parties.PartiesStayApart | contracts/escrow/src/create_contract.rs:60-77 | In every run client and arbiter differ from the freelancer, modes that need an arbiter have one, and a pending migration was proposed by the client on record |
| Parties.AcceptExactly | contracts/escrow/src/lib.rs:1119-1122 | When a proposal can be accepted, the pause flags included, and that acceptance replaces the client and consumes the proposal |
| Parties.AuthorizationGap | contracts/escrow/src/authorization.rs:77-108 | Approval and release agree on who may act except for an arbiter who is also the client of an `ArbiterOnly` contract |
| Parties.ArbiterBecomesClient | contracts/escrow/src/contracts.rs:460-464 | In every run, if a contract's arbiter is its client, that address has accepted a migration of it |
| Parties.ClientArbiterLocked | contracts/escrow/src/approvals.rs:83-86 | In that case every approval fails |
| ExpectationRuns.MigratedContractLocked | contracts/escrow/src/migration.rs:78-109 | A concrete run: an `ArbiterOnly` contract migrated to its arbiter, after which every approval fails |
| IdAllocation.CollisionExactly | contracts/escrow/src/create_contract.rs:249-266 | Contract ids can collide exactly when a contract was created before the initialization |
| IdAllocation.StuckForever | contracts/escrow/src/lib.rs:554-570 | From then on no contract can be created in any run |
| ExpectationRuns.EarlyCreateCollides | contracts/escrow/src/create_contract.rs:249-266 | A concrete run: create, initialize, and the next creation collides |
| FeeRounding.FeeBounds | contracts/escrow/src/lib.rs:3862-3870 | The fee lies between 0 and the amount, and is below a positive amount exactly below 10 000 bps |
| FeeRounding.RoundingLoss | contracts/escrow/src/lib.rs:3862-3870 | Over n milestones at one rate the fee on the total exceeds the summed fees by at most n - 1 |
| Calls.StepExactly | contracts/escrow/src/lib.rs:1449-1693 | For every command the exact condition, read from the storage before the call, under which it goes through |
| MoneyCalls.ReleaseCallExactly | contracts/escrow/src/lib.rs:1449-1645 | A release goes through exactly when nothing is paused, the contract is funded and not finalized, the caller is one its mode admits, the milestone is open, a live record holds a quorum, the fee is computable, the pot leaves room and the balance covers the payment |
| MoneyCalls.ReadyReasons | contracts/escrow/src/lib.rs:1458-1540 | Each error of the entry checks of a release is true of the storage |
| MoneyCalls.FeeIs | contracts/escrow/src/lib.rs:3862-3870 | The fee of a release is nothing before initialization, else the rate rounded down |
| MoneyCalls.ReleaseLeaves | contracts/escrow/src/lib.rs:1591-1645 | The whole storage after a release: the milestone marked with its fee, the payment, the pot, the approvals gone, and completion with a credit exactly if none is left open |
| MoneyCalls.RefundCallExactly | contracts/escrow/src/lib.rs:1940-2050 | A refund goes through exactly for distinct open milestones of a funded or disputed contract, each without deadline or past it, whose sum fits what is left and the balance |
| MoneyCalls.RefundReasons | contracts/escrow/src/lib.rs:1940-2031 | Each error of a refund is true: of the call, or of one of the listed milestones |
| MoneyCalls.RefundLeaves | contracts/escrow/src/lib.rs:2012-2070 | The whole storage after a refund: exactly the listed milestones marked, the payment, and the closing status with its credit |
| MoneyCalls.CancelExactly | contracts/escrow/src/refund.rs:205-263 | A cancellation goes through exactly for the client of a created or funded contract with nothing released net, if what is left can be paid |
| MoneyCalls.CancelLeaves | contracts/escrow/src/refund.rs:228-263 | The whole storage after a cancellation: everything left paid out and counted as refunded, the contract closed |
| MoneyCalls.CancelReasons | contracts/escrow/src/refund.rs:205-250 | Each error of a cancellation is true |
| MoneyCalls.UndoExactly | contracts/escrow/src/lib.rs:1733-1781 | A milestone rollback goes through exactly for the admin, on a settled milestone of a funded, unfinalized contract |
| MoneyCalls.UndoLeaves | contracts/escrow/src/lib.rs:1782-1831 | The whole storage after a milestone rollback, for a released and for a refunded milestone |
| MoneyCalls.UndoReasons | contracts/escrow/src/lib.rs:1733-1781 | Each error of a milestone rollback is true |
| MoneyCalls.CreateExactly | contracts/escrow/src/create_contract.rs:49-163 | When a creation goes through, the pause flags and the id counter included, and the contract it stores |
| MoneyCalls.CreateReasons | contracts/escrow/src/create_contract.rs:49-163 | Each error of a creation is true |
| MoneyCalls.DepositExactly | contracts/escrow/src/lib.rs:732-745 | When a deposit goes through, and the storage it leaves |
| MoneyCalls.DepositReasons | contracts/escrow/src/deposit.rs:20-78 | Each error of a deposit is true |
| MoneyCalls.WithdrawExactly | contracts/escrow/src/lib.rs:3731-3793 | When a fee withdrawal goes through (the emergency flag does not matter), and the storage it leaves |
| MoneyCalls.WithdrawReasons | contracts/escrow/src/lib.rs:3731-3793 | Each error of a fee withdrawal is true |
| ApprovalCalls.ApproveExactly | contracts/escrow/src/approvals.rs:52-133 | An approval goes through exactly for a caller acting in a role the mode can use whose flag is not live, on an unreleased milestone of a funded or partially funded, unfinalized contract |
| ApprovalCalls.ApproveSets | contracts/escrow/src/approvals.rs:88-130 | An approval makes the flag of the caller's role live, changes no other flag of any milestone and no other table |
| ApprovalCalls.ApproveReasons | contracts/escrow/src/approvals.rs:52-116 | Each error of an approval is true |
| ApprovalCalls.RevokeExactly | contracts/escrow/src/approvals.rs:216-264 | A revocation goes through exactly when the caller's own flag is live on an unreleased milestone; each error is true |
| ApprovalCalls.RevokeClears | contracts/escrow/src/approvals.rs:266-299 | A revocation takes away exactly the caller's flag: every other flag, of this and any other milestone, is as live as before, and the record is gone exactly when no flag is left |
| ApprovalCalls.InspectKeepsFlags | contracts/escrow/src/milestones.rs:446-461 | Reading approvals changes no flag of any milestone |
| DisputeCalls.RaiseExactly | contracts/escrow/src/dispute.rs:311-340 | A dispute is raised exactly by the client or the freelancer of a funded or partially funded, unfinalized contract with an arbiter |
| DisputeCalls.RaiseLeaves | contracts/escrow/src/dispute.rs:335-357 | The whole storage after it: the status, the account kept as it was, and metadata naming the caller and the time |
| DisputeCalls.RaiseReasons | contracts/escrow/src/dispute.rs:311-333 | Each error of raising a dispute is true |
| DisputeCalls.LoadExactly | contracts/escrow/src/dispute.rs:269-308 | Loading fails exactly where there is neither an entry nor a dispute, finds what was recorded, and writes it back in the current layout |
| DisputeCalls.ResolveCallExactly | contracts/escrow/src/dispute.rs:360-407 | A resolution goes through exactly for the arbiter of a disputed, unfinalized contract with an acceptable split |
| DisputeCalls.ResolveReasons | contracts/escrow/src/dispute.rs:360-407 | Each error of a resolution is true |
| DisputeCalls.ResolveLeaves | contracts/escrow/src/dispute.rs:380-421 | The whole storage after a resolution: the freelancer has exactly the share it names and the client the rest, the contract closed, the metadata gone; no token moved |
| DisputeCalls.RollBackDisputeExactly | contracts/escrow/src/rollback.rs:41-102 | A dispute is rolled back exactly while the account differs from the one kept in nothing but the status; that account is then reinstated |
| DisputeCalls.RollBackDisputeReasons | contracts/escrow/src/rollback.rs:41-88 | Each error of a dispute rollback is true |
| DisputeCalls.SummaryExactly | contracts/escrow/src/finalize.rs:74-128 | The summary has one entry per milestone with its own position, amount and flags, the sum of the amounts, the number of released milestones, what is left, and the contract's parties, status and totals |
| DisputeCalls.FinalizeExactly | contracts/escrow/src/finalize.rs:144-160 | A contract is finalized exactly by one of its parties while it is completed or disputed, not yet finalized, and nothing is paused |
| DisputeCalls.FinalizeLeaves | contracts/escrow/src/finalize.rs:160-176 | The record names the finalizer and the time and describes the stored contract; only the snapshot of an open dispute goes with it |
| DisputeCalls.FinalizeReasons | contracts/escrow/src/finalize.rs:144-160 | Each error of a finalization is true |
| DisputeCalls.ReopenExactly | contracts/escrow/src/finalize.rs:193-231 | A record is removed exactly for the admin, on a completed or disputed contract, and nothing else changes; each error is true |
| PartyCalls.InitializeExactly | contracts/escrow/src/lib.rs:554-588 | Initialization happens once, names the admin and restarts the ids |
| PartyCalls.ProposeExactly | contracts/escrow/src/migration.rs:36-76 | A migration is proposed exactly by the client of an open contract, to an address that is no party, while no proposal is live and nothing is paused |
| PartyCalls.ProposeLeaves | contracts/escrow/src/migration.rs:60-76 | The proposal names both clients and is live for three weeks of ledgers, or the host's minimum if that is longer; nothing else changes |
| PartyCalls.ProposeReasons | contracts/escrow/src/migration.rs:36-60 | Each error of a proposal is true |
| PartyCalls.CancelMigrationExactly | contracts/escrow/src/migration.rs:111-130 | Only the client withdraws a proposal, and only a live one; each error is true |
| PartyCalls.AcceptLeaves | contracts/escrow/src/migration.rs:78-109 | A proposal is accepted exactly by the address it names while it is live; only the client and the proposal change |
| PartyCalls.AcceptReasons | contracts/escrow/src/migration.rs:78-109 | Each error of an acceptance is true |
| PartyCalls.SetArbiterExactly | contracts/escrow/src/contracts.rs:431-490 | The arbiter is changed exactly by the admin, to nobody who is another party, and a mode that needs one keeps one; nothing else changes |
| PartyCalls.SetArbiterReasons | contracts/escrow/src/contracts.rs:431-490 | Each error of an arbiter change is true |
| PartyCalls.IssueCallExactly | contracts/escrow/src/lib.rs:3054-3126 | A rating goes through exactly once per completed contract, by its client, with one to five points and a comment of at most 200 bytes |
| PartyCalls.IssueLeaves | contracts/escrow/src/lib.rs:3111-3146 | A rating spends one credit of the freelancer and adds one contract and the points to that freelancer's reputation alone |
| PartyCalls.IssueReasons | contracts/escrow/src/lib.rs:3054-3126 | Each error of a rating is true |
| Amounts.ValidateAmountArray | contracts/escrow/src/amount_validation.rs:12-21 | Succeeds exactly when all amounts are positive and their sum fits an i128, with that sum; otherwise reports the error of the first entry that fails |
| Amounts.ValidateMilestoneAmounts | contracts/escrow/src/amount_validation.rs:23-35 | Validation of a milestone list against the cap |
| Milestones.AccumulateAmounts | contracts/escrow/src/amount_validation.rs:37-48 | The checked total of a milestone vector |
| Milestones.AccumulatedExact | contracts/escrow/src/amount_validation.rs:37-48 | For positive amounts the checked total fails exactly when the sum does not fit an i128 |
| EscrowContract.Escrow.Initialize | contracts/escrow/src/lib.rs:554-588 | One-time initialization, which also restarts the id counter |
| EscrowContract.Escrow.CreateContract | contracts/escrow/src/create_contract.rs:49-163 | Refines the creation function: buffer, validation, id, fresh milestones |
| EscrowContract.CheckTotal | contracts/escrow/src/create_contract.rs:94-110 | The amounts copied into a fixed buffer validate to the same verdict as the list |
| EscrowContract.BuildMilestones | contracts/escrow/src/create_contract.rs:133-145 | The building loop yields one fresh, unsettled milestone per amount, in order |
| EscrowContract.Escrow.CheckDeposit | contracts/escrow/src/deposit.rs:20-78 | Admits a deposit exactly when the client of an open contract pays a positive amount that is still missing, and nothing is paused or finalized |
| EscrowContract.Escrow.DepositFunds | contracts/escrow/src/lib.rs:732-745 | Refines the deposit function: validate, take the tokens, update the totals and the status |
| EscrowContract.Escrow.CheckApprovals | contracts/escrow/src/approvals.rs:154-186 | True exactly when a live record holds a quorum of the roles whose approval the mode can use |
| Authorization.SufficientExactly | contracts/escrow/src/approvals.rs:168-183 | The flags a mode accepts are exactly a quorum of the roles whose approval it can use |
| EscrowContract.Escrow.WriteApprovals | contracts/escrow/src/approvals.rs:123-130 | The record reads back, others stay, and its expiry stays when more than a day is left and moves to a week from now otherwise |
| EscrowContract.Escrow.ApproveMilestone | contracts/escrow/src/approvals.rs:52-133 | Refines the approval function: sets the caller's flag and writes the record with its lifetime |
| EscrowContract.Escrow.RevokeApproval | contracts/escrow/src/approvals.rs:216-301 | Refines the revocation function, whose condition and effect on every flag `ApprovalCalls.RevokeExactly` and `RevokeClears` give |
| EscrowContract.Escrow.GetMilestoneApprovals | contracts/escrow/src/milestones.rs:446-461 | Returns the live record and renews it when it is close to expiry |
| EscrowContract.Escrow.CheckFunding | contracts/escrow/src/lib.rs:1542-1589 | The funding checks and the fee of a release |
| EscrowContract.Escrow.ReleaseMilestone | contracts/escrow/src/lib.rs:1449-1693 | Refines the release function, whose condition and effect `MoneyCalls.ReleaseCallExactly` and `ReleaseLeaves` give; its overflow and accounting checks are proved never to fire |
| EscrowContract.AllDone | contracts/escrow/src/lib.rs:1639-1640 | The completion loop is true exactly when every milestone is released or refunded |
| EscrowContract.HasDuplicate | contracts/escrow/src/lib.rs:1952-1958 | The nested loops find a duplicate exactly when the indices are not distinct |
| EscrowContract.RequestTotal | contracts/escrow/src/lib.rs:1977-2010 | The validation loop reports the first failing milestone in order, or the total |
| EscrowContract.MarkRefundedAll | contracts/escrow/src/lib.rs:2033-2045 | The marking loop refunds exactly the listed milestones, each for its whole amount |
| EscrowContract.Escrow.RefundMilestones | contracts/escrow/src/lib.rs:1940-2089 | Refines the refund function and returns its total |
| EscrowContract.Escrow.CancelContract | contracts/escrow/src/refund.rs:205-263 | Refines the cancellation function, whose condition and effect `MoneyCalls.CancelExactly` and `CancelLeaves` give |
| EscrowContract.Escrow.RollBackMilestone | contracts/escrow/src/lib.rs:1733-1840 | Refines the milestone rollback function |
| EscrowContract.Escrow.LoadDisputeMetadata | contracts/escrow/src/dispute.rs:269-308 | Refines the metadata loader: current entries as they are, older ones rewritten, missing ones filled in |
| EscrowContract.Escrow.StoreMetadata | contracts/escrow/src/dispute.rs:227-236 | Loading afterwards returns the same party, hash and time in the current layout; other contracts keep their entries |
| EscrowContract.Escrow.RemoveMetadata | contracts/escrow/src/dispute.rs:239-248 | The entry and its version are gone, and loading reports no dispute; other contracts keep their entries |
| EscrowContract.Escrow.RaiseDispute | contracts/escrow/src/dispute.rs:311-357 | Refines the raise function, whose condition and effect `DisputeCalls.RaiseExactly` and `RaiseLeaves` give |
| EscrowContract.Escrow.ResolveDispute | contracts/escrow/src/dispute.rs:360-421 | Refines the resolution function; no token moves, and its overflow and distribution checks are proved never to fire |
| EscrowContract.Escrow.RollBackDispute | contracts/escrow/src/rollback.rs:41-102 | Refines the dispute rollback function |
| EscrowContract.Summarize | contracts/escrow/src/finalize.rs:74-128 | The summary loop computes the summary that `DisputeCalls.SummaryExactly` describes entry by entry |
| EscrowContract.Escrow.FinalizeContract | contracts/escrow/src/finalize.rs:144-176 | Refines the finalization function: writes the record and drops the dispute snapshot |
| EscrowContract.Escrow.CheckOne | contracts/escrow/src/lib.rs:970-1003 | A batch entry passes exactly when its contract exists, is not finalized, is closable and the finalizer is a party; otherwise the error of the first check that fails |
| EscrowContract.Escrow.TryFinalizeOne | contracts/escrow/src/lib.rs:967-1010 | One batch entry: the repeated checks decide, and the delegated call then succeeds |
| EscrowContract.Escrow.FinalizeContractsBatch | contracts/escrow/src/lib.rs:898-960 | Refines the batch function, results in order |
| EscrowContract.Escrow.ReopenContract | contracts/escrow/src/finalize.rs:193-231 | Refines the removal of a finalization record |
| EscrowContract.Escrow.ProposeMigration | contracts/escrow/src/lib.rs:1085-1093 | Refines the proposal function: the pause flags, the checks, and the record with its lifetime |
| EscrowContract.Escrow.AcceptMigration | contracts/escrow/src/lib.rs:1119-1122 | Refines the acceptance function, the pause flags included |
| EscrowContract.Escrow.CancelMigration | contracts/escrow/src/migration.rs:111-130 | Refines the cancellation of a proposal |
| EscrowContract.Escrow.SetArbiter | contracts/escrow/src/contracts.rs:431-490 | Refines the arbiter change |
| EscrowContract.Escrow.IssueReputation | contracts/escrow/src/lib.rs:3054-3146 | Refines the rating function: spends a credit and adds the rating |
| EscrowContract.Escrow.WithdrawFees | contracts/escrow/src/lib.rs:3731-3793 | Refines the fee withdrawal: pot and balance fall by the amount, or neither does |
| EscrowRuns.Call | contracts/escrow/src/lib.rs:1449-1693 | Any call on the object goes through exactly when its condition holds, and does what the state machine's step says |
| EscrowRuns.CallAll | contracts/escrow/src/lib.rs:1449-1693 | Any sequence of calls leaves the object in the state the run reaches |
| EscrowRuns.SolventObject | contracts/escrow/src/lib.rs:2023-2031 | A new object after any run without rollbacks and below 10 000 bps is never short of balance in a payout |

## Left out

Modelling choices:

- Of several merged copies of a function the complete one is modelled: release, refund and milestone rollback from
  contracts/escrow/src/lib.rs, cancellation from contracts/escrow/src/refund.rs, disputes from
  contracts/escrow/src/dispute.rs. The duplicates (contracts/escrow/src/release.rs, contracts/escrow/src/refund_impl.rs,
  most of contracts/escrow/src/milestones.rs) are not modelled.
- `load_and_check_contract` and `require_contract_mutable` are called but not defined; they are taken to load the
  contract and to require that it is not finalized.
- No call site stores the dispute snapshot; raising a dispute is taken to store it, as
  contracts/escrow/src/rollback.rs:16-33 suggests.
- The contract and milestones built at contracts/escrow/src/create_contract.rs:116-145 are taken to be stored under the
  new id, and the stored contract's token is the one settlement token.
- Constants that no source file defines: 10 000 basis points (contracts/escrow/src/governance.rs:60 and the fee
  documentation), a freelancer share of 30 of 100 (docs/escrow/README.md:561), first id 1
  (contracts/escrow/src/create_contract.rs:128-132).
- The separate `ReputationIssued(id)` entry is written together with the contract's own flag and modelled by that flag.
- All governance setters (fee rate, pause, emergency, admin rotation, token binding, caps) are one step `Govern` that
  installs any settings with a fee rate of at most 10 000 basis points; it is more permissive than the setters, which
  makes the theorems about runs stronger. Ledgers that close between calls are a step `Tick`.
- A transfer into the escrow is given the payer's funds as a parameter; a transfer out fails when the balance is short.
- ApprovalTrace.TouchedInTime: assumes that the host's minimum lifetime of a temporary entry does not exceed the
  approval lifetime of a week; a longer minimum would keep records alive past it.
- ReleaseInverse.ReleaseCancelsOut: deposits made in between have to fit the i128 token balance the escrow would have
  without the payment, which is larger by that payment; the token's own supply is not modelled.
- Error codes are modelled by name; host traps (unchecked overflow, layout mismatch) by `ArithmeticTrap`.

Not modelled:

- Signatures (`require_auth`), events, topics and the lifetimes of persistent entries.
- Re-entrancy and the token's own bookkeeping.
- Deadlines are part of milestones and of the refund checks, but creation with schedules, which could set them, is not.
- Read-only queries other than `get_milestone_approvals` and the average rating, and all `simulate_` entrypoints.
- Work evidence, comments' storage, batch creation, batch release and batch approval, pagination, terms hashes, deposit
  modes, configurable limits, storage-version migration of contracts and reputations.
