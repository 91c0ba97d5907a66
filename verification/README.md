# Astera: verified models of the core

Astera finances invoices. Soroban contracts written in Rust hold the money and the compliance
registry; TypeScript services around them index events, screen addresses, verify invoices and limit
RPC reads. This project models the parts with the most state and arithmetic and proves what holds of
them over every input, call or run. `dafny verify dfyconfig.toml` checks all of it.

Each imperative part appears twice: as a class or a method in the source's own form (fields, loops,
early returns), and as functions on values that say what one call does. The methods are proved equal
to the functions; the properties are lemmas about the functions and about runs built from them. For
each function some lemmas say what it computes without its own helpers: by literal values, by sets of
events or operations, or by the last call or event that decides.

| file | models |
|---|---|
| ComplianceRegistry, ComplianceContract | the compliance contract: storage, entrypoints, views |
| ComplianceRuns, ComplianceClearance, ComplianceLists, ComplianceScreeners, ComplianceProvenance | what holds after every run of entrypoint calls, and which calls are accepted |
| ReadLimiter | the RPC read limiter with timers, microtasks and clock readings |
| VerificationQueue | the bounded verification queue with deferred wake-ups |
| EventStore, EventPaging | ingest, and reading a whole result page by page |
| Reorg, ReorgRecovery, Backfill | the poll loop with its hash chain and rollback, backfill |
| TrancheReplay, RiskSignals | tables derived from the event log |
| ConsensusReplay | the live round tracker and the indexer's replay of the same events |
| SlidingWindow, DepositMonitor, ActivityMonitor | activity detectors with pruned caches |
| TrancheMath, TranchePool, TrancheContract, TrancheBooks, TranchePricing | waterfall, losses, shares, deposits and withdrawals, their books, who can leave whole |
| YieldScenarios, RateModel | yield scenarios, breakeven search, the kinked rate curve |
| Arithmetic, Collections | shared facts about division, sequences and maps |

## Conventions

- A failing contract call leaves the state unchanged, because the host rolls it back. The caller an
  entrypoint authenticates, and the ledger time, are parameters; ledger time does not go back in runs.
- 64-bit and 128-bit widths are explicit where they matter: saturating additions and products,
  wrapping casts, and traps of checked 128-bit arithmetic. Amounts in the TypeScript services are
  unbounded, as `bigint` is; their division truncates toward zero.
- Clocks are inputs. In the limiter every callback is given the list of its successive clock readings.
- Tables are maps, a transaction is one step, and Horizon is a feed of records: a record's paging
  token is its position, a fetch from a ledger starts at the first record of that ledger or later,
  and a fetch from a token starts just after it.

## What the proofs found

- **A review asked for before `initialize` gets lost.** `request_review` needs no administrator, and
  `initialize` empties the lists, so such an address stays under review but is on no list. The lists
  are exact up to a set of lost addresses that the model defines; addresses enter it only by eviction
  from a full list or by that call.
- **A full list hides proposals.** The 65th outstanding screener proposal is stored but never listed.
- **Anyone can lift a block.** `request_review` is open to every caller and overwrites any record,
  although the comment at contracts/compliance/src/lib.rs:634 says that only an active clearance is
  interrupted. A review request turns a blocked address into one under review and takes it off the
  flagged list; the contract follows the code.
- **The read limiter can hang the page.** At the full concurrency cap a queued microtask starts
  nothing and queues its own successor, as long as fewer than ten starts are in the window. Microtasks
  run before timeouts and before network responses, so no settlement can end this spin. Any step starts
  it that leaves five reads in flight, a sixth waiting and fewer than ten starts in the window: the
  sixth overlapping read, the timeout that such a read arms when the window is full, or a settlement
  that lets the next read start.
- **Backfill retries for ever on a page it cannot store.** The successful fetch resets the retry
  count first. A run gives up exactly after five failed fetches in a row, or four directly after a
  page that could not be stored.
- **Backfill can be sent back to the first ledger.** The parser reads a missing ledger number as zero.
  A page whose last event and record have none sets the position back to ledger one, every time.
- **Pages can repeat and lose events.** The query orders rows by ledger alone, so two pages may see the
  rows of one ledger in different orders. The pages hold every row once, whatever the orders, exactly
  when no ledger has rows on two pages.
- **Deposits are priced against the depositor.** Shares are priced against the pool value after the
  deposit, so once shares exist every new claim is worth strictly less than what was paid in, while
  withdrawals round in favour of the one who leaves. Whether a new depositor can take the deposit out
  again is told exactly by the pool before the deposit. The second of two equal first investors can do
  so only with two units or with an amount whose square no longer fits 128 bits; with one unit the
  deposit buys no share and is trapped, unless the share token refuses it.
- **A mint can wrap.** With a pool value of exactly one unit and a price outside the signed range the
  final cast turns the minted shares negative. A share token that refuses such amounts, like the
  repository's, closes this.
- **Rows of one ledger can lose capital.** The replay reads rows by ledger only. When an invoice is
  repaid and funded again in one ledger and the repayment comes back last, the first deployment is
  forgotten. Capital is conserved exactly while every event keeps the books.
- **Realized yield can fall below minus 100 percent.** The contract limits a junior loss by the junior
  capital of the whole pool (contracts/tranche/src/repayment.rs:84-89), not by the invoice's own
  deployment, so one default can lose more than the principal it is measured against.
- **Rollback reaches one ledger.** After a rollback the table converges exactly when the rows below the
  rollback point are the canonical ones. A deeper reorg is dug up one ledger at a time, and only while
  every next page ends exactly at the last rollback point; otherwise orphaned rows stay for good.
- **The hash chain can unlink.** Recording a tip below a recorded ledger replaces that ledger's parent
  unnoticed; the exact condition for a linked chain is proved, for one tip and for whole runs.
- **The two round replays can disagree about one ledger.** They agree in every order in which the
  database may return the rows exactly when some event of the invoice sets a status and all such events
  of the highest such ledger set the status that the last one to arrive set. On votes alone the tracker
  says open and the indexer says unknown; a round opened and decided in one ledger can read as decided
  in the tracker and as open in the indexer.
- **A lower advance rate is not checked.** Changing the configuration of a live pool can leave senior
  above its rate. Nothing else can, and the next accepted senior deposit or junior withdrawal leaves
  the pool within the rate again.
- **A structuring alert hides a rapid cycle.** It clears the cache, so a withdrawal right after it is
  judged without the deposit that fired it. The reference detector says so in its definition.

## Model

| member | source | states |
|---|---|---|
| ComplianceContract.AppendBounded | contracts/compliance/src/lib.rs:1086-1132 | the trimming loop keeps exactly the last 64 entries of log plus new entry |
| ComplianceContract.AddToList | contracts/compliance/src/lib.rs:1151-1182 | adding an absent address to a full status list drops its oldest entry, to the full proposal list does nothing |
| ComplianceContract.RemoveFromList | contracts/compliance/src/lib.rs:1184-1195 | the loop leaves the other addresses in order |
| ComplianceContract.Contract.Initialize | contracts/compliance/src/lib.rs:175-205 | whole state and answer; refused when initialized, otherwise sets defaults and empties the lists |
| ComplianceContract.Contract.SetPaused | contracts/compliance/src/lib.rs:207-222 | whole state and answer for both pausing keys |
| ComplianceContract.Contract.RegisterScreener | contracts/compliance/src/lib.rs:233-301 | whole state and answer: proposal frozen with the current timelock, or immediate activation at timelock zero |
| ComplianceContract.Contract.ConfirmScreener | contracts/compliance/src/lib.rs:304-338 | whole state and answer: activation after the frozen time, rollback when the list is full |
| ComplianceContract.Contract.DeregisterScreener | contracts/compliance/src/lib.rs:340-387 | whole state and answer for active screeners, proposals and strangers |
| ComplianceContract.Contract.SetRescreeningInterval | contracts/compliance/src/lib.rs:429-445 | whole state and answer for the three keys, zero and too small intervals refused |
| ComplianceContract.Contract.SetScreenerTimelock | contracts/compliance/src/lib.rs:457-470 | whole state and answer for the three keys; pending proposals untouched |
| ComplianceContract.Contract.SetAccessControl | contracts/compliance/src/lib.rs:810-875 | whole state and answer when the trust anchor is set or rotated |
| ComplianceContract.Contract.SetGovernance | contracts/compliance/src/lib.rs:830-850 | whole state and answer when the governance address is set |
| ComplianceContract.Contract.Require | contracts/compliance/src/lib.rs:999-1034 | which callers each key refuses, and why |
| ComplianceContract.Contract.ActivateScreener | contracts/compliance/src/lib.rs:1055-1084 | refuses active screeners and a full list, otherwise adds to set and list |
| ComplianceContract.Contract.SyncStatusLists | contracts/compliance/src/lib.rs:1134-1149 | both status lists after an address gets a status |
| ComplianceContract.Contract.SubmitScreeningResult | contracts/compliance/src/lib.rs:482-592 | whole state and answer of a screening: refusals in order, record, logs, lists, stamp |
| ComplianceContract.Contract.RequestReviewOf | contracts/compliance/src/lib.rs:598-694 | whole state and answer of a review request |
| ComplianceContract.Contract.EffectiveStatusBatch | contracts/compliance/src/lib.rs:735-760 | the batch view agrees with the single view address by address |
| ComplianceContract.Contract.ListPendingScreeners | contracts/compliance/src/lib.rs:407-427 | the proposals of the listed addresses in list order, skipping an address without one |
| ComplianceRuns.ListedProposalsAreOnFile | contracts/compliance/src/lib.rs:407-427 | in every reachable state that is one proposal per listed address, its own |
| ComplianceRuns.ReachableIsConsistent | contracts/compliance/src/lib.rs:1055-1195 | after every run: status lists duplicate-free, bounded, matching the records; history bounded and ending with the record; screener list exactly the active set; nobody active and proposed; clearances expire after they are written below the clock's end |
| ComplianceRuns.PausedContractIsFrozen | contracts/compliance/src/lib.rs:159-168 | in a reachable paused state no call changes records, logs, lists, screeners or cooldowns |
| ComplianceRuns.StepKeepsScreeners | contracts/compliance/src/lib.rs:243-387 | every call keeps the screener sets and lists in agreement |
| ComplianceRuns.WrittenExpiryIsSound | contracts/compliance/src/lib.rs:525-532 | a stored clearance expires strictly later exactly when the clock is not at its end |
| ComplianceClearance.LogsAreLastWrites | contracts/compliance/src/lib.rs:1086-1132 | after every run each history and submission log is exactly the last 64 writes |
| ComplianceClearance.ClearanceProvenance | contracts/compliance/src/lib.rs:699-730 | an address is cleared if and only if the last accepted write to it was a clearance by the admin or a then-registered screener while unpaused, and it has not expired; effective status agrees |
| ComplianceClearance.OnlyClearancesClear | contracts/compliance/src/lib.rs:482-592 | a call that turns a clearance on is an accepted clearance |
| ComplianceClearance.BlockProvenance | contracts/compliance/src/lib.rs:482-694 | an address is blocked if and only if the last accepted write to it was a block by the admin or a then-registered screener while unpaused |
| ComplianceClearance.OnlyTheseLiftABlock | contracts/compliance/src/lib.rs:482-694 | a call ends a block exactly when it is an accepted review request by anyone, or another accepted screening by someone entitled |
| ComplianceClearance.LiftedBlocksHaveACause | contracts/compliance/src/lib.rs:482-694 | over whole runs a block that is gone was ended by such a call |
| ComplianceClearance.AnyoneCanLiftABlock | contracts/compliance/src/lib.rs:598-690 | in every reachable state a review request lifts a block exactly when unpaused, with a reason of allowed length and no request within the cooldown; the address leaves the flagged list |
| ComplianceLists.FlaggedListIsExact | contracts/compliance/src/lib.rs:1134-1182 | flagged and blocked addresses are those listed or evicted and not rewritten, never both |
| ComplianceLists.PendingReviewListIsExact | contracts/compliance/src/lib.rs:1134-1182 | the same for addresses under review, counting those `initialize` dropped |
| ComplianceLists.LossesHaveACause | contracts/compliance/src/lib.rs:1160-1179 | nothing is lost before a list was full or, for reviews, `initialize` ran |
| ComplianceLists.ReviewBeforeInitializeIsLost | contracts/compliance/src/lib.rs:175-205 | a run that leaves an address under review on no list |
| ComplianceLists.ProposalIsListed | contracts/compliance/src/lib.rs:285-294 | an accepted proposal is listed if and only if the list had room |
| ComplianceLists.ProposalListIsExact | contracts/compliance/src/lib.rs:1151-1195 | proposals on file are those listed or made while the list was full |
| ComplianceLists.AFullListHidesAProposal | contracts/compliance/src/lib.rs:1160-1176 | a run whose 65th proposal is on file but not listed |
| ComplianceScreeners.ConfirmationsWaited | contracts/compliance/src/lib.rs:304-338 | every confirmed screener was proposed, and the timelock in force then has run out |
| ComplianceScreeners.ActiveScreenersWaited | contracts/compliance/src/lib.rs:243-338 | the same for every active screener, however it became active |
| ComplianceScreeners.ProposalsAreFrozen | contracts/compliance/src/lib.rs:278-287 | a proposal on file carries the time and timelock of an accepted proposal |
| ComplianceScreeners.ReviewsAreSpaced | contracts/compliance/src/lib.rs:613-621 | accepted reviews of one address are 24 hours apart |
| ComplianceScreeners.ScreeningsAreSpaced | contracts/compliance/src/lib.rs:510-524 | a non-admin's screenings of one subject are an interval apart |
| ComplianceProvenance.DeregistrationRemoves | contracts/compliance/src/lib.rs:350-387 | an accepted deregistration takes the address out of screeners, proposals and both lists and leaves every other address as it was |
| ComplianceProvenance.ConfirmationActivates | contracts/compliance/src/lib.rs:314-338 | an accepted confirmation turns the proposal into an active, listed screener and touches no other address |
| ComplianceProvenance.RegistrationAdds | contracts/compliance/src/lib.rs:243-301 | an accepted registration activates at timelock zero, else puts a proposal on file for later, and touches no other address |
| ComplianceProvenance.ActiveExactly | contracts/compliance/src/lib.rs:243-387 | over every run an address is an active screener if and only if an accepted activation of it is later than every accepted deregistration of it |
| ComplianceProvenance.ProposedExactly | contracts/compliance/src/lib.rs:243-387 | the same for proposals, which a confirmation resolves as well |
| ComplianceProvenance.DeregisteredIsRefused | contracts/compliance/src/lib.rs:1036-1053 | over every run the screenings of a deregistered address that is not the admin are refused as unauthorized until it is active again |
| ComplianceProvenance.ConfigurationIsTheLastWord | contracts/compliance/src/lib.rs:175-222 | over every run admin, pause, anchors, interval and timelock are what the last accepted call of their setter gave, or the default |
| ComplianceProvenance.StampsAreTheLastTimes | contracts/compliance/src/lib.rs:510-524 | over every run the stamps are the times of the last accepted review and screening |
| ComplianceProvenance.AcceptedCallsStore | contracts/compliance/src/lib.rs:534-592 | what an accepted screening or review request stores, field by field, and that it leaves all other records alone |
| ComplianceProvenance.EntriesMirrorTheRecord | contracts/compliance/src/lib.rs:552-585 | the history and submission entries carry the fields of the record |
| ComplianceProvenance.RecordIsTheLastStored | contracts/compliance/src/lib.rs:482-694 | over every run a record is what the last accepted screening or review request of its address stored |
| ComplianceProvenance.EffectiveStatusIsTheLastWord | contracts/compliance/src/lib.rs:715-730 | over every run the effective status is what the last accepted write gave, and unscreened after a clearance has expired or without any write |
| ComplianceProvenance.InitializeSetsUp | contracts/compliance/src/lib.rs:175-205 | the whole state after an accepted initialize, with the literal defaults |
| ComplianceProvenance.AdministrationIsAcceptedExactly | contracts/compliance/src/lib.rs:207-470 | each administrative call is accepted if and only if its caller holds the key and its values are allowed |
| ComplianceProvenance.SubmissionsAreAcceptedExactly | contracts/compliance/src/lib.rs:482-625 | a screening or a review request is accepted if and only if unpaused, entitled, well formed and past its cooldown |
| ComplianceProvenance.CallersAreRefusedForAReason | contracts/compliance/src/lib.rs:999-1053 | a refusal changes nothing, and what it says of setup, pause and caller is true |
| ComplianceProvenance.ScreenersAreRefusedForAReason | contracts/compliance/src/lib.rs:243-387 | what a refusal says of screeners and proposals is true |
| ComplianceProvenance.ValuesAreRefusedForAReason | contracts/compliance/src/lib.rs:482-625 | what a refusal says of values and cooldowns is true |
| ComplianceProvenance.ListsKeepTheirOrder | contracts/compliance/src/lib.rs:1151-1182 | a new address goes to the end of a list, and only the oldest leaves a full one |
| ReadLimiter.Reader.PruneReadStartTimes | frontend/lib/stellar.ts:117-121 | drops the start times at least a window old from the front |
| ReadLimiter.Reader.ScheduleReadQueue | frontend/lib/stellar.ts:123-139 | queues a microtask or arms a timer, unless one is set or nothing waits |
| ReadLimiter.Reader.StartReads | frontend/lib/stellar.ts:146-162 | the loop starts exactly as many reads as queue, concurrency and rate allow |
| ReadLimiter.Reader.ProcessReadQueue | frontend/lib/stellar.ts:141-165 | whole state after one processing pass |
| ReadLimiter.Reader.ReadContract | frontend/lib/stellar.ts:167-176 | whole state after a read is asked for |
| ReadLimiter.Reader.OnSettled | frontend/lib/stellar.ts:155-161 | whole state after a read settles |
| ReadLimiter.Reader.OnTimer | frontend/lib/stellar.ts:135-138 | whole state after any outstanding timeout fires |
| ReadLimiter.RunKeepsInv | frontend/lib/stellar.ts:112-176 | over every run: the deque is the end of the history and what it dropped is a window old; accounting and wake-ups hold |
| ReadLimiter.StartsAreExact | frontend/lib/stellar.ts:141-165 | each tick starts exactly as many reads as there are free slots, waiting reads, and starts left of ten in the last second of the full history; they are the next in the order asked |
| ReadLimiter.CallbacksAreExact | frontend/lib/stellar.ts:123-141 | after each tick exactly one callback is added while reads wait: a microtask below ten recent starts, else a timeout due when the oldest of the ten leaves the window; none otherwise |
| ReadLimiter.RateBound | frontend/lib/stellar.ts:117-165 | in the full history, starts less than a window apart are at most ten |
| ReadLimiter.ReadsStartOnceInOrder | frontend/lib/stellar.ts:141-176 | started-but-unsettled reads equal the counter and are at most five; reads start once each in FIFO order |
| ReadLimiter.ClampNeverActs | frontend/lib/stellar.ts:158-161 | a read that settles was counted, so the clamp at zero never acts |
| ReadLimiter.WaitingReadsAreWoken | frontend/lib/stellar.ts:123-165 | with reads waiting a callback is pending, timeouts are due within a window, and when there is room the next callback starts a read |
| ReadLimiter.MicrotaskRequeuesItself | frontend/lib/stellar.ts:123-141 | at the full cap a microtask starts nothing, and queues its successor if and only if fewer than ten starts are in the window |
| ReadLimiter.SpinStarts | frontend/lib/stellar.ts:123-165 | a step of any kind ends in the spin exactly when it leaves every slot taken, a read waiting and fewer than ten starts in the window |
| ReadLimiter.SpinNeedsAnotherRead | frontend/lib/stellar.ts:141-176 | so exactly when more than five reads are unsettled, no slot is free and the window has room |
| ReadLimiter.StepAtTheCapSpins | frontend/lib/stellar.ts:146-165 | at the full cap a read, a timeout or a microtask starts it exactly when fewer than ten starts are left in the window |
| ReadLimiter.TimeoutStartsTheSpin | frontend/lib/stellar.ts:134-138 | a read at the cap with a full window arms a timeout that starts the spin when it fires at the cap |
| ReadLimiter.SpinNeverEnds | frontend/lib/stellar.ts:129-132 | while microtasks run first, over any number of them no read starts or settles and one is queued again |
| ReadLimiter.SixthReadSpins | frontend/lib/stellar.ts:167-176 | from a fresh limiter the sixth overlapping read starts the spin |
| ReadLimiter.TimerIsDueWhenASlotFrees | frontend/lib/stellar.ts:134-138 | a timer is armed only for a full window and is due when the oldest start leaves it |
| VerificationQueue.Worker.Add | oracle-service/src/verifier.ts:32-35 | whole state, and which job starts |
| VerificationQueue.Worker.OnHandlerDone | oracle-service/src/verifier.ts:49-55 | whole state after a job ends |
| VerificationQueue.Worker.OnImmediate | oracle-service/src/verifier.ts:37-44 | whole state after a deferred wake-up, and which job starts |
| VerificationQueue.JobsStartExactly | oracle-service/src/verifier.ts:37-56 | a job starts if and only if one waits and a slot is free, the longest waiting one; a finish owes a wake-up if and only if jobs wait |
| VerificationQueue.RunKeepsInv | oracle-service/src/verifier.ts:23-57 | over every interleaving: cap, FIFO, conservation, and waiting jobs mean running plus wake-ups fill every slot |
| VerificationQueue.NothingIsLost | oracle-service/src/verifier.ts:32-56 | enqueued equals finished plus running plus queued, jobs start in order |
| VerificationQueue.RunsAreBounded | oracle-service/src/verifier.ts:37-56 | without arrivals a run is no longer than three per queued, two per running, one per wake-up |
| VerificationQueue.QueueDrains | oracle-service/src/verifier.ts:37-56 | after arrivals stop the queue comes to rest, and rests exactly when everything has finished |
| EventStore.StoreEvents | indexer/src/db.ts:74-124 | inserted plus skipped is the batch, inserted is the table's growth |
| EventStore.IngestRows | indexer/src/db.ts:94-115 | old rows stay, each new id gets a row of the batch |
| EventStore.FirstOfABatchWins | indexer/src/db.ts:94-115 | of events with one id the first is stored, unless the id has a row |
| EventStore.EventsKeepTheirPlace | indexer/src/backfill.ts:62-64 | there is one event per record that holds one, each in its place among the others |
| EventStore.IngestIsConfluent | indexer/src/db.ts:74-124 | two histories of batches with the same events leave the same rows up to creation times |
| EventStore.InsertsCountDistinctIds | indexer/src/db.ts:117-123 | over a whole history of batches the reported inserts add up to the distinct new ids |
| EventPaging.GetAllEvents | indexer/src/api.ts:45-64 | every row comes from the page it falls on, in that page's order; refused if and only if the result is over the limit |
| EventPaging.PagesAreCompleteExactly | indexer/src/db.ts:175-187 | the pages hold every row once, in whatever order each sees the rows of a ledger, if and only if no ledger has rows on two pages |
| EventPaging.LedgersAreRight | indexer/src/db.ts:175-187 | every position shows a row of the right ledger in any case |
| EventPaging.OneOrderIsReassembled | indexer/src/api.ts:45-64 | when all pages see one order they reassemble it |
| Reorg.Database.RollbackFrom | indexer/src/reorg.ts:76-112 | keeps exactly the rows and hashes below the ledger, logs how many events went |
| Reorg.Database.RecordLedgerHash | indexer/src/reorg.ts:58-69 | upserts the hash row of a ledger |
| Reorg.HighestLedger | indexer/src/index.ts:207-210 | the ledger of an event of the batch that no event exceeds |
| Reorg.Loop.CheckTip | indexer/src/index.ts:211-227 | whole state after a tip is compared: rolled back and rewound, or recorded |
| Reorg.Loop.PollOnce | indexer/src/index.ts:186-311 | whole state after one iteration, also when the fetch, the store or the check of the tip fails |
| ReorgRecovery.DetectionRewinds | indexer/src/index.ts:213-223 | a detected reorg leaves nothing at or above the ledger below the tip, points the cursor there, keeps all older rows |
| ReorgRecovery.RollsBackExactly | indexer/src/reorg.ts:46-56 | an iteration rolls back if and only if the recorded hash below the tip is not the one the tip names |
| ReorgRecovery.RollbackIsLogged | indexer/src/reorg.ts:76-112 | the log entry counts exactly the rows at or above the rollback point, those of the page among them |
| ReorgRecovery.QuietPollIsExact | indexer/src/index.ts:186-266 | what any other iteration leaves: rows, hash of the tip, cursor after the last record or at the last event if the check failed |
| ReorgRecovery.FailuresAreCounted | indexer/src/index.ts:281-289 | over every run the count is above n exactly after n + 1 failures in a row, and the indexer counts as active exactly below ten |
| ReorgRecovery.RollbackRestoresSync | indexer/src/index.ts:213-223 | the state after rollback is canonical if and only if, with the page stored, rows and hashes below the rollback point are |
| ReorgRecovery.CanonicalBelowIsRestorable | indexer/src/index.ts:198-221 | so it is when they were before the page, even with orphaned rows above that share their ids |
| ReorgRecovery.RestorableFromBefore | indexer/src/index.ts:198-221 | for a page from the rollback point on, if and only if they were before the page |
| ReorgRecovery.CanonicalRunStaysInSync | indexer/src/index.ts:186-266 | polling the canonical feed in any pages, with any failures in between, keeps the table canonical and raises no false alarm |
| ReorgRecovery.RecoveryIsExact | indexer/src/index.ts:186-266 | after a rollback and any canonical polls without another one, the table equals the canonical events fetched so far if and only if the rows below the rollback point did |
| ReorgRecovery.RecoveryConverges | indexer/src/index.ts:186-266 | with canonical hashes below there is no other rollback, so the table converges |
| ReorgRecovery.NextRollback | indexer/src/index.ts:211-223 | the canonical chain triggers another rollback exactly at a page whose tip is the rollback point and whose parent on file is stale |
| ReorgRecovery.FreshParentKeepsQuiet | indexer/src/index.ts:211-223 | with the canonical parent on file no later page of a run does |
| ReorgRecovery.RowsAreTheEvents | indexer/src/db.ts:94-115 | that table has one row per canonical event and no other |
| ReorgRecovery.OlderRowsSurvive | indexer/src/index.ts:216-221 | a row more than one ledger below the tip stays through the rollback and all later canonical polls until another rollback |
| ReorgRecovery.RecordingLinks | indexer/src/reorg.ts:46-69 | recording keeps the chain linked if and only if the ledger above is absent or names the new hash |
| ReorgRecovery.ChainStaysLinkedExactly | indexer/src/reorg.ts:46-69 | over whole runs the chain stays linked if and only if no recorded tip contradicts the ledger above it |
| ReorgRecovery.RisingTipsStayLinked | indexer/src/index.ts:205-227 | in runs whose tips never go below a recorded ledger adjacent hashes always link |
| ReorgRecovery.LowerTipBreaksTheChain | indexer/src/reorg.ts:46-69 | a tip below a recorded ledger unlinks the chain |
| Backfill.RunBackfill | indexer/src/backfill.ts:27-107 | the loop's progress over any replies |
| Backfill.PagesAdvance | indexer/src/backfill.ts:66-89 | a page that goes forward and does not finish the run strictly raises the current ledger |
| Backfill.OrderedPagesGoForward | indexer/src/backfill.ts:46-51 | pages in ledger order from the requested ledger on go forward |
| Backfill.UnnamedLedgersLoop | indexer/src/backfill.ts:71-89 | a page whose last event and record name no ledger keeps a run at ledger one for ever |
| Backfill.BoundedBackfillEnds | indexer/src/backfill.ts:44-106 | a run with an end ledger is over after five iterations per ledger and per unstorable page, and four more |
| Backfill.FetchFailuresAbort | indexer/src/backfill.ts:93-105 | a run that has not completed has given up if and only if it met four failed fetches directly after a fifth or after an unstorable page |
| Backfill.FailureStreakAborts | indexer/src/backfill.ts:93-105 | the same for any streak of failures from the start, which never completes |
| Backfill.StoreFailuresNeverAbort | indexer/src/backfill.ts:52-105 | pages that cannot be stored, in any order and number, are retried for ever |
| Backfill.RunStoresItsPages | indexer/src/backfill.ts:62-77 | a run stores exactly the events of its storable pages and counts them |
| Backfill.BackfillStoresItsPages | indexer/src/backfill.ts:44-77 | so from the start, counting from zero |
| Backfill.RunEndsExactly | indexer/src/backfill.ts:44-106 | over every run, from the replies alone: it goes on while no reply ended it, is complete if and only if the first that did is an empty page or reaches the end ledger, has given up if and only if that was the last of too many failures, and asks for the ledger that follows the last stored page |
| TrancheReplay.ReplayEvents | indexer/src/db.ts:265-338 | the loop computes the replay of the first 100000 rows |
| TrancheReplay.RecomputeTrancheApy | indexer/src/db.ts:261-377 | rows of replayed tokens are rebuilt, all others stay, stale ones too |
| TrancheReplay.ReplayBalances | indexer/src/db.ts:285-338 | on every stream, per token and class, realized principal plus open capital equals funded plus what the events moved; conserved exactly when that is nothing |
| TrancheReplay.ReplayConservesCapital | indexer/src/db.ts:285-338 | capital is conserved for every token and class at every point of a stream if and only if every event keeps the books |
| TrancheReplay.ReturnsAreWhatCameBack | indexer/src/db.ts:307-334 | on every stream principal plus return equals what came back |
| TrancheReplay.OpenExactly | indexer/src/db.ts:296-334 | an invoice is open if and only if the latest event on it funds it, with the amounts of that event |
| TrancheReplay.ClosedCounts | indexer/src/db.ts:303-334 | closed positions are the number of defaults, and of repayments of an open invoice, under the token; a token has rows once there is one |
| TrancheReplay.YieldIsTheQuotient | indexer/src/db.ts:343-377 | the yield is the quotient of return by principal in basis points, cut off toward zero for gains and losses, zero without principal |
| TrancheReplay.LaterRowsAreIgnored | indexer/src/db.ts:265-268 | the replay reads the first 100000 rows |
| TrancheReplay.SwappedRowsLoseCapital | indexer/src/db.ts:265-306 | a repayment and a second funding of one ledger, read in the wrong order, lose the first deployment |
| TrancheReplay.ClassesCloseTogether | indexer/src/db.ts:307-334 | both classes count the same closed positions on every stream |
| TrancheReplay.YieldIsAtLeastTotalLoss | indexer/src/db.ts:345-347 | on every stream the yield is at least minus 10000 bps exactly when what came back is at most a basis point of the principal below zero; so when losses are covered and payouts not negative |
| TrancheReplay.LargeLossesFallBelow | indexer/src/db.ts:320-347 | a default that loses more than its invoice's deployment takes the yield below minus 10000 bps |
| RiskSignals.RecomputeSmeRiskSignals | indexer/src/db.ts:425-494 | which rows are rebuilt, with largest debtor and large-invoice shares, and which stay |
| RiskSignals.AccountsAddUp | indexer/src/db.ts:445-452 | per-debtor volumes and amounts add up to the total |
| RiskSignals.AccountIsExact | indexer/src/db.ts:437-452 | volume and number of invoices of an SME are those of its events |
| RiskSignals.DebtorVolumes | indexer/src/db.ts:437-452 | a debtor has an entry if and only if an event names it, with the volume of those events |
| RiskSignals.SignalsAreExact | indexer/src/db.ts:425-473 | the signals in terms of sets of events: part of the largest debtor, part of the invoices of at least three times the mean, volume; no owner, no account |
| RiskSignals.SignalsAreBounded | indexer/src/db.ts:459-473 | concentration between an even share and everything; large invoices bounded in volume and number |
| RiskSignals.SignalsIgnoreOrder | indexer/src/db.ts:437-473 | the signals do not depend on the order of the events |
| ConsensusReplay.ConsensusTracker.HandleEvent | oracle-service/src/consensus.ts:28-69 | whole tracker state after an event |
| ConsensusReplay.ConsensusTracker.HasVoted | oracle-service/src/consensus.ts:73-75 | the vote set answers as the round's flag does |
| ConsensusReplay.VotesAreRemembered | oracle-service/src/consensus.ts:43-50 | flag equals membership for every round at every step; membership means a vote was seen |
| ConsensusReplay.PausedIsTheLatestWord | oracle-service/src/consensus.ts:30-90 | paused if and only if an event or a failed call of this node said so and no event since that it has resumed |
| ConsensusReplay.EventIsTracked | oracle-service/src/consensus.ts:38-68 | the status each kind of event gives its round, approved exactly when the second entry is not falsy, and that no other round changes |
| ConsensusReplay.TrackerIsTheLastWord | oracle-service/src/consensus.ts:28-69 | over every run a round is approved, rejected or expired if and only if the last event that opens, decides or expires it is an approval, a rejection or an expiry |
| ConsensusReplay.Replay | indexer/src/api.ts:669-687 | the loop's status over the sorted matches |
| ConsensusReplay.ReplayIsTheLastWord | indexer/src/api.ts:669-687 | each status is answered if and only if the last event that opens, decides or expires the round is of that kind and carries that verdict |
| ConsensusReplay.BelongsExactly | indexer/src/api.ts:1048-1054 | an event belongs to an invoice if and only if its value, or the first entry of its array, is a truth value, number or text that reads like it |
| ConsensusReplay.NumbersAreTellApart | indexer/src/api.ts:1048-1054 | different numbers read differently |
| ConsensusReplay.MatchesAreFiltered | indexer/src/api.ts:659-661 | the matches are the events that belong to the invoice, in order |
| ConsensusReplay.SortIsStable | indexer/src/api.ts:659-661 | the sort is in ledger order, keeps the events and the order of those of one ledger |
| ConsensusReplay.AnswerIsDecided | indexer/src/api.ts:659-687 | the answer is what the last of the highest-ledger rows that set the status sets |
| ConsensusReplay.AnyTopEventCanDecide | indexer/src/db.ts:175-187 | each of those can come back last |
| ConsensusReplay.ReplaysAgree | indexer/src/api.ts:655-687 | tracker and replay agree in every order of the rows if and only if some event sets a status and all of the highest such ledger set what the last to arrive set |
| ConsensusReplay.OneStatusAtTheTop | indexer/src/api.ts:655-687 | for events that arrive in ledger order: if and only if those at the top set one status |
| ConsensusReplay.SharedLedgerDisagrees | indexer/src/api.ts:659-687 | a round opened and decided in one ledger on which they disagree |
| DepositMonitor.Watcher.RecordDeposit | compliance-service/src/monitor.ts:191-211 | whole state after a deposit |
| DepositMonitor.Watcher.RecordWithdraw | compliance-service/src/monitor.ts:213-224 | whole state after a withdrawal |
| DepositMonitor.Watcher.Flag | compliance-service/src/monitor.ts:226-237 | the alert list is the last 1000 of old list plus alert |
| DepositMonitor.CacheDecidesAsHistory | compliance-service/src/monitor.ts:191-237 | over every run the pruned cache raises the alerts of the whole history, and the list is their last 1000 |
| DepositMonitor.AlertsAreExact | compliance-service/src/monitor.ts:191-237 | over every run, by sets of operations: a deposit raises an alert if and only if at least maxCount deposits of its address, itself included and not cleared by an alert, are above zero, below the threshold and within the window; a withdrawal if and only if it is less than a minute after an uncleared deposit; the list is the last 1000 |
| DepositMonitor.WithdrawalSeesTheSame | compliance-service/src/monitor.ts:213-224 | a rapid cycle fires exactly when the newest deposit since the last structuring alert is under a minute old |
| DepositMonitor.ListedAlertsAreTheLatest | compliance-service/src/monitor.ts:48-50 | the served list is the last 100 alerts ever raised |
| ActivityMonitor.Monitor.CheckUnusualActivity | frontend/lib/monitoring.ts:277-308 | whole state after an activity |
| ActivityMonitor.Monitor.PruneActivityHistory | frontend/lib/monitoring.ts:90-108 | trims every list and deletes the empty ones |
| ActivityMonitor.AlertsAreThoseOfHistory | frontend/lib/monitoring.ts:277-308 | alerts are those of the whole history, and the cap of 100 never drops an entry |
| ActivityMonitor.AlertsAreExact | frontend/lib/monitoring.ts:277-308 | over every run, however pruned: an activity alerts if and only if it is the third of its key within ten minutes that no alert has cleared |
| ActivityMonitor.PruningChangesNoAlert | frontend/lib/monitoring.ts:90-108 | pruning at any points of a run changes no alert |
| ActivityMonitor.PruningForgetsTheOld | frontend/lib/monitoring.ts:90-108 | after pruning every list on file holds entries, all within the window, and a key is gone exactly when none of its entries was |
| TrancheMath.WaterfallIsFair | contracts/tranche/src/math.rs:3-30 | shares sum to the payment, junior only after the senior cap, both monotone, cap exact below saturation |
| TrancheMath.WaterfallOverTheWholeRange | contracts/tranche/src/math.rs:3-30 | for every input: senior gets the payment up to principal plus the floored saturated interest, junior the rest; no answer exactly where the cap or the rest leaves the signed range |
| TrancheMath.InterestOverTheWholeRange | contracts/tranche/src/math.rs:11-17 | one floor of the saturated product, a negative principal read as the unsigned amount it wraps to |
| TrancheMath.WaterfallIsExact | contracts/tranche/src/math.rs:3-30 | below saturation both shares in plain integers |
| TrancheMath.InterestIsExact | contracts/tranche/src/math.rs:11-17 | below saturation the nested floors are one floor |
| TrancheMath.ProjectionMatchesAccrual | frontend/lib/apy.ts:39-51 | the frontend projects what the contract accrues over whole days |
| TrancheMath.ProjectionIsOneFloor | frontend/lib/apy.ts:39-51 | nothing without principal, yield and period, else one floor of the exact interest |
| TrancheMath.ProjectionIsSuperadditive | frontend/lib/apy.ts:39-51 | splitting a period never projects more and loses at most one unit |
| TrancheMath.LossesHitJuniorFirst | contracts/tranche/src/math.rs:32-46 | for every input there is an answer, with junior bearing the shortfall up to its limit and senior exactly what exceeds it; the limit is the floored, saturated part of what junior has left and never negative |
| TrancheMath.LossSharesRise | contracts/tranche/src/math.rs:32-46 | below saturation both shares in plain integers, adding up to the shortfall, and neither falls when the shortfall grows |
| TrancheMath.MintCases | contracts/tranche/src/math.rs:56-61 | over the whole range shares are the floor of the saturated product, and negative exactly when the cast wraps |
| TrancheMath.MintOverTheWholeRange | contracts/tranche/src/math.rs:56-61 | the same for negative share counts, which the cast reads as unsigned |
| TrancheMath.MintWithoutPrice | contracts/tranche/src/math.rs:53-58 | without shares or value a unit buys one share |
| TrancheMath.SharesAreExact | contracts/tranche/src/math.rs:48-62 | while the product fits shares are one exact floor |
| TrancheContract.Contract.CheckAdvanceRate | contracts/tranche/src/deposit.rs:31-39 | which senior deposits are refused or trap |
| TrancheContract.Contract.Book | contracts/tranche/src/deposit.rs:40-73 | whole state after accounting, pricing and position are booked, or nothing when the call traps |
| TrancheContract.Contract.Deposit | contracts/tranche/src/deposit.rs:10-77 | whole state and answer of a deposit |
| TrancheContract.Contract.Unbook | contracts/tranche/src/withdraw.rs:46-97 | whole state after cost basis, profit or loss and position are booked, or nothing when the call traps |
| TrancheContract.Contract.SetTrancheConfig | contracts/tranche/src/lib.rs:251-293 | whole state and answer when the configuration of a live pool is changed |
| TrancheContract.Contract.OpenTrancheAgain | contracts/tranche/src/lib.rs:295-348 | whole state and answer when a live pool is opened again with other tokens and configuration |
| TrancheContract.Contract.Withdraw | contracts/tranche/src/withdraw.rs:10-101 | whole state and answer of a withdrawal |
| TranchePool.RunsStaySound | contracts/tranche/src/deposit.rs:28-68 | over every run of calls, configuration changes included, no deposit is negative and positions add up to the totals |
| TrancheBooks.DepositBooks | contracts/tranche/src/deposit.rs:28-77 | an accepted deposit raises deposits and liquid money of its class and the position by the amount, shares by the price after the deposit, and nothing else |
| TrancheBooks.WithdrawalBooks | contracts/tranche/src/withdraw.rs:30-110 | an accepted withdrawal lowers deposits and liquid money of its class and the position by the amount, shares by the price before it, books amount minus cost as gain or loss by its sign, and nothing else |
| TrancheBooks.DepositsAreAcceptedExactly | contracts/tranche/src/deposit.rs:10-73 | for amounts of up to 62 bits: refused for no amount, for the exceeded rate or, by a strict token, for no share, and otherwise accepted |
| TrancheBooks.RateOverflowsTrap | contracts/tranche/src/deposit.rs:31-39 | a senior deposit whose rate check leaves the signed range traps, whatever the amounts |
| TrancheBooks.WithdrawalsAreAcceptedExactly | contracts/tranche/src/withdraw.rs:10-97 | for amounts of up to 62 bits: the burned shares in plain integers, and the reasons to refuse in their order |
| TrancheBooks.ConfigurationIsTheAdmins | contracts/tranche/src/lib.rs:251-348 | who may configure or reopen, which values are refused, and that only rate and tokens change |
| TrancheBooks.DepositsAreWhatWasPaid | contracts/tranche/src/withdraw.rs:100-110 | over every run the deposits of an investor and of a class are what accepted calls paid in and out |
| TrancheBooks.LiquidMoneyIsWhatWasPaid | contracts/tranche/src/withdraw.rs:103-110 | over every run liquid money moves with the deposits; only funding, repayment and default set them apart |
| TranchePool.RateHoldsExactly | contracts/tranche/src/lib.rs:251-348 | over every run senior stays within its advance rate at every point if and only if no configuration change lowers the rate below what senior holds then |
| TranchePool.CheckedCallsMeetRate | contracts/tranche/src/deposit.rs:28-40 | from any sound pool an accepted senior deposit or junior withdrawal leaves it within its rate |
| TranchePool.RunsKeepInv | contracts/tranche/src/deposit.rs:28-68 | both together after every run without such a change |
| TranchePool.MintIsNegativeWhenItWraps | contracts/tranche/src/deposit.rs:54-58 | an accepted deposit takes shares away exactly when its mint wraps |
| TranchePool.SharesStayNonNegative | contracts/tranche/src/deposit.rs:54-63 | in every run in which no mint wraps no position has negative shares |
| TranchePool.StrictTokensNeverWrap | contracts/share/src/lib.rs:278-280 | with share tokens like the repository's that is every run |
| TranchePool.FreshPoolIsSound | contracts/tranche/src/lib.rs:112-121 | a fresh pool with a valid rate starts such a run |
| TranchePool.RateCheckIsExact | contracts/tranche/src/deposit.rs:34-39 | the floored advance-rate check is the exact one |
| TranchePricing.DepositsPriceAgainstTheDepositor | contracts/tranche/src/deposit.rs:40-63 | from a value that is not negative, every deposit keeps the value per existing share; with shares in existence the new claim is worth strictly less than the deposit |
| TranchePricing.WithdrawalsPriceForTheLeaver | contracts/tranche/src/withdraw.rs:36-56 | a withdrawal never raises value per remaining share, and takes less than one share's value too much exactly when its price is the exact floor |
| TranchePricing.BuysTooLittleIsExact | contracts/tranche/src/withdraw.rs:36-44 | the guard on the pool before a deposit holds exactly when leaving burns more shares than the deposit bought |
| TranchePricing.BuysTooLittleBelowSaturation | contracts/tranche/src/math.rs:56-61 | below saturation the guard is remainder plus amount times quotient reaching the value |
| TranchePricing.LeavingIsToldBefore | contracts/tranche/src/withdraw.rs:10-101 | for every pool and every price, wrapped or not, the answer to a new depositor who takes the whole deposit out again follows from the pool before the deposit and its two prices |
| TranchePricing.LeavingWholeIsDecidedBefore | contracts/tranche/src/withdraw.rs:10-101 | where no price wraps it is told by the guard on remainder and quotient |
| TranchePricing.LeavingFromOrdinaryClass | contracts/tranche/src/withdraw.rs:10-101 | so in every class whose value is not negative |
| TranchePricing.ZeroSharesAreTrapped | contracts/tranche/src/withdraw.rs:70 | a deposit worth less than a share buys none, and its withdrawal traps |
| TranchePricing.SecondDepositorCannotLeaveWhole | contracts/tranche/src/deposit.rs:54-63 | for every amount the second of two equal first deposits is accepted, gets half the shares while the square fits, and is told exactly this when leaving |
| TranchePricing.WrappedMintTakesAShare | contracts/tranche/src/math.rs:59-61 | a family of runs in which a deposit books minus one share |
| YieldScenarios.PartsGrow | frontend/lib/apy.ts:24-30 | a part of an amount lies between nothing and the amount and grows with the factor |
| YieldScenarios.PartIsNear | frontend/lib/apy.ts:24-30 | a part is the exact product up to one unit and half a millionth of the amount; nothing or all outside the unit range; the sign carries over |
| YieldScenarios.LossIsNear | frontend/lib/apy.ts:101-135 | the loss is principal times utilization times default rate times what is not recovered, up to three such steps |
| YieldScenarios.GrossYieldIsNear | frontend/lib/apy.ts:101-135 | the gross yield is interest times utilization up to one step, and loss plus net return is the gross yield |
| YieldScenarios.RatesAreClamped | frontend/lib/apy.ts:101-120 | rates below zero count as zero, above one as one |
| YieldScenarios.BestCaseIsBest | frontend/lib/apy.ts:101-166 | the best case is never below another case; no case loses more than principal or earns more than full interest |
| YieldScenarios.BreakevenUtilization | frontend/lib/apy.ts:177-211 | nothing exactly when full utilization misses the bar, else the middle of a bracket of width 2^-1000 |
| RateModel.CurveRises | frontend/lib/rate-model.ts:19-33 | for accepted configurations the curve never falls, stays between base and maximum and meets its end values |
| RateModel.CurveIsExact | frontend/lib/rate-model.ts:19-33 | the two lines of the curve around its kink, each floored, under the cap |
| RateModel.AcceptedExactly | frontend/lib/rate-model.ts:50-90 | a configuration is accepted if and only if every value is in its range, and a complaint names one that is not |
| RateModel.SampleRateCurve | frontend/lib/rate-model.ts:36-47 | sampled curves run from zero to full utilization, never fall and have the right ends |

## Left out

- Stellar SDK work, signing, XDR and HTTP: transactions, simulation and transport are not modelled.
- SQL text, Postgres connections, metrics, logging, files and notifications: tables are maps, transactions single steps.
- Soroban TTL extension and event publication: they do not feed back into contract state.
- User interface code, formatting, local storage, CSRF, environment checks and retry helpers: only easy members.
- Parser classification and actor extraction (indexer/src/parser.ts): the parser is the optional event of a record.
- ReadLimiter: a read function that itself asks for a read synchronously, or throws before returning a promise, is not modelled.
- Reorg: the startup lookback and the recompute hooks of the loop, whose errors the loop swallows, are not modelled; Horizon's mix of ledger numbers and paging tokens is the feed described above.
- Reorg.Database.RollbackFrom: the free-text detail of the log row is not modelled.
- Backfill.BoundedBackfillEnds: pages are taken to go forward from the requested ledger; one that does not can repeat for ever.
- EventPaging.GetAllEvents: rows that are stored while the pages are read are not modelled.
- TranchePool: one token whose pool exists, so a missing pool, pausing and the reentrancy guard are not modelled; of the share token only whether it refuses amounts that are not positive; funding, repayment and default enter as arbitrary changes of the other accounts.
- RiskSignals.SignalsIgnoreOrder: stated for the rows read; which rows the 100000-row limit keeps depends on ledger order.
- ConsensusReplay: the round's `updatedAt` clock and the text of structured identifiers are not modelled.
- DepositMonitor: a call is atomic, so interleaving across the awaited review request is not modelled, nor is the request itself.
- YieldScenarios: fractions are exact reals, so floating-point rounding and the percentage figure are not modelled.
- YieldScenarios.BreakevenUtilization: the bracket of width 2^-1000 is one of exact reals; the source's doubles stop narrowing after about fifty steps.
- ReadLimiter.SpinNeverEnds: a read whose promise settles without any input from outside could still settle between microtasks.
- RateModel.SampleRateCurve: a single point divides by zero in the source and gives no number; it is excluded.
- RPC connection pool, service loops and rescreening of tracked subjects: only easy members.
