# Panthers Fund: a verified model

The repository holds a small investment fund run by a trading agent. `panthers-fund` keeps the
fund's money: every holder owns an NFT account in whole cents, all accounts together make one
pool, and each trade's profit or loss is split over the accounts. `guardian-network` keeps the
agent alive: guardians store encrypted copies of its database, watch its heartbeat, and let one
backup take over. `solana-registry` is the on-chain directory through which the nodes find each
other. This project models the parts of all three on which money, data or identity depend, and
proves what the design promises of them.

## How it is built

| Files | What they hold |
| --- | --- |
| `Allocation`, `Arithmetic` | the pro-rata split with its sort and remainder loop, and a closed form of its result |
| `Fund`, `FundInvariants`, `FundEffects`, `FundRuns`, `FundFairness` | the tables as a value, every operation as a transaction on them, and the theorems over whole runs |
| `DatabaseLedger` | the ledger object: methods that update the tables statement by statement and roll back, each proved to be the transaction of `Fund` |
| `TradingEngine`, `TradingCycles` | selling and buying against the ledger and the withdrawal preview; trading cycles that overlap at their awaits |
| `SignedEnvelope`, `DbSync`, `BackupStorage` | signed messages and their nonce cache, snapshot replication as a machine of interleaved steps, the bounded backup table |
| `AgentRegistry`, `BackupAgents` | the one-slot registry with everything that races for it, the priority of backups and the failover along it |
| `TelegramProtocol`, `Decimal` | the nineteen text messages of the group chat, printed and parsed |
| `RegistryText`, `RegistryEntry` | hex and base64, the bytes of a registry entry, and the program that keeps them |

Code that changes state in place is a class with methods; each method's contract ties the new
state to a function of the old one, and the theorems are about that function. Where several
handlers with awaits share state (trading cycles, receives of snapshots, registrations and
takeovers) they are steps of a transition system, one step from each await to the next, and the
theorems about it hold for every interleaving. `TradingEngine.HandleSell` and `HandleBuy` are the
handlers' own code with every await answered at once; what other cycles and transactions can do
in between is the subject of `TradingCycles`. `dafny verify dfyconfig.toml` checks everything.

## Main results

- **Exact split.** For non-negative balances that make up the pool, the remainder loop ends in
  fewer rounds than there are positive balances, the shares add up to the amount, each is within
  a cent of its proportion, and the order in which accounts are listed does not matter.
- **Ledger over whole runs.** From an empty ledger every sequence of operations keeps the three
  published invariants and never makes a balance negative; the audit refuses an operation for
  one reason only, a non-zero trade on an empty pool; a refused operation changes nothing.
- **Conservation and fairness.** The pool is every deposit plus every trade's P&L less every
  payment and every fee that found no holder. Over any run of trades an account's part of the
  pool drifts by at most the sum of one cent over each pool.
- **Overlapping trades.** Whatever runs between the steps of a trading cycle, the exposure after
  an opening is what was checked, plus the position, plus what was opened and less what was closed
  since; a position becomes exactly one trade, now and ever, if and only if it was open and no
  other sale of it is in flight; and when a sale returns, the pool has moved by its total and by
  the moves of everybody else.
- **Replication.** Under loss, duplication, reordering and concurrent receives a guardian's
  number only grows, no message is accepted twice, and what it can decrypt is exactly the
  database of that number, if and only if no other signed payload was taken for a snapshot.
- **One agent per epoch.** Under every interleaving registrations exceed deactivations by one
  while an agent is active and by none otherwise; two successful takeovers are separated by a
  deactivation.
- **Handlers over runs.** Whatever happens between its awaits, what a heartbeat, a health check, a
  registration, a deactivation or the receive of an attested snapshot does at its end is stated
  exactly, in terms of what it found at each step.
- **Codecs.** A text is read as a message exactly when it carries the tag and every key of the
  message's kind. Printed messages and registry entries are read back exactly when their fields have
  the documented form. After any run of transactions the bytes of a registry account decode to
  the entry that the program's source describes.

## Where the code and its documentation differ

- `docs/README.md:337-341` promises an immediate pause when an invariant fails. Inside a
  transaction the pause is rolled back together with everything else, so no ledger operation
  ever leaves the fund paused (`FundRuns.PauseIsRolledBack`, `FundRuns.StepKeepsSettings`).
- `docs/README.md:273-285` promises equal percentage returns. They are equal if and only if the
  pool divides every balance times the P&L (`FundFairness.ReturnsAreEqual`); otherwise rounding
  moves whole cents (`FundFairness.UnequalReturnsInLedger`), and `FundFairness.LongRunFairness` bounds how far.
- The withdrawal fee goes to the remaining holders only when money remains in the pool; the fee
  of the last holder leaves the books (`FundRuns.WithdrawalIsFair`, `FundRuns.Conservation`).
- Two trading cycles may run at once: `panthers-fund/src/agent/cron.ts:77` and
  `panthers-fund/src/agent/tools.ts:484` both start one, and nothing excludes the other. The hard
  limit on exposure then holds only up to what was opened since the check
  (`TradingCycles.ExposureAfterOpening`; `TradingCycles.OverlappingBuys` reaches 89% of the pool),
  and one position can become two trades (`TradingCycles.OneTradeOnly`,
  `TradingCycles.OverlappingSales`).
- An agent that restores a guardian's snapshot is not stale to that guardian if and only if the
  guardian has accepted nothing in between (`DbSync.RestoredAgentIsNotStale`,
  `DbSync.RestoredAgentCanBeStale`).
- The receiver of snapshots does not look at the action of an envelope. The payload of another
  action, received without decryption as `guardian-network/src/api/server.ts:114` does, is stored
  and disables the stale test (`DbSync.ForeignPayloadIsStored`); a guardian is sound if and only if
  that never happens (`DbSync.SnapshotSafety`), and decrypting is enough to prevent it
  (`DbSync.VerifyingIsEnough`).
- The nonce cache fills before anything is authenticated, so envelopes that do not verify count
  towards the entries that push a nonce out (`SignedEnvelope.ReplayIsBounded`,
  `SignedEnvelope.JunkMakesRoom`).
- Rejection reasons with blanks, which `guardian-network/src/guardian/db-sync.ts:194-235`
  publishes, are cut at the first blank when parsed (`TelegramProtocol.ReasonIsCut`,
  `TelegramProtocol.SpokenReasonIsCut`).
- A health check reads the current agent again after its verdict
  (`guardian-network/src/sentry/agent-verification.ts:164-167`), so one that was due for an agent can turn
  off its healthy successor (`AgentRegistry.HealthCheckExactly`, `AgentRegistry.HealthCheckCanHitSuccessor`).
- The comment at `guardian-network/src/sentry/agent-verification.ts:210-215` speaks of
  registration order and of skipping stale entries; the code walks the list as given.
- `panthers-fund/src/database/schema.sql` carries CHECK constraints. The model includes them as
  a further cause of rollback: they are why a loss larger than the pool is refused. Solvency of
  the split itself does not lean on them (`Allocation.SplitIsSolvent`,
  `FundInvariants.SpreadSolvent`).

## Model

| member | source | states |
|---|---|---|
| Allocation.RankedPermutes | panthers-fund/src/database/ledger.ts:342-343 | the sort loses and invents no account |
| Allocation.SortedIsUnique | panthers-fund/src/database/ledger.ts:342-343 | the key (balance descending, token ascending) is a strict total order: one sorted listing exists |
| Allocation.MissingBounds | panthers-fund/src/database/ledger.ts:340-352 | truncation leaves fewer cents than there are positive balances, so the loop's modulo index never wraps |
| Allocation.ExtraToPositive | panthers-fund/src/database/ledger.ts:342-352 | a remainder cent goes only to an account that owns something |
| Allocation.SplitTrade | panthers-fund/src/database/ledger.ts:329-352 | the in-place loops terminate and compute the closed-form split, for profits and losses |
| Allocation.SplitFee | panthers-fund/src/database/ledger.ts:443-461 | the fee loop, which stops at a non-positive remainder, computes the same split as the trade loop |
| Allocation.SplitIsExact | panthers-fund/src/database/ledger.ts:329-352 | the shares add up to the amount to the cent |
| Allocation.SplitIsFair | panthers-fund/src/database/ledger.ts:329-352 | each share is within one cent of balance times amount over pool, has its sign, and is zero for an empty account |
| Allocation.SplitIsSolvent | panthers-fund/src/database/ledger.ts:329-369 | a loss no larger than the pool takes from no account more than it has, remainder cents included |
| Allocation.SplitIgnoresListing | panthers-fund/src/database/ledger.ts:329-352 | every permutation of the listed accounts yields the same shares |
| Allocation.ProfitKeepsOrder | panthers-fund/src/database/ledger.ts:333-369 | a profit keeps strict order of wealth; equal balances end at most a cent apart, the lower token not behind |
| Allocation.LossKeepsOrder | panthers-fund/src/database/ledger.ts:333-369 | a loss no larger than the pool inverts a pair by at most one cent |
| Allocation.ReturnsAreEqualExactly | docs/README.md:273-285 | every share is exactly proportional if and only if the pool divides every balance times the amount |
| Allocation.UnequalReturns | docs/README.md:273-285 | balances of one and two cents with a profit of one cent: returns are not equal |
| FundInvariants.SpreadBalances | panthers-fund/src/database/ledger.ts:354-378 | a distribution keeps pool = active balances and balance = deposit + P&L, and touches no owner, deposit or inactive account |
| FundInvariants.SpreadSolvent | panthers-fund/src/database/ledger.ts:319-378 | after a distribution no balance is negative if and only if the pool is not |
| FundInvariants.AllocationsAfter | panthers-fund/src/database/ledger.ts:354-369 | a trade's allocations add up to its P&L and leave every other trade's sum alone |
| FundInvariants.TradeAudited | panthers-fund/src/database/ledger.ts:788-805 | the allocation audit passes if and only if the P&L is zero or was distributed |
| FundInvariants.CreateOutcome | panthers-fund/src/database/ledger.ts:182-219 | exactly when an account is created, never by audit failure, and validity is kept |
| FundInvariants.AddFundsOutcome | panthers-fund/src/database/ledger.ts:253-291 | exactly when funds are added, never by audit failure, and validity is kept |
| FundInvariants.TradeOutcome | panthers-fund/src/database/ledger.ts:295-317 | exactly when a trade commits, when the schema stops it and when the audit does |
| FundInvariants.WithdrawOutcome | panthers-fund/src/database/ledger.ts:383-431 | an account leaves exactly when the fund runs and it is active with a positive balance; validity is kept |
| FundInvariants.SellOutcome | panthers-fund/src/database/ledger.ts:488-542 | exactly when a peer sale is recorded; validity is kept |
| FundInvariants.SwapOutcome | panthers-fund/src/database/ledger.ts:648-701 | exactly when a swap is executed; validity is kept |
| FundRuns.StepKeepsSettings | panthers-fund/src/database/ledger.ts:748-812 | no operation changes the pause flag: a pause before the throw is rolled back |
| FundRuns.StepKeepsValid | panthers-fund/src/database/ledger.ts:748-805 | every operation keeps the invariants; the audit fires if and only if a non-zero trade meets an empty pool |
| FundRuns.RunsAreValid | docs/README.md:318-335 | every reachable ledger satisfies the three invariants, counts its accounts, has no negative balance and is not paused |
| FundRuns.PauseIsRolledBack | docs/README.md:337-341 | a trade that fails the audit leaves the fund unpaused |
| FundRuns.HoldersGain | panthers-fund/src/database/ledger.ts:433-483 | spreading a fee costs nobody anything |
| FundRuns.WithdrawalIsFair | panthers-fund/src/database/ledger.ts:383-484 | fee is a fiftieth, net + fee = balance, nobody else loses, and the pool keeps the fee exactly when money remains |
| FundRuns.StepBalances | panthers-fund/src/database/ledger.ts:182-542 | every operation keeps the books but for a fee that finds no holder |
| FundRuns.Conservation | panthers-fund/src/database/ledger.ts:182-484 | pool = all deposits + all P&L - all net payments - all stranded fees, in every reachable state |
| FundRuns.TradeKeepsOrder | panthers-fund/src/database/ledger.ts:319-378 | order of wealth of any two accounts over a committed trade |
| FundRuns.SaleChangesOwner | panthers-fund/src/database/ledger.ts:488-542 | a peer sale hands over the token, moves no money, and ends exactly the token's listings |
| FundRuns.SwapExchangesOwners | panthers-fund/src/database/ledger.ts:648-701 | a swap exchanges two owners and nothing else, and cancels every other pending request on either token |
| FundEffects.ReachableInvariants | docs/README.md:318-335 | in every reachable ledger the pool is the sum over the active tokens, every active balance is deposit plus P&L, and every trade's rows add up to its P&L, written out on the tables |
| FundEffects.PauseRefuses | panthers-fund/src/database/ledger.ts:182-701 | an operation is refused as paused if and only if the fund is paused |
| FundEffects.UnknownAccountRefused | panthers-fund/src/database/ledger.ts:253-542 | no money is added to, paid out of, listed for or sold from a token that is unknown or withdrawn |
| FundEffects.CreateWrites | panthers-fund/src/database/ledger.ts:182-219 | the new account has the given owner, address and deposit, balance equal to deposit and no P&L; every other row and table is as it was |
| FundEffects.AddFundsWrites | panthers-fund/src/database/ledger.ts:253-291 | deposit, balance and pool grow by the amount, one addition row is written, and nothing else changes |
| FundEffects.TradeWrites | panthers-fund/src/database/ledger.ts:295-378 | each active account moves by its allocation row in balance and P&L alike; rows hold trade, token, share, balance and pool before the trade |
| FundEffects.NewRowsCover | panthers-fund/src/database/ledger.ts:354-369 | a trade with P&L writes one row for every active account and none for any other |
| FundEffects.WithdrawWrites | panthers-fund/src/database/ledger.ts:383-484 | the account is emptied and closed and keeps its owner and history; its row holds amount, fee (a fiftieth, rounded down) and net; every other account keeps owner and deposit |
| FundEffects.ListWrites | panthers-fund/src/database/ledger.ts:544-567 | the listing names the token, its owner and the price, unsold |
| FundEffects.ProposeWrites | panthers-fund/src/database/ledger.ts:577-625 | a request is accepted if and only if the two owners are as named, differ, and have not asked this before; its row is pending and expires the given hours later |
| FundEffects.SwapWrites | panthers-fund/src/database/ledger.ts:648-701 | a request is executed if and only if it is pending, in time, and both tokens are active and still owned as agreed; then no request that names either token is pending, and requests that name neither are as they were |
| FundFairness.TradeDrift | panthers-fund/src/database/ledger.ts:319-378 | one trade moves an account's part of the pool by at most a cent over the new pool |
| FundFairness.LongRunFairness | docs/README.md:273-285 | over any run of trades with positive pools the drift is at most the sum of those steps |
| FundFairness.ReturnsAreEqual | docs/README.md:273-285 | a committed trade gives equal percentage returns if and only if the pool divides every active balance times the P&L |
| FundFairness.UnequalReturnsInLedger | docs/README.md:273-285 | two deposits of one and two cents and a profit of one cent: the ledger commits unequal returns |
| DatabaseLedger.Ledger.VerifyInvariants | panthers-fund/src/database/ledger.ts:748-812 | true exactly when the three audits pass; otherwise the fund is paused and nothing else changes |
| DatabaseLedger.Ledger.CreateNFTAccount | panthers-fund/src/database/ledger.ts:182-219 | commits the specified transaction or leaves every table as it was |
| DatabaseLedger.Ledger.AddFundsToNFT | panthers-fund/src/database/ledger.ts:253-291 | commits the specified transaction or leaves every table as it was |
| DatabaseLedger.Ledger.DistributeTradePnL | panthers-fund/src/database/ledger.ts:319-378 | the row-by-row loop books the whole split or stops at a CHECK, exactly when the final balances would violate one |
| DatabaseLedger.Ledger.RecordTrade | panthers-fund/src/database/ledger.ts:295-317 | commits the specified transaction or leaves every table as it was |
| DatabaseLedger.Ledger.DistributeWithdrawalFee | panthers-fund/src/database/ledger.ts:433-484 | books the split of the fee, skipping zero shares |
| DatabaseLedger.Ledger.RecordWithdrawal | panthers-fund/src/database/ledger.ts:383-431 | commits the specified transaction or leaves every table as it was |
| DatabaseLedger.Ledger.RecordP2PSale | panthers-fund/src/database/ledger.ts:488-542 | commits the specified transaction or leaves every table as it was |
| DatabaseLedger.Ledger.ExecuteSwap | panthers-fund/src/database/ledger.ts:648-701 | commits the specified transaction or leaves every table as it was, the expiry mark included |
| DatabaseLedger.Ledger.CreateP2PListing | panthers-fund/src/database/ledger.ts:544-567 | lists an active account at a positive price, or changes nothing |
| DatabaseLedger.Ledger.CreateSwapRequest | panthers-fund/src/database/ledger.ts:577-625 | records a pending request between two owners, one per ordered pair, or changes nothing |
| DatabaseLedger.Ledger.OpenPosition | panthers-fund/src/database/ledger.ts:985-998 | appends one position with a new id, or changes nothing |
| DatabaseLedger.Ledger.ClosePosition | panthers-fund/src/database/ledger.ts:1017-1022 | removes exactly the position with that id, or reports that there is none |
| TradingEngine.SellOne | panthers-fund/src/agent/trading-engine.ts:340-376 | the trade is recorded first, with the whole cents received less what the position cost as its P&L, by which the pool moves; the call returns exactly when the ledger takes it and the position is open; a trade whose position is gone stays |
| TradingEngine.HandleSell | panthers-fund/src/agent/trading-engine.ts:307-397 | with every await answered at once: returns normally exactly when the ledger takes each fill in turn; then exactly the filled positions are gone, each is one trade, and the pool moved by the reported total; a refused trade keeps the earlier fills |
| TradingEngine.FillsAreReceipts | panthers-fund/src/agent/trading-engine.ts:340-342 | each fill is one swap that succeeded, in order: 10 000 units to a cent, received in whole cents less what the position cost |
| TradingEngine.HandleBuy | panthers-fund/src/agent/trading-engine.ts:215-303 | with every await answered at once: exactly when a position opens and how large; exposure on the pair is then below 60% of the pool |
| TradingEngine.MayBuyMeans | panthers-fund/src/agent/trading-engine.ts:222-251 | the checks pass if and only if exposure is below 30% of the pool and below what governance allows, and the position is at least a cent |
| TradingEngine.PositionIsPercent | panthers-fund/src/agent/trading-engine.ts:240-247 | a position is the asked percentage, ten by default and kept between 5 and 30, of the pool in whole cents |
| TradingCycles.RunIsSafe | panthers-fund/src/agent/trading-engine.ts:47-397 | under every interleaving of cycles, transactions and pauses the ledger stays valid, open positions are those without a trade, and exposure is what was opened less what was closed |
| TradingCycles.StartOutcome | panthers-fund/src/agent/trading-engine.ts:47-62 | a cycle waits for the market exactly when the fund runs, holds money and has holders |
| TradingCycles.HoldOrSellOutcome | panthers-fund/src/agent/trading-engine.ts:307-321 | a hold ends the cycle; a sale begins with its first position, or ends when there is none |
| TradingCycles.BuyOutcome | panthers-fund/src/agent/trading-engine.ts:222-251 | a buy goes on to its swap, with what size, exactly when the checks on the pool it read pass |
| TradingCycles.OpeningOutcome | panthers-fund/src/agent/trading-engine.ts:253-292 | a position is opened, as it was checked, unless the fund was paused meanwhile |
| TradingCycles.SellOutcomeOfSwap | panthers-fund/src/agent/trading-engine.ts:321-342 | a swap that fails skips the position; one that succeeds adds its P&L to the total |
| TradingCycles.SaleRecordsReceipt | panthers-fund/src/agent/trading-engine.ts:340-376 | the trade a cycle records, whatever ran since its swap, is what the position cost and the whole cents received less that; the pool moves by it |
| TradingCycles.RecordingOutcome | panthers-fund/src/agent/trading-engine.ts:352-376 | a recorded fill is one trade, of its amount and P&L, and one entry; one that is refused leaves the ledger alone and ends the cycle |
| TradingCycles.ClosingOutcome | panthers-fund/src/agent/trading-engine.ts:374-396 | then its position is gone; the cycle goes on to the next position, returns its total, or throws because the position was gone before |
| TradingCycles.BookedOutcome | panthers-fund/src/agent/trading-engine.ts:340-379 | a fill is booked exactly when the fund runs and the pool covers it; the cycle goes on exactly when the position is still open |
| TradingCycles.ExposureAfterOpening | panthers-fund/src/agent/trading-engine.ts:222-292 | exposure after an opening is below 60% of the pool read at the start if and only if what was opened less closed since the check is below the room it left; always when nothing else was opened |
| TradingCycles.OverlappingBuys | panthers-fund/src/agent/trading-engine.ts:222-292 | a run from an empty ledger in which two overlapping buys leave 89% of the pool exposed |
| TradingCycles.TransactionMoves | panthers-fund/src/database/ledger.ts:182-701 | each transaction moves the pool by its deposit, P&L, or balance paid out less the fee that stays |
| TradingCycles.SaleReturns | panthers-fund/src/agent/trading-engine.ts:317-396 | a sale that returns recorded exactly its fills, closed each position, and the pool is its start plus the reported total plus the moves of everybody else |
| TradingCycles.OneTradeOnly | panthers-fund/src/agent/trading-engine.ts:321-376 | a recorded sale is its position's only trade in every continuation if and only if the position was open and no other sale of it is in flight |
| TradingCycles.OverlappingSales | panthers-fund/src/agent/trading-engine.ts:321-376 | a run from an empty ledger in which one position becomes two trades and the second cycle throws |
| TradingEngine.PreviewIsExact | panthers-fund/src/marketplace/marketplace.ts:206-226 | a preview is offered exactly when the withdrawal would commit, with the fee, net amount and recipients then recorded |
| BackupStorage.TableRefinesHistory | guardian-network/src/guardian/storage.ts:18-45 | the table keeps min(bound, stored) backups, none older than any it dropped, in whatever order they arrive |
| BackupStorage.LatestIsGreatestEver | guardian-network/src/guardian/storage.ts:40-45 | a backup is served if and only if one may be kept and one was stored; it has the greatest timestamp ever stored |
| BackupStorage.Storage.Store | guardian-network/src/guardian/storage.ts:18-38 | inserts and prunes as the specified table does |
| BackupStorage.Storage.Prune | guardian-network/src/guardian/storage.ts:79-91 | drops the oldest rows down to the bound: as many stay as the bound allows, none older than any that went |
| BackupStorage.Storage.GetLatest | guardian-network/src/guardian/storage.ts:40-45 | a stored row that no other row is newer than |
| SignedEnvelope.CanonicalBindsFields | guardian-network/src/shared/signed-envelope.ts:102-114 | equal canonical strings have equal fields, whatever the sender is called |
| SignedEnvelope.CanonicalText | guardian-network/src/shared/signed-envelope.ts:102-114 | the signed text of an envelope, as a literal |
| SignedEnvelope.NonceTracker.Check | guardian-network/src/shared/signed-envelope.ts:68-98 | true exactly for a nonce not in the cache; `seen` and `order` agree and the oldest entries are evicted |
| SignedEnvelope.VerifyEnvelope | guardian-network/src/shared/signed-envelope.ts:175-228 | each of the seven verdicts is given exactly when its condition holds, and the nonce is remembered before payload and signature are checked |
| SignedEnvelope.CacheIsLastEntered | guardian-network/src/shared/signed-envelope.ts:68-98 | after any run the cache is the last maxSize nonces that entered, each once |
| SignedEnvelope.ReplayIsBounded | guardian-network/src/shared/signed-envelope.ts:175-228 | an envelope that verified verifies again if and only if it is timely and at least maxSize nonces entered since, its own not among the last of them; the two moments are at most maximal age plus drift apart |
| SignedEnvelope.JunkMakesRoom | guardian-network/src/shared/signed-envelope.ts:197-228 | with a cache of one, one envelope that does not verify lets the previous one verify again |
| DbSync.VaultClient.CreateSnapshot | panthers-fund/src/agent/vault-client.ts:118-142 | without a key nothing is spent; otherwise the next number, and a snapshot that opens to the database |
| DbSync.VaultClient.DecryptSnapshot | panthers-fund/src/agent/vault-client.ts:147-166 | takes over the snapshot's number exactly when it opens and matches its checksum |
| DbSync.DBSnapshotReceiver.BeginReceive | guardian-network/src/guardian/db-sync.ts:159-207 | the part of a receive up to its await, with every envelope check, as the protocol's step function has it; DbSync.BeginExactly says what that is |
| DbSync.DBSnapshotReceiver.FinishReceive | guardian-network/src/guardian/db-sync.ts:209-245 | the part after the await: stale or broken snapshots change nothing, others are stored |
| DbSync.BeginExactly | guardian-network/src/guardian/db-sync.ts:159-207 | a message waits exactly when its envelope passes every check and it carries a quote; it is stored at once exactly when it passes, needs no quote and its snapshot is welcome; otherwise what the guardian holds stays |
| DbSync.RepeatIsRejected | guardian-network/src/guardian/db-sync.ts:173-184 | a timely message from a known sender uses up its nonce: any message with that nonce is rejected next and changes nothing |
| DbSync.DeliverWaits | guardian-network/src/guardian/db-sync.ts:189-207 | a verified message with a quote adds exactly one pending receive and changes nothing that is held |
| DbSync.ResumeExactly | guardian-network/src/guardian/db-sync.ts:189-245 | a receive that resumes attested is stored if and only if it is not stale and, when verifying, opens; otherwise, or not attested, the guardian is as it was |
| DbSync.AttestedIsStored | guardian-network/src/guardian/db-sync.ts:159-245 | over a run: a verified message with a quote is stored when its attestation arrives, whatever happened in between, if and only if it is then not stale and opens when it must |
| DbSync.RunIsSafe | guardian-network/src/guardian/db-sync.ts:159-261 | a reachable world is safe (accepted snapshots genuine, strictly increasing, the last one held) if and only if nothing but snapshots was accepted |
| DbSync.NumberIsMonotone | guardian-network/src/guardian/db-sync.ts:209-240 | while only snapshots are accepted, a guardian's number never decreases and stands still exactly while nothing is accepted |
| DbSync.SnapshotSafety | guardian-network/src/guardian/db-sync.ts:159-261 | numbers strictly increase, no message is accepted twice, and the guardian decrypts a database held under its very number, if and only if nothing but snapshots was accepted |
| DbSync.VerifyingIsEnough | guardian-network/src/guardian/db-sync.ts:216-237 | a guardian that decrypts whatever it receives accepts nothing but snapshots |
| DbSync.ForeignPayloadIsStored | guardian-network/src/api/server.ts:105-122 | a run in which the payload of another action is stored, and the guardian falls back to an old number |
| DbSync.DecryptLatestIsExact | guardian-network/src/guardian/db-sync.ts:252-261 | while one agent runs and only snapshots are accepted, a guardian at number n decrypts the agent's n-th database |
| DbSync.RestoredAgentIsNotStale | panthers-fund/src/agent/vault-client.ts:144-166 | a restored agent's next message is not stale if and only if the guardian has accepted nothing since the restore; then it is accepted exactly when the envelope, quote and attestation checks let it |
| DbSync.RestoredAgentCanBeStale | panthers-fund/src/agent/vault-client.ts:144-166 | a run in which a late snapshot of the predecessor makes the restored agent's first message stale |
| AgentRegistry.LocalRegistryClient.RegisterAgent | guardian-network/src/shared/registry-client.ts:29-45 | installs a new active record exactly when none is active |
| AgentRegistry.LocalRegistryClient.Heartbeat | guardian-network/src/shared/registry-client.ts:47-62 | moves the heartbeat exactly of the active agent with that id |
| AgentRegistry.LocalRegistryClient.CheckHeartbeat | guardian-network/src/shared/registry-client.ts:64-75 | nothing without an agent; otherwise its activity, the age of its heartbeat in whole seconds, and whether that exceeds 300 |
| AgentRegistry.OverdueMeansSilent | guardian-network/src/shared/registry-client.ts:64-75 | overdue is active and silent for at least 301 seconds, more than 300 whole ones |
| AgentRegistry.LocalRegistryClient.DeactivateAgent | guardian-network/src/shared/registry-client.ts:77-88 | turns off exactly the agent with that id |
| AgentRegistry.RegisterWrites | guardian-network/src/shared/registry-client.ts:29-45 | the new record has the given id and time and is active; with an agent active nothing is written |
| AgentRegistry.BeatWrites | guardian-network/src/shared/registry-client.ts:47-62 | only the heartbeat of the active agent with that id moves, to the given time |
| AgentRegistry.DeactivateWrites | guardian-network/src/shared/registry-client.ts:77-88 | only the activity of the agent with that id changes |
| AgentRegistry.HandlerKeepsSlot | guardian-network/src/sentry/agent-verification.ts:124-186 | every handler, resumed at any await, leaves at most the newest record active |
| AgentRegistry.HealthCheckExactly | guardian-network/src/sentry/agent-verification.ts:154-180 | over a run, whatever happens between its three steps: a health check turns off the current agent if and only if the agent current at its call was active and silent for more than 300 whole seconds, and the agent it read next has the id of the one current at its end |
| AgentRegistry.UndisturbedHealthCheck | guardian-network/src/sentry/agent-verification.ts:154-180 | with nothing in between, exactly the silent agent is turned off |
| AgentRegistry.HealthCheckCanHitSuccessor | guardian-network/src/sentry/agent-verification.ts:164-167 | a run from an empty registry in which a check that was due for one agent turns off its healthy successor |
| AgentRegistry.HeartbeatExactly | guardian-network/src/sentry/agent-verification.ts:127-149 | over a run: a heartbeat moves the current agent's to its own time if and only if the agent it names is active at both its steps and its attestation holds |
| AgentRegistry.RegistrationExactly | guardian-network/src/sentry/registration-voting.ts:61-108 | over a run: a registration adds one active record if and only if nobody is active at its end and its attestation holds; each refusal has exactly its reason |
| AgentRegistry.DeactivationExactly | guardian-network/src/api/sentry-routes.ts:327-345 | over a run: a requested deactivation turns off the agent it names if and only if that is current at both its steps |
| AgentRegistry.ExecutionInstalls | guardian-network/src/sentry/registration-voting.ts:129-149 | an executed proposal installs the agent it names unless somebody is active |
| AgentRegistry.UndisturbedTakeover | panthers-fund/src/agent/backup-coordination.ts:61-118 | a takeover with nothing in between: lost race, registration and recovery, or another attempt, three in all |
| AgentRegistry.LostReply | panthers-fund/src/agent/backup-coordination.ts:69-118 | a lost reply costs one attempt of three |
| AgentRegistry.OneAgentPerEpoch | guardian-network/src/sentry/registration-voting.ts:61-152 | under every interleaving registrations exceed deactivations by one while an agent is active and by none otherwise |
| AgentRegistry.TakeoversAreSeparated | panthers-fund/src/agent/backup-coordination.ts:61-186 | two successful takeovers registered different records, with a deactivation of the first between them |
| BackupAgents.BackupTable.RegisterBackupAgent | panthers-fund/src/database/ledger.ts:1183-1202 | a repeated registration keeps streak and date; the position counts the agents that come no later, which is everybody for a newcomer |
| BackupAgents.RegistrationWrites | panthers-fund/src/database/ledger.ts:1183-1193 | the endpoint and the heartbeat are the new ones, streak and date of a known agent stay, and no other agent changes |
| BackupAgents.RegisteringKeepsOrder | panthers-fund/src/database/ledger.ts:1183-1202 | registering again moves nobody in the order of priority; a newcomer comes last |
| BackupAgents.BackupTable.Heartbeat | panthers-fund/src/database/ledger.ts:1205-1229 | moves the heartbeat of a known agent and, when one is named, its endpoint; the streak grows within the grace window and is reset after it |
| BackupAgents.HeartbeatWrites | panthers-fund/src/database/ledger.ts:1205-1229 | dated now, with the endpoint that is named or else the old one; the streak grows by one within 35 minutes and is zero after that; date of registration and other agents stay |
| BackupAgents.StreakOfRun | panthers-fund/src/database/ledger.ts:1205-1229 | after any run of heartbeats the streak counts those since the last late one |
| BackupAgents.ListIsByStreakThenAge | panthers-fund/src/database/ledger.ts:1232-1236 | along the list streaks never grow and among equal streaks the older registration comes first, in both directions |
| BackupAgents.RankMeans | panthers-fund/src/database/ledger.ts:1195-1201 | a longer streak outranks any date; with equal streaks the older registration does |
| BackupAgents.PositionIsPlace | panthers-fund/src/database/ledger.ts:1183-1236 | the position is the agent's place in the priority list, the last place of its group among equals |
| BackupAgents.AttemptOrderedFailover | guardian-network/src/sentry/agent-verification.ts:216-272 | the first backup on the list that answers, is ready and is accepted; none exactly when there is none |
| BackupAgents.FailoverByPriority | guardian-network/src/sentry/agent-verification.ts:210-272 | along the priority list the chosen backup outranks every other that would have been accepted |
| Decimal.RoundTrip | guardian-network/src/shared/telegram-protocol.ts:153-185 | a printed natural number is a digit string that reads back as that number |
| TelegramProtocol.FormatIsTemplate | guardian-network/src/shared/telegram-protocol.ts:129-205 | what each of the nineteen format functions prints, as one template of literals and fields |
| TelegramProtocol.TagIsUnmistakable | guardian-network/src/shared/telegram-protocol.ts:224-404 | no tag is a prefix of another tag, whatever follows it |
| TelegramProtocol.FieldFound | guardian-network/src/shared/telegram-protocol.ts:209-214 | no field value can be read as another key: each key finds its own value |
| TelegramProtocol.FindIsLeftmost | guardian-network/src/shared/telegram-protocol.ts:209-220 | the value comes from the leftmost place where the key with its equals sign stands at the start or after white space and can be read, and there is none exactly when there is no such place |
| TelegramProtocol.WordIsLongest | guardian-network/src/shared/telegram-protocol.ts:209-214 | a value is the longest stretch without white space |
| TelegramProtocol.TrimCuts | guardian-network/src/shared/telegram-protocol.ts:224-226 | trimming cuts white space off both ends and nothing else |
| TelegramProtocol.PercentReadsBack | guardian-network/src/shared/telegram-protocol.ts:216-220 | a percentage with at most one decimal is read back exactly |
| TelegramProtocol.PercentShape | guardian-network/src/shared/telegram-protocol.ts:216-220 | nothing but digits, perhaps a point and more digits, and a percent sign is read as a percentage |
| TelegramProtocol.TwoDecimals | guardian-network/src/shared/telegram-protocol.ts:216-220 | two decimals are read as hundredths |
| TelegramProtocol.ParseExactly | guardian-network/src/shared/telegram-protocol.ts:224-404 | for every text and message: the text parses to the message if and only if it begins, after trimming, with the tag of its kind (and is that tag for a discover request) and every field stands under its key |
| TelegramProtocol.MessageExactly | guardian-network/src/shared/telegram-protocol.ts:224-404 | a text is a message if and only if some tag is its prefix and every key of that kind can be read, a status being approved or rejected |
| TelegramProtocol.NoTagNoMessage | guardian-network/src/shared/telegram-protocol.ts:224-404 | a text that begins with no tag is no message |
| TelegramProtocol.ParsedIsClean | guardian-network/src/shared/telegram-protocol.ts:224-404 | no text at all parses to a message with an empty or blank-carrying text field |
| TelegramProtocol.RoundTrip | guardian-network/src/shared/telegram-protocol.ts:129-404 | for all nineteen kinds, parsing what was printed gives the message back if and only if its text fields are non-empty and free of white space |
| TelegramProtocol.ReasonIsCut | guardian-network/src/shared/telegram-protocol.ts:187-214 | a rejection with a reason in words is read back with the reason cut at its first blank |
| TelegramProtocol.SpokenReasonIsCut | guardian-network/src/guardian/db-sync.ts:226-229 | the rejection published for a bad checksum is read back as one word |
| RegistryText.HexRoundTrip | panthers-fund/src/registry/solana-registry-client.ts:61-73 | a hex field comes back unchanged if and only if it is lower-case hex of the full length |
| RegistryText.HexAt | panthers-fund/src/registry/solana-registry-client.ts:61-73 | byte i is printed at 2i and 2i+1, upper four bits first, in 0123456789abcdef |
| RegistryText.HexReadStops | panthers-fund/src/registry/solana-registry-client.ts:69-73 | reading takes leading pairs of digits and stops at the first that is none |
| RegistryText.HexAlphabet | panthers-fund/src/registry/solana-registry-client.ts:61-73 | the sixteen digits and their values, read in either case, and nothing else is a digit |
| RegistryText.FitKeepsHead | panthers-fund/src/registry/solana-registry-client.ts:69-79 | a field that is too long is cut, one that is too short ends in zeros |
| RegistryText.Base64RoundTrip | panthers-fund/src/registry/solana-registry-client.ts:65-79 | a base64 field comes back unchanged if and only if it is the canonical text of that many bytes |
| RegistryText.GroupIsOneNumber | panthers-fund/src/registry/solana-registry-client.ts:65-79 | the four letters of a group, read as one number, are its three bytes |
| RegistryText.Base64Alphabet | panthers-fund/src/registry/solana-registry-client.ts:65-79 | the sixty-four letters in order, and the two of the URL-safe alphabet |
| RegistryText.TestVectors | panthers-fund/src/registry/solana-registry-client.ts:65-79 | groups of one, two and three bytes with their padding, as RFC 4648 section 10 lists them |
| RegistryEntry.LERoundTrip | panthers-fund/src/registry/solana-registry-client.ts:91-112 | k little-endian bytes read back exactly the numbers below 256 to the k |
| RegistryEntry.ByteOrder | panthers-fund/src/registry/solana-registry-client.ts:91-112 | the least significant byte comes first |
| RegistryEntry.BuildRegisterIx | panthers-fund/src/registry/solana-registry-client.ts:259-291 | the buffer filled behind a moving offset is the instruction's layout, every byte written |
| RegistryEntry.DecodeEntry | panthers-fund/src/registry/solana-registry-client.ts:84-131 | the reader with its moving offset computes the specified decoding, giving up on reads past the end |
| RegistryEntry.DecodeRefuses | panthers-fund/src/registry/solana-registry-client.ts:84-131 | an account is refused if and only if it is too short for the fields its length prefix announces |
| RegistryEntry.DecodeReadsAt | panthers-fund/src/registry/solana-registry-client.ts:84-131 | every field is read at its offset behind the endpoint |
| RegistryEntry.ArgumentsReadBack | solana-registry/programs/solana-registry/src/lib.rs:13-21 | the program reads from the instruction exactly the arguments the client wrote |
| RegistryEntry.RegisterLayout | panthers-fund/src/registry/solana-registry-client.ts:259-291 | where each argument stands in the instruction |
| RegistryEntry.StoredReadsBack | solana-registry/programs/solana-registry/src/lib.rs:84-108 | program and readers see the entry that was stored, whatever bytes lie behind it |
| RegistryEntry.BytesMirrorEntry | solana-registry/programs/solana-registry/src/lib.rs:12-113 | after any run the account's bytes hold exactly the program's entry, within SIZE = 399 bytes |
| RegistryEntry.RegisterWrites | solana-registry/programs/solana-registry/src/lib.rs:13-41 | after any run the bytes decode to exactly the registered fields, active and dated now, if the endpoint has at most 256 bytes and the type is 0 or 1; otherwise they are as before |
| RegistryEntry.HeartbeatWrites | solana-registry/programs/solana-registry/src/lib.rs:44-51 | after any run, an active account decodes to what it did but for the heartbeat, and an inactive one keeps its bytes |
| RegistryEntry.EndpointWrites | solana-registry/programs/solana-registry/src/lib.rs:54-62 | after any run, an active account decodes to what it did but for the endpoint, if that has at most 256 bytes; otherwise it keeps its bytes |
| RegistryEntry.AttestationWrites | solana-registry/programs/solana-registry/src/lib.rs:65-71 | after any run, an active account decodes to what it did but for the attestation hash, and an inactive one keeps its bytes |
| RegistryEntry.DeactivateWrites | solana-registry/programs/solana-registry/src/lib.rs:74-79 | after any run, an account decodes to what it did, but inactive; none appears where there was none |
| RegistryEntry.DeactivatedStaysOff | solana-registry/programs/solana-registry/src/lib.rs:44-79 | once deactivated, an account decodes to the same inactive view after any further transactions without a registration |
| RegistryEntry.RegistrationRoundTrip | solana-registry/programs/solana-registry/src/lib.rs:13-41 | end to end: an accepted registration decodes to the node's own fields, each text field unchanged if and only if it is canonical; a longer endpoint changes nothing |
| RegistryEntry.EntryAccount.Register | solana-registry/programs/solana-registry/src/lib.rs:13-41 | assigns every field of the entry, or refuses and assigns none |
| RegistryEntry.EntryAccount.Heartbeat | solana-registry/programs/solana-registry/src/lib.rs:44-51 | moves the heartbeat of an active entry only |
| RegistryEntry.EntryAccount.UpdateEndpoint | solana-registry/programs/solana-registry/src/lib.rs:54-62 | replaces the endpoint of an active entry only, within 256 bytes |
| RegistryEntry.EntryAccount.UpdateAttestation | solana-registry/programs/solana-registry/src/lib.rs:65-71 | replaces the attestation hash of an active entry only |
| RegistryEntry.EntryAccount.Deactivate | solana-registry/programs/solana-registry/src/lib.rs:74-79 | turns the entry off and keeps everything else |

## Left out

- Floating point: amounts are integers, percentages and exposures are reals. `Math.trunc` on doubles agrees as long as balance times amount stays below 2^53.
- SQL as a language, migrations, text and timestamp columns: tables are maps and sequences, and times are parameters.
- Cancelling, rejecting and expiring swap requests, cancelling listings and the marketplace view: single-row status changes that move no money.
- Pausing and unpausing by governance, and wallet, staking, sentiment and configuration tables: they do not touch the accounts.
- HTTP, Telegram bots, the agent's loop, deployment: remote answers are parameters or arbitrary steps.
- Cryptography is symbolic in the replication protocol (a cipher text opens only under its own key, signatures are not forged, a digest stands for its preimage); the envelope checks take hash and verification as arbitrary functions.
- Attestation quotes are an arbitrary verdict after the await.
- `distributeSnapshot`: a loop of sends, covered by the network's freedom to deliver any emitted message any number of times.
- The replication protocol follows one guardian and one honest agent at a time, with a fixed set of trusted peers that sign nothing but the agent's snapshots and payloads of other actions; agents that restart at number zero without a restore are outside it.
- Proposals and votes: a passed registration proposal is one event that may happen at any time; takeovers are stated for auto-approval, since a created proposal reports success before anything is registered.
- Registry handlers, takeovers and overlapping trading cycles are modelled as values stepped between awaits and not as methods, because several run at once; the registry and the ledger they share are classes.
- Trading strategies, signals, prices, the swap itself and the marketplace's pricing: a swap either fails or returns units of USDC.
- Solana accounts, signatures, fees, PDAs and discriminators: the entry is a byte string, the discriminators are arbitrary eight-byte strings, and the endpoint stands as its UTF-8 bytes.
- RegistryText.Base64RoundTrip: Node's reading of text behind the padding is not modelled; reading stops there, and other characters outside the alphabet are skipped.
- RegistryEntry.DecodeEntry: `Number(BigInt)` is exact only below 2^53; the model keeps the exact 64-bit value.
- TelegramProtocol.RoundTrip: numbers other than naturals, and percentages with more than one decimal, are outside the printer's model because JavaScript's number printing is not modelled.
