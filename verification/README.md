# Perpetuals backend: a model of the event pipeline and the keeper

The backend follows a perpetual-futures protocol on Stellar. An indexer polls the RPC for contract
events and projects them into database tables; a keeper and a WebSocket gateway each hold their own
copy of the open trades and limit orders, fed from what the indexer publishes; the keeper compares
every price tick with its copy and submits liquidations and order executions through a retry queue.
This project models those four parts and proves what their documentation promises of them, or states
exactly when the code keeps the promise.

| part | modules |
|---|---|
| event projection | `Events`, `Projection`, `Repository`, `SlotTables`, `Deliveries`, `CrashConvergence`, `LimitRedelivery`, `AdditiveRedelivery`, `Rerun`, `Conservation`, `OrderConservation`, `OpenInterest`, `VaultLedger`, `Idempotence`, `Indexer`, `IndexerProgress`, `Cursors`, `Replay`, `AuditTrail`, `CloseReasons` |
| the in-memory views | `KeeperState`, `KeeperRestart`, `TraderLists`, `Gateway`, `ThreeViews`, `ViewsPart`, `Announcements`, `LiveLiquidation` |
| fixed-point arithmetic | `TruncatedDivision`, `FeeMath`, `RolloverDrift`, `FundingBalance`, `Liquidation`, `Decimals`, `PriceParsing`, `WideIntegers` |
| the keeper loop | `Detector`, `LevelDetection`, `DetectionMonotonicity`, `ExactDetection`, `PendingKeys`, `Attempts`, `Executor`, `KeeperLoop` |

## How it is put together

Objects the Go code updates in place are classes here: `Repo` (the tables), `Loop` (the polling
process), `TradeState` with its entries, `TradeCache`, and `Executor` with its queued items. Each of
their methods is proved equal to a function on values (`Projection.ApplyEvent`, `Indexer.AfterPage`,
`KeeperState.TradesAfter`, `Gateway.TradesAfter`, `Executor.AfterAttempt`), and the theorems are about
those functions, over whole logs, runs and interleavings. What the functions compute is stated once
more from outside, in terms of the fields of events, literal constants, integers and reals:
`Conservation` and `OrderConservation` tell every row from the events alone, `OpenInterest` and
`VaultLedger` sum amounts the events carry, `LevelDetection` and `ExactDetection` compare prices,
`FundingBalance` and `RolloverDrift` bound what accrues, `Attempts.RepliesDecide` lists the replies.

The tables of live rows all instantiate `SlotTables`, where an event is an open, an update or a close
of one slot and the three consumers differ only in what an open does to an occupied slot: the
database refreshes every column but the origin, the keeper overwrites, the gateway skips. Redelivery
is a list of moves through the log, `Advance` and `Rewind`. The invariant behind crash convergence is
that, at every moment of every delivery, folding the rest of the log over the row at hand, however
stale or hybrid, gives what an undisturbed pass gives (`Deliveries.EveryDeliveryHeals`); its heart is
`SlotTables.RepeatingHeals`. `Indexer` shows that kills at any point, pages of any length, missing
cursors and failed cursor writes only ever produce such deliveries, both of what is applied and of
what is published.

A log is well formed when trades and limit orders are opened on free slots and updated or closed on
occupied ones. Beyond that, `Enriched` is required where the in-memory views are compared, since they
treat payloads that predate enrichment differently on purpose, and the closed form of open interest
takes non-negative amounts. That no transaction closes a slot twice is not assumed: trades are
conserved if and only if it holds.

`big.Int.Quo` rounds toward zero; `TruncatedDivision.Quo` does the same, and its laws are proved
first. RPC replies, page boundaries, restart ledgers, map iteration order and the interleaving of
goroutines are arbitrary inputs.

## Where the code and its documentation part

- Re-running a ledger is documented as safe (`internal/store/store.go:52-54`). For trades, their
  history and limit orders it is. For the other tables `Rerun.RerunIsSafeIff` gives the condition: no
  slot has a limit order both placed and resolved in the stretch, each depositor's repeated shares
  cancel and no assets move, and the open-interest changes cancel or the floor absorbs them.
  `LimitRedelivery.LimitHistoryIsExactIff` and `AdditiveRedelivery.VaultSurvivesIff` say the same of
  any pattern of crashes.
- The gateway promises that an event the indexer publishes again after a re-scan does not notify
  (`internal/wsgateway/cache.go:62-66`). It keeps that promise exactly if every re-scanned stretch
  holds, for each slot, nothing, a lone opening, or updates followed by one final closing
  (`Announcements.RedeliveryIsSilentIff`); a re-scanned page that opens and closes a trade brings it
  back to life for a moment and is announced from start to end
  (`Announcements.RescannedPageIsAnnounced`).
- The audit log files an event under its transaction and its index in an RPC page. Two events of one
  transaction at the same index of two pages leave one row, and a page cut differently on redelivery
  leaves two rows for one event (`AuditTrail.SameIndexInTwoPages`, `ShiftedPage`); a run without any
  crash can lose a live trade on replay (`AuditTrail.ReplayLosesATrade`). The audit log lists the
  delivered events once each, at every moment, if and only if inserts conflict exactly on redelivery
  (`AuditTrail.AuditIsExactIff`), and sorting keeps each key's order if and only if its events were
  recorded in sorting order (`Replay.SortingKeepsOrderIff`), which a page boundary inside a transaction
  can break (`Replay.PageBoundaryIsReplayedBackwards`). Where both hold, replay rebuilds every table of
  a single pass (`AuditTrail.ReplayRebuildsTheRun`).
- A restart with nothing usable persisted and no configured start ledger, as shipped, begins at the
  latest ledger. A run then has a gap exactly if some such restart finds an undelivered event below
  that ledger (`Indexer.RunIsGaplessIff`); once a cursor is persisted, or with a start ledger
  configured, no kill does harm (`Indexer.RunsAreSafe`).
- The keeper holds every trade it takes from the feed under a threshold of 90 percent
  (`internal/keeper/state.go:225`), while the gateway uses the pair's configured one and a restarted
  keeper loads it. Gateway and keeper agree on all live prices if and only if the two thresholds are
  the same after the zero default (`LiveLiquidation.ThresholdsMustMatch`); at 80 percent a long shows
  200 while the keeper liquidates it at 100 (`LiveLiquidation.FedEntryDisagrees`). A restarted keeper
  holds what the fed one holds only if every live pair is at 90 percent
  (`KeeperRestart.RestartedIsFedIff`).
- A trade without an open price has no live liquidation price for the keeper and one computed from
  zero for the gateway (`LiveLiquidation.LivePricesAgreeIff`).
- A transaction that closes a slot twice loses the second trade: the history keeps one row per slot
  and transaction (`Conservation.CollidingCloseLosesItsTrade`).
- A short whose fees exceed threshold plus notional has its liquidation price floored at zero, which
  reads as "no price": it is never flagged (`Liquidation.ShortIsFlaggedWhenDueIff`,
  `OverdueShortIsMissed`).
- `tp_sl_executed` tells stop-loss from take-profit on rounded prices. Whether every close of a
  position is filed rightly in trade_history depends on its stop alone
  (`Conservation.ExecutionsAreFiledRightlyIff`); for a stop below 2^64 - 1, on whether it is a float64
  (`Conservation.FloatStopsAreFiledRightlyIff`).
- The error classifiers look for a number such as `#17` anywhere in the text, so that an error
  numbered 170 passes for a missing trade and removes a live one from the keeper
  (`Attempts.LongerNumberIsMistaken`).
- The three views agree on logs of complete events that open free slots. On an open of an occupied
  slot the gateway keeps showing the old trade (`ViewsPart.GatewayAgreesIff`); an update carrying one
  of tp and sl is taken by the keeper and dropped by the others (`ViewsPart.OneStopDivergesIff`); and
  an update of an order without a limit price makes the gateway show a limit of zero
  (`ViewsPart.MissingLimitPriceShowsZero`).
- A ledger count of 2^63 or more wraps to a negative int64 (`RolloverDrift.AccrualMovesBackwardsIff`).
- A send status outside the four handled ones leaves an item in the queue with its retries untouched;
  as long as every attempt at it ends so, no run empties the queue (`KeeperLoop.UnhandledItemStays`).

## Model

| member | source | states |
|---|---|---|
| CrashConvergence.ProjectionsConverge | docs/implement_plan.md:182-183 | For every well-formed log and every pattern of crashes and resumptions, once the furthest point reached is delivered again, trades, trade_history and limit_orders equal those of one crash-free pass |
| CrashConvergence.HistoryIsUndisturbed | internal/store/store.go:207-242 | At every moment of every delivery, caught up or not, trade_history is that of a single pass to the furthest point: redelivery adds, changes and removes nothing, though live rows may be stale hybrids |
| CrashConvergence.LiveTablesConverge | internal/store/store.go:102-200 | The upserted, updated and deleted live rows are exact wherever the delivery stands level with its furthest point |
| CrashConvergence.ClosedTradeIsFiled | internal/store/store.go:207-242 | Every close in the log has its history row in every later state |
| LimitRedelivery.LimitHistoryIsExactIff | internal/store/store.go:284-306 | On any caught-up delivery, whatever the crashes, the limit-order history is exact if and only if no rewind went back over both a placement and a resolution of one slot, up to the furthest point reached by then |
| CrashConvergence.LimitHistoryIsExactIffNoneRefiled | internal/store/store.go:288-302 | At every moment of any delivery it is exact if and only if no redelivered resolution has found its order live |
| CrashConvergence.LimitHistoryMayRepeat | internal/store/store.go:288-302 | A concrete crash after which one executed order is filed twice |
| SlotTables.RepeatingHeals | internal/store/store.go:113-151 | If the rest of the log carries a row, however stale, to the right result, it also carries the row obtained by first repeating the previous operation, under upsert, overwrite and skip alike |
| SlotTables.RunIsPerSlot | internal/store/store.go:102-200 | A slot's row is the fold of that slot's operations alone |
| SlotTables.PoliciesAgree | internal/store/store.go:120-130 | On a well-formed log upsert, overwrite and skip leave the same row |
| Deliveries.EveryDeliveryHeals | cmd/indexer/main.go:198-230 | The simulation invariant: at every point of every at-least-once delivery, the rest of the log up to the furthest point heals every slot |
| Deliveries.DeliveryConverges | cmd/indexer/main.go:198-230 | Any caught-up delivery leaves the table a single pass leaves, under each duplicate policy |
| Indexer.IndexerConverges | cmd/indexer/main.go:142-231 | Over every run of polls and kills, for every configured start ledger including none, with arbitrary page lengths, missing cursors and failed cursor writes, a database that stands at the furthest point it reached holds the tables of a single pass, provided the kills before the first usable cursor were safe |
| Indexer.RunIsGaplessIff | cmd/indexer/main.go:113-129 | That proviso is exact: a run never fetches beyond what it has delivered if and only if every kill with nothing usable persisted finds a start ledger configured or no undelivered event below the latest ledger |
| Indexer.RunsAreSafe | cmd/indexer/main.go:113-129 | With a configured start ledger, or once a usable cursor has been persisted, every later kill is safe |
| Indexer.RunsAreDeliveries | cmd/indexer/main.go:198-230 | In every run with safe kills, what was applied, and what was published, is a delivery of the log without gaps, and the place to resume from is never beyond it |
| Indexer.SubscribersCatchUp | cmd/indexer/main.go:204-213 | Where the database has caught up and its last event was published, the published stream has caught up too |
| Indexer.PageLeavesNoGap | cmd/indexer/main.go:215-226 | After a page the next fetch begins neither before this one did nor beyond the page's end, cursor or not |
| IndexerProgress.CursorAdvances | cmd/indexer/main.go:221-223 | After a page with a cursor the next fetch begins exactly where the page ended |
| IndexerProgress.ResumesAtLatest | cmd/indexer/main.go:211-226 | The start ledger becomes the latest of the old one, the events' and the cursor's, and the cursor is replaced if the page brings one |
| IndexerProgress.StallsIff | cmd/indexer/main.go:160-164 | Without any cursor the same page is fetched again if and only if it stays within one ledger |
| IndexerProgress.UndisturbedRun | cmd/indexer/main.go:198-230 | A run of polls alone delivers each event once, in order, to the tables and the subscribers: after so many events every table is that of a single pass over as many |
| IndexerProgress.RestartGoesOn | cmd/indexer/main.go:113-122 | Restarted after such a run whose last cursor was saved, the process goes on where it stopped, whatever start ledger is configured |
| Indexer.FreshRestartSkipsIff | cmd/indexer/main.go:113-129 | A restart with nothing persisted skips events exactly when no start ledger is configured and an unapplied event lies below the latest ledger |
| Indexer.Loop.constructor | cmd/indexer/main.go:113-129 | A starting process resumes from the persisted cursor, else the configured ledger, else the latest |
| Indexer.Loop.PollOnce | cmd/indexer/main.go:198-230 | A finished poll has applied, audited and published the whole page and moved and persisted the cursor; one cut short has applied and audited a prefix, published it save perhaps its last event, and persisted nothing |
| Indexer.Loop.FollowCursor | cmd/indexer/main.go:221-226 | The page's cursor replaces the old one and only ever pulls the start ledger forward |
| Cursors.LedgerIsRecovered | cmd/indexer/main.go:237-247 | Every cursor that names a SEP-35 TOID, zero-padded or not, with or without an event suffix, yields its ledger |
| Cursors.CursorIsReadIff | cmd/indexer/main.go:237-247 | A cursor is read if and only if what stands before its first dash is a number below 2^64; the ledger is its upper half |
| Repository.Repo.Apply | internal/store/store.go:55-98 | The handler leaves the tables the projection function prescribes, records the event once per transaction and index, and does not touch the cursor |
| Repository.Repo.ApplyPM | internal/store/store.go:102-200 | Branch by branch, inserts, updates and deletes change exactly the listed columns of the addressed slot |
| Repository.Repo.CloseTrade | internal/store/store.go:207-242 | The live row moves to the history under the closing transaction, an earlier history row winning |
| Repository.Repo.CloseTradeUnknownReason | internal/store/store.go:248-282 | As CloseTrade, under the reason RowsTellTheirEvents and ExecutionsAreFiledRightlyIff tie to side, stop and close price |
| Repository.Repo.ResolveLimit | internal/store/store.go:284-306 | The live order moves to the limit history, every time |
| Repository.Repo.ApplyVaultEvent | internal/store/store.go:310-334 | Deposits and withdrawals are added to the depositor's row, inserted if absent |
| Repository.Repo.ApplyRegistry | internal/store/store.go:366-390 | Open interest changes as SideStep says of each side: the named one by the amount with a floor at zero, the other not at all; a subtraction on an absent row inserts zeros |
| Repository.Repo.ReadCursor | internal/store/store.go:27-36 | The persisted cursor, or zero and none |
| Repository.Repo.WriteCursor | internal/store/store.go:38-48 | The single cursor row is replaced |
| Projection.LiveTablesAreRuns | internal/store/store.go:102-200 | The trades and limit_orders tables of any log are runs of the generic slot table under upsert |
| Conservation.OpenedTradeIsKept | internal/store/store.go:104-158 | Every opened trade is, at every later point, either the live row with the stops set last or, unless its closing transaction had closed the slot before, the history row under its first close, with its opening columns intact |
| Conservation.RowsTellTheirEvents | internal/store/store.go:207-282 | The same column by column, told from the fields of the opening, updating and closing events; an executed stop is filed as a stop-loss if and only if its close price hit the stop of the trade's side, where the stop is unset or read sharply, and without a close price if and only if no take-profit is set |
| Conservation.ExecutionsAreFiledRightlyIff | internal/store/store.go:248-282 | While a trade is open, its execution is filed under the true reason at every close price if and only if no stop is set or the stop set last, as it is read, separates itself from the next price beyond it |
| Conservation.FloatStopsAreFiledRightlyIff | internal/store/store.go:257-277 | For a stop below 2^64 - 1 that is so if and only if the stop is unset or a 53-bit number times a power of two |
| Conservation.CollidingCloseLosesItsTrade | internal/store/store.go:237 | A close in a transaction that had closed the slot before removes the live row and files nothing |
| Conservation.TradesAreConservedIff | internal/store/store.go:104-158 | Live and filed trades together are as many as were ever opened if and only if no transaction closed a slot twice |
| Conservation.TradesAreConservedAcrossCrashesIff | cmd/indexer/main.go:198-230 | The same of the tables any caught-up, crash-ridden delivery leaves |
| OrderConservation.PlacedOrderIsKept | internal/store/store.go:160-198 | Every placed order is, at every later point, the live row with the prices set last or, once resolved, the history entry of that resolution, under its topic, time and transaction |
| OrderConservation.ResolutionsAreFiled | internal/store/store.go:284-306 | A single pass files each resolution exactly once, in log order |
| OrderConservation.OrdersAreConserved | internal/store/store.go:160-198 | Live and resolved orders together are as many as were placed |
| CloseReasons.ReasonIsRightIff | internal/store/store.go:263-277 | Whether one close is filed rightly comes down to the two prices as they are read, at 64 and at 53 bits, with no bound on either |
| CloseReasons.EveryReasonIsRightIff | internal/store/store.go:248-282 | Every close of a position, at prices of any size, is filed rightly if and only if its stop, as it is read, separates the stop from the next price beyond it |
| CloseReasons.FloatStopsAreRightIff | internal/store/store.go:257-277 | For a stop below 2^64 - 1 that is so if and only if the stop is unset or fits a float64 |
| CloseReasons.RoundIsMonotone | internal/store/store.go:264-266 | Rounding to a number of significant bits, ties to even, keeps order across binades |
| CloseReasons.MultipleIsNearest | internal/store/store.go:264-266 | Rounding picks the nearest multiple of the unit, and of two equally near ones the even multiple |
| CloseReasons.KeptIffFits | internal/store/store.go:264-266 | Rounding to a number of bits keeps exactly the numbers that are a significand of so many bits times a power of two |
| CloseReasons.ReasonWithoutPrice | internal/store/store.go:278-280 | Without a close price the reason is stop-loss if and only if the take-profit is zero, however large it is |
| CloseReasons.StopLossFiledAsTakeProfit | internal/store/store.go:263-270 | A family of stops for which a long stopped out exactly at its stop is filed as a take-profit |
| CloseReasons.LeastMisfiledStop | internal/store/store.go:257-270 | The least such stop is 2^53 + 1 |
| OpenInterest.OiIsMaximalSuffix | internal/store/store.go:366-390 | From an absent row, after any log whose amounts on a side are not negative, that side is the largest suffix sum of the amounts of the events that name it, additions counted positive and subtractions negative |
| OpenInterest.SideStep | internal/store/store.go:371-388 | An event raises or lowers the side its flag names by its amount, down to zero, and leaves the other where it was |
| OpenInterest.OtherSideStays | internal/store/store.go:370-375 | An event that names the other side or another pair changes nothing here |
| OpenInterest.OiIsRunningSumIff | internal/store/store.go:382-388 | It is the plain running sum if and only if no prefix of the changes sums below zero |
| OpenInterest.MaxSuffixIsMaximal | internal/store/store.go:382-388 | The closed form is what it claims: no suffix sum exceeds it and one attains it |
| VaultLedger.PositionsAddUp | internal/store/store.go:310-334 | After any log a position's shares are deposits minus withdrawals and its two totals are exact |
| Rerun.RerunIsSafeIff | internal/store/store.go:52-54 | Running the last stretch of a well-formed log again leaves trades, trade_history and limit_orders as they were, and all tables if and only if no slot has an order both placed and resolved in it, every depositor's shares cancel and no assets move, and open interest is spared |
| AdditiveRedelivery.PositionSurvivesIff | internal/store/store.go:310-334 | At every moment of every delivery a position's shares and totals are those of a single pass if and only if what was repeated cancels |
| AdditiveRedelivery.VaultSurvivesIff | internal/store/store.go:310-334 | A caught-up delivery leaves the whole vault table of a single pass if and only if every depositor's repeats cancel |
| AdditiveRedelivery.HarmlessTogether | internal/store/store.go:310-334 | A deposit and a withdrawal of as many shares may be repeated together though neither may alone |
| AdditiveRedelivery.OiAfter | internal/store/store.go:382-388 | From any row, some changes lead to the larger of their largest suffix sum and the plain sum, whatever their signs |
| AdditiveRedelivery.OiSurvivesIff | internal/store/store.go:382-388 | A stretch applied again leaves a side of a row where it was if and only if its changes cancel, or decrease a side that stands at their largest suffix sum |
| Idempotence.ApplyIsIdempotentIff | internal/store/store.go:55-98 | Applying one event twice in a row changes nothing beyond once if and only if it adds nothing to an additive table |
| Idempotence.RepeatedOiIff | internal/store/store.go:366-390 | A repeated open-interest change is harmless if and only if the side it names gets a zero change or an exhausting decrease |
| Idempotence.RepeatedVaultIff | internal/store/store.go:310-334 | A repeated vault event is harmless if and only if it moves no shares and no assets |
| Replay.ProjectionIsPerKey | internal/store/store.go:102-393 | The rows of a slot, depositor or pair after a log are those its own subsequence alone produces |
| Replay.OrderAcrossKeysIsIrrelevant | cmd/indexer-replay/main.go:50-77 | Any reordering that keeps each key's relative order rebuilds the same tables, up to the order of limit-history rows |
| AuditTrail.ReplayRebuildsTheRun | cmd/indexer-replay/main.go:44-77 | After any gapless run of the indexer, caught up or not, replaying the sorted audit log rebuilds all six tables of a single pass, if inserts conflicted exactly on redelivery and same-key events were recorded in sorting order |
| AuditTrail.AuditIsExactIff | internal/store/store.go:68-77 | At every moment the audit log lists each delivered event once, if and only if inserts conflict exactly on redelivery |
| AuditTrail.PageIsRecorded | cmd/indexer/main.go:198-204 | The audit log the polling method leaves is the one the run's trail of places and page indices describes |
| AuditTrail.SameIndexInTwoPages | internal/store/store.go:73 | Events of one transaction at the same index of two pages leave a single audit row |
| AuditTrail.ShiftedPage | internal/store/store.go:73 | A page of two delivered again as two pages of one leaves its second event in the audit log twice |
| AuditTrail.ReplayLosesATrade | cmd/indexer-replay/main.go:50-77 | A run without any crash whose live trade the replay loses |
| Replay.SortingKeepsOrderIff | cmd/indexer-replay/main.go:50-53 | Sorting keeps every key's entries in recorded order if and only if they were recorded in sorting order |
| Replay.ReplayRebuilds | cmd/indexer-replay/main.go:44-77 | Replaying a sorted arrangement of recorded entries rebuilds the tables of the recording whenever same-key entries were recorded in sorting order |
| Replay.LedgerOrderIsRebuilt | cmd/indexer-replay/main.go:50-53 | So it does whenever same-key entries were recorded in ascending order of ledger, then time, then index within a transaction |
| Replay.TextBeforeIff | cmd/indexer-replay/main.go:53 | Transactions of one ledger and time are sorted by the first character that differs, a text after each of its beginnings |
| Replay.SortedRowsExist | cmd/indexer-replay/main.go:50-53 | Every audit log has such an arrangement |
| Replay.SortedIsUnique | cmd/indexer-replay/main.go:50-53 | The sort leaves no choice: two sorted arrangements of the same entries are equal |
| Replay.PageBoundaryIsReplayedBackwards | cmd/indexer/main.go:198-204 | A trade opened at the end of one page and closed by the same transaction at the start of the next comes back to life on replay |
| Replay.Rebuild | cmd/indexer-replay/main.go:43-77 | Truncating and folding the sorted contents of the audit log, from whatever state, yields their projection and leaves the audit log as it was |
| ThreeViews.ViewsAgree | internal/wsgateway/cache.go:62-66 | Over every run of the indexer on a well-formed enriched log with safe kills, where the database has caught up and published, it holds the rows of a single pass, and keeper and gateway hold exactly those rows in their own form |
| Announcements.RedeliveryIsSilentIff | internal/wsgateway/cache.go:62-66 | On any caught-up delivery the gateway announced nothing twice if and only if every rewind went back over a stretch that holds, for each trade and limit slot, nothing, a lone opening, or updates followed by one final closing |
| Announcements.SilentIff | internal/wsgateway/cache.go:205-284 | The same of any skipping slot table |
| Announcements.StretchIsQuietIff | internal/wsgateway/cache.go:192-193 | Delivered again to a caught-up table, a stretch is heard exactly if it is not of that form |
| Announcements.RescannedPageIsAnnounced | internal/wsgateway/cache.go:206-228 | Re-scanned, a page that opens and closes a trade brings it back to life, and both events are announced again |
| ThreeViews.ViewsConverge | internal/wsgateway/cache.go:192-285 | Replayed prefixes and repeated pages leave both in-memory views as a single delivery does |
| ThreeViews.ViewsAreRuns | internal/keeper/state.go:201-312 | On any stream of enriched events, in order or not, the keeper is an overwriting and the gateway a skipping slot table |
| ThreeViews.KeeperTradeStep | internal/keeper/state.go:203-265 | The keeper's map update is the overwriting table step, seen through the keeper's form of a row |
| ThreeViews.CacheTradeStep | internal/wsgateway/cache.go:206-241 | The gateway's list surgery is the skipping table step: the lists hold exactly the rows, each once |
| ThreeViews.CacheLimitStep | internal/wsgateway/cache.go:243-278 | The same for limit orders |
| ThreeViews.OpeningPricesAgree | internal/store/store.go:108-112 | The liquidation price stored at the open is the one the keeper computes, a missing one counting as zero |
| ViewsPart.RepeatedOpen | internal/store/store.go:113-130 | On an open of an occupied slot the database takes every column of the new opening but keeps when and by which transaction it was first opened, the keeper follows it, and the gateway changes nothing |
| ViewsPart.GatewayAgreesIff | internal/wsgateway/cache.go:211-215 | After it the gateway agrees with the database if and only if it shows the new opening as it showed the old |
| ViewsPart.RepeatedPlacement | internal/store/store.go:164-181 | The same of a placement in an occupied slot |
| ViewsPart.OneStopDivergesIff | internal/keeper/state.go:256-261 | An update carrying one of tp and sl is dropped by the database and the gateway and taken by the keeper, which then agrees if and only if it held that price already |
| ViewsPart.MissingLimitPriceShowsZero | internal/wsgateway/cache.go:266-278 | An update of a held order without a limit price is dropped by the database and the keeper, and the gateway shows a limit of zero |
| ViewsPart.MissingStopResets | internal/store/store.go:182-193 | With a limit price, a missing tp or sl is reset to zero by the database and the gateway |
| KeeperState.TradeState.Apply | internal/keeper/state.go:201-312 | Both maps change as prescribed, and every entry stays filed under its own key |
| KeeperState.TradeState.UpdateStops | internal/keeper/state.go:245-265 | Only the addressed entry changes, and only the prices the event carries |
| KeeperState.TradeState.GetTradesForPair | internal/keeper/state.go:343-353 | Exactly the pair's trades, each once, in no particular order |
| KeeperState.TradeState.GetLimitsForPair | internal/keeper/state.go:355-365 | Exactly the pair's limit orders, each once |
| KeeperState.TradeState.Remove | internal/keeper/state.go:337-341 | The one trade is gone and nothing else |
| KeeperState.TradeState.RemoveLimit | internal/keeper/state.go:367-371 | The one limit order is gone and nothing else |
| TraderLists.AddToFinds | internal/wsgateway/cache.go:212-215 | Appending an entry for a free slot adds exactly that slot and keeps the lists free of duplicates |
| TraderLists.RemoveFromFinds | internal/wsgateway/cache.go:519-528 | Closing the gap left by a removed entry removes exactly that slot and keeps every other findable |
| TraderLists.ReplaceInFinds | internal/wsgateway/cache.go:533-543 | Changing an entry in place changes exactly that slot |
| Gateway.TradeCache.ApplyEvent | internal/wsgateway/cache.go:194-285 | The lists change as prescribed, stay tidy, and the notification flag is exact |
| Gateway.TradeCache.RemoveTrade | internal/wsgateway/cache.go:519-528 | The first matching entry is cut out, and the result says whether there was one |
| Gateway.TradeCache.UpdateTradeTpSl | internal/wsgateway/cache.go:533-543 | The matching entry gets the new stops, and the result says whether there was one |
| Gateway.FindTrade | internal/wsgateway/cache.go:509-516 | The scan by pair and index finds the first entry of the slot, or the end of the list |
| Gateway.FindLimit | internal/wsgateway/cache.go:567-574 | The same for limit orders |
| Gateway.RedeliveryNotifiesIff | internal/wsgateway/cache.go:192-193 | An event applied twice in a row leaves the cache alone the second time, but is announced again if and only if it updates an entry still held |
| Gateway.ToldIff | internal/wsgateway/cache.go:204-284 | Subscribers are told of every event that changes what the gateway holds and, apart from that, only of updates of a held entry that set what was set |
| LiveLiquidation.LivePricesAgreeIff | internal/wsgateway/cache.go:467-499 | Under the same effective threshold, gateway strings and keeper integers give the same live liquidation price, errors included, if and only if the open price is present or the price is undefined anyway |
| LiveLiquidation.ThresholdsMustMatch | internal/wsgateway/cache.go:383-426 | The two services agree on every whole trade if and only if the threshold the keeper holds and the one the gateway reads are the same after the zero default |
| LiveLiquidation.FedEntriesAgreeIff | internal/keeper/state.go:217-229 | On trades taken from the feed they agree if and only if the pair is at 90 percent or unset |
| LiveLiquidation.FedEntryDisagrees | internal/keeper/state.go:225 | A fed long on a pair at 80 percent: liquidated at 100, shown at 200 |
| LiveLiquidation.SubscribersSeeIff | internal/wsgateway/cache.go:431-453 | Every subscriber is shown the price the detector acts on if and only if the two thresholds are the same after the default |
| LiveLiquidation.SubscribersSeeTheDetectorsPrice | internal/wsgateway/cache.go:431-453 | Under the same effective threshold, what a subscriber is shown parses to the price the detector acts on |
| LiveLiquidation.SubscribersSeeTheFees | internal/wsgateway/cache.go:431-453 | Each fee shown parses to the keeper's fee of that name, rollover on the pair and funding on the accumulator of the trade's side |
| LiveLiquidation.StoredValuesAreShown | internal/wsgateway/cache.go:419-424 | For a pair without a snapshot, or with an accumulator missing, what the cache holds is shown, with zero fees and the stored price for what it lacks |
| LiveLiquidation.RestIsUntouched | internal/wsgateway/cache.go:431-465 | Every other field is shown as it is held |
| KeeperRestart.LoadFromDB | internal/keeper/state.go:75-199 | Loading adds every trade and limit order of the tables, in any row order, under the pair's threshold where one is configured |
| KeeperRestart.RestartedIsFedIff | internal/keeper/state.go:75-122 | A restarted keeper holds what the fed one holds if and only if every live trade's pair is at 90 percent or unconfigured and every live trade could be priced at the open |
| LiveLiquidation.EnrichTrades | internal/wsgateway/cache.go:383-429 | Every trade of the snapshot is enriched on its own, in place of the copy, order kept |
| Decimals.PrintRoundTrip | internal/wsgateway/cache.go:501-507 | Parsing a printed integer gives it back, for all integers |
| Decimals.PrintIsInjective | internal/wsgateway/cache.go:545-550 | Different integers print differently |
| RolloverDrift.DriftBound | internal/keeper/math.go:31-43 | Accruing over n intervals never exceeds one accrual over their sum and falls short by at most n - 1 units, for every split |
| RolloverDrift.RolloverIncrementIsExact | internal/keeper/math.go:31-43 | Below 2^63 ledgers an accrual adds ledgers times rate times 10^7 over 10^12, rounded down |
| RolloverDrift.AccrualMovesBackwardsIff | internal/keeper/math.go:40-41 | With a non-negative rate the accumulator moves backwards exactly on counts that wrap around int64 and are worth a unit |
| FundingBalance.FundingIsNearlyZeroSum | internal/keeper/math.go:46-128 | Over any two-sided book and any number of accruals, 10^7 times the sum of all funding fees stays strictly below 10^7 times total leverage plus one open interest per accrual |
| FundingBalance.FundingAccrualIsExact | internal/keeper/math.go:66-87 | One amount is owed, imbalance times ledgers times rate over 10^12; the longs' accumulator gains 10^7 times it over their open interest and the shorts' loses it over theirs, each rounded toward zero, and a side without open interest stands still |
| FundingBalance.HeavierSidePays | internal/keeper/math.go:66-87 | At a rate that is not negative the heavier side's accumulator never falls and the lighter side's never rises |
| FundingBalance.AccrualsAreNearlyBalanced | internal/keeper/math.go:67-86 | Weighted by open interest, what the two accumulators charge cancels up to less than the larger open interest per accrual |
| FundingBalance.FeesFollowOpenInterest | internal/keeper/math.go:110-128 | The fees of a book follow the accumulators' weighted movement up to less than one unit per unit of leverage |
| FundingBalance.FundingIsSymmetric | internal/keeper/math.go:46-87 | Exchanging the two sides in the input exchanges them in the output |
| Liquidation.LiquidationIsExact | internal/keeper/math.go:142-203 | Against the exact leveraged loss over the reals: a due price is flagged, and a flagged one is short of due by less than one price unit and one collateral unit |
| Liquidation.LongIsFlaggedWhenDue | internal/keeper/math.go:175-191 | For longs this holds without side condition, three truncations and the floor notwithstanding |
| Liquidation.ShortIsFlaggedWhenDueIff | internal/keeper/math.go:182-203 | A due short is flagged if and only if its fees stay below threshold plus notional |
| Liquidation.OverdueShortIsMissed | internal/keeper/math.go:188-198 | A concrete short far past due that is never flagged |
| Liquidation.FlaggedIff | internal/keeper/math.go:194-203 | The verdict in terms of the movement against the position, the zero price included |
| Liquidation.FlaggedIsMonotone | internal/keeper/math.go:142-203 | Once flagged, flagged at every price at least as adverse under fees at least as high, up to a short's floor |
| TruncatedDivision.QuoNested | internal/keeper/math.go:175-180 | Truncating division by two positive divisors in turn is truncating once by their product |
| TruncatedDivision.QuoRemainder | internal/keeper/math.go:104-105 | The remainder is smaller than the divisor and never has the opposite sign of the dividend |
| TruncatedDivision.QuoMonotone | internal/keeper/math.go:104-105 | Truncating division by a positive divisor preserves order across zero |
| PriceParsing.ParsingIsExact | internal/keeper/binance.go:178-196 | A decimal numeral of any length, with any white space around it, gives its value times 10^14 rounded down when that is positive, and nothing otherwise |
| PriceParsing.ParsingKeepsOrder | internal/keeper/binance.go:175-196 | Accepted prices keep the order of the exact values, whatever their numbers of digits and the white space around them |
| PriceParsing.SurplusIsNotRead | internal/keeper/binance.go:185-189 | What follows the fourteenth fraction character does not matter, well formed or not |
| PriceParsing.TrimsWhiteSpace | internal/keeper/binance.go:180 | Trimming removes the white space around a text, all of it and nothing else |
| PriceParsing.StrayCharacterIsRefused | internal/keeper/binance.go:185-194 | A character among those read that is not a digit, other than a leading plus, spoils the price |
| PriceParsing.PriceExample | internal/keeper/binance.go:170-173 | The text 62738.10 gives 6273810000000000000 |
| WideIntegers.OrFillsTheGap | internal/soroban/scval.go:116-147 | On two's-complement integers, or-ing into the zero bits a shift leaves is addition, for negative numbers too |
| WideIntegers.OrIsBitwise | internal/soroban/scval.go:116-147 | A bit of the result is set if and only if it is set in one of the numbers, negative ones included |
| WideIntegers.U128ToBig | internal/soroban/scval.go:116-121 | Shift and or give the positional value |
| WideIntegers.I128ToBig | internal/soroban/scval.go:123-129 | Shift and or give the positional value with a signed top part |
| WideIntegers.U256ToBig | internal/soroban/scval.go:131-138 | Shift and or give the positional value of four parts |
| WideIntegers.I256ToBig | internal/soroban/scval.go:140-147 | Shift and or give the positional value of four parts, the top one signed |
| WideIntegers.U128Bijection | internal/soroban/scval.go:116-121 | Parts and unsigned 128-bit numbers correspond one to one |
| WideIntegers.I128Bijection | internal/soroban/scval.go:123-129 | Parts and signed 128-bit numbers correspond one to one |
| WideIntegers.U256Bijection | internal/soroban/scval.go:131-138 | Parts and unsigned 256-bit numbers correspond one to one |
| WideIntegers.I256Bijection | internal/soroban/scval.go:140-147 | Parts and signed 256-bit numbers correspond one to one |
| Detector.Detect | internal/keeper/detector.go:23-63 | The result is exactly what the pair's trades and limit orders call for, each action once; LevelDetection and ExactDetection say at which prices they do |
| Detector.DetectTrades | internal/keeper/detector.go:27-50 | The trade half, against the live price where fees are known and the stored one otherwise |
| Detector.DetectLimits | internal/keeper/detector.go:52-61 | The limit half |
| LevelDetection.OneActionAtMost | internal/keeper/detector.go:34-49 | A trade calls for its liquidation, for its levels or for nothing; liquidation comes first |
| LevelDetection.BothLevels | internal/keeper/detector.go:107-124 | With both levels set, a trade that is not liquidated fires exactly outside the open interval between them: stop below take-profit for a long, above it for a short |
| LevelDetection.TakeProfitAlone | internal/keeper/detector.go:107-124 | With a take-profit alone a long fires from it upwards and a short from it downwards |
| LevelDetection.StopAlone | internal/keeper/detector.go:107-124 | With a stop alone a long fires from it downwards and a short from it upwards |
| LevelDetection.NoLevels | internal/keeper/detector.go:107-124 | Without a positive level nothing fires |
| LevelDetection.FiringPersists | internal/keeper/detector.go:34-50 | What makes a level fire keeps it firing as the price moves on beyond it, unless liquidation comes first |
| LevelDetection.StoredPriceDecides | internal/keeper/detector.go:28-34 | Without fees, or where no live price can be computed, a long is liquidated at or below the price stored at the open and a short at or above it |
| LevelDetection.LivePriceDecides | internal/keeper/detector.go:29-33 | Where a live price can be computed the stored one does not matter |
| LevelDetection.OrderFillsIff | internal/keeper/detector.go:93-103 | A long's order fills at every price up to its limit and at none above, a short's the other way round |
| LevelDetection.OrderWithoutLimit | internal/keeper/detector.go:96-98 | An order without a positive limit never fills |
| LevelDetection.ScanFiresIff | internal/keeper/detector.go:27-50 | A scan calls for a held trade's levels exactly when they fire on their own |
| LevelDetection.ScanFillsIff | internal/keeper/detector.go:52-61 | A scan calls for a held order exactly when its limit is reached |
| ExactDetection.LiquidatedWhenGone | internal/keeper/detector.go:65-91 | From the accumulators to the verdict, over the reals: a trade whose loss, rollover and funding exceed its threshold by one unit and one per unit of leverage is called for, and one that is called for is short of its threshold by less than as much, one unit and one price step; a short while its fees stay below threshold plus notional |
| ExactDetection.LiquidatedWithoutFees | internal/keeper/detector.go:65-91 | Without fees run up leverage plays no part in that tolerance |
| ExactDetection.RolloverIsNearlyExact | internal/keeper/math.go:90-108 | The rollover fee is within one unit of accumulator movement times collateral over 10^7 |
| ExactDetection.FundingIsNearlyExact | internal/keeper/math.go:110-128 | The funding fee is within one unit per unit of leverage of the same on the notional, by the accumulator of the trade's own side |
| DetectionMonotonicity.LiquidationStaysCalledFor | internal/keeper/detector.go:65-91 | Through fees, price and detection: a liquidated trade stays so at every price at least as adverse and under all accumulators at least as high; a short exactly while its fees stay below threshold plus notional |
| DetectionMonotonicity.DetectionIsMonotone | internal/keeper/detector.go:23-50 | The same of a whole scan of the keeper's trades |
| PendingKeys.PendKeyIsFaithful | internal/keeper/executor.go:37-46 | Two actions share a text key exactly when type, trader, pair and index agree, whatever characters a trader's name contains |
| PendingKeys.KeysNameSubjects | internal/keeper/executor.go:37-46 | Two actions share a key exactly when they are of one type and act on the same trade or order |
| Attempts.AttemptsWearDown | internal/keeper/executor.go:137-253 | With a handled reply every attempt ends the item or leaves it strictly fewer attempts |
| Attempts.NoProgressIffUnhandled | internal/keeper/executor.go:231-252 | An unhandled send status is the one reply that changes nothing |
| Attempts.AttemptLowersPotential | internal/keeper/executor.go:117-253 | Every attempt strictly lowers the sum over the queue of max(1, maxRetries - retries) |
| Attempts.ContainsIff | internal/keeper/executor.go:389-405 | The error classifiers' text search finds a part exactly where it occurs |
| Attempts.RepliesDecide | internal/keeper/executor.go:137-253 | An attempt reports sent if and only if the send was answered PENDING, TRY_AGAIN_LATER or DUPLICATE, and then the item leaves the queue; it also leaves when there is no hope or its retries are used up, and the subject is forgotten on a not-found error alone |
| Attempts.ForgottenIff | internal/keeper/executor.go:178-194 | A failed simulation leads to forgetting the subject if and only if its text names a missing trade or limit order, by name or by number |
| Attempts.LongerNumberIsMistaken | internal/keeper/executor.go:389-405 | Any text with an error numbered 170 passes for a missing trade |
| Attempts.BatchWaits | internal/keeper/executor.go:69-88 | After a batch the queue holds what waited, as it waited, and everything in the batch, new items with no retries used, and nothing else |
| Attempts.RetriedToTheLimit | internal/keeper/executor.go:165-253 | An item that meets nothing but retryable replies waits for max(1, maxRetries) attempts and no longer |
| Executor.Executor.Enqueue | internal/keeper/executor.go:69-88 | New actions get fresh items; an action already waiting keeps its very object and its used-up retries |
| Executor.Executor.TryExecute | internal/keeper/executor.go:137-253 | An attempt changes its own item, and a not-found reply also removes the subject from the keeper's state; it returns true if and only if the network accepted the transaction or had it already, and then the item no longer waits |
| Executor.Executor.ProcessPending | internal/keeper/executor.go:117-135 | In any iteration order, a tick attempts distinct waiting items, stops at the first one sent, and otherwise attempts all of them while the context lives |
| Executor.Executor.DropItem | internal/keeper/executor.go:255-265 | Exactly the item's key leaves the queue |
| Executor.TickIsShort | internal/keeper/executor.go:117-135 | A tick makes no more attempts than items were waiting |
| KeeperLoop.RunsAreSound | internal/keeper/executor.go:69-135 | In every interleaving of enqueueing, attempts and feed events, each snapshotted item not yet dealt with is the very object stored under its key, and each tick has at most one attempt that returns sent |
| KeeperLoop.FromTheStart | internal/keeper/executor.go:103-135 | From an empty queue every run is sound at every moment, and with handled replies attempts no item more than max(1, maxRetries) times |
| KeeperLoop.AcceptedIsFinal | internal/keeper/executor.go:231-240 | Once a transaction is accepted, no continuation of any interleaving attempts that object again |
| KeeperLoop.AcceptedEndsTheTick | internal/keeper/executor.go:117-135 | Nor is any other item attempted before the next tick begins |
| KeeperLoop.DropRemovesItsOwnItem | internal/keeper/executor.go:255-258 | A drop removes the attempted object's own entry, never a newer one |
| KeeperLoop.NoItemIsAttemptedTooOften | internal/keeper/executor.go:165-253 | With handled replies no item is ever attempted more than max(1, maxRetries) times, whatever is enqueued meanwhile |
| KeeperLoop.AttemptsArePaidFor | internal/keeper/executor.go:117-253 | Over any draining run, attempts made plus potential left never exceed the potential at the start |
| KeeperLoop.QueueDrains | internal/keeper/executor.go:103-135 | With handled replies, no new work and a live context, the queue is empty after as many ticks as its potential |
| KeeperLoop.UnhandledItemStays | internal/keeper/executor.go:231-252 | In every run in which each attempt at an item ends in an unhandled status, the item keeps its place and its retries, so the queue never empties |
| KeeperLoop.NoGhostActions | internal/keeper/executor.go:178-193 | After a not-found removal, once the batch then in flight is enqueued, no continuation without a fresh appearance detects or newly enqueues anything for the subject |
| KeeperLoop.NotFoundLeadsToForget | internal/keeper/executor.go:176-193 | A not-found simulation leads, step by step, to the item's drop and the subject's removal |
| KeeperLoop.DropAloneIsNotEnough | internal/keeper/executor.go:181-182 | Between the drop and the removal a scan can still pick the subject up, as the code's comment warns |
| KeeperLoop.DetectedActionsAreLive | internal/keeper/detector.go:23-63 | Every action a scan calls for concerns an entry the keeper holds |
| KeeperLoop.EnqueueRefines | internal/keeper/executor.go:69-88 | Seen through its keys, the concurrent loop's queue is the one the executor keeps |

## Left out

- The clamp to the RPC's oldest ledger in `pollOnce`: events below it are gone by design, so runs have no clamp.
- Events that cannot be decoded and failures of `Apply`, which the loops log and skip: every event of a page is decoded and applied.
- `pair_fee_accumulators` rows written for `rollover_rate` and `funding_rate` events; accumulators reach the keeper and the gateway as inputs.
- Serial ids, and the order of `limit_order_history` rows across slots.
- Replay.OrderAcrossKeysIsIrrelevant: compares `limit_order_history` as a multiset, since the interleaving of slots is what is being reordered.
- CrashConvergence.ProjectionsConverge: does not cover `limit_order_history`, `vault_positions` and `pair_oi`, for which it is false; LimitHistoryIsExactIff, VaultSurvivesIff and RerunIsSafeIff say exactly when redelivery spares them.
- AdditiveRedelivery.OiSurvivesIff: speaks of one stretch applied again, from any state, rather than of several overlapping redeliveries at once.
- AuditTrail.ReplayRebuildsTheRun: is one-way, since different histories may happen to leave equal tables; the conditions on the audit log and on the order are exact (AuditIsExactIff, SortingKeepsOrderIff).
- Conservation.OpenedTradeIsKept: promises no history row to a trade whose closing transaction had closed the slot before; CollidingCloseLosesItsTrade says what becomes of it.
- RolloverDrift.DriftBound: takes a total below 2^63 ledgers, beyond which the code's int64 conversion wraps (AccrualMovesBackwardsIff).
- OpenInterest.OiIsMaximalSuffix: takes non-negative amounts on the side it speaks of, as the registry emits them.
- OrderConservation.PlacedOrderIsKept: speaks of a single pass; LimitHistoryIsExactIff says when redelivery leaves the limit history of one.
- PriceParsing.ParsingIsExact: counts fraction digits in characters, which for numerals are the bytes the code counts.
- KeeperLoop.QueueDrains: assumes the four handled send statuses, since with an unhandled one an item may stay for ever (UnhandledItemStays).
- Parsing of ledger times: a time is a number.
- `LoadFromDB` of the gateway, and the loading of fee accumulators.
- The gateway's slices as shared backing arrays: its lists are sequences that are reassigned, so what a reader holding an old slice would see is not captured.
- `GetSnapshot` and `GetAllSnapshot` apart from the enrichment of trades; JSON and Redis.
- int32 pair and trade indices and uint32 event indices: indices are integers without a width.
- Postgres NUMERIC read into a float64 is taken as rounding to nearest, ties to even, at 53 bits, within range; the source of the database driver is not part of this model.
- The queue is keyed by the four components of the text key; PendKeyIsFaithful shows that this tells apart the same actions.
- A failed simulation's reply carries the class of its error text, which `Attempts.Classify` derives.
- A cursor token carries the position in the stream that the RPC means by it; only its text is parsed.
- `Executor.Remove`, which nothing calls.
- Transaction building, signing, sequence numbers and `prepareTx`: an attempt's reply says how far it got.
- The hub, client connections and price-feed sockets of the gateway, `cmd/api`, `cmd/pair-indexer`, configuration, migrations and logging.
- The other SCVal kinds and address encoding.
