# Lehman Cousins: verified model of the trading core

A Dafny model of the parts of the engine in which a mistake costs money: the order book and its
snapshot/delta synchroniser, the gate that every order passes (feed state, risk check, token bucket,
nonce, dispatch), and the accounting (fills, positions, the paper trader, rounding). Objects that the
engine updates in place are classes with `modifies` clauses; what they do to their state is tied to
functions on plain values, and the theorems are about those functions over every run.

| file | what it holds |
|---|---|
| `Models.dfy`, `RealArithmetic.dfy` | the shared records, the machine widths, the feed states; facts about real products |
| `PriceLevels.dfy`, `OrderBooks.dfy`, `Delivery.dfy` | the flat sorted slab, the binary search, the map it stands for; what an arbitrary delivery does to a book |
| `BookSync.dfy`, `SyncRuns.dfy`, `Generations.dfy` | the synchroniser class, all its runs, the generation token |
| `Exchange.dfy`, `LiveAgreement.dfy` | the exchange's own book, and exactly when a live book equals it |
| `RateLimiter.dfy`, `Nonce.dfy`, `Risk.dfy` | the bucket, the nonce generator atom by atom, the risk manager |
| `Gate.dfy`, `GateSafety.dfy`, `GateRates.dfy`, `OrderManagement.dfy`, `CapAttained.dfy` | order submission as interleaved atomic steps, and the sequential method it refines to |
| `InFlight.dfy`, `Inventory.dfy`, `Fills.dfy` | in-flight orders, positions, and both under concurrency |
| `Instruments.dfy`, `Backtest.dfy` | rounding and risk approval; the P&L of the paper trader |

Runs are pairs of sequences: the events, and the states between them. A theorem about a run holds for
every number of events, every interleaving and every input the steps can take. `dafny verify
dfyconfig.toml` checks the whole project.

## What turned out to be exact

* A live book equals the exchange's book, in every run and whatever the deltas hold, if and only if no delta
  number is skipped when it first arrives and the snapshot is not numbered 0 (or the opening book is empty).
  Duplicates and late arrivals are harmless. The synchroniser itself looks at the front of the buffer only.
* The gap guard is stricter than agreement needs: a rejected snapshot would still have given the exchange's book,
  whatever the deltas hold, if and only if it is numbered one below the first buffered delta and no number is skipped.
* A captured generation is still current if and only if the number of aborted sessions since is a multiple of 2^64.
* Nonces strictly increase, each past its own clock reading, if and only if no `fetch_add` of the run finds the
  counter at 2^64 - 1. It cannot as long as the highest clock reading and the number of results stay below 2^64
  together; a generator seeded at the last clock value does it with its first result.
* The waiting time in a rate-limit error is exact if and only if the bucket can hold one token; a smaller
  bucket never admits anything.
* With at most K calls between the risk check and the exchange's answer, the least bound on the open orders is
  `max_open_orders - 1 + K` (zero if one of the two is zero), as long as that number is below 2^32: no run exceeds
  it, and a run from a new gate reaches it. From 2^32 on there is no bound at all: the 32-bit counter comes round
  to zero and the open orders grow without end.
* The open-order counter is opens minus closes modulo 2^32 in every run. It is exact all along a run if and only if
  every close finds an order that has been counted as open, and the open orders fit 32 bits. One close too many
  wraps it: with a cap below 2^32, a new gate then refuses every order.
* The feed is read once in a call. While it is not live, at most the orders of the calls that had read it before go
  out, and such a call goes on as if the feed had stayed.
* What is recorded as filled is what the exchange last reported if and only if the last report on the order found
  its entry or repeated the recorded total. It does while the order is young; the reaper forgets an order that has
  rested for more than 30 seconds, and its later fills never reach the positions.
* Rounding "down" rounds up below zero: -1.5 becomes -1 in steps of 1. It rounds down if and only if the amount is
  not negative, or is a multiple of the step already, or the step is zero. Formatting keeps the approval of every
  order if and only if the notional cap is not negative (or no order is ever approved).

## Where code and comments differ

The model follows the code.

* `apply_batch` does not sort at the end (src/core/orderbook.rs:125-128); it searches and inserts level by level.
* A stale snapshot is an error result, not silent (src/exchange_clients/book_sync.rs:178-189); nothing else changes.
* A snapshot with sequence 0 is discarded by the book (src/core/orderbook.rs:70), and the state still becomes Live.
* `executed_quantity` is called per-report in src/core/models.rs:53 and used as cumulative in
  src/order_manager/in_flight.rs:47-53. The positions are fed with the returned delta.
* `process_execution` drops an entry on Filled and Cancelled, not on Rejected (src/order_manager/in_flight.rs:56-57),
  although src/core/models.rs:112-117 calls all three terminal.
* The reaper takes entries older than 30 seconds for lost ones (src/order_manager/in_flight.rs:67-68); their age is
  counted from registration and reports do not renew it, so resting orders are removed as well.
* The value of a watch channel is not replaced once all its receivers are gone, so the model's `watch` equals
  the state only while there is a receiver (src/exchange_clients/book_sync.rs:258-260).

## Model

| member | source | states |
|---|---|---|
| OrderBooks.PartitionPoint | src/core/orderbook.rs:132 | the binary search returns the boundary between the levels that come before the target price and those that do not |
| OrderBooks.ApplyBatch | src/core/orderbook.rs:129-146 | the slab stays strictly sorted without empty levels, and as a map it is the old map with each update set or deleted in turn |
| OrderBooks.OrderBook.Apply | src/core/orderbook.rs:69-84 | a stale update changes nothing; a newer one writes each of its levels to its own side, deletes those of quantity zero, leaves all other levels and its number; sortedness is kept |
| OrderBooks.UpdateWritesBothSides | src/core/orderbook.rs:69-84 | the same of the book as two maps: on bids and asks alike the last update naming a price decides presence and quantity, every other price keeps its level |
| OrderBooks.OrderBook.BestBid | src/core/orderbook.rs:88-90 | index 0 of the bid slab is the highest price of the map, and absent exactly when the map is empty |
| OrderBooks.OrderBook.BestAsk | src/core/orderbook.rs:94-96 | index 0 of the ask slab is the lowest price of the map, and absent exactly when the map is empty |
| OrderBooks.SameViewSameSlabs | src/core/orderbook.rs:43-48 | two books with equal maps and sequence store identical slabs |
| PriceLevels.OnlyThePartitionPointMatches | src/core/orderbook.rs:132-134 | a price is in the book if and only if the level at the search position carries it |
| PriceLevels.SlabIsCanonical | src/core/orderbook.rs:13-14 | strict sorting makes the slab canonical: equal maps give equal slabs |
| PriceLevels.FirstLevelIsExtreme | src/core/orderbook.rs:40-46 | the head of a slab is the extreme price of its map |
| PriceLevels.LastWriteWins | src/core/orderbook.rs:130-145 | the last update naming a price decides presence and quantity, whatever came before |
| PriceLevels.UnnamedPriceUntouched | src/core/orderbook.rs:130-145 | a price no update names keeps its level |
| PriceLevels.OneWayToWrite | src/core/orderbook.rs:129-146 | these two facts leave nothing open: they determine the whole side |
| PriceLevels.StoredIffMapped | src/core/orderbook.rs:40-46 | a level is in the slab exactly when the map has its price and quantity |
| PriceLevels.BatchOrderIrrelevant | src/core/orderbook.rs:129-146 | a batch naming every price once gives the same map in any order |
| PriceLevels.BatchOrderSameSlab | src/core/orderbook.rs:129-146 | and the same slab, position by position |
| Delivery.ReplayIsOverwriteOfRecords | src/core/orderbook.rs:69-84 | any stream with duplicates and reordering gives the book of the strict left-to-right maxima of its sequence numbers, and ends at the highest number seen |
| Delivery.RecordsAscend | src/core/orderbook.rs:69-79 | those maxima are strictly increasing, above the starting sequence, and were all delivered |
| Delivery.RedeliveryChangesNothing | src/core/orderbook.rs:67-78 | delivering already delivered updates again, in any order and number, changes nothing |
| BookSync.BookSynchronizer.constructor | src/exchange_clients/book_sync.rs:75-87 | a new synchroniser is Pending with an empty book, generation 0 and a watch value of Pending |
| BookSync.BookSynchronizer.OnWsConnected | src/exchange_clients/book_sync.rs:115-126 | Ok exactly from Pending, which becomes Buffering; from any other state an error and no change |
| BookSync.BookSynchronizer.PushDelta | src/exchange_clients/book_sync.rs:137-163 | discarded when Pending, applied when Live, appended otherwise; an error exactly when 2048 deltas are buffered, and then everything is reset |
| BookSync.DeltaOutcome | src/exchange_clients/book_sync.rs:137-163 | the result code and the new state of every delta in every state, with the capacity as a number |
| BookSync.BookSynchronizer.OnSnapshotReceived | src/exchange_clients/book_sync.rs:172-243 | Ok exactly with the current generation, while Buffering, and with no buffered delta or an oldest one that is not ahead; then Live with an empty buffer and the plain replay of snapshot and whole buffer, so the drain's filter is redundant |
| BookSync.SnapshotOutcome | src/exchange_clients/book_sync.rs:172-243 | the result code and the new state of every snapshot in every state: stale, wrong state, gap, accepted |
| BookSync.BookSynchronizer.DrainBuffer | src/exchange_clients/book_sync.rs:222-232 | dropping what the snapshot covers and applying the rest is applying the whole buffer |
| BookSync.BookSynchronizer.OnWsDisconnected | src/exchange_clients/book_sync.rs:249-252 | empty book and buffer, Pending, generation one further modulo 2^64 |
| BookSync.BookSynchronizer.SetState | src/exchange_clients/book_sync.rs:256-262 | the state and, while a receiver exists, the watch value take the new state |
| BookSync.BookSynchronizer.ResetSync | src/exchange_clients/book_sync.rs:265-271 | a hard reset from any state, with a fresh book object |
| SyncRuns.InvariantHolds | src/exchange_clients/book_sync.rs:115-271 | after any events: never Syncing; Pending is empty; Buffering has an empty book and at most 2048 deltas; Live has an empty buffer; the watch value equals the state while a receiver exists |
| SyncRuns.BufferIsSession | src/exchange_clients/book_sync.rs:137-163 | while Buffering, the buffer is exactly the deltas pushed since the connection opened |
| SyncRuns.LiveBookIsSnapshotThenDeltas | src/exchange_clients/book_sync.rs:137-243 | in every Live state of every run the book is the replay of the snapshot and then every delta since connect, wherever the snapshot arrived |
| SyncRuns.WatchFreezes | src/exchange_clients/book_sync.rs:256-262 | once its receivers are gone the watch value stands still in every run |
| SyncRuns.EveryFeedRuns | src/exchange_clients/book_sync.rs:115-252 | every sequence of feed events, in any order, has a run: the theorems leave no input out |
| Generations.GenerationCountsAborts | src/exchange_clients/book_sync.rs:265-271 | the generation is the number of aborted sessions modulo 2^64 |
| Generations.TokenCurrentIff | src/exchange_clients/book_sync.rs:178-189 | a captured generation matches exactly when the aborts since are a multiple of 2^64 |
| Generations.StaleSnapshotIffAborted | src/exchange_clients/book_sync.rs:178-197 | below 2^64 aborts, a snapshot is reported stale exactly when a disconnect, overflow or gap reset happened since its capture; then nothing changes, and otherwise only it can go Live |
| Exchange.AgreementIffNoGap | src/exchange_clients/book_sync.rs:201-232 | the synchronised book is the exchange's for all contents of the deltas if and only if no number is skipped and the snapshot is not discarded |
| Exchange.NoGapReplay | src/exchange_clients/book_sync.rs:216-232 | without a gap, replaying snapshot and deltas is the exchange's book at the highest number seen |
| Exchange.GapDisagrees | src/exchange_clients/book_sync.rs:201-214 | for every numbering with a gap there is an exchange whose book differs |
| LiveAgreement.SnapshotTimingIrrelevant | src/exchange_clients/book_sync.rs:137-243 | two runs with the same snapshot and the same deltas since connect hold the same book, wherever the snapshot fell |
| LiveAgreement.LiveBookIsExchangeBook | src/exchange_clients/book_sync.rs:172-243 | in every Live state, a faithful snapshot and gap-free numbers give the exchange's own book |
| LiveAgreement.LiveAgreementIffNoGap | src/exchange_clients/book_sync.rs:115-243 | over all runs: every Live state with a faithful snapshot numbered s and deltas numbered q holds the exchange's book, whatever the deltas hold, if and only if no number is skipped and the snapshot is not discarded |
| LiveAgreement.InOrderDeliveryAgrees | src/exchange_clients/book_sync.rs:201-243 | with in-order delivery the buffer guard suffices; only a snapshot that met an empty buffer needs the first delta to follow on |
| LiveAgreement.GuardCoversFirstDelta | src/exchange_clients/book_sync.rs:202-213 | a snapshot accepted with a non-empty buffer is at least as recent as the session's first delta |
| LiveAgreement.SnapshotGoesLiveIff | src/exchange_clients/book_sync.rs:201-243 | over every run: a snapshot with the current generation brings its session live if and only if no delta came yet or the first one is not ahead of it; any other ends the session |
| LiveAgreement.SessionOverflowsIff | src/exchange_clients/book_sync.rs:146-157 | over every run: a session takes a further delta if and only if fewer than 2048 came before; otherwise it ends |
| LiveAgreement.GuardRejectsAdjacentSnapshot | src/exchange_clients/book_sync.rs:202-213 | a snapshot one below the first of consecutive buffered deltas is rejected with a reset although it would have given the exchange's book |
| LiveAgreement.NeedlessRejectionIff | src/exchange_clients/book_sync.rs:170-213 | a snapshot behind the oldest delta would have agreed, whatever the deltas hold, if and only if it is just behind it, no number is skipped and it is not discarded: otherwise it is irrecoverable, as the comment says |
| RateLimiter.TokenBucket.constructor | src/order_manager/rate_limiter.rs:36-43 | a new bucket is full as of now |
| RateLimiter.TokenBucket.TryConsume | src/order_manager/rate_limiter.rs:50-72 | one attempt: capped refill, then a token or the waiting time (or the panic of an impossible duration) |
| RateLimiter.AttemptOutcome | src/order_manager/rate_limiter.rs:50-72 | for every bucket and instant, in plain numbers: the amount after the capped refill, when it is admitted, and the exact wait, promised whenever it is below 2^64 seconds |
| RateLimiter.BurstIsCapacity | src/order_manager/rate_limiter.rs:36-64 | a new bucket admits exactly the first floor(capacity) of any number of attempts at one instant |
| RateLimiter.TokenBucket.AvailableTokens | src/order_manager/rate_limiter.rs:75-84 | read with no attempt in between, it changes nothing and is at least 1 exactly when an attempt at the same instant would be admitted |
| RateLimiter.TornReadBounds | src/order_manager/rate_limiter.rs:75-84 | read under two locks with attempts in between, the shown amount is at most the true one plus the admissions in between, and at least the true one less the inflow in between |
| RateLimiter.TokensStayInRange | src/order_manager/rate_limiter.rs:58-63 | the amount stays between zero and the capacity in every run |
| RateLimiter.EveryScheduleRuns | src/order_manager/rate_limiter.rs:50-72 | every sequence of instants has a run from every bucket |
| RateLimiter.WindowBound | src/order_manager/rate_limiter.rs:36-72 | in any window of any run, admissions are at most capacity + rate * length |
| RateLimiter.GreedyIsOptimal | src/order_manager/rate_limiter.rs:50-63 | no other affordable choice of admissions is ever ahead, for any capacity, rate and instants |
| RateLimiter.FailuresAreUnobservable | src/order_manager/rate_limiter.rs:54-71 | striking any failed attempts leaves all other verdicts and waiting times as they were |
| RateLimiter.RetryAfterIsExactIff | src/order_manager/rate_limiter.rs:47-70 | after any refusal at a positive rate the next attempt succeeds exactly from the end of the wait on, if and only if the capacity is at least 1; the error carries that wait whenever it is a duration |
| RateLimiter.ImpatienceCostsNothing | src/order_manager/rate_limiter.rs:54-71 | the same after any number of failed attempts in between |
| RateLimiter.SmallBucketNeverAdmits | src/order_manager/rate_limiter.rs:59-64 | a capacity below 1 admits nothing in any run |
| Nonce.NonceGenerator.Next | src/order_manager/nonce.rs:56-65 | an uninterrupted call returns one more than the larger of counter and clock, and leaves the counter there |
| Nonce.EveryScheduleRuns | src/order_manager/nonce.rs:56-65 | every schedule of thread turns and clock readings has a run |
| Nonce.NoncesIncreaseIff | src/order_manager/nonce.rs:51-65 | for any number of threads, any interleaving and any clock: results strictly increase in fetch_add order and exceed their own clock reading if and only if no fetch_add finds the counter at its last value |
| Nonce.NarrowClocksDoNotWrap | src/order_manager/nonce.rs:56-65 | no fetch_add wraps while the highest clock reading plus the number of results is below 2^64 |
| Nonce.SeedAtTheEndWraps | src/order_manager/nonce.rs:41-65 | a run that wraps: a generator seeded at 2^64 - 1 hands out 0 first |
| Nonce.WrapRepeatsNonce | src/order_manager/nonce.rs:56-65 | a run in which a wrap hands the same nonce to two threads |
| Nonce.CallsInOrder | src/order_manager/nonce.rs:51-65 | in a run without a wrap, a call that ends before another begins has the smaller nonce |
| Nonce.DriftBound | src/order_manager/nonce.rs:57-65 | in every run, wrapped or not, counter and results are at most the highest clock value read plus the number of results |
| Nonce.MaxWithPrevIsIdle | src/order_manager/nonce.rs:61-64 | in a run without a wrap, taking the maximum with the earlier value never changes the result |
| Nonce.ThreeTurnsAreNext | src/order_manager/nonce.rs:56-65 | three turns in a row of one thread are the uninterrupted call |
| Risk.RiskManager.ValidateOrder | src/risk_manager/manager.rs:43-62 | passes exactly when the count is below the cap and the notional, if any, within its cap; count first |
| Risk.ApprovedIff | src/risk_manager/manager.rs:43-62 | approval in terms of the configured amount and count, and which of the two errors is reported |
| Risk.RiskManager.OnOrderOpened | src/risk_manager/manager.rs:65-67 | one more open order, modulo 2^32 |
| Risk.RiskManager.OnOrderClosed | src/risk_manager/manager.rs:75-77 | one less, modulo 2^32 |
| Risk.RiskManager.OnExecutionReport | src/risk_manager/manager.rs:70-72 | the report reaches the position tracker |
| Gate.EveryCallFollowsProtocol | src/order_manager/manager.rs:72-131 | under any interleaving each call does a prefix of feed read, risk check, one token, one nonce, one dispatch under that nonce, one reply, and stops at its first refusal |
| GateSafety.TokensNoncesDispatchesBalance | src/order_manager/manager.rs:92-131 | tokens = nonces + calls between; nonces = dispatches + calls between; dispatches = replies + orders on the wire |
| GateSafety.OpenOrdersCapped | src/order_manager/manager.rs:93-125 | with at most K unresolved calls, open plus unresolved orders never exceed max - 1 + K (zero if max or K is zero) if that number is below 2^32, in whatever order closes are processed |
| GateSafety.CounterLaw | src/risk_manager/manager.rs:65-77 | in every run from a new gate the counter is opens minus closes modulo 2^32 |
| GateSafety.ExactThroughoutIffMatched | src/risk_manager/manager.rs:65-77 | the counter is right all along a run if and only if every close finds an order counted as open and the open orders stay below 2^32 |
| GateSafety.RefusedForCountIff | src/risk_manager/manager.rs:43-77 | in every run an order is refused for the count exactly when the cap is at most opens minus closes modulo 2^32; with an excess of closes up to 2^32, that is 2^32 less the excess |
| GateSafety.SentOrdersWithinCap | src/order_manager/manager.rs:92-121 | in every run, every order past the risk check, and so every order sent, is unpriced or within the configured notional |
| GateSafety.OneCloseJamsGate | src/risk_manager/manager.rs:43-77 | after a single close from any new gate, every order is refused for the count if and only if the cap is below 2^32 |
| GateSafety.DarkFeedBound | src/order_manager/manager.rs:72-121 | while the feed is not live, the orders dispatched are at most those of the calls that had read it as live before |
| OrderManagement.OrderOutlivesFeed | src/order_manager/manager.rs:72-121 | a call whose feed read is past goes on exactly as if the feed had stayed, whatever it becomes: the order is dispatched |
| CapAttained.RoundOpens | src/order_manager/manager.rs:93-125 | from any reached live gate below its cap, any number of overlapping calls up to K, with tokens to pay for them, open an order each, past the end of the counter too |
| CapAttained.CapIsAttained | src/order_manager/manager.rs:93-125 | for every max and K with max - 1 + K below 2^32 (or one of them zero) there is a run from a new gate, never with more than K unresolved calls, that ends with exactly the capped number of open orders |
| CapAttained.NoBoundPastTheCounter | src/risk_manager/manager.rs:43-67 | for max and K of at least 1 with max - 1 + K of 2^32 or more, there are such runs with more open orders than any given number |
| CapAttained.CapIsExact | src/order_manager/manager.rs:93-125 | for every max and K: a number bounds the open orders of all runs with at most K unresolved calls if and only if max - 1 + K (zero if max or K is zero) is below 2^32 and at most that number |
| GateRates.DispatchesRateLimited | src/order_manager/manager.rs:95-121 | in any window of any run the orders dispatched are at most the calls that had paid before it, one burst and the inflow between the first and last attempt of the window |
| GateRates.DispatchNoncesDistinct | src/order_manager/manager.rs:106-121 | no call dispatches twice, and no two dispatches share a nonce as long as the nonce counter does not wrap |
| OrderManagement.OrderManager.SubmitOrder | src/order_manager/manager.rs:64-132 | refused by feed or risk: nothing spent; by the bucket: no nonce drawn; otherwise one token, one nonce, and one open order if accepted |
| OrderManagement.SubmissionIsUninterruptedCall | src/order_manager/manager.rs:64-132 | the interleaved gate with one call in it does exactly what the sequential method does |
| InFlight.InFlightTracker.RegisterOrder | src/order_manager/in_flight.rs:36-45 | the id's entry is new, with nothing filled |
| InFlight.InFlightTracker.ProcessExecution | src/order_manager/in_flight.rs:49-64 | the delta brings the recorded total to the reported one; a known entry stays exactly on Pending, Open, PartiallyFilled and Rejected; unknown ids change nothing |
| InFlight.InFlightTracker.ReaperTick | src/order_manager/in_flight.rs:78-94 | exactly the entries at most 30 seconds old at the instant at which the scan visits them stay |
| Inventory.PositionTracker.ApplyExecution | src/risk_manager/inventory.rs:23-33 | a buy adds its quantity to the symbol's position, a sale subtracts it, no other position moves; an empty report creates no entry |
| Inventory.PositionTracker.SetPosition | src/risk_manager/inventory.rs:36-38 | one position is overwritten |
| Fills.ReportThenRemove | src/order_manager/in_flight.rs:50-63 | the concurrent steps in a row leave the entries and hand out the delta that ProcessExecution does, whatever other removals are pending |
| Fills.DeltasTelescope | src/order_manager/in_flight.rs:49-64 | for any interleaving, late removals and the reaper included, an id's deltas add up to its last recorded total plus the totals of its earlier registrations |
| Fills.UniqueOrderConserved | src/order_manager/in_flight.rs:47-64 | with a unique id they add up to the last recorded total |
| Fills.NothingLostInBooking | src/risk_manager/inventory.rs:23-33 | in whatever order deltas are booked, position plus unbooked deltas is boot position plus all deltas |
| Fills.PositionsAreFills | src/risk_manager/inventory.rs:23-47 | once all deltas are booked each position is its boot value plus the signed final fills of its orders |
| Fills.OneSidedRunsMoveOneWay | src/risk_manager/inventory.rs:23-33 | in every run of buys with totals that do not fall no position ever falls, and in such a run of sales none ever rises, whatever the order of booking |
| Fills.OnlyEndsDoom | src/order_manager/in_flight.rs:55-94 | in every run an order is marked for removal only by a Filled or Cancelled report on its entry or by the reaper finding it more than 30 seconds old |
| Fills.RecordedIsReportedIff | src/order_manager/in_flight.rs:49-64 | the recorded total of an order is the last reported one if and only if there was no report since its registration, the last one found its entry, or it repeated the recorded total |
| Fills.LivingOrdersAreRecorded | src/order_manager/in_flight.rs:49-94 | it is as long as no terminal report came before the last one and the reaper never found the order past its timeout |
| Fills.RestingOrderLosesFills | src/order_manager/in_flight.rs:78-94 | a run in which an order older than 30 seconds is collected and the fill reported afterwards is recorded, handed out and booked nowhere |
| Fills.PositionsAreReported | src/risk_manager/inventory.rs:23-47 | if the last report on each order counts, each position is its boot value plus the signed totals the exchange last reported |
| Instruments.FormatOrder | src/core/instrument.rs:36-41 | quantity and price, if any, are replaced by their rounded values |
| Instruments.FormattedByLotAndTick | src/core/instrument.rs:18-41 | the quantity becomes a multiple of the lot less than a lot away, the price a multiple of the tick less than a tick away, both toward zero; nothing else changes |
| Instruments.RoundDownIsClose | src/core/instrument.rs:20-33 | an exact multiple, between zero and the amount, less than one step away, for every amount and every step |
| Instruments.LargestMultiple | src/core/instrument.rs:18-25 | for non-negative amounts no larger multiple fits |
| Instruments.RoundsDownIff | src/core/instrument.rs:18-33 | it rounds down if and only if the step is zero, the amount is not negative, or the amount is a multiple of the step |
| Instruments.RoundsUpBelowZero | src/core/instrument.rs:18-33 | an amount that it rounds up: -1.5 in steps of 1 becomes -1 |
| Instruments.RoundDownIdempotent | src/core/instrument.rs:20-33 | rounding twice is rounding once |
| Instruments.RoundDownMonotone | src/core/instrument.rs:20-33 | rounding keeps the order of amounts |
| Instruments.FormattingKeepsApprovalIff | src/risk_manager/checks.rs:21-29 | an approved order stays approved after formatting, for all orders and instruments, if and only if the notional cap is not negative (or nothing is approved) |
| Backtest.PaperTrader.Execute | src/bin/backtest.rs:31-58 | a buy pays ask times quantity and 0.1 percent of it, a sale gets bid times quantity less 0.1 percent of it; the position moves by the quantity |
| Backtest.BuyAndHold | src/bin/backtest.rs:31-192 | one order on the first record of any tape: the result in plain numbers of its quote and the last mid |
| Backtest.Replay | src/bin/backtest.rs:160-186 | the loop's position, cash and last quote are the sums over the tape |
| Backtest.Run | src/bin/backtest.rs:140-192 | final mark-to-mid = initial cash + position * mid moves - half the spread per unit - fee rate * turnover |
| Backtest.OutlayExplained | src/bin/backtest.rs:31-62 | cash laid out comes back as position value, less the spread, plus what the position earned |
| Backtest.StandingMarketNeverPays | src/bin/backtest.rs:31-62 | with 0 <= bid <= ask and non-negative quantities, no strategy gains while the mid stands still |

## Left out

- Decimal scale, 28-digit rounding and overflow, and binary floating point in the bucket: amounts, prices, tokens and seconds are exact reals.
- Timestamps and symbols inside updates, and the mid price, spread and depth queries of the book: they decide nothing or are one expression over `BestBid` and `BestAsk`.
- RateLimiter.TokenBucket.AvailableTokens: the method itself reads both fields at once; `TornReadBounds` says what attempts between the two locks change.
- RateLimiter.TokenBucket.TryConsume: the division and the duration are exact; a wait that no duration can hold is the verdict `Unrepresentable`, after which the call does nothing more.
- InFlight.InFlightTracker.ReaperTick: the ten-second schedule is not modelled; other calls between the scan and the removals are in `Fills`.
- Instruments.FormatOrder: the dictionary of instruments around it is a plain map and is not modelled.
- Locks and concurrent maps: each locked section is one atomic step; the nonce atoms are sequentially consistent.
- Networking, JSON, signing, configuration, logging, channels, signals, retries, the price-sanity check (which nothing calls) and the dummy strategy: the exchange's answer, the clocks, snapshots and the strategy's orders are inputs.
