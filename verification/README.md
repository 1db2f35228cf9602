# Verification of the qtrade client's adapters and bridges

Dafny 4.11 models of four parts of the client, with proofs over every run of each:

- **The mock trading venue** (`MockTraderApi`): an order table, a trade log and two counters. A send is not atomic: it
  takes an id, stores the order under the lock, runs the order callback, decides whether to fill, takes a trade number,
  runs the trade callback, and only then takes the lock again to record the trade and mark the order filled.
  `VenueMachine` gives these steps one by one, so that cancels, other sends and sends made inside a callback can land
  in every gap; `MockTrader` is the object with its loops; `VenueReentry` treats callbacks that send, cancel or change
  settings, `VenueObserved` what a client then sees, and `VenueLogOrder` the order of the log over every interleaving.
- **The mock tick generator** (`MockQuoteApi`): a control thread against a tick thread that holds the mutex for a whole
  sweep and walks its price (`QuoteLifecycle`, `MockQuote`), and the price loops (`TickGenerator`).
- **The last-known-good caches** of `GrpcAccountRiskBridge` and `GrpcAccountBridge`, with their clients: objects whose
  answers are a function of the whole call history (`LastKnownGood`, `RiskBridge`, `CredentialBridge`), whose credential
  an answer is (`CredentialOwners`), and the same bridges under overlapping calls (`ConcurrentGets`).
- **The mutexes** (`LockDiscipline`): which callbacks may call back in.

`dafny verify dfyconfig.toml` checks the whole project.

## How the models read

A run of a machine is any sequence of actions; a step that is not possible in a state leaves the state alone, so "for
every run" needs no side condition. `VenueMachine.AdvanceSend` has one function per step of `SendOrder`
(mock_trader_api.cpp:128-177) and `AdvanceCancel` one per step of `CancelOrder` (185-209). Each critical section is one
step, queries change nothing and read one state, and the history fields of the state record every store, number given
out, accepted cancel and callback.

What a single call does is also told field by field, apart from the steps: `VenueCalls` for a send or cancel that
nothing interrupts, `VenueNotices` for every notice of every run, and the contracts of the query methods.

Nested calls are given a meaning of their own, `VenueReentry.Eval`, in which a callback's calls are run where the
callback stands in the code. `ForestRuns` proves that the machine, run along the same calls, ends in that very state.

Broker ids may collide, because a client may choose them. Nothing is assumed about that: theorems hold for colliding
ids; or for one order whose own id is stored once (`Once`), whatever happens to others; or for runs that *clobber*
nothing (`NeverClobbers`: no store over an order that is filled or that a send in progress can still fill). The
conditions are characterised exactly: `FreshnessExact` says which client ids avoid overwriting, `BooksReconcileExact`
says that clobbering is the one way to put the log and the table at odds.

Findings a reader of the code may not expect, each with an input and its exact condition:

- A cancel that lands between a send's store and its record succeeds, and the order is filled afterwards all the same
  (`CancelBeforeFillIsOverwritten`). This is still possible exactly while a send of the order is past its store
  (`CanceledCanStillFillExact`).
- A client id may collide with another client id or with a number of the venue, and the later order replaces the
  earlier one (`ReusedClientIdReopensFilledOrder`, `ClientIdTakesVenueNumber`); `FreshnessExact` says exactly when this
  happens and `BooksReconcileExact` when it harms.
- The log does not always keep the order of the trade callback. Two sends side by side break it though their callbacks
  do nothing (`OverlappingSendsReorderLog`), and so does a trade callback that sends (`NestedSendReordersLog`), but not
  if it switches auto fill off first (`UnfilledNestedSendKeepsOrder`). The order is kept exactly when no record
  overtakes an earlier announce (`LogKeepsOrderExact`), which is safe exactly as long as nothing is announced over an
  unrecorded trade (`OrderIsSafeExact`). On one thread that means exactly that no trade callback contains a send that
  fills (`ReentrantRunObserved`, `NestingIsOvertaking`).
- `trade.order_id` is never set, so a trade query by order id finds nothing (`TradesNeverFoundByOrderId`).
- Tick callbacks run under the mutex, so one that subscribes or unsubscribes never returns
  (`SubscribingCallbackBlocks`, `SweepCompletesExact`); trader callbacks do not (`TraderCallbacksMayReenter`).
- The credential cache is keyed by account alone, so an engine can be given a credential fetched for another one
  (`FailedFetchBorrows`); `BorrowedExact` says exactly when, and `NeverBorrowsExact` exactly which callers are safe.

Assumptions: counters do not wrap and each increment is one step, although the code does not synchronise them; SDK
fields not set by the code start at zero or empty; prices are exact reals; a callback read as registered is still
registered when it is called, and returns; the quote adapter has one control thread, and tick callbacks do not
disconnect.

## Model

| member | source | states |
|---|---|---|
| TradeIds.TradeIdRoundTrip | src/adapters/mock/trader/mock_trader_api.cpp:156 | The counter can be read back from a trade id, decimal digit by digit. |
| TradeIds.TradeIdsDiffer | src/adapters/mock/trader/mock_trader_api.cpp:156 | Two trade ids are equal exactly when their counters are. |
| TradeIds.TradeIdIsSpelledOut | src/adapters/mock/trader/mock_trader_api.cpp:155-156 | A trade id is the fixed words followed by decimal digits without a leading zero. |
| VenueMachine.StoredGrows | src/adapters/mock/trader/mock_trader_api.cpp:147-150 | Over any run the store history only grows, so a run without repeated ids had none earlier. |
| VenueTable.TableAlwaysConsistent | src/adapters/mock/trader/mock_trader_api.cpp:138-150 | In every reachable state, colliding ids included: key = broker id, traded + left = volume, filled means left 0, unfilled means nothing traded, no status beyond queueing, filled and canceled; no order is ever dropped and the fill's lookup never fails. |
| VenueIds.NeverOverwritesExact | src/adapters/mock/trader/mock_trader_api.cpp:147-150 | A run overwrites no stored order exactly when no id is stored twice. |
| VenueIds.FreshnessExact | src/adapters/mock/trader/mock_trader_api.cpp:129-150 | The venue numbers the k sends that ask for it 1..k, in this order, and stores no such number twice; with no send between choosing and storing it has stored exactly these, and nothing was overwritten if and only if the client ids are pairwise distinct and all greater than k. |
| VenueTrades.AnnouncedIsRecordedPlusInFlight | src/adapters/mock/trader/mock_trader_api.cpp:154-175 | In every reachable state the trades handed to the callback are the recorded ones plus those of sends in between, without overlap, and all trade ids are distinct on both sides. |
| VenueTrades.NoAnnouncedTradeIsLost | src/adapters/mock/trader/mock_trader_api.cpp:167-175 | With no send between callback and record, callback and log hold the same trades. |
| VenueNotices.EveryNoticeIsAStoreOrACancel | src/adapters/mock/trader/mock_trader_api.cpp:133-153 | Over every run each order handed to the order callback is either the one a send had just stored, with its request's fields under its broker id, queueing, insert accepted, no order id and all volume left, or the one a cancel had just left in the table, canceled, cancel accepted, under the cancel's order id and otherwise as it was. |
| VenueBooks.BooksReconcile | src/adapters/mock/trader/mock_trader_api.cpp:147-175 | After every run that clobbers nothing, trades and filled orders correspond one to one with equal terms, and per instrument signed volume and money of log and table agree, sends in flight and cancels before fills included. |
| MockTrader.QueriedOrdersAgreeWithLog | src/adapters/mock/trader/mock_trader_api.cpp:225-238 | Positions and money added up from an unfiltered order query equal those netted from the log. |
| VenueReuse.BooksReconcileExact | src/adapters/mock/trader/mock_trader_api.cpp:147-175 | A further step keeps trades and filled orders in correspondence, whatever clobber-free run follows, if and only if it does not store over a filled or still fillable order. |
| VenueReuse.ReusedClientIdReopensFilledOrder | src/adapters/mock/trader/mock_trader_api.cpp:132-150 | A client id used again, with auto fill off, turns a filled order back into a queueing one while its trade stays in the log. |
| VenueReuse.ClientIdTakesVenueNumber | src/adapters/mock/trader/mock_trader_api.cpp:129-150 | A client id equal to the next number of the venue: the venue's own order replaces the client's. |
| VenueCancels.FinalStatusStep | src/adapters/mock/trader/mock_trader_api.cpp:191-204 | A step changes a canceled or filled order, its id stored once, only as the fill of a canceled order by its own send. |
| VenueCancels.CanceledCanStillFillExact | src/adapters/mock/trader/mock_trader_api.cpp:145-175 | A canceled order whose id is stored once, whatever ids collide elsewhere, can still end up filled if and only if a send of it is past its store at that moment. |
| VenueCancels.CancelBeforeFillIsOverwritten | src/adapters/mock/trader/mock_trader_api.cpp:147-204 | The input: a cancel right after the store is accepted, the order is canceled, and the fill still lands on it. |
| VenueCancels.FinalStatusIsPermanent | src/adapters/mock/trader/mock_trader_api.cpp:168-204 | A filled order, and a canceled one with no send past its store, its id stored once, never changes again. |
| VenueCancels.AtMostOneCancel | src/adapters/mock/trader/mock_trader_api.cpp:185-209 | An order whose id is stored once is canceled at most once and announced as canceled at most once; later cancels get a system error and change nothing. |
| VenueCancels.CancelAnswerExact | src/adapters/mock/trader/mock_trader_api.cpp:191-200 | In every reachable state a connected cancel is answered not found exactly when its id was never stored, a system error exactly when the order is filled or canceled, success exactly when it is queueing. |
| VenueFills.InOrderIsConsecutive | src/adapters/mock/trader/mock_trader_api.cpp:155-167 | Fills numbered by their in-order place carry consecutive numbers in the order they are announced. |
| VenueFills.LogIsPermutation | src/adapters/mock/trader/mock_trader_api.cpp:167-169 | The fills logged are a permutation of the fills announced. |
| VenueFills.SameOrderExact | src/adapters/mock/trader/mock_trader_api.cpp:167-169 | The two traversals agree if and only if no trade callback contains a send that fills. |
| VenueReentry.ForestRuns | src/adapters/mock/trader/mock_trader_api.cpp:128-209 | Whatever sends, cancels and changes of flags are nested in whichever callbacks, filled or not, the machine run along them ends in exactly the state their nesting means, with no call left in progress. |
| VenueObserved.EvalTraverses | src/adapters/mock/trader/mock_trader_api.cpp:151-175 | Of nested calls the trade callback sees the in-order traversal of the filled sends, numbered consecutively, and the log gets the post-order one. |
| VenueObserved.ReentrantRunObserved | src/adapters/mock/trader/mock_trader_api.cpp:151-169 | Announced trade ids are consecutive, the log gains a permutation of them, and the two orders agree if and only if no trade callback contains a send that fills. |
| VenueObserved.NestingIsOvertaking | src/adapters/mock/trader/mock_trader_api.cpp:151-175 | On one thread a record overtakes an earlier announce exactly when a trade callback contains a send that fills. |
| VenueObserved.QuietTradeCallbacksKeepOrder | src/adapters/mock/trader/mock_trader_api.cpp:167-169 | Trade callbacks that do not send keep the order, whatever order callbacks do. |
| VenueObserved.NestedSendsExact | src/adapters/mock/trader/mock_trader_api.cpp:151-169 | With nothing but sends and auto fill on, no trade callback contains a fill if and only if no trade callback that is reached sends. |
| VenueObserved.NestedSendReordersLog | src/adapters/mock/trader/mock_trader_api.cpp:167-169 | The input: a trade callback that sends has its trade announced last and logged first. |
| VenueObserved.UnfilledNestedSendKeepsOrder | src/adapters/mock/trader/mock_trader_api.cpp:154-169 | A trade callback that switches auto fill off and then sends leaves log and callback equal. |
| VenueLogOrder.LogKeepsOrderExact | src/adapters/mock/trader/mock_trader_api.cpp:167-169 | After every run of any threads the log holds the trades in the order of the callback if and only if no trade was recorded while one announced earlier was unrecorded; with none in between, that makes them equal. |
| VenueLogOrder.OrderIsSafeExact | src/adapters/mock/trader/mock_trader_api.cpp:154-169 | After a run without overlapping announces, a step keeps the order, whatever such run follows, if and only if it does not announce a trade over an unrecorded one. |
| VenueLogOrder.OverlappingSendsReorderLog | src/adapters/mock/trader/mock_trader_api.cpp:154-169 | The input: of two sends side by side the second is announced last and logged first. |
| VenueSequential.SendAloneIsSendNow | src/adapters/mock/trader/mock_trader_api.cpp:128-177 | The eight steps of a send nobody interrupts are one transition that leaves no call behind, refused, filled or unfilled. |
| VenueSequential.CancelAloneIsCancelNow | src/adapters/mock/trader/mock_trader_api.cpp:185-209 | Likewise for a cancel. |
| VenueCalls.SendAloneFieldByField | src/adapters/mock/trader/mock_trader_api.cpp:128-177 | Field by field: a send that nothing interrupts stores the order as requested, tells the order callback of it as accepted, and fills it, with one trade announced and recorded, exactly if auto fill is on and there is a trade callback; not connected, it changes nothing. |
| VenueCalls.CancelAloneFieldByField | src/adapters/mock/trader/mock_trader_api.cpp:185-209 | Field by field: a cancel marks exactly its own order, tells the order callback of it as left in the table, and changes nothing if it is refused. |
| VenueCalls.RecordTouchesOnlyTheFill | src/adapters/mock/trader/mock_trader_api.cpp:168-175 | The record of a fill changes four fields of its own order, whatever a cancel did to it, and adds the trade as requested to the log. |
| Netting.ListSumIsTableSum | src/adapters/mock/trader/mock_trader_api.cpp:225-238 | Adding up any enumeration of the table gives the table's sum, in whatever order it is walked. |
| Positions.AnswerIsTheNet | src/adapters/mock/trader/mock_trader_api.cpp:301-321 | One entry per admitted traded instrument, non-negative volume, direction and volume encoding the net of the log. |
| Positions.EntriesFromBothSides | src/adapters/mock/trader/mock_trader_api.cpp:301-321 | For every log an entry is short exactly when less of its instrument was bought than not, its volume is the difference of the two, its market that of the last trade in it, and the entries are the traded instruments admitted. |
| Positions.PositionsConserveVolume | src/adapters/mock/trader/mock_trader_api.cpp:301-321 | The signed total over all entries is the signed total of the log. |
| Positions.PositionsIgnoreLogOrder | src/adapters/mock/trader/mock_trader_api.cpp:301-321 | Reordering the log changes no instrument, volume or direction. |
| Positions.OneTradeMovesOneEntry | src/adapters/mock/trader/mock_trader_api.cpp:301-321 | One more trade moves its own instrument by its signed volume, flips included, and no other entry. |
| Positions.FilterRestricts | src/adapters/mock/trader/mock_trader_api.cpp:302-304 | A filtered answer is the unfiltered one restricted to the instrument. |
| Positions.AccumulatorsStayBounded | src/adapters/mock/trader/mock_trader_api.cpp:309-316 | If absolute volumes sum to at most B, every accumulator on the way, and its negation, lies in [-B, B]. |
| MockTrader.MockTraderApi.constructor | src/adapters/mock/trader/mock_trader_api.hpp:209-222 | A new venue is the machine's initial state. |
| MockTrader.MockTraderApi.Connect | src/adapters/mock/trader/mock_trader_api.cpp:78-83 | Sets the connected flag, gives one connected notification, also when connected already, and does nothing else. |
| MockTrader.MockTraderApi.Disconnect | src/adapters/mock/trader/mock_trader_api.cpp:85-87 | Clears the connected flag and nothing else. |
| MockTrader.MockTraderApi.SetAutoFill | src/adapters/mock/trader/mock_trader_api.cpp:387-389 | Sets the auto fill flag and nothing else. |
| MockTrader.MockTraderApi.SetOrderCallback | src/adapters/mock/trader/mock_trader_api.cpp:379-381 | Changes whether order events are delivered and nothing else. |
| MockTrader.MockTraderApi.SetTradeCallback | src/adapters/mock/trader/mock_trader_api.cpp:383-385 | Changes whether sends can fill and nothing else. |
| MockTrader.MockTraderApi.SendOrder | src/adapters/mock/trader/mock_trader_api.cpp:128-177 | The whole new state is that of the machine's uninterrupted send, which `VenueCalls` tells field by field; refused exactly when not connected. |
| MockTrader.MockTraderApi.Fill | src/adapters/mock/trader/mock_trader_api.cpp:154-175 | The fill branch: number, announce, record, mark filled. |
| MockTrader.MockTraderApi.CancelOrder | src/adapters/mock/trader/mock_trader_api.cpp:185-209 | The new state is that of the machine's uninterrupted cancel; not connected, not found, system error and success are each answered exactly when the store history and the order's status before the call say so. |
| MockTrader.MockTraderApi.QueryOrders | src/adapters/mock/trader/mock_trader_api.cpp:225-238 | Every order of the requested instrument, id and status exactly once, and no other, in whatever order the table is walked. |
| MockTrader.MockTraderApi.QueryTrades | src/adapters/mock/trader/mock_trader_api.cpp:269-282 | Every trade of the requested instrument, order id and broker id as often as the log has it, and no other, in log order. |
| MockTrader.MockTraderApi.QueryPositions | src/adapters/mock/trader/mock_trader_api.cpp:295-323 | One entry per admitted traded instrument: short exactly when less was bought than not, by the difference of the two, in the market traded in last. |
| MockTrader.MockTraderApi.Entries | src/adapters/mock/trader/mock_trader_api.cpp:312-321 | The second loop gives each accumulated entry its direction and a non-negative volume, once each. |
| MockTrader.TradeQueryExact | src/adapters/mock/trader/mock_trader_api.cpp:273-280 | A trade query returns each matching trade as often as the log holds it, and nothing else. |
| MockTrader.MatchesInLogOrder | src/adapters/mock/trader/mock_trader_api.cpp:273-281 | What a trade query returns stands in the order of the log. |
| MockTrader.TradesNeverFoundByOrderId | src/adapters/mock/trader/mock_trader_api.cpp:155-166 | No reachable trade carries an order id, so a query by order id is always empty. |
| MockTrader.OnlyRecordsMovePositions | src/adapters/mock/trader/mock_trader_api.cpp:168-175 | On the machine positions move only when a fill is recorded, and then only in its instrument, by its signed volume. |
| LockDiscipline.TraderCallbacksMayReenter | src/adapters/mock/trader/mock_trader_api.cpp:147-207 | Any finite tree of sends, cancels and queries nested in callbacks completes: no acquisition blocks and no callback runs under the mutex. |
| LockDiscipline.OneAcquisitionPerSection | src/adapters/mock/trader/mock_trader_api.cpp:147-207 | The mutex is taken twice by a send that fills, once by any other connected send or cancel and by every query, whatever is nested. |
| LockDiscipline.SweepCompletesExact | src/adapters/mock/quote/mock_quote_api.cpp:207-238 | A sweep completes if and only if none of its tick callbacks subscribes or unsubscribes. |
| LockDiscipline.SubscribingCallbackBlocks | src/adapters/mock/quote/mock_quote_api.cpp:143-148 | The input: one tick callback that subscribes blocks the sweep for good. |
| QuoteLifecycle.EverySweepIsOneSubscription | src/adapters/mock/quote/mock_quote_api.cpp:206-238 | In every interleaving each finished sweep publishes one tick per entry, in order, of one installed list, lists are used in installation order, and nothing else is published. |
| QuoteLifecycle.ConnectNeverReplacesThread | src/adapters/mock/quote/mock_quote_api.cpp:35-45 | Connect never replaces a joinable thread. |
| QuoteLifecycle.AtMostOneMoreSweep | src/adapters/mock/quote/mock_quote_api.cpp:47-57 | After the stop request the tick thread takes the mutex at most once more, and only if it was already waiting for it. |
| QuoteLifecycle.DisconnectTerminates | src/adapters/mock/quote/mock_quote_api.cpp:51-55 | Once the tick thread has run its remaining work the join and Disconnect complete. |
| QuoteLifecycle.NoTicksWhileDisconnected | src/adapters/mock/quote/mock_quote_api.cpp:47-57 | While disconnected no tick is published until the next Connect. |
| QuoteLifecycle.RunningSweepsGoOn | src/adapters/mock/quote/mock_quote_api.cpp:206-238 | Progress: from every reachable state with the generator running, the length of the list plus four steps of the tick thread complete one more sweep, of exactly the current list. |
| QuoteLifecycle.SweepCompletes | src/adapters/mock/quote/mock_quote_api.cpp:206-238 | Counted exactly: in so many steps the tick thread ends its sweep, publishing what was left of the current list and nothing else. |
| QuoteLifecycle.SubscriptionIsPublished | src/adapters/mock/quote/mock_quote_api.cpp:143-148 | A subscription made while connected is what is published next, whole and in order, within its length plus four steps. |
| QuoteLifecycle.FirstSubscriptionIsPublished | src/adapters/mock/quote/mock_quote_api.cpp:35-45 | Connect, Subscribe and as many steps as entries plus three publish exactly the list. |
| QuoteLifecycle.UnsubscribeSilences | src/adapters/mock/quote/mock_quote_api.cpp:150-155 | After Unsubscribe nothing is published until the next Subscribe. |
| QuoteLifecycle.OneAcquisitionPerSweep | src/adapters/mock/quote/mock_quote_api.cpp:206-208 | In every interleaving the tick thread takes the mutex once for every sweep finished or in progress. |
| QuoteLifecycle.PricesSinceConnect | src/adapters/mock/quote/mock_quote_api.cpp:204-214 | In every interleaving the ticks since a Connect carry the prices of one walk that starts at 100 again, and the n-th of them is within n/2 of 100. |
| MockQuote.MockQuoteApi.Connect | src/adapters/mock/quote/mock_quote_api.cpp:35-45 | The machine's three Connect steps; afterwards connected, running and with a thread; a second Connect succeeds and keeps the first configuration. |
| MockQuote.MockQuoteApi.Disconnect | src/adapters/mock/quote/mock_quote_api.cpp:47-57 | The join loop terminates and leaves no thread; meanwhile exactly the rest of a sweep in progress is published, or one whole sweep if the thread was waiting for the mutex. |
| MockQuote.MockQuoteApi.Subscribe | src/adapters/mock/quote/mock_quote_api.cpp:143-148 | Waits for a sweep in progress to publish the rest of the old list, then installs the new one. |
| MockQuote.MockQuoteApi.Unsubscribe | src/adapters/mock/quote/mock_quote_api.cpp:150-155 | Likewise, installing the empty list. |
| MockQuote.MockQuoteApi.TickThreadStep | src/adapters/mock/quote/mock_quote_api.cpp:206-240 | One step of the tick thread, independent of where the control thread is; that these steps go on publishing is `QuoteLifecycle.RunningSweepsGoOn`. |
| TickGenerator.FillBook | src/adapters/mock/quote/mock_quote_api.cpp:216-221 | The depth loop: a symmetric book, level i of width 0.4(i+1) and 100 + 50i a side. |
| TickGenerator.GenerateMockTicks | src/adapters/mock/quote/mock_quote_api.cpp:204-237 | The nested loops: the n-th tick carries the n-th instrument, the price after n draws, its book and day prices. |
| TickGenerator.PlaceOfDraw | src/adapters/mock/quote/mock_quote_api.cpp:206-213 | The j-th draw of a sweep comes after all those of earlier sweeps and the j before it. |
| TickGenerator.WalkFromDrawToDraw | src/adapters/mock/quote/mock_quote_api.cpp:204-214 | The walk starts at 100 and moves from tick to tick by just the number drawn. |
| TickGenerator.BookLevels | src/adapters/mock/quote/mock_quote_api.cpp:216-219 | Level i stands 0.2 (i + 1) off the last price on either side. |
| TickGenerator.BookOffers | src/adapters/mock/quote/mock_quote_api.cpp:218-220 | Each side of a book of n levels offers 75 n + 25 n^2 in all. |
| TickGenerator.DayPricesAreOrdered | src/adapters/mock/quote/mock_quote_api.cpp:223-230 | Low, open, previous close, last and high price stand in this order at fixed distances, and turnover is volume at the average price. |
| TickGenerator.BookIsOrdered | src/adapters/mock/quote/mock_quote_api.cpp:216-221 | Bids strictly fall, asks strictly rise, and the last price lies strictly between. |
| TickGenerator.PriceStaysNear | src/adapters/mock/quote/mock_quote_api.cpp:213 | After n draws the price is within n/2 of 100. |
| TickGenerator.LowestBidDecides | src/adapters/mock/quote/mock_quote_api.cpp:216-217 | All bids of a book are positive exactly when last - 0.2 * depth is. |
| TickGenerator.BidsStayPositiveExact | src/adapters/mock/quote/mock_quote_api.cpp:204-217 | Whatever is drawn, the tick made after n draws has only positive bids, if and only if its book has no levels or n/2 + 0.2 * depth < 100. |
| LastKnownGood.LatestGoodExact | src/bridge/grpc_account_risk_bridge.cpp:43-47 | The last good value is that of the last call that reached the service and got one; absent exactly when there was none. |
| LastKnownGood.LiveExact | src/client/account_risk_client/account_risk_client.cpp:36-56 | The client is up exactly when its configuration is usable and an Init came after every Shutdown. |
| LastKnownGood.KnownAfter | src/bridge/grpc_account_risk_bridge.cpp:43-47 | A call adds to what is known exactly the value it fetched for its account. |
| LastKnownGood.NeverForgets | src/bridge/grpc_account_risk_bridge.cpp:51-73 | After one success for an account no failure, missing record, shutdown or restart brings back a timeout or not-initialised answer. |
| LastKnownGood.SameMachineWithMissingCollapsed | src/bridge/grpc_account_bridge.cpp:42-53 | The credential bridge is the policy bridge with missing records turned into failures, on every history. |
| RiskBridge.AccountRiskClient.Init | src/client/account_risk_client/account_risk_client.cpp:36-47 | Succeeds exactly when not initialised and the configuration is usable; never un-initialises. |
| RiskBridge.AccountRiskClient.Shutdown | src/client/account_risk_client/account_risk_client.cpp:53-56 | Leaves the client uninitialised. |
| RiskBridge.AccountRiskClient.GetAccountRiskPolicy | src/client/account_risk_client/account_risk_client.cpp:106-118 | Classifies outcomes: success, not found, everything else a timeout; not initialised without a stub. |
| RiskBridge.GrpcAccountRiskBridge.Initialize | src/bridge/grpc_account_risk_bridge.cpp:19-23 | Succeeds exactly when the history left the client down and the configuration is usable. |
| RiskBridge.GrpcAccountRiskBridge.Shutdown | src/bridge/grpc_account_risk_bridge.cpp:25-27 | Takes the client down and keeps the cache. |
| RiskBridge.GrpcAccountRiskBridge.GetAccountRiskPolicy | src/bridge/grpc_account_risk_bridge.cpp:33-73 | The answer by cases on the call history: the fresh value if delivered, not found without data if the record is missing, else the last good value, else timeout or not initialised as the client is up or down; only a delivered value changes what is known. |
| CredentialBridge.AccountClient.Init | src/client/account_client/account_client.cpp:38-50 | A second Init is a system error, an unusable configuration an internal one. |
| CredentialBridge.AccountClient.GetCredential | src/client/account_client/account_client.cpp:62-75 | Anything but a success is a timeout. |
| CredentialBridge.GrpcAccountBridge.Initialize | src/bridge/grpc_account_bridge.cpp:19-23 | Succeeds exactly when the history left the client down and the configuration is usable. |
| CredentialBridge.GrpcAccountBridge.Shutdown | src/bridge/grpc_account_bridge.cpp:25-27 | Takes the client down and keeps the cache. |
| CredentialBridge.GrpcAccountBridge.GetCredential | src/bridge/grpc_account_bridge.cpp:33-68 | The answer by cases on the call history: the fresh value if delivered, else the last good value, else timeout or not initialised as the client is up or down; a missing record is a failure. |
| CredentialOwners.BorrowedExact | src/bridge/grpc_account_bridge.cpp:29-66 | After every history, an engine is given a credential fetched for another one if and only if its own request does not get through and the last one that did for the account was another engine's; following credentials back to engines changes no answer. |
| CredentialOwners.FailedFetchBorrows | src/bridge/grpc_account_bridge.cpp:29-66 | The input: one engine fetches, another fails to and is given the first one's credential. |
| CredentialOwners.NeverBorrowsExact | src/bridge/grpc_account_bridge.cpp:29-66 | Whatever the service answers, an engine is sure to get only credentials fetched for itself if and only if no other engine asked for the account while the client was up. |
| ConcurrentGets.AnswersHaveProvenance | src/bridge/grpc_account_risk_bridge.cpp:37-73 | However gets overlap, every value answered for an account came in a response to a request for it, and success always carries a value. |
| ConcurrentGets.FallbackIsLastCommit | src/bridge/grpc_account_risk_bridge.cpp:60-73 | A get that falls back answers the commit made last for its account, or the code of its client state. |
| ConcurrentGets.MissingIsAnswered | src/bridge/grpc_account_risk_bridge.cpp:51-55 | However gets overlap, a missing record is answered not found without data by the policy bridge, whatever is cached, and changes neither cache nor commits; by the credential bridge it counts as a failure. |
| ConcurrentGets.DeliveredIsAnswered | src/bridge/grpc_account_risk_bridge.cpp:43-49 | However gets overlap, a delivered value is what the call commits and answers when it finishes. |
| ConcurrentGets.GetAsksExact | src/bridge/grpc_account_risk_bridge.cpp:37-40 | A get reaches the service exactly if the client is up as it starts; otherwise it is answered the last commit or not initialised. |
| ConcurrentGets.SerialRunsMeetTheContract | src/bridge/grpc_account_risk_bridge.cpp:33-73 | Gets that do not overlap give, call by call, the answers prescribed for the sequential history. |

## Left out

- The session-id overloads of the mock trader, `QueryAsset`, `Login` and the SPI forwarding: constants and null-checked pass-through.
- Callbacks in the `MockTrader` object do not call back in; that case is `VenueReentry`, on the machine.
- Queries nested in callbacks change nothing and are not listed among nested calls; their locking is in `LockDiscipline`.
- A callback that throws, and a callback unregistered between its check and its call.
- Memory-model races on the unsynchronised counters and flags, 64-bit wrap-around, and floating-point rounding.
- The bar callback and the unsupported queries of the quote adapter.
- The clock, the random generator, sleeping and logging; draws are arbitrary numbers of [-0.5, 0.5).
- gRPC channels, deadlines and messages: the outcome of each call is a parameter.
- Field-copy conversions, reservation calls, the configuration bridge, the EMT adapters and process start-up: one-branch code or stubs.
- MockQuote.MockQuoteApi.Disconnect: the waiting join is a loop that schedules the tick thread, so nothing is said about how long a step takes.
- MockQuote.MockQuoteApi.Subscribe: in the object the waiting call gets the mutex when the sweep in progress ends; that the tick thread may take it again first is covered by the interleavings of `QuoteLifecycle`.
- MockQuote.MockQuoteApi.Unsubscribe: likewise.
- ConcurrentGets.AnswersHaveProvenance: overlapping responses may be committed in another order than they arrived, so no order of arrival is claimed.
