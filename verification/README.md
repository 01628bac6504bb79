# Verification of the futures taker's stateful core

The system runs as four processes. A receiver turns exchange tickers into thresholds, an actuary turns them into orders, a
trader submits the orders under rate limits, and an evaluator scores them. They talk through shared-memory slots guarded by
a spin lock. This project models the parts of that pipeline that keep state and proves what holds over every run of them.

Each component appears in up to two forms. Objects that the source updates in place are classes whose methods are tied by
their contracts to functions on values. Concurrency is a step machine over those same functions: a step is one lock section
(one single field access for the shared-memory slots), `IsRun` describes any interleaving from the initial state, and the
results quantify over all runs. Clocks, network answers and market data are arbitrary inputs; doubles are exact reals.

| file | component |
|---|---|
| `TokenWindow.dfy`, `OrderLimiter.dfy`, `LimiterRuns.dfy`, `LimiterCreators.dfy` | token windows, two-window order limiters, boss with getters and refresh sweep, concurrent creators |
| `ShmSlot.dfy`, `ShmRecords.dfy`, `SlotProtocol.dfy`, `TradeScan.dfy` | the four slot kinds, their writers and readers, the lock protocol, the trader's scan |
| `TickerCache.dfy`, `TickerRuns.dfy`, `OffsetWindow.dfy` | sliding windows with cached extremes, the calculating thread beside them, running sums |
| `RiskControl.dfy`, `AccountPositions.dfy`, `Decimal.dfy`, `Strategy.dfy` | stop reasons and watchdogs, positions, price truncation, order construction |
| `ServiceRegistry.dfy`, `RegistryRuns.dfy` | order services per address pair, lookups and the collection pass |
| `ConnectionPool.dfy`, `OrderStats.dfy` | connection pool, per-order statistics |
| `SlotIndex.dfy` | slot numbering shared by the processes |
| `EndToEnd.dfy` | from the strategy's decisions through the order slot to the trader's submissions |
| `Paths.dfy` | joining stretches of runs, for all step machines |

## Findings

Where a property one would expect does not hold, the model keeps the code and states the exact limit.

- Ticker slots test update id and time separately, so their unlocked pre-check can turn away a ticker that the locked check
  would accept a moment later (`TickerPreCheckLosesWrite`). It cannot as long as no accepted write lowers the stored id or
  time (`RejectionStays`), and any write that does lower one has a continuation that loses another (`LoweringLosesWrite`).
- Two threads creating a limiter for one IP can both pass the check; the second insertion throws away a limiter that
  already spent tokens (`ConcurrentCreatorsReplace`). `ReplacesExactlyWhen` says when; with T threads an IP's rate is then
  bounded by ceil(L/D) + 2T - 1 quotas instead of ceil(L/D) + 1 (`IpRateWithCreators`, `IpRateDistinct`).
- The refreshing thread reads the clock before it waits for the lock. A refill that takes effect late lets three quotas
  through within one cycle (`LaggedRefillExceeds`); with a lag of at most d the bound is ceil((L+d)/D) + 1 quotas
  (`AccountRate`).
- Copying the tickers and storing their extremes take the lock separately. A ticker pushed in between may be missed
  (`StoreMissesPush`) and one that expires in between may live on in the extremes (`StoreKeepsExpired`);
  `StoreExactExactlyWhen` gives the exact condition, and `TiedExtremeSurvives` a harmless case. Published volatilities are
  never negative regardless (`PublishedNeverNegative`), unless a pass is configured for zero seconds
  (`ZeroIntervalPublishesNegative`).
- A collection pass may remove a service whose pair came back into use after its mapping snapshot (`PassDropsPairInUse`,
  exactly when: `DropsPairInUseExactlyWhen`), or one refreshed after the scan for expired services
  (`PassDropsFreshService`, exactly when: `DropsRefreshedExactlyWhen`).
- A buy price cut to a negative cap is rounded toward zero and ends above the cap (`BuyAboveNegativeCap`, exactly when:
  `BuyPriceCapped`). The buy signal rules it out when its threshold is at least beta (`BuySignalKeepsEdge`).
- A lite order update that arrives between the evaluator's copy and its write-back is overwritten (`PollUndoesLite`,
  exactly when: `PollUndoesLiteExactlyWhen`).
- Address pairs are joined with an underscore, so an address with one can share a pair with another (`PairsCollide`; not
  otherwise: `PairsDiffer`).
- The first order accepted into a slot is reported as 0, like a rejection (`OrderShm.WriterUpdate`).

## Model

| member | source | states |
|---|---|---|
| `TokenWindow.AutoResetCounter.ResetIfCycleEnd` | src/common/auto_reset_counter.cpp:5-15 | refills exactly when the cycle has ended, and says so |
| `TokenWindow.AutoResetCounter.GetSemaphore` | src/common/auto_reset_counter.cpp:17-25 | grants exactly when enough tokens remain and then takes them |
| `TokenWindow.GrantsPerReset` | src/common/auto_reset_counter.cpp:5-25 | in a lawful history the tokens granted in an interval are at most one quota per reset or renewal in it plus one |
| `TokenWindow.ResetsAreSpaced` | src/common/auto_reset_counter.cpp:5-15 | resets in an interval are stamped a duration apart except across a renewal, so all but one per renewal and one more fit into its length and the lag |
| `TokenWindow.RateBound` | src/trader/order_limiter.cpp:24-66 | with refills at most d late, any half-open interval of length L sees at most ceil((L+d)/D)+1 quotas of tokens, and two more per renewal in it |
| `TokenWindow.CounterRateBound` | src/common/auto_reset_counter.cpp:5-52 | the bound holds for every sequence of get and refresh calls on a fresh counter whose refreshes lag at most d behind the clock they read |
| `TokenWindow.RateBoundReached` | src/common/auto_reset_counter.cpp:5-25 | over one duration the bound is two quotas, and a run reaches it |
| `TokenWindow.LaggedRefillExceeds` | src/common/auto_reset_counter.cpp:43-52 | a late refill and a timely one let three quotas through within one duration |
| `OrderLimiter.AutoResetOrderLimiter.ResetIfCycleEnd` | src/trader/order_limiter.cpp:24-38 | each window is refilled on its own cycle |
| `OrderLimiter.AutoResetOrderLimiter.GetOrderSemaphore` | src/trader/order_limiter.cpp:40-50 | grants exactly when both windows have the tokens, and takes them from both |
| `OrderLimiter.AutoResetOrderLimiter.ReturnOrderSemaphore` | src/trader/order_limiter.cpp:52-66 | a window accepts a return unless it would overfill |
| `OrderLimiter.AutoResetOrderLimiterBoss.RefreshAll` | src/trader/order_limiter.cpp:83-95 | one sweep refills the account limiter and every IP limiter |
| `OrderLimiter.AutoResetOrderLimiterBoss.CreateIpLimiter` | src/trader/order_limiter.cpp:112-149 | creates exactly when the IP is new and capacity is left; otherwise nothing changes |
| `OrderLimiter.AutoResetOrderLimiterBoss.GetOrderSemaphore` | src/trader/order_limiter.cpp:151-176 | both answers, the account rollback, and that no other IP limiter changes |
| `LimiterRuns.StepKeepsInv` | src/trader/order_limiter.cpp:83-176 | every step of getters, creators and sweep keeps window accounting consistent with the history of orders, refills and replacements |
| `LimiterRuns.AccountConservation` | src/trader/order_limiter.cpp:52-66 | in every run init - remain of each account window is the orders granted since its refill plus those in flight |
| `LimiterRuns.AccountGrantsExactlyWhen` | src/trader/order_limiter.cpp:155-159 | in every run the account stage lets a request through if and only if, in both windows, it fits with the orders granted since the last refill and those in flight |
| `LimiterRuns.IpGrantsExactlyWhen` | src/trader/order_limiter.cpp:161-176 | an order is granted if and only if its IP has a limiter and it fits, in both windows, with those granted to the IP since that limiter's last refill |
| `LimiterRuns.RefundAccepted` | src/trader/order_limiter.cpp:151-176 | a getter refused by its IP stage gets its tokens back in both windows: neither drop branch is reachable |
| `LimiterRuns.AccountRate` | src/trader/order_limiter.cpp:83-95 | in every run whose sweeps take effect at most d after the clock they read, the orders granted in any interval stay within ceil((L+d)/D)+1 quotas in both windows |
| `LimiterRuns.RunTimely` | src/trader/order_limiter.cpp:83-95 | the clock readings refills work with never go back, and each refill takes effect within the lag |
| `LimiterCreators.IpRate` | src/trader/order_limiter.cpp:151-176 | for any number of creators whose replacements keep the settings, an IP stays within its rate over the length and the lag, plus two quotas per replacement; an unknown IP gets nothing |
| `LimiterCreators.IpRateWithCreators` | src/trader/service_manager.cpp:10-18 | T creating threads under one configuration grant an IP at most ceil((L+d)/D)+2T-1 quotas in any interval of length L with sweeps at most d late |
| `LimiterCreators.IpRateDistinct` | src/trader/order_limiter.cpp:112-176 | creators that never build for one IP at once leave every IP within ceil((L+d)/D)+1 quotas of its own limiter |
| `LimiterCreators.LimitersPerIp` | src/trader/order_limiter.cpp:112-149 | T creators give an IP at most T limiters in a whole run |
| `LimiterCreators.ReplacesExactlyWhen` | src/trader/order_limiter.cpp:112-149 | an insertion replaces a limiter if and only if another creator inserted one for the IP since its check |
| `LimiterCreators.DistinctNeverReplaces` | src/trader/order_limiter.cpp:112-149 | creators with distinct targets, a single one among them, never replace a limiter |
| `LimiterCreators.IpCapacity` | src/trader/order_limiter.cpp:112-149 | with T creators there are never more than capacity + T - 1 limiters |
| `LimiterCreators.ConcurrentCreatorsReplace` | src/trader/order_limiter.cpp:112-149 | a run with two creators in which a spent token reappears without any sweep |
| `ShmSlot.Plan` | src/shm/order_shm.cpp:34-47 | the fields an accepted write copies: never the version, the time exactly once and last; what a slot then holds is stated in the next rows |
| `ShmSlot.Copied` | src/shm/order_shm.cpp:36-45 | a partly copied write has the old version, and the old time until its last assignment |
| `ShmSlot.OrderSlotIsLastWrite` | src/shm/order_shm.cpp:24-59 | after accepted writes an order slot holds the last one in every field |
| `ShmSlot.ThresholdSlotIsLastWrite` | src/shm/threshold_shm.cpp:29-56 | after accepted writes an early-run or beta slot holds the last one in every field but the asset name, which stays as it was |
| `ShmSlot.TickerKeepsIdAndTime` | src/shm/ticker_shm.cpp:39-54 | a ticker slot holds id and time of the last accepted ticker under its first name |
| `ShmSlot.AdmitsExactlyWhen` | src/shm/threshold_shm.cpp:33-39 | an order is let in if newer, a threshold if not older, a ticker if newer in id or in time |
| `ShmSlot.TickerKeepsLastPositive` | src/shm/ticker_shm.cpp:27-66 | a ticker slot keeps, for bid and ask apart, the last pair whose price and size were both positive |
| `ShmRecords.OrderRecord.ReplacedIsWritten` | src/shm/order_shm.cpp:34-47 | the field assignments of an order write are what the slot rules ask for |
| `ShmRecords.OrderRecord.RepeatsLast` | src/shm/order_shm.cpp:34-47 | a record that holds the fold of the accepted orders equals the last of them in each named field |
| `ShmRecords.EarlyRunRecord.ReplacedIsWritten` | src/shm/threshold_shm.cpp:39-46 | the same for early-run thresholds; the asset name is kept |
| `ShmRecords.EarlyRunRecord.RepeatsLast` | src/shm/threshold_shm.cpp:39-46 | for early-run thresholds: the three medians and the time are those of the last accepted one, the asset name is the first |
| `ShmRecords.BetaRecord.ReplacedIsWritten` | src/shm/threshold_shm.cpp:122-141 | the same for beta thresholds |
| `ShmRecords.BetaRecord.RepeatsLast` | src/shm/threshold_shm.cpp:122-141 | for beta thresholds: the twelve values and the time are those of the last accepted one, the asset name is the first |
| `ShmRecords.TickerRecord.ReplacedIsWritten` | src/shm/ticker_shm.cpp:39-54 | the same for tickers with their two conditional pairs |
| `ShmRecords.TickerRecord.RepeatsLast` | src/shm/ticker_shm.cpp:39-54 | for tickers: id and time of the last accepted one; price and size of a side too if both were positive |
| `ShmRecords.OrderShm.WriterUpdate` | src/shm/order_shm.cpp:24-59 | accepts exactly what is newer than the fold so far and then holds the fold of one more write; reports 1 only if an order was there before |
| `ShmRecords.OrderShm.ReaderGet` | src/shm/order_shm.cpp:61-81 | after any writes the copy is the fold of those accepted, its version counts them, and its named fields are those of the last accepted one |
| `ShmRecords.EarlyRunThresholdShm.WriterUpdate` | src/shm/threshold_shm.cpp:29-56 | accepts exactly what is not older than the fold so far, then holds the fold of one more write, and reports that |
| `ShmRecords.EarlyRunThresholdShm.ReaderGet` | src/shm/threshold_shm.cpp:58-74 | after any writes the copy is the fold of those accepted, its version counts them, and its named fields are those of the last accepted one |
| `ShmRecords.BetaThresholdShm.WriterUpdate` | src/shm/threshold_shm.cpp:112-151 | accepts exactly what is not older than the fold so far, then holds the fold of one more write, and reports that |
| `ShmRecords.BetaThresholdShm.ReaderGet` | src/shm/threshold_shm.cpp:153-182 | after any writes the copy is the fold of those accepted, its version counts them, and its named fields are those of the last accepted one |
| `ShmRecords.TickerInfoShm.WriterUpdate` | src/shm/ticker_shm.cpp:27-66 | accepts exactly what is newer in id or time than the fold so far, then holds the fold of one more write; reports 1 only if both were set before |
| `ShmRecords.TickerInfoShm.ReaderGet` | src/shm/ticker_shm.cpp:68-86 | after any writes the copy is the fold of those accepted, its version counts them, and its named fields are those of the last accepted one, a pair only if it was positive |
| `SlotProtocol.StepKeepsInv` | src/shm/order_shm.cpp:24-81 | every single-field step keeps exclusion, the partly written cells and every partial copy consistent with the accepted writes |
| `SlotProtocol.MutualExclusion` | src/shm/share_memory_mng.cpp:72-80 | in every run at most one process is between acquiring and releasing the lock |
| `SlotProtocol.SnapshotIsPrefixFold` | src/shm/order_shm.cpp:61-81 | a snapshot with version v equals the fold of the first v accepted writes; it is never a mix |
| `SlotProtocol.ReadsAreAtomic` | src/shm/order_shm.cpp:61-81 | a read returns the fold of everything accepted up to its last step |
| `SlotProtocol.RunAccepted` | src/shm/order_shm.cpp:32-47 | each write in the history passed the staleness test against the fold of those before it |
| `SlotProtocol.TimeNeverDecreases` | src/shm/threshold_shm.cpp:29-56 | in order and threshold slots the stored time never goes back, not even inside a write |
| `SlotProtocol.NeverGoesBack` | src/shm/ticker_shm.cpp:27-66 | in a slot of any kind, if no accepted write lowers the stored id or time, neither ever goes back, at any field step |
| `SlotProtocol.RejectionStays` | src/shm/ticker_shm.cpp:29-39 | in such runs a pre-check rejection, on an id and a time read at different moments, stays a rejection at every later point |
| `SlotProtocol.LoweringLosesWrite` | src/shm/ticker_shm.cpp:29-54 | any acceptable ticker that lowers id or time has a continuation in which another is turned away before it and acceptable after it |
| `SlotProtocol.PreCheckRefines` | src/shm/order_shm.cpp:26-34 | once the unlocked pre-check rejects, the locked check would reject at every later point |
| `SlotProtocol.TickerPreCheckLosesWrite` | src/shm/ticker_shm.cpp:29-39 | a run in which the ticker pre-check rejects what the locked check would later accept |
| `TradeScan.ScanAndSend` | src/trader/trade_processor.cpp:41-142 | the scan loop computes the specified submissions from snapshots, clock and the grants it obtained |
| `TradeScan.ScanSound` | src/trader/trade_processor.cpp:65-84 | versions acted on strictly increase and no submission is past its validity |
| `TradeScan.SentExactlyWhen` | src/trader/trade_processor.cpp:56-122 | a round's order is submitted if and only if its version is positive and above that of every earlier round, it is not past its validity and its gate grants it; what is submitted is exactly those orders in turn |
| `TradeScan.SubmittedOnceInOrder` | src/trader/trade_processor.cpp:56-99 | over every run of the slot, submissions are accepted orders field for field, at most once each, in write order, never expired |
| `TradeScan.CarriedWithinGrants` | src/trader/trade_processor.cpp:103-122 | a scan never submits twice on one grant |
| `TradeScan.SubmissionsWithinRate` | src/trader/trade_processor.cpp:102-122 | over every run of the limiter, if orders leave at most e after their grant and sweeps are at most d late, all scanning threads together send at most ceil((L+e+d)/D)+1 quotas in any interval of length L |
| `TickerCache.ScanExtremes` | src/receiver/ticker_calculate.cpp:176-205 | the loop computes the scan of the copied tickers |
| `TickerCache.ScannedExact` | src/receiver/ticker_calculate.cpp:176-205 | a scanned extreme is the true maximum (minimum) if and only if some price reaches the smallest (stays within the largest) double |
| `TickerCache.DropUntouched` | src/receiver/ticker_container.cpp:52-60 | popping a ticker strictly inside the extremes leaves them exact for the rest |
| `TickerCache.PushKeepsSound` | src/receiver/ticker_container.cpp:22-45 | a push keeps valid extremes those of the covered tickers |
| `TickerCache.DropKeepsSound` | src/receiver/ticker_container.cpp:47-65 | so does every expiry pop, and the covered tickers never run out while the flag is set |
| `TickerRuns.CacheAlwaysSound` | src/receiver/ticker_container.cpp:7-70 | in every run in which no update disturbs a copy before its store, valid extremes are at every point those of a scan of the non-empty covered tickers |
| `TickerRuns.SoundUntilStore` | src/receiver/ticker_container.cpp:17-70 | an exact cache stays exact through any updates, reads and copies until the next store |
| `TickerRuns.StoreExactExactlyWhen` | src/receiver/ticker_calculate.cpp:156-220 | a store is exact if and only if no ticker pushed since the copy and still held passes the copied extremes, and no extreme lost all held tickers that have it |
| `TickerRuns.CopyTraced` | src/receiver/ticker_calculate.cpp:156-220 | what a copy speaks for at its store: the recent tickers copied and every push since, less what has expired |
| `TickerRuns.StoreMissesPush` | src/receiver/ticker_calculate.cpp:156-220 | a run in which a pushed ticker is missing from the stored extremes |
| `TickerRuns.StoreKeepsExpired` | src/receiver/ticker_calculate.cpp:156-220 | a run in which an expired ticker stays in the stored extremes |
| `TickerRuns.TiedExtremeSurvives` | src/receiver/ticker_calculate.cpp:156-220 | a run in which a ticker on the extremes expires before the store and the store is exact all the same |
| `TickerRuns.UndisturbedPass` | src/receiver/ticker_calculate.cpp:128-220 | a pass nobody interrupts is its three lock sections in a row |
| `TickerCache.ValidExtremesAreExact` | src/receiver/ticker_container.cpp:100-126 | for prices above the smallest double they are true minima and maxima |
| `TickerRuns.PublishedNeverNegative` | src/receiver/ticker_calculate.cpp:231-236 | no interleaving publishes a negative volatility |
| `TickerRuns.ZeroIntervalPublishesNegative` | src/receiver/ticker_calculate.cpp:164-236 | with zero seconds configured a pass over no tickers does |
| `TickerRuns.PublishedFromScan` | src/receiver/ticker_calculate.cpp:151-240 | what a store publishes is the scan of what its own pass copied; what a read publishes in an undisturbed run is a rescan of the covered tickers |
| `TickerRuns.PublishedIsExact` | src/receiver/ticker_calculate.cpp:151-240 | in an undisturbed run everything published is computed from the true lowest and highest price of the tickers covered at that moment |
| `TickerRuns.ThresholdsOfScan` | src/receiver/ticker_calculate.cpp:226-240 | on each side the published volatility is v = (highest - lowest) / lowest of that side's prices, the multiplier a + b v + c v v and the threshold beta times that; prices above the smallest double always publish |
| `TickerRuns.PublishedLaw` | src/receiver/ticker_calculate.cpp:344-350 | at zero volatility the published multiplier is a, between volatilities u and v it moves by (u - v)(b + c (u + v)), and the threshold is always beta times it |
| `TickerCache.TickerWrapper.UpdateTicker` | src/receiver/ticker_container.cpp:17-70 | push, widening, expiry pops and clearing, as specified on values |
| `TickerCache.UpdateKeeps` | src/receiver/ticker_container.cpp:17-65 | an update appends its ticker and drops the longest front past the holding time; the extremes lose validity if and only if a dropped price was not strictly inside them |
| `TickerCache.RecentExactly` | src/receiver/ticker_calculate.cpp:151-169 | a recomputation works from exactly the tickers of the last interval in order, and a pass publishes if and only if the cache is valid and long enough or these are enough |
| `TickerCache.TickerWrapper.ClearMinMax` | src/receiver/ticker_container.cpp:7-15 | extremes back to their limits, flag off |
| `TickerCache.TickerWrapper.CopyTickerListAfter` | src/receiver/ticker_container.cpp:87-98 | exactly the tickers newer than the cut-off, in order |
| `TickerCache.TickerWrapper.ProcessBeta` | src/receiver/ticker_calculate.cpp:151-240 | recomputes when needed, publishes nothing with too few tickers or a non-positive minimum |
| `OffsetWindow.RetainedLater` | src/receiver/offset_container.cpp:36-50 | what has left the window never comes back |
| `OffsetWindow.PushOntoRetained` | src/receiver/offset_container.cpp:28-50 | pushing onto the deque and expiring gives the filter of the longer history |
| `OffsetWindow.MeanWithinBounds` | src/receiver/offset_container.cpp:74-92 | the mean lies within any bounds on the retained values |
| `OffsetWindow.PriceOffsetWrapper.UpdatePriceOffset` | src/receiver/offset_container.cpp:18-52 | the deque stays the filter of the whole history, ends with the new offset, and the sums stay its sums |
| `OffsetWindow.PriceOffsetWrapper.HoldsTheWindow` | src/receiver/offset_container.cpp:36-50 | the deque holds exactly the offsets pushed within the window that ends with the last update |
| `OffsetWindow.PriceOffsetWrapper.CalculateAvgResult` | src/receiver/offset_container.cpp:74-92 | the averages are the means of the deque, zero when it is empty |
| `RiskControl.DynamicConfig.constructor` | src/actuary/dynamic_config.cpp:7-21 | the static reasons and flags |
| `RiskControl.DynamicConfig.StopMakeOrder` | src/actuary/dynamic_config.cpp:23-31 | adds the reason and raises the flag |
| `RiskControl.DynamicConfig.ResumeMakeOrder` | src/actuary/dynamic_config.cpp:33-46 | withdraws the reason; the flag drops with the last one |
| `RiskControl.DynamicConfig.IsStopMakeOrderAsReason` | src/actuary/dynamic_config.cpp:51-65 | whether this reason is held |
| `RiskControl.DynamicConfig.StopMakeOpenOrder` | src/actuary/dynamic_config.cpp:68-77 | the same for opening orders |
| `RiskControl.DynamicConfig.ResumeMakeOpenOrder` | src/actuary/dynamic_config.cpp:79-92 | the same for opening orders |
| `RiskControl.DynamicConfig.IsStopMakeOpenOrderAsReason` | src/actuary/dynamic_config.cpp:98-112 | the same for opening orders |
| `RiskControl.WatchAccountMeta` | src/actuary/risk_control.cpp:20-66 | one round of the account watchdog, as specified on values |
| `RiskControl.WatchBnbBalance` | src/actuary/risk_control.cpp:72-126 | one round of the BNB watchdog, as specified on values |
| `RiskControl.RatioAgainst` | src/actuary/risk_control.cpp:41-66 | the margin ratio is above or below a limit exactly when the initial margin is above or below the limit times the wallet balance; without a balance the ratio is one |
| `RiskControl.ReasonsFollowHistory` | src/actuary/risk_control.cpp:18-127 | after any ticks in any order a reason is held if and only if the history calls for it; each flag says its set is not empty |
| `RiskControl.AllowedExactlyWhen` | src/actuary/risk_control.cpp:18-127 | order making and opening are allowed exactly under the stated conditions on configuration and ticks |
| `AccountPositions.PositionComposite.UpdateExistPosition` | src/actuary/account_container.cpp:95-128 | after any reports exactly the configured instruments have an entry, holding the last report about them with its side normalised |
| `AccountPositions.PositionComposite.CopyPosition` | src/actuary/account_container.cpp:240-258 | returns the last report about a configured instrument whatever was reported about others, and nothing for any other |
| `AccountPositions.NormalisedAgrees` | src/actuary/account_container.cpp:95-128 | amount as reported, its absolute value, and a side that matches the sign for every one-way report |
| `AccountPositions.LastReportShows` | src/actuary/account_container.cpp:95-128 | what is known about an instrument is amount, absolute value and side of the last report about it |
| `Decimal.Monotone` | src/common/tools.cpp:26-33 | truncation keeps the order of prices |
| `Decimal.Idempotent` | src/common/tools.cpp:26-33 | a truncated price is a whole number of units and truncates to itself |
| `Decimal.WithinOneUnit` | src/common/tools.cpp:26-33 | truncation moves a price toward zero by less than a unit |
| `Decimal.CalculatePrecisionByMinStep` | src/common/tools.cpp:35-46 | for every positive step the loop ends with the least number of tenfold steps that reaches one |
| `Decimal.PrecisionOfDecimalStep` | src/common/tools.cpp:35-46 | for a step of 10^-p that number is p |
| `Decimal.PricesAreWholeTicks` | src/actuary/market_processor.cpp:20-26 | prices truncated at that precision or a smaller one are multiples of the step |
| `Strategy.BuyPriceCapped` | src/actuary/strategy_processor.cpp:350-360 | the buy price never exceeds the truncated ask-based price, and stays within the cap if and only if a checkable condition holds |
| `Strategy.BuyAboveNegativeCap` | src/actuary/strategy_processor.cpp:331-360 | a market that meets the buy signal and whose buy price ends above its cap |
| `Strategy.SellPriceCapped` | src/actuary/strategy_processor.cpp:433-443 | the sell price is at least the truncated bid-based price and less than one unit below the cap |
| `Strategy.BuySignalLiftsCap` | src/actuary/strategy_processor.cpp:331-355 | a buy signal whose threshold is at least beta puts the cap at or above the follower ask |
| `Strategy.SellSignalLowersCap` | src/actuary/strategy_processor.cpp:414-438 | a sell signal whose threshold is at least beta puts the cap at or below the follower bid |
| `Strategy.BuyKeepsEdge` | src/actuary/strategy_processor.cpp:350-360 | the buy price, shifted by the offset and marked up by beta, stays below the benchmark bid if and only if a checkable condition on cap and ask-based price holds |
| `Strategy.BuySignalKeepsEdge` | src/actuary/strategy_processor.cpp:331-360 | under a buy signal whose threshold is at least beta it always does |
| `Strategy.SellKeepsEdge` | src/actuary/strategy_processor.cpp:433-443 | the sell price, shifted by its offset, is above the marked-up benchmark ask less one unit |
| `Strategy.StrategyProcessor.BuyPrice` | src/actuary/strategy_processor.cpp:350-360 | the price statements compute the specified price |
| `Strategy.StrategyProcessor.SellPrice` | src/actuary/strategy_processor.cpp:433-443 | the price statements compute the specified price |
| `Strategy.StrategyProcessor.MakeBuyOrder` | src/actuary/strategy_processor.cpp:337-402 | sizing, same-price pause and gating of a buy, and what the loop remembers |
| `Strategy.StrategyProcessor.MakeSellOrder` | src/actuary/strategy_processor.cpp:420-485 | the same for a sell |
| `Strategy.StrategyProcessor.CalculateSignalMakeOrder` | src/actuary/strategy_processor.cpp:235-497 | one iteration after the freshness checks |
| `Strategy.SideExactlyWhen` | src/actuary/strategy_processor.cpp:235-418 | a buy exactly when close-only does not block and the buy test holds, a sell exactly when it does not block, the buy test fails and the sell test holds; each at its own side's price |
| `Strategy.BuySignalExactlyWhen` | src/actuary/strategy_processor.cpp:331-335 | with a positive divisor the buy test is (ask + median) (1 + (betas) (1 + ratio)) <= benchmark bid with both size tests; negative and zero divisors are covered too |
| `Strategy.SellSignalExactlyWhen` | src/actuary/strategy_processor.cpp:414-418 | the sell test is benchmark ask (1 + (betas) (1 - ratio)) <= bid + median with both size tests |
| `Strategy.RatioHoldsBackBuys` | src/actuary/strategy_processor.cpp:331-332 | for non-negative betas a larger reduce ratio never turns no buy into a buy |
| `Strategy.RatioHelpsSells` | src/actuary/strategy_processor.cpp:414-415 | for non-negative betas a larger reduce ratio never turns a sell condition off |
| `Strategy.BuyPriceNear` | src/actuary/strategy_processor.cpp:350-360 | the buy price is within one unit below the lesser of the marked-up ask and the cap |
| `Strategy.SellPriceNear` | src/actuary/strategy_processor.cpp:433-443 | the sell price is within one unit below the greater of the marked-down bid and the cap |
| `Strategy.PriceWithoutMargin` | src/actuary/strategy_processor.cpp:350-355 | without a positive margin there is no cut: the price is the truncated ask or bid with the margin on it |
| `Strategy.CloseOnlyNeverOpens` | src/actuary/strategy_processor.cpp:235-241 | in every run with close-only set, globally or for the asset, a written order opposes the position read and is at most its size |
| `Strategy.SamePriceSpacing` | src/actuary/strategy_processor.cpp:376-391 | per side, consecutive admissions at one price are a pause apart, or, when the later only reduces, at least 50 ms and pause * 90 / 100 |
| `Strategy.AdmittedExactlyWhen` | src/actuary/strategy_processor.cpp:376-391 | an iteration's order is admitted if and only if its price is new for its side, or the pause since the side's last admission is over, or it only reduces and the shorter pause is |
| `Strategy.SizedExactly` | src/actuary/strategy_processor.cpp:337-348 | an admitted order has the configured size, or under close-only the smaller size of the position it opposes, and is then marked reduce-only |
| `Strategy.WrittenExactlyWhen` | src/actuary/strategy_processor.cpp:395-402 | an admitted order is written if and only if the ticks so far allow orders, its side is not at the maximum position, and it closes a position or opening is allowed |
| `ServiceRegistry.WsClientWrapper.Start` | src/trader/service_container.cpp:17-33 | starts once; a stopped wrapper is not revived |
| `ServiceRegistry.WsClientWrapper.Stop` | src/trader/service_container.cpp:52-56 | marks the wrapper stopped and nothing else |
| `ServiceRegistry.OrderServiceManager.UpdateBestService` | src/trader/service_container.cpp:72-99 | is the update step of the registry machine: registers and starts the new wrapper or refreshes the old; registered services stay exactly the running ones |
| `ServiceRegistry.OrderServiceManager.FindBestService` | src/trader/service_container.cpp:101-123 | the mapped service, which is running, or nothing |
| `ServiceRegistry.OrderServiceManager.StopAndRemoveService` | src/trader/service_container.cpp:157-167 | is the removal of the registry machine: stops and unregisters exactly that pair |
| `ServiceRegistry.OrderServiceManager.CollectionPass` | src/trader/service_manager.cpp:28-67 | an undisturbed pass keeps exactly the services that are mapped and refreshed within 5400 s |
| `RegistryRuns.PairsDiffer` | src/trader/service_container.cpp:76 | different addresses have different pairs whenever local addresses have no underscore |
| `RegistryRuns.PairsCollide` | src/trader/service_container.cpp:76 | with an underscore in an address two pairs can be the same |
| `RegistryRuns.RunningExactlyWhileRegistered` | src/trader/service_container.cpp:72-167 | in every run a started service is registered if and only if it has not been stopped |
| `RegistryRuns.StoppedForGood` | src/trader/service_container.cpp:17-33 | a stopped service never runs again |
| `RegistryRuns.LookupFindsRunning` | src/trader/service_container.cpp:101-123 | a lookup, taking the lock twice, hands out a service running at that moment |
| `RegistryRuns.LookupFindsMapped` | src/trader/service_container.cpp:101-123 | a lookup finds exactly the service registered, at its second lock section, under the pair its symbol was last mapped to before its first |
| `RegistryRuns.MappedExactlyWhen` | src/trader/service_container.cpp:72-99 | a symbol maps to a pair if and only if some update put it there and none has moved it since |
| `RegistryRuns.UnusedRemovalJustified` | src/trader/service_manager.cpp:33-58 | a service removed as unused was registered under its pair when the pass began, and no symbol mapped to the pair in the snapshot the pass took |
| `RegistryRuns.ExpiredRemovalJustified` | src/trader/service_manager.cpp:30-65 | a service removed as expired had gone 5400 s without refresh at the scan of that pass; one registered after that pass took its first snapshot, only if the pass had by then taken that long |
| `RegistryRuns.UnusedAllRemoved` | src/trader/service_manager.cpp:33-60 | before a pass scans for expired services it has stopped every service it found registered and unmapped |
| `RegistryRuns.ExpiredAllRemoved` | src/trader/service_manager.cpp:60-65 | when a pass ends every service that had gone 5400 s without a refresh at its scan has been stopped |
| `RegistryRuns.DropsPairInUseExactlyWhen` | src/trader/service_manager.cpp:33-58 | a pass removes a pair in use if and only if a symbol was moved to it after the snapshot and not moved away before the removal |
| `RegistryRuns.DropsRefreshedExactlyWhen` | src/trader/service_manager.cpp:60-65 | a pass removes a service that is not expired if and only if its pair was updated between scan and removal, less than 5400 s before it |
| `RegistryRuns.PassDropsPairInUse` | src/trader/service_manager.cpp:33-58 | a run in which a pair taken up again after the snapshot is removed |
| `RegistryRuns.PassDropsFreshService` | src/trader/service_manager.cpp:60-65 | a run in which a service is stopped at the moment of its refresh |
| `ConnectionPool.MySQLConnectionPool.constructor` | src/dbsource/mysql_source.cpp:30-50 | the pool starts with the connections opened and counts them |
| `ConnectionPool.MySQLConnectionPool.GetConnection` | src/dbsource/mysql_source.cpp:52-99 | the outcome and the new state for each ping and connect result; which they are is stated in HandedOut and NotHandedOut |
| `ConnectionPool.MySQLConnectionPool.ReleaseConnection` | src/dbsource/mysql_source.cpp:101-114 | the handle is no longer borrowed: back to the end of the queue, or closed and uncounted after shutdown |
| `ConnectionPool.MySQLConnectionPool.ShutdownPool` | src/dbsource/mysql_source.cpp:117-128 | the queue is emptied; the count is not |
| `ConnectionPool.PoolSound` | src/dbsource/mysql_source.cpp:30-128 | in every run, until shutdown, the count is idle plus borrowed and within the maximum, and no connection is idle twice or idle and borrowed |
| `ConnectionPool.HandedOut` | src/dbsource/mysql_source.cpp:60-95 | a handle given out was neither borrowed nor stays idle and is borrowed from then on; a live one is the front of the queue, any other is the connection just opened |
| `ConnectionPool.NotHandedOut` | src/dbsource/mysql_source.cpp:55-98 | otherwise the caller learns of shutdown or of the failed connect, and the books lose only a dead front |
| `ConnectionPool.NeverHeldTwice` | src/dbsource/mysql_source.cpp:52-114 | in every run no handle is given out twice without a release in between |
| `ConnectionPool.GetNeverFindsNone` | src/dbsource/mysql_source.cpp:55-98 | the final throw is unreachable, and null is returned exactly after shutdown |
| `ConnectionPool.ShutdownKeepsDifference` | src/dbsource/mysql_source.cpp:101-128 | after shutdown the count less the borrowed stays constant |
| `OrderStats.FillHorizons` | src/evaluator/order_stat_manager.cpp:138-202 | records every passed, unrecorded horizon and reports whether there was one |
| `OrderStats.StatOrderFullInfoComposite.UpdateWithLite` | src/evaluator/order_container.cpp:5-28 | fill and price of a known order, or a new entry |
| `OrderStats.StatOrderFullInfoComposite.UpdateWithFullInfo` | src/evaluator/order_container.cpp:30-42 | overwrites unless the order is older than an hour |
| `OrderStats.StatOrderFullInfoComposite.RemoveExpiredStatOrder` | src/evaluator/order_container.cpp:54-76 | keeps exactly the orders not older than 3610 s |
| `OrderStats.FilledKeepsPrefix` | src/evaluator/order_stat_manager.cpp:138-202 | recording extends the prefix of recorded horizons and touches nothing recorded |
| `OrderStats.RecordedArePrefix` | src/evaluator/order_stat_manager.cpp:111-210 | in every run the recorded horizons of each order are a prefix of the list |
| `OrderStats.RecordsAreWriteOnce` | src/evaluator/order_stat_manager.cpp:111-210 | a recorded price and profit never change while the entry lives |
| `OrderStats.RecordedByPoll` | src/evaluator/order_stat_manager.cpp:124-202 | every recorded price and profit comes from a poll that found its horizon passed and empty, from that poll's quote, and has stood in the same entry since |
| `OrderStats.PollRecordsPassed` | src/evaluator/order_stat_manager.cpp:124-202 | a poll with a quote leaves on record every horizon that has passed, the empty ones at the ask for a buy and the bid for a sell, and no other |
| `OrderStats.ErasedExactlyWhen` | src/evaluator/order_container.cpp:54-76 | in every run an order disappears if and only if it is erased after being found more than 3610 s old; the others stay as they are |
| `OrderStats.PnlWithinOneUnit` | src/evaluator/order_stat_manager.cpp:124-135 | the profit is the relative move in the order's favour less commission, to five digits |
| `OrderStats.PendingTraced` | src/evaluator/order_container.cpp:5-52 | an order still to be polled was copied whole, and its fill and price have since followed the lite updates |
| `OrderStats.PollUndoesLiteExactlyWhen` | src/evaluator/order_container.cpp:5-42 | a poll undoes a fill or price if and only if it writes the order back and the last lite update since the copy differs from it |
| `OrderStats.PollUndoesLite` | src/evaluator/order_container.cpp:5-42 | a run in which a reported fill and price are overwritten |
| `SlotIndex.Sort` | src/actuary/global_context.cpp:104-108 | a sorted permutation of the configured names |
| `SlotIndex.InitShmMapping` | src/actuary/global_context.cpp:102-131 | names are numbered by their last position in sorted order |
| `SlotIndex.SortedUnique` | src/trader/global_context.cpp:73-83 | two sorted lists of the same names are the same list |
| `SlotIndex.IndicesAgree` | README.md:66-67 | processes with the same names in any order number their slots alike |
| `SlotIndex.IndexIsBijective` | src/receiver/global_context.cpp:137-164 | no two names share a slot; all slots are used if and only if no name is configured twice |
| `EndToEnd.SubmittedOrdersClose` | src/actuary/strategy_processor.cpp:362-402 | with close-only set and the strategy as the slot's only writer, every order the trader submits repeats a decision that opposes the position read and is at most its size |

## Left out

- AccountRate: requests are for a non-negative number of tokens; the only caller asks for one.
- IpRate: a limiter replaced by one with other settings is not bounded; all callers in the source pass the same configuration.
- StepKeepsInv: the re-check of a writer and its version increment are each one step, which the lock makes indistinguishable from single accesses.
- SubmissionsWithinRate: covers the best-path limiter; the plain minute and second counters of the other mode are bounded by CounterRateBound one by one.
- CalculateSignalMakeOrder: the version and freshness checks before it are left out; they only decide whether an iteration goes on. A beta of -1, a division by zero in the source, is excluded.
- CalculateSignalMakeOrder: `stop_buy`, which the source leaves uninitialised, starts false.
- PnlWithinOneUnit: says nothing for an average price of zero, where the source divides by zero; the runs take the outcome as an arbitrary input.
- Decimal.WithinOneUnit: the integer range of the C++ conversions and floating-point rounding are not modelled.
- Liveness of the spin lock, of waiting for a connection and of the polling loops.
- WebSocket, REST, ZMQ, UDP, curl and Telegram code, SQL text and JSON conversion.
- Creation and attachment of System V segments and re-initialisation of slots on restart.
- Early-run medians, order interval counters, commission rates, balances and the position threshold with its logarithm: they would only add easy members.
- Configuration loaders, getters, logging, random sampling, the process entry points and the vendored libraries.
