# Trading core: a verified model

A Dafny model of the money- and decision-carrying core of the paper-trading system, with proofs of
what the system relies on. It covers six components.

- **Order book** (`Orders`, `OrderReplay`, `OrderReplayLaws`, `OrderAppend`, `OrderBook`,
  `OrderBookLaws`, `OrderExpiry`): per-order event streams, replay, incremental append, and the soft
  stop, supersede and expire batches.
- **Fill economics** (`FillEconomics`, `FillLaws`, `Affordability`, `OrderExecution`,
  `OrderLiveness`, `ExecutionCycle`, `ExecutionCycleLaws`): capped quantities, guarded prices, the
  threaded commission and what settled cash affords, driving an order's stream until it is filled,
  and a whole cycle over all orders.
- **Control plane** (`PolicyCompiler`, `ControlPlane`, `PolicyHistory`, `ControlRuns`,
  `PolicyLiveness`, `ControlAcceptance`, `PolicySchedule`, `RestoreWedge`, `ControlService`):
  provider selection, bound requests, single-use decisions and versioned policy, as a class over
  tables and as runs of atomic steps.
- **Evaluation** (`LongRunVariance`, `Bootstrap`, `Drawdown`, `Attribution`): Newey-West variance,
  stationary block bootstrap, drawdown and matched attribution.
- **Portfolio accounting** (`Portfolio`, `Inventory`, `Ledger`, `TargetWeights`, `Rebalance`,
  `RebalanceLaws`, `FactorialArm`, `FactorialRuns`): fills, average cost, journal, rebalance plans
  and factorial arms, which compute the same money independently.
- **Point-in-time market data** (`MarketStore`, `MarketRepository`, `AlignedInputs`,
  `AlignedViews`, `AlignedLaws`): insert-or-ignore, ranked views at a cutoff, aligned daily inputs.

`Ordering`, `Listing`, `Totals`, `Sums`, `Decimals`, `SessionDates`, `Identifiers` and `Results` are
shared vocabulary. `dfyconfig.toml` names every file of the project.

## Conventions

- `Decimal` values are exact reals. `quantize` is rounding to a positive quantum, with ROUND_DOWN
  and ROUND_HALF_EVEN defined in `Decimals`; the source rounds to the exponent of its argument, so
  a quantum stands for a power of ten.
- Datetimes are integers; a session date is a `Day`, and the New York calendar is a parameter.
- Hash-made ids are datatypes of what they are hashed from, hence injective; where ids only need an
  order they are `Id(code)`. Random choices are arbitrary streams.
- A raised error is an `Err`. A database transaction is one atomic step that changes nothing when it
  raises. A method that the source writes as a loop is a loop here, tied by its `ensures` to a
  function, and the laws are about that function.

## Where the code falls short of a stronger property

Each of these is a lemma with an input, next to the exact condition under which the property holds.

- Superseding compares each pending SELL with the replacements on its own, so two SELLs can lose
  coverage (`TwoSellsLoseCoverage`, `SupersedeKeepsCoverageExactlyWhen`).
- A RESTORE_DEFAULT patch that expires before its neighbours makes the remaining patches
  incomposable, and until they expire too the policy cannot be resolved (`RestoreCanWedge`,
  `ResolvesAtExactlyWhen`, `ResolvesAlwaysExactlyWhen`).
- An expiry fails on an order that has ended in an event still to become available, and an expiry
  placed behind such an event makes a second one at the same instant fail
  (`ExpiryOfFilledOrderFails`, `SecondExpiryCanFail`, `ExpireEndsExactlyTheLapsed`).
- Sorted replay can refuse fills that the live arm accepted in another order
  (`LateArrivalCanBeRefused`, `AcceptsExactlyAffordable`).
- Base weights within tolerance can give a negative cash weight (`ToleranceCanOverdraw`,
  `LongOnlyExactlyWhen`).
- The dashboard's position table drops realized profit of closed positions
  (`ClosedPositionHidesProfit`, `TableShowsAllExactlyWhen`).
- A computed fill can make the whole execution cycle raise: its price can round to zero or below,
  and a small sale that crosses the commission waiver can owe more than it earns
  (`CheapBuyStopsTheCycle`, `DelayedSellStopsTheCycle`, `LastQuantumStopsTheCycle`, `PriceSign`,
  `StopsExactlyWhen`, `DriveGoesThroughExactlyWhen`, `CycleGoesThroughExactlyWhen`).
- The reported standard error can read zero for differences that vary (`ErrorCanRoundToZero`,
  `ReportedErrorVanishesExactlyWhen`).

## Model

| member | source | states |
|---|---|---|
| `LongRunVariance.NeweyWestRadicand` | src/trading/evaluation/matched.py:334-359 | The loop over lags returns the Newey-West radicand, fails exactly on an empty series, and the result is non-negative and zero exactly for a constant series. |
| `LongRunVariance.RadicandIsSumOfSquares` | src/trading/evaluation/matched.py:334-359 | For every non-empty series and every lag the radicand, times its denominators, is the sum of squared moving-window sums of the deviations from the mean; so it is never negative, the clamp at zero is idle, and it vanishes exactly for constant series. |
| `LongRunVariance.VarianceIsWindowEnergy` | src/trading/evaluation/matched.py:343-359 | The Bartlett-weighted long-run variance times n(L+1) equals the energy of all windows of length L+1; the signs and zeros agree. |
| `LongRunVariance.EnergyIsBartlett` | src/trading/evaluation/matched.py:345-358 | Over any range that holds every window, the squared windows add up to the Bartlett-weighted autocovariations, by induction on the lag. |
| `LongRunVariance.VarianceScaled` | src/trading/evaluation/matched.py:349-358 | The accumulated weights 2(1 - d/(L+1)) cleared of denominators are the integer Bartlett weights. |
| `LongRunVariance.EnergyVanishes` | src/trading/evaluation/matched.py:343-359 | The window energy is zero exactly when every centred value is zero. |
| `Bootstrap.ResampleMean` | src/trading/evaluation/matched.py:383-392 | For every stream of restarts, the circular-block loop returns the mean of the resampled path. |
| `Bootstrap.BlockIsCircular` | src/trading/evaluation/matched.py:383-391 | Between restarts the path walks on by one position at a time and wraps around the end of the series. |
| `Bootstrap.SampleMeansWithin` | src/trading/evaluation/matched.py:381-393 | Every bootstrap mean lies between the series' bounds, whatever the random choices. |
| `Bootstrap.PercentileMonotone` | src/trading/evaluation/matched.py:400-414 | Interpolated percentiles of a sorted list are monotone in the probability and stay between its first and last element. |
| `Bootstrap.PercentileInterpolates` | src/trading/evaluation/matched.py:400-414 | A percentile fails exactly on an empty list or a probability outside [0, 1]; otherwise it lies on the line between the two entries around probability times (n - 1). |
| `Bootstrap.QuantileIsUnique` | src/trading/evaluation/matched.py:400-414 | That line determines the value, at whole places from either neighbour. |
| `Bootstrap.IntervalCutsTails` | src/trading/evaluation/matched.py:393-397 | The interval's ends are the percentiles of the sorted means at (1 - confidence)/2 and (1 + confidence)/2. |
| `Bootstrap.IntervalWithin` | src/trading/evaluation/matched.py:393-397 | The interval of any sample of means is ordered and inside any bounds of the means. |
| `Bootstrap.StationaryBlockBootstrap` | src/trading/evaluation/matched.py:371-397 | Fails exactly on an empty series; otherwise returns the two percentiles of the sorted resample means that cut off equal tails, ordered and inside every bound of the observed series. |
| `Drawdown.MaximumDrawdown` | src/trading/evaluation/matched.py:468-476 | For returns above -1 the one-pass loop returns the largest fall 1 - w_j/w_i over all i <= j, the starting wealth included, attained by some pair and inside [0, 1). |
| `Drawdown.DeepestFallStep` | src/trading/evaluation/matched.py:472-476 | The deepest fall ending at the next session is measured from the running peak. |
| `Drawdown.CumulativeReturn` | src/trading/evaluation/matched.py:433-437 | The loop returns final wealth minus one. |
| `Drawdown.WealthComposes` | src/trading/evaluation/matched.py:433-437 | Gross returns of concatenated histories multiply. |
| `Attribution.UniqueBySession` | src/trading/evaluation/matched.py:417-430 | Accepts exactly the observation lists of the expected arm without a repeated session, and maps each session to its return. |
| `Attribution.StatisticsStayInside` | src/trading/evaluation/matched.py:295-300 | Rounded to the result quantum, mean and interval ends stay between observed differences, and the interval stays ordered. |
| `Attribution.EvaluateMatched` | src/trading/evaluation/matched.py:262-331 | Compares two arms on their common sessions in date order; fails exactly when there are none; mean, mean times the sessions of a year and the ends of the equal-tailed interval are half-even rounded, the radicand is the one at the lag cut to the sessions; eligibility needs at least 126 sessions; the statistics stay inside the observed differences, and the radicand is zero exactly when they are constant. |
| `Attribution.ReportedErrorVanishesExactlyWhen` | src/trading/evaluation/matched.py:288-294 | The reported standard error, a rounded square root, reads zero if and only if the radicand is at most the square of half a quantum. |
| `Attribution.ErrorCanRoundToZero` | src/trading/evaluation/matched.py:288-294 | So it can read zero for differences that are not constant: one quantum in two sessions. |
| `OrderReplay.FoldEvents` | src/trading/execution/order_state.py:133-174 | The loop over ordered events with its running quantities computes the recursive fold, including which fault it stops at. |
| `OrderReplay.ReduceOrderEvents` | src/trading/execution/order_state.py:104-185 | Selection, identity, sort, contiguity and fold of the stream, tied to the replay function that the laws below are about. |
| `OrderReplay.FoldSums` | src/trading/execution/order_state.py:133-174 | In an accepted stream the running values are sums of the deltas, and nothing remains exactly when the last event is FILLED. |
| `OrderReplay.FoldAcceptsExactly` | src/trading/execution/order_state.py:133-174 | The fold accepts exactly the streams in which every event's own numbers agree with the sums before it and nothing follows a terminal event. |
| `OrderReplayLaws.RelevantAre` | src/trading/execution/order_state.py:104-121 | Replayed are exactly the events of the order, and as of an instant those available by then. |
| `OrderReplayLaws.ReplaysExactlyWhen` | src/trading/execution/order_state.py:104-185 | Replay accepts a book if and only if the order's available events can be arranged as a stream: CREATED first, sequences 1 to n, ids and keys distinct, every event in agreement with the sums before it and nothing after a terminal one; the aggregate is then read off that stream. |
| `OrderReplayLaws.ReplayIgnoresArrivalOrder` | src/trading/execution/order_state.py:104-185 | Replay depends only on the multiset of events: a permutation yields the same aggregate or is also rejected. |
| `OrderReplayLaws.PrefixIsAccepted` | src/trading/execution/order_state.py:122-185 | Every non-empty prefix of an accepted stream is accepted. |
| `OrderReplayLaws.ViewIsPrefix` | src/trading/execution/order_state.py:111-131 | When availability follows the sequence, replay at an instant is the replay of a prefix and is accepted. |
| `OrderReplayLaws.AggregateConserves` | src/trading/execution/order_state.py:95-101 | Remaining plus filled is the order quantity, remaining is zero exactly when FILLED, so pending is the same as not terminal. |
| `OrderAppend.AppendIsExact` | src/trading/execution/order_state.py:218-329 | Appending is sound and complete against full replay: it succeeds exactly for admissible proposals, the event carries what was proposed under its derived id, and the closing replay then accepts and gives the stated aggregate. |
| `OrderAppend.IdentifiedStreamsAreFresh` | src/trading/execution/order_state.py:278-315 | Streams of events that carry their own derived ids never collide with the next event. |
| `OrderBook.CloseSelected` | src/trading/execution/order_state.py:343-358 | The loop that grows the result list emits exactly the closing events of the selected pending orders, in order, or stops at the first refusal. |
| `OrderBook.SoftStopBuyCancellations` | src/trading/execution/order_state.py:332-358 | The soft stop as the batch over pending BUY orders. |
| `OrderBook.SupersedeNormalOrders` | src/trading/execution/order_state.py:361-422 | Supersession as the batch over pending NORMAL orders that the replacements cover. |
| `OrderBook.ExpireOrders` | src/trading/execution/order_state.py:425-456 | Expiry as the batch over the lapsed pending orders seen at the instant. |
| `OrderBookLaws.PendingIsExact` | src/trading/execution/order_state.py:188-215 | The pending list holds exactly the orders whose replay is pending, each with its aggregate and once, in order of creation and id. |
| `OrderBookLaws.OperationsAnnounce` | src/trading/execution/order_state.py:332-456 | Whatever the book, each of the three operations emits only events of its own kind without deltas, at its own instants and from its own cycle, in the creation order of the orders they end. |
| `OrderBookLaws.BatchClosesExactly` | src/trading/execution/order_state.py:343-358 | A batch always succeeds on a sound book, ends exactly the chosen orders, keeps their filled amounts, leaves all other aggregates as they were and leaves a sound book. |
| `OrderBookLaws.BatchIsIdempotent` | src/trading/execution/order_state.py:343-358 | The same batch again emits nothing. |
| `OrderBookLaws.SoftStopBlocksOnlyBuys` | src/trading/execution/order_state.py:332-358 | Every BUY that was pending ends CANCELED_BY_RISK with its amounts kept, every other order keeps its aggregate, no BUY is pending afterwards, and a second soft stop at any time emits nothing. |
| `OrderExpiry.ExpireEndsExactlyTheLapsed` | src/trading/execution/order_state.py:425-456 | On any sound book expiry goes through if and only if every stream replays as far as it was available and no order due then has ended since; it then ends exactly the due orders and keeps their amounts; a second call emits nothing if every event of those orders was available, and otherwise fails. |
| `OrderExpiry.ExpireOfKnownBook` | src/trading/execution/order_state.py:425-456 | With every event available, expiry goes through, the due orders are the pending ones past validity or all at the boundary, and a second call emits nothing. |
| `OrderExpiry.ExpiryOfFilledOrderFails` | src/trading/execution/order_state.py:425-456 | A book on which the first call fails: an order filled at 0, known from 5, and an expiry as of 3. |
| `OrderExpiry.UnseenLeavesGap` | src/trading/execution/order_state.py:127-131 | An expiry appended behind an event not yet available leaves a gap in the view, which then no longer replays. |
| `OrderExpiry.SecondExpiryCanFail` | src/trading/execution/order_state.py:425-456 | A book on which the second call fails: a block that becomes available at 5 and an expiry as of 3. |
| `OrderBookLaws.SupersedeKeepsCoverageExactlyWhen` | src/trading/execution/order_state.py:361-422 | An order that was pending is SUPERSEDED, its amounts kept, if and only if it is NORMAL, some NORMAL replacement has its arm and, for a SELL, the NORMAL replacement SELLs of its arm and symbol add up to at least its residual; every other order keeps its aggregate. SELL coverage of an arm and symbol survives if and only if the residuals so taken out add up to no more than the replacement SELL quantity. |
| `OrderBookLaws.OneSellIsCovered` | src/trading/execution/order_state.py:398-410 | With at most one pending NORMAL SELL per arm and symbol that condition always holds. |
| `OrderBookLaws.TwoSellsLoseCoverage` | src/trading/execution/order_state.py:398-410 | The hypothesis is needed: two pending SELLs of ten are both superseded by one replacement SELL of ten. |
| `FillEconomics.GuardBps` | src/trading/execution/q1_paper.py:70-83 | The dynamic guard always lies between its configured minimum and maximum. |
| `FillLaws.GuardIsClamped` | src/trading/execution/q1_paper.py:70-83 | It is the multiple of the decision spread, cut to those bounds. |
| `FillLaws.WithinGuardExactlyWhen` | src/trading/execution/q1_paper.py:114-123 | The adverse move is within g basis points if and only if the ask is at most, or the bid at least, the decision price moved by g. |
| `FillEconomics.CommissionMonotone` | src/trading/execution/q1_paper.py:146-153 | The rounded commission is monotone in notional, across the waiver threshold too. |
| `FillLaws.CommissionFollowsRate` | src/trading/execution/q1_paper.py:146-153 | The commission is zero up to the waiver and beyond it, on its grid, within half a quantum of the rate times the notional. |
| `FillEconomics.SplitsChargeTheSame` | src/trading/execution/paper.py:168-189 | However an order is split, every incremental charge is accepted and non-negative and the charges add up to the one-shot commission, in cents. |
| `FillLaws.FillIsWithinCaps` | src/trading/execution/q1_paper.py:86-181 | An accepted fill is positive, on the quantity grid, within the order, the displayed share and the volume cap, charges no negative commission, and costs at least its commission. |
| `FillLaws.FillIsLargest` | src/trading/execution/q1_paper.py:128-135 | One more quantum would exceed the order, the displayed share or the volume cap. |
| `FillLaws.FillAcceptedExactlyWhen` | src/trading/execution/q1_paper.py:100-156 | A fill is accepted if and only if something remains, the quote is executable, history and spread are not negative, the adverse move is within the guard, every cap allows one quantum and the commission charged so far is not more than is due. |
| `FillLaws.RejectedAs` | src/trading/execution/q1_paper.py:100-136 | Which rejection is given, for every input, in the order of the checks. |
| `FillLaws.PriceFollowsQuote` | src/trading/execution/q1_paper.py:137-143 | For every quote and valid configuration a BUY price is on the price grid within half a quantum of the ask times (1 + delay), a SELL price of the bid times (1 - delay), rounded half-even. |
| `FillLaws.PriceIsGuarded` | src/trading/execution/q1_paper.py:114-143 | With a delay of at most 10000 bps a BUY pays at most decision price times (1 + guard maximum) times (1 + delay) plus half a quantum; a SELL receives symmetrically at least. |
| `FillLaws.PriceSign` | src/trading/execution/q1_paper.py:137-143 | For every side, quote and valid configuration the fill price is positive if and only if the ask times (1 + delay), or the bid times (1 - delay), exceeds half a price quantum, and negative if and only if that is below minus half of one. |
| `FillLaws.CheapBuyIsFree` | src/trading/execution/q1_paper.py:137-143 | An accepted BUY at bid and ask 0.4 with whole-unit prices has price zero. |
| `FillLaws.DelayedSellIsFree` | src/trading/execution/q1_paper.py:137-143 | An accepted SELL at bid 1 with a delay of 10001 bps has price zero. |
| `FillLaws.RecordableExactlyWhen` | src/trading/domain/q1_runtime.py:62-80 | A computed fill passes the field rules of the stored record if and only if the delayed reference price exceeds half a price quantum. |
| `FillLaws.SensitivityIsMonotone` | src/trading/execution/q1_paper.py:158-170 | Sensitivity costs start at the base cost and grow with the added basis points. |
| `FillLaws.FillCosts` | src/trading/execution/q1_paper.py:158-170 | The base cost is the commission plus what was lost against the midpoint, never a gain, and each sensitivity adds its basis points of the notional. |
| `FillLaws.FillKeepsThread` | src/trading/execution/q1_paper.py:144-156 | From consistent running totals a fill is never refused for its commission and leaves consistent totals. |
| `FillLaws.ThreadedCommission` | src/trading/execution/q1_paper.py:144-156 | Over every sequence of fills the increments are non-negative and add up to the commission on the traded notional; the commission rejection is unreachable. |
| `Affordability.MaximumAffordableQuantity` | src/trading/runtime/q1_execution_cycle.py:960-997 | The loop lowers its first guess quantum by quantum to the first affordable quantity; a zero price fails the division. |
| `Affordability.OutlayMonotone` | src/trading/runtime/q1_execution_cycle.py:983-994 | A smaller purchase never takes more cash, across the commission waiver too. |
| `Affordability.DescendIsLargest` | src/trading/runtime/q1_execution_cycle.py:982-997 | Up to the first guess, a number of quanta is affordable if and only if it is at most the one the search finds. |
| `Affordability.MaximumIsLargest` | src/trading/runtime/q1_execution_cycle.py:960-997 | At a positive price the result is the largest number of quanta whose price and rate leave a commission quantum of cash and whose price and commission increment the cash covers; a zero price fails, a negative one affords nothing. |
| `Affordability.AffordableFillIsPaid` | src/trading/runtime/q1_execution_cycle.py:690-698 | The settled-cash guard cannot fail: a fill of no more than the affordable quantity is covered, commission included. |
| `Affordability.SearchIsIdlePastWaiver` | src/trading/runtime/q1_execution_cycle.py:973-996 | Past the waiver and with its commission charged, the first guess is affordable, so the search takes no step. |
| `Affordability.FundedAffordsOne` | src/trading/runtime/q1_execution_cycle.py:960-997 | Cash for one quantum, its rate, the waived commission and a commission quantum affords a quantum, whatever was traded before. |
| `Affordability.PayingSaleEarns` | src/trading/settlement/service.py:203-207 | Where one quantum is worth more than its rate, the waived commission and a commission quantum, every larger sale earns more than the commission it is charged, whatever was sold before. |
| `OrderExecution.ProposalFits` | src/trading/runtime/q1_execution_cycle.py:612-790 | Every fill the economics compute for what is executable of an order's residual is a legal next event of its stream. |
| `OrderExecution.DriveIsSafe` | src/trading/runtime/q1_execution_cycle.py:612-790 | Working an order through any sequence of ticks never has an event refused or a purchase overdrawn; while it goes on the stream replays, can end only FILLED, its quantity and commission are those of the recorded fills, and the commission is the one-shot commission on the notional they traded. |
| `OrderExecution.StopsExactlyWhen` | src/trading/runtime/q1_execution_cycle.py:612-752 | A tick stops the cycle if and only if it is a BUY whose price rounds to zero, or would fill while the 5 or 10 bps sensitivity is not configured, or would fill a SELL at a price of at most zero, without a settlement date, or for a notional of at most its commission increment. |
| `OrderExecution.TicksExactlyWhen` | src/trading/runtime/q1_execution_cycle.py:612-790 | A tick that does not stop trades the largest quantity the residual, holding or cash and the caps allow, at the quoted price and the commission then due, if that is at least one quantum of a tradable quote; blocks for the price guard if something is executable and the adverse move is over the guard; and blocks for data otherwise. |
| `OrderExecution.WorkAnswers` | src/trading/runtime/q1_execution_cycle.py:612-790 | One tick leaves an ended order alone; on a pending one it appends one event that announces that outcome, FILLED exactly when the whole residual traded, and records the fill if there is one. |
| `OrderExecution.SaleConcludesExactlyWhen` | src/trading/settlement/service.py:186-211 | A computed SELL passes the record and the receivable if and only if its sensitivities are configured, its delayed price exceeds half a quantum, the calendar settles it and it earns more than its commission. |
| `OrderExecution.DriveGoesThroughExactlyWhen` | src/trading/runtime/q1_execution_cycle.py:612-790 | A whole run goes through if and only if no such tick comes while the order is pending. |
| `OrderLiveness.HealthyTicksGoThrough` | src/trading/runtime/q1_execution_cycle.py:612-790 | Every run goes through whose configuration reports, whose prices stay above half a quantum and whose sales settle at a price where one quantum pays for any commission. |
| `OrderLiveness.CheapBuyStopsTheCycle` | src/trading/runtime/q1_execution_cycle.py:618-632 | The BUY at 0.4 stops the cycle at its first tick. |
| `OrderLiveness.DelayedSellStopsTheCycle` | src/trading/runtime/q1_execution_cycle.py:699-708 | The SELL delayed by 10001 bps stops the cycle at its first tick. |
| `OrderLiveness.LastQuantumStopsTheCycle` | src/trading/runtime/q1_execution_cycle.py:709-735 | Under the shipped parameters a SELL of 0.100011 at 100, cut by capacity to 0.10001, leaves a quantum that crosses the commission waiver: the second tick, tradable and well priced, stops the cycle. |
| `OrderLiveness.LiquidMarketsFillTheOrder` | src/trading/execution/q1_paper.py:128-135 | After n ticks whose caps allow one quantum and whose holding or cash covers one, an order of n quanta is FILLED for exactly its quantity, unless one of them stopped the cycle. |
| `OrderLiveness.HealthyMarketsFillTheOrder` | src/trading/execution/q1_paper.py:128-135 | Where those ticks are also healthy, the order is always FILLED. |
| `ExecutionCycle.PrepareFillMutations` | src/trading/runtime/q1_execution_cycle.py:574-802 | The loop over the sorted candidates threads wallets, capacity and prepared mutations as the recursive cycle does, stopping at the first stop. |
| `ExecutionCycle.TradeFacts` | src/trading/runtime/q1_execution_cycle.py:690-735 | A fill that is traded is recordable, within the capacity left, and paid from settled cash or sold from the holding with proceeds and a settlement date. |
| `ExecutionCycle.WalletTakes` | src/trading/runtime/q1_state.py:112-163 | Such a fill is never refused by the arm state, which stays without overdraft, short position or empty receivable. |
| `ExecutionCycleLaws.ProcessExactly` | src/trading/runtime/q1_execution_cycle.py:586-802 | A genuine candidate stops the cycle if and only if it trips with what is left at its turn; no arm state and no event ever refuses it. |
| `ExecutionCycleLaws.CandidatesInTurn` | src/trading/runtime/q1_execution_cycle.py:577-585 | Every candidate is taken once: sales before purchases, then by arm, symbol and order id. |
| `ExecutionCycleLaws.CyclePrepares` | src/trading/runtime/q1_execution_cycle.py:586-802 | Candidate by candidate, what is prepared is what its tick gives with the capacity, holding and settled cash that the earlier ones left, and the event announces it; an arm without a state is blocked for data. |
| `ExecutionCycleLaws.ReceivablesAreSales` | src/trading/runtime/q1_execution_cycle.py:709-735 | Every receivable that a cycle adds is the net proceeds of one of its sales, due on the cycle's settlement date. |
| `ExecutionCycleLaws.CycleIsSolvent` | src/trading/runtime/q1_execution_cycle.py:574-802 | Over a whole cycle every arm stays solvent, and its settled cash, receivables and positions have moved by exactly the prepared fills. |
| `ExecutionCycleLaws.CapacityIsKept` | src/trading/runtime/q1_execution_cycle.py:602-606 | For every arm and symbol, capacity left, never negative, plus quantity traded is the capacity of its first candidate. |
| `ExecutionCycleLaws.CycleGoesThroughExactlyWhen` | src/trading/runtime/q1_execution_cycle.py:574-802 | A cycle goes through if and only if no candidate trips at its turn. |
| `ExecutionCycleLaws.NothingIsTurnedOver` | src/trading/runtime/q1_execution_cycle.py:577-585 | Because sells come first and proceeds settle later, what a cycle sells was held when it began and what it buys is paid from cash settled then. |
| `PolicyCompiler.AppliesExactlyWhen` | src/trading/llm/policy_compiler.py:245-333 | A sequence of operations applies exactly when each is allowed for the arm and none takes a bucket still held; the buckets in force are exactly those still held. |
| `PolicyCompiler.EffectsAreThoseHeld` | src/trading/llm/policy_compiler.py:120-149 | What applied operations leave in force: the least of one and the multipliers of the adjusting operations still held, for each target the sum of the deltas still held on it and no other target, and exactly the buckets of the entry blocks still held. |
| `PolicyCompiler.FirstFaultIs` | src/trading/llm/policy_compiler.py:245-333 | The first operation that does not apply decides the fault: not allowed, or else its bucket is taken. |
| `PolicyCompiler.RiskArmAllows` | src/trading/llm/policy_compiler.py:293-333 | The forward risk arm may only cut the whole portfolio by a multiplier within [0.25, 1], block one of three targets, or restore the default. |
| `PolicyCompiler.FullArmAllows` | src/trading/llm/policy_compiler.py:245-291 | The full arm may adjust within the bounds and registries; only entry blocks may name a symbol. |
| `PolicyCompiler.ComposesExactlyWhen` | src/trading/llm/policy_compiler.py:151-219 | Composing active patches succeeds exactly when their operations are allowed and conflict-free. |
| `PolicyCompiler.ComposedEffects` | src/trading/llm/policy_compiler.py:151-219 | A composed policy has exactly the effects of the operations of its patches that are still held. |
| `PolicyCompiler.RiskArmOnlyReduces` | src/trading/llm/policy_compiler.py:151-219 | Whatever is composed for the forward risk arm has a multiplier within [0.25, 1], no deltas, and blocks at most its three targets. |
| `PolicyCompiler.ComposeVersion` | src/trading/llm/policy_compiler.py:151-219 | The effects of composition do not depend on the version argument. |
| `PolicyCompiler.CompileIsCompose` | src/trading/llm/policy_compiler.py:90-149 | Compiling a patch on a base with the composed effects gives what composing the patch last gives, one version up. |
| `ControlAcceptance.CompilesExactlyWhen` | src/trading/llm/policy_compiler.py:90-149 | On a base with the effects of the live patches, a patch compiles if and only if it is active, on the base version, for the arm, and its operations cohere with theirs. |
| `ControlAcceptance.SelectsExactlyWhen` | src/trading/control/service.py:72-111 | Selecting fails exactly on a stale expected version; it leaves the provider selected, and appends the next version, created now, exactly when the provider differs. |
| `ControlAcceptance.PreparesExactlyWhen` | src/trading/control/service.py:113-227 | Preparing succeeds if and only if the arm is supported, the scope id not blank and at most 80 characters, the context at most 524288 bytes, the cutoff not later, some provider selected and the policy resolvable; the stored request names the current selection, the resolved policy and its arguments, expires after six hours, and the id clash is unreachable. |
| `ControlAcceptance.BindsExactlyWhen` | src/trading/control/service.py:615-667 | A decision binds if and only if it comes within six hours, answers the request by id, context, arm, version and evidence, and comes from the provider of the selection still in force. |
| `ControlAcceptance.AcceptedExactlyWhen` | src/trading/control/service.py:300-551 | In every consistent state a decision is accepted if and only if it meets the schema with its list bounds, binds, is bounded and active, its request was based on the newest version, and its operations cohere with those of the patches in force. |
| `ControlAcceptance.AcceptanceWrites` | src/trading/control/service.py:453-551 | An accepted decision appends its patch and the next version, whose effects are those of the operations in force with its own last, and stores its row and receipt; nothing else changes but what resolving wrote. |
| `ControlAcceptance.ObjectionIsAnswered` | src/trading/control/service.py:363-452 | The first objection raised before the policy is looked at is the recorded reason, and consumes the request without touching the policy tables. |
| `ControlAcceptance.PolicyAnswers` | src/trading/control/service.py:453-551 | The policy stage rejects a patch on another version or one that does not compile, without storing it, and raises only for a failed resolution or a taken version. |
| `ControlAcceptance.SubmissionFails` | src/trading/control/service.py:300-362 | Schema fault, unknown request and conflicting resubmission are raised exactly for those cases. |
| `RestoreWedge.StageAdvances` | src/trading/control/service.py:113-551 | Preparing and submitting once more accepts any coherent bounded patch and leads to tables that carry it. |
| `RestoreWedge.RestoreCanWedge` | src/trading/control/service.py:783-858 | For every scope, arm, allowed operation and restore there is a run whose three patches are all accepted and after which, from the restore's expiry until that of the other two and whatever commands with submissions in that window follow, the policy does not resolve, no request is prepared and no decision accepted. |
| `PolicyHistory.ResolvedEffects` | src/trading/control/service.py:783-858 | The state resolved at an instant has exactly the effects of the operations still held of the patches in force then, and names the last of them. |
| `PolicyHistory.ActiveAreExactly` | src/trading/control/service.py:797-818 | In force are exactly the patches of the scope and arm created, effective and unexpired at the instant, in creation order. |
| `PolicyHistory.ResolvedVersion` | src/trading/control/service.py:783-858 | Of the k versions stored by the instant, the last is returned when its effects are up to date; otherwise version k + 1 is appended at that instant, and in the past of a later version nothing is. |
| `PolicyHistory.ResolveTwice` | src/trading/control/service.py:783-858 | Resolving again at the same instant writes nothing and returns the same state. |
| `PolicyHistory.ResolveKeepsOrder` | src/trading/control/service.py:783-896 | Versions stay contiguous and ordered in time, and resolving in the past of a later version appends nothing. |
| `PolicyHistory.ResolvesExactlyWhen` | src/trading/control/service.py:783-858 | Resolution succeeds exactly when the operations of the patches in force are allowed and free of conflict. |
| `ControlRuns.EveryRunIsConsistent` | src/trading/control/service.py:72-551 | In every run of commands from empty tables, at whatever instants, selections and versions are contiguous, requests are bound to their selection, each is consumed at most once, and every acceptance has its version row. |
| `ControlRuns.OneAcceptancePerBase` | src/trading/control/service.py:453-551 | In every run each scope, arm and base version gets at most one ACCEPTED decision. |
| `ControlRuns.ReceiptIsFinal` | src/trading/control/service.py:338-362 | After any further run, resubmitting a consumed decision returns the recorded receipt as a replay and changes nothing, and any other decision on the request is refused. |
| `ControlRuns.StaleIsRejected` | src/trading/control/service.py:615-667 | A decision on a request whose selection was replaced is only ever rejected. |
| `ControlRuns.StaleNeverRevives` | src/trading/control/service.py:615-667 | Switching provider away and back never revives an old request, whatever runs afterwards. |
| `PolicyLiveness.AcceptedOnLivePolicy` | src/trading/control/service.py:453-497 | In every run an accepted patch is compiled on the newest version, whose effects are those of the unexpired patches at that instant, and the new version composes the patch last. |
| `PolicyLiveness.SeparateResolves` | src/trading/control/service.py:783-858 | While patches that are ever in force together use different buckets, the policy resolves at every instant. |
| `PolicyLiveness.PlainRunsAlwaysResolve` | src/trading/control/service.py:783-858 | In every time-ordered run without RESTORE_DEFAULT operations, every scope and arm resolves at every instant: one way to meet the exact condition of ResolvesAlwaysExactlyWhen. |
| `PolicySchedule.ConflictFreeExactlyWhen` | src/trading/llm/policy_compiler.py:171-219 | The operations of any selection of patches compose if and only if, of every two selected ones on one bucket, a selected restore stands between. |
| `PolicySchedule.ResolvesAtExactlyWhen` | src/trading/control/service.py:783-858 | At an instant the policy resolves if and only if every two operations in force on one bucket have a restore in force between them. |
| `PolicySchedule.ResolvesAlwaysExactlyWhen` | src/trading/control/service.py:783-858 | After every run the policy resolves at every instant if and only if, of every two operations on one bucket whose patches are in force together, some restore between them outlives the earlier of their expiries. |
| `PolicyLiveness.ExpiredRestoreConflicts` | src/trading/llm/policy_compiler.py:151-219 | With a restore the property is false: patch, restore, patch again compile in turn, but once the restore expires first, the remaining patches no longer compose. |
| `ControlService.ControlPlaneService.Select` | src/trading/control/service.py:72-111 | Keeps the tables consistent and only grows them; fails exactly on a stale expected version; leaves the provider selected under the newest number and adds one exactly when the provider differs. |
| `ControlService.ControlPlaneService.Resolve` | src/trading/control/service.py:783-858 | Keeps the tables consistent; succeeds exactly when the operations in force cohere; the state has the effects of the operations still held and names the last patch, and resolving again writes nothing. |
| `ControlService.ControlPlaneService.Prepare` | src/trading/control/service.py:113-227 | Keeps the tables consistent; succeeds exactly for a supported arm, valid scope id, bounded context, cutoff not later, some selection and coherent patches; the stored request is under the current selection and expires after its life. |
| `ControlService.ControlPlaneService.Store` | src/trading/control/service.py:669-711 | Keeps the tables consistent; consumes an unconsumed request, and only that one, with its row and terminal result together. |
| `ControlService.ControlPlaneService.Apply` | src/trading/control/service.py:453-551 | Keeps the tables consistent and consumes the request with a patch and version, or with a stale-base or compile rejection; a unique violation leaves the tables as they were. |
| `ControlService.ControlPlaneService.Submit` | src/trading/control/service.py:300-551 | Keeps the tables consistent; a consumed request is never changed and returns its recorded receipt as a replay; an unconsumed one is consumed once, and accepted if and only if the decision is acceptable. |
| `Portfolio.RebuildArmState` | src/trading/experiments/arms.py:95-107 | The loop over fills sorted by effective time and id computes sorted replay, stopping at the first refusal. |
| `Portfolio.StateIsSum` | src/trading/experiments/arms.py:29-50 | An accepted run has the cash, positions, symbols and sequence that its fills add up to. |
| `Portfolio.AcceptsExactlyAffordable` | src/trading/experiments/arms.py:29-50 | A run is accepted exactly when after every step the arm is its own, not short and not overdrawn. |
| `Portfolio.FinalStateIgnoresOrder` | src/trading/experiments/arms.py:95-107 | Two accepted runs over the same fills end in the same state. |
| `Portfolio.LiveIsReplay` | src/trading/experiments/arms.py:95-107 | A live arm and its sorted replay agree whenever both are accepted. |
| `Portfolio.OrderedArrivalReplays` | src/trading/experiments/arms.py:95-107 | Fills that arrived in sorted order are replayed as they were accepted or refused. |
| `Portfolio.ReplayIsChronological` | src/trading/experiments/arms.py:95-107 | Any arrangement of fills with distinct ids by effective time and then id is the one replayed. |
| `Portfolio.LateArrivalCanBeRefused` | src/trading/experiments/arms.py:95-107 | Without that order replay can refuse what the live arm accepted. |
| `Inventory.InventoryCosts` | src/trading/dashboard/service.py:382-417 | The loop over the three dictionaries reports, per symbol, the cost, average and realized profit of the posted books, or the symbol sold short. |
| `Inventory.SaleKeepsAverage` | src/trading/dashboard/service.py:397-400 | Selling part of a holding leaves its average cost unchanged. |
| `Inventory.BooksTrackFills` | src/trading/dashboard/service.py:388-403 | The books hold what was bought and not sold, never short, with zero cost at zero quantity, and symbol by symbol realized minus cost is the fills' cash flow. |
| `Inventory.ReportedHoldings` | src/trading/dashboard/service.py:404-417 | The report has a line for every symbol traded: its average times the units held is the cost held, there is none exactly when nothing is held, and realized profit minus cost is the symbol's cash flow. |
| `Inventory.BooksAcceptExactly` | src/trading/dashboard/service.py:395-396 | The books accept exactly the fill lists that never sell what is not held. |
| `Inventory.ArmAcceptsExactlyWhen` | src/trading/experiments/arms.py:29-50 | An arm accepts exactly its own fills that the inventory accepts and its cash can pay for at every step. |
| `Inventory.ProfitAndLoss` | src/trading/dashboard/service.py:330-417 | For fills an arm accepts, the inventory accepts them with the same quantities, and cash plus market value minus initial cash is realized plus unrealized profit at any prices. |
| `Inventory.TableShowsAllExactlyWhen` | src/trading/dashboard/service.py:330-379 | The position table, which omits closed positions, adds up to the whole profit if and only if the closed positions realized nothing in total. |
| `Inventory.ClosedPositionHidesProfit` | src/trading/dashboard/service.py:330-379 | One unit bought at 1 and sold at 2 leaves an empty table and a profit of 1. |
| `Ledger.FillBooks` | src/trading/ledger/journal.py:119-169 | Booking a fill's entry moves cash and the one position as the arm does, and its values balance to zero. |
| `Ledger.BalancedExactlyWhen` | src/trading/ledger/journal.py:172-186 | An entry balances if and only if its values sum to zero within a millionth. |
| `Ledger.BookingIgnoresOrder` | src/trading/ledger/journal.py:189-207 | Rebuilt holdings do not depend on the order in which entries are booked. |
| `Ledger.JournalRebuildsRun` | src/trading/ledger/journal.py:189-207 | The capital entry and fill entries of an accepted run rebuild its live cash and positions. |
| `Ledger.JournalIsConsistentExactlyWhen` | src/trading/ledger/journal.py:172-186 | Such a journal passes validation if and only if no fill id occurs twice. |
| `TargetWeights.ScaledSumsToOne` | src/trading/experiments/ai_guard_factorial_runtime.py:427-437 | Scaled weights sum to one exactly, even when the base only does so within tolerance. |
| `TargetWeights.TargetsExactlyWhen` | src/trading/experiments/ai_guard_factorial_runtime.py:168-195 | Targets exist exactly for a base with a cash weight, no negative weight and a sum of one within tolerance, and multipliers within [0, 1]; the reported fault is the first that applies, and the increased-exposure error is unreachable. |
| `TargetWeights.ArmWeights` | src/trading/experiments/ai_guard_factorial_runtime.py:181-195 | The control holds the base, each single treatment its own multiplier of every risky weight and the combined one the product; cash is what those leave of one. |
| `TargetWeights.TreatmentsNest` | src/trading/experiments/ai_guard_factorial_runtime.py:181-195 | The combined treatment holds no more of any symbol and no less cash than either single one, and those than the control. |
| `TargetWeights.CashWeightKept` | src/trading/experiments/ai_guard_factorial_runtime.py:418-437 | No treatment holds less cash than the base, up to the tolerance on its sum. |
| `TargetWeights.LongOnlyExactlyWhen` | src/trading/experiments/ai_guard_factorial_runtime.py:418-437 | Targets are long-only if and only if the scaled risky weights add up to at most one. |
| `TargetWeights.ToleranceCanOverdraw` | src/trading/experiments/ai_guard_factorial_runtime.py:418-437 | A base that uses up the tolerance gets a negative cash weight. |
| `Rebalance.PlanRebalance` | src/trading/experiments/ai_guard_factorial_runtime.py:240-299 | The loop over sorted symbols fails exactly when a held or targeted symbol lacks its price, and otherwise plans the order of every symbol that is not skipped. |
| `RebalanceLaws.NavOverTargets` | src/trading/experiments/ai_guard_factorial_runtime.py:440-450 | NAV may be summed over the targets when they cover the holdings. |
| `RebalanceLaws.QuantityIsShare` | src/trading/experiments/ai_guard_factorial_runtime.py:251-253 | The wanted quantity q is on the grid of 0.00000001 with q times price at most NAV times weight, which is less than (q + 0.00000001) times price. |
| `RebalanceLaws.SymbolBudget` | src/trading/experiments/ai_guard_factorial_runtime.py:250-260 | What a symbol is worth after the plan is at most its share of NAV, plus one minimum notional where a sale was skipped. |
| `RebalanceLaws.SymbolFloor` | src/trading/experiments/ai_guard_factorial_runtime.py:250-260 | It is at least that share, but for one quantum and for one minimum notional where a purchase was skipped. |
| `RebalanceLaws.FinalCash` | src/trading/experiments/ai_guard_factorial_runtime.py:240-299 | All orders filled at planning prices leave at least NAV times cash weight minus skipped sales times the minimum notional, and at most NAV times cash weight plus one quantum of every symbol plus skipped purchases times the minimum notional. |
| `RebalanceLaws.OrderlyAcceptedExactlyWhen` | src/trading/experiments/arms.py:29-50 | Sells first and one fill per symbol, a run is accepted at every step exactly when its final cash is not negative. |
| `RebalanceLaws.RebalanceIsSafe` | src/trading/experiments/ai_guard_factorial_runtime.py:240-299 | Carrying out the plan sells first is accepted exactly when the final cash is not negative, in particular when the floor is not; cash then lies between floor and ceiling, and every symbol ends at the largest quantity its share of NAV buys, or where it was if the way there is nothing or below the minimum notional. |
| `FactorialRuns.MatchingBooksReconcile` | src/trading/experiments/ai_guard_factorial_runtime.py:65-114 | An arm whose portfolio is the run of its fills and whose ledger is their journal passes every construction check. |
| `FactorialRuns.FillAcceptedExactlyWhen` | src/trading/experiments/ai_guard_factorial_runtime.py:319-382 | On such books a fill is accepted exactly when its order is pending, it is of that order's side and symbol, within its lifetime and residual, the arm holds and can pay for it, its id is new and prices cover the positions; reconciliation cannot fail. |
| `FactorialRuns.PlanAcceptedExactlyWhen` | src/trading/experiments/ai_guard_factorial_runtime.py:198-317 | On such books a plan is made exactly for a valid term with nothing pending, a price for everything held and a positive one for everything targeted; it changes only the pending orders and the value. |
| `FactorialRuns.EveryRunReconciles` | src/trading/experiments/ai_guard_factorial_runtime.py:117-382 | After every run of plans and fills, refused ones included, the live arm is the run of its fills, the ledger rebuilds it, and the sequence counts the fills. |
| `FactorialRuns.LiveArmIsReplay` | src/trading/experiments/arms.py:95-107 | Sorted replay equals the live portfolio whenever it is accepted, and always when the fills arrived in order. |
| `FactorialRuns.LeftAfterFill` | src/trading/experiments/ai_guard_factorial_runtime.py:350-364 | A fill takes its quantity from what is left of its own order and of no other. |
| `FactorialRuns.EveryOrderIsConserved` | src/trading/experiments/ai_guard_factorial_runtime.py:198-382 | In every run whose plans use different scopes, filled plus remaining is the quantity of every order ever planned, and every pending order has something left. |
| `MarketRepository.BarRepository.Append` | src/trading/data/market_repository.py:378-415 | Inserting in batches of 500 stores what one insert would, keeps the constraints, and counts the rows stored. |
| `MarketStore.InsertAllConcat` | src/trading/data/market_repository.py:393-415 | Two inserts are one insert of both lists. |
| `MarketStore.StoredExactlyWhen` | src/trading/persistence/models.py:256-270 | After any insertions one more bar is stored, at the end, exactly when no stored row has its id, nor its series, provider time and payload. |
| `MarketStore.InsertOnlyAppends` | src/trading/data/market_repository.py:378-415 | Inserting never changes or reorders recorded rows, and keeps primary key and payload constraint. |
| `MarketStore.OfferedIsBlocked` | src/trading/data/market_repository.py:393-415 | Every offered bar is stored or has a stored row in its place. |
| `MarketStore.StoredIdsChangeNothing` | src/trading/persistence/models.py:256-270 | Bars whose ids are stored change nothing, so first-recorded availability is kept. |
| `MarketStore.ReingestChangesNothing` | src/trading/data/market_repository.py:378-415 | Ingesting any of the same bars again, in any order, changes nothing and so counts zero. |
| `MarketRepository.ViewFacts` | src/trading/data/market_repository.py:55-117 | A view lists at most `limit` rows in ascending event time, each stored, of the asked provider, feed, symbol and timeframe, known at the cutoff, and such that no row known for the same event is available later, or then ingested later, or then of a better source, or then of a larger id. |
| `MarketRepository.ViewHoldsExactly` | src/trading/data/market_repository.py:55-117 | A row is in the view if and only if it is such a newest known revision with fewer than `limit` later known event times. |
| `MarketRepository.RevisionIsUnique` | src/trading/data/market_repository.py:67-95 | The ranking leaves exactly one newest revision per event time. |
| `MarketRepository.PastViewsAreStable` | src/trading/data/market_repository.py:55-117 | Ingesting rows available after a cutoff never changes a view at that cutoff. |
| `MarketRepository.PastViewsSurviveHistory` | src/trading/data/market_repository.py:55-117 | The same over any history of ingestions. |
| `AlignedInputs.CompletedSeries` | src/trading/data/q1_pit.py:184-232 | The loop filling the dictionary by date computes the completed series, including the first fault. |
| `AlignedInputs.CommonIs` | src/trading/data/q1_pit.py:97-99 | The intersection holds exactly the dates that every symbol has. |
| `AlignedViews.CommonDates` | src/trading/data/q1_pit.py:97-99 | The in-place intersection computes the common dates. |
| `AlignedViews.CompletesExactlyWhen` | src/trading/data/q1_pit.py:184-232 | A series completes if and only if every past row is available, adjusted and of the dataset, past rows of one session have the same content, there is a past session and the values are valid; it is then the last row of every past session, ascending. |
| `AlignedViews.SeriesFault` | src/trading/data/q1_pit.py:184-211 | The first row that breaks this decides the fault: availability, then provenance, then content. |
| `AlignedViews.SeriesMissing` | src/trading/data/q1_pit.py:211-219 | Consistent rows fail for want of a past session, or of valid values in a last row. |
| `AlignedViews.ViewsAreAvailable` | src/trading/data/q1_pit.py:189-193 | On rows read from the repository the unavailable-at-cutoff error cannot occur. |
| `AlignedViews.AlignedCompletedDailyInputs` | src/trading/data/q1_pit.py:65-136 | Loading, intersecting, checking and selecting over the repository's rows, tied to the alignment function the laws are about. |
| `AlignedLaws.AlignsExactlyWhen` | src/trading/data/q1_pit.py:83-124 | Alignment gives a result if and only if every symbol's newest known bars complete a series, all series end with the same `minimum` sessions, the last being the expected one, and the result is those sessions with, for each symbol, the end of its series. |
| `AlignedLaws.AlignmentFault` | src/trading/data/q1_pit.py:100-124 | Which fault is raised: too few shared dates, then a latest shared date that is not the expected one, then series that do not end alike. |
| `AlignedLaws.AlignedHolds` | src/trading/data/q1_pit.py:83-136 | Every aligned result has the exact length, ascending dates identical across symbols, the expected last session, nothing from the current session and only newest revisions known at the cutoff, of the asked series, fit and valid. |
| `AlignedLaws.AlignmentIsStable` | src/trading/data/q1_pit.py:65-136 | Rows available after the cutoff never change the aligned inputs, nor an error. |

## Left out

- Decimal context precision, square roots and logarithms: facts are about the radicand and about exact values.
- `evaluate_performance`, `_episode_runs` and `_sample_standard_deviation`: single passes over the same data that would only add easy members.
- `validate_order_event_book`: the replay of each order plus an orphan check.
- Event provenance, reasons, hashes and blank-text checks of orders and events: carried, or one branch each.
- How a cycle finds its quotes and volume: each candidate's quote is taken to be available and newer than those its order used before, which the quote cursor arranges, so fill and receivable ids are new. The settlement calendar is reduced to the date it gives, if it covers one, and a configured sensitivity to its value rather than its printed key.
- Later settlement of receivables, and the commit of a prepared cycle.
- `fill_marketable` and `fill_from_quote` of the paper broker: the same rounding and caps as the modelled fill, with age and crossed-quote checks; only their commission is modelled.
- PolicyLiveness.PlainRunsAlwaysResolve: one direction; the exact condition is PolicySchedule.ResolvesAlwaysExactlyWhen.
- Cycle fences, prompts, status payloads, request look-ups and audit text of the control plane, and its database locks.
- Rollback conditions of a patch are reduced to the expiry check; typed conditions are not evaluated.
- The matched market, forecast, schedule and configuration checks across the four factorial arms: one arm is modelled, and `plan_factorial_rebalance` applies it to each.
- `portfolio_opening_entry` and posting metadata; the journal's validation and rebuilding loops are modelled on values, which captures no update in place.
- NAV snapshots, candles, quotes, rounding of displayed numbers and other dashboard payloads.
- Quote and trade tables, stream status, and the merge fallback for other database dialects.
- `source_bar_ids`, average daily volume, and the other repository queries.
- Network clients, workers, subprocesses, migrations, scripts, settings and the command line.
