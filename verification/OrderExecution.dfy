/** Working one order against a sequence of market ticks: fill economics driving the order's event stream. */
module OrderExecution {
  import opened Affordability
  import opened Decimals
  import opened FillEconomics
  import opened FillLaws
  import opened Identifiers
  import opened Orders
  import opened OrderReplay
  import opened OrderAppend
  import opened OrderBookLaws
  import opened Results

  /** A quote, with the arm's holding of the symbol, its settled cash, and the date on which the calendar
      settles a sale of this session, if it covers one. */
  datatype Market = Market(tick: Tick, position: real, cash: real, settlement: Option<int>, at: int, origin: string)

  /** An order's events and the fills recorded for it. */
  datatype Execution = Execution(events: seq<Event>, fills: seq<Fill>)

  /** What the cycle raises instead of going on. */
  datatype Stop =
    | Refused(refusal: Refusal)
    | NoQuantity(fault: CashFault)
    | Unaffordable
    | Unreported
    | Unrecordable
    | Unsettleable
    | NoProceeds

  datatype Outcome = Trade(fill: Fill) | Block(kind: Kind)

  /** A SELL is limited by the holding, a BUY by what settled cash can pay. */
  function Allowance(order: Order, commission: real, notional: real, m: Market, config: Config): Result<real, CashFault>
    requires config.Valid()
  {
    if order.side.Sell? then Ok(m.position)
    else MaximumAffordable(m.cash, FillPrice(Buy, m.tick, config), notional, commission, config)
  }

  /** The two sensitivities that a fill record reports are configured. */
  predicate Reports(config: Config) {
    5.0 in config.sensitivityBps && 10.0 in config.sensitivityBps
  }

  /** What becomes of a computed fill: the cash guard, the record, and the receivable of a sale. */
  function Conclude(side: Side, f: Fill, m: Market, config: Config): Result<Outcome, Stop> {
    if side.Buy? && Notional(f.quantity, f.price) + f.commission > m.cash then Err(Unaffordable)
    else if !Reports(config) then Err(Unreported)
    else if !Recordable(f) then Err(Unrecordable)
    else if side.Sell? && m.settlement.None? then Err(Unsettleable)
    else if side.Sell? && Notional(f.quantity, f.price) <= f.commission then Err(NoProceeds)
    else Ok(Trade(f))
  }

  /** What one tick does with a pending order: a fill, a block, or a stop of the whole cycle. */
  function Weigh(order: Order, g: Aggregate, notional: real, m: Market, config: Config): Result<Outcome, Stop>
    requires config.Valid()
  {
    match Allowance(order, g.commission, notional, m, config)
    case Err(fault) => Err(NoQuantity(fault))
    case Ok(limit) =>
      var executable := Min(g.remaining, limit);
      if executable <= 0.0 || m.tick.advCapacity <= 0.0 then Ok(Block(BlockedByData))
      else
        match BuildFill(order.side, executable, m.tick, notional, g.commission, config)
        case Err(PriceGuard(_, _)) => Ok(Block(BlockedByPriceGuard))
        case Err(_) => Ok(Block(BlockedByData))
        case Ok(f) => Conclude(order.side, f, m, config)
  }

  /** A fill closes the order only when it takes the exact residual. */
  function Propose(outcome: Outcome, g: Aggregate, m: Market): Proposal {
    match outcome
    case Trade(f) =>
      Proposal(if f.quantity == g.remaining then Filled else PartiallyFilled, f.quantity, f.commission, m.at, m.at, m.origin)
    case Block(kind) => Proposal(kind, 0.0, 0.0, m.at, m.at, m.origin)
  }

  function Recorded(fills: seq<Fill>, outcome: Outcome): seq<Fill> {
    match outcome
    case Trade(f) => fills + [f]
    case Block(_) => fills
  }

  function Work(order: Order, x: Execution, m: Market, config: Config): Result<Execution, Stop>
    requires config.Valid()
  {
    match Reduce(order, x.events, None)
    case Err(fault) => Err(Refused(ReplayFault(fault)))
    case Ok(g) =>
      if !g.Pending() then Ok(x)
      else
        match Weigh(order, g, TradedNotional(x.fills), m, config)
        case Err(stop) => Err(stop)
        case Ok(outcome) =>
          match AppendEvent(order, x.events, Propose(outcome, g, m))
          case Err(refusal) => Err(Refused(refusal))
          case Ok(e) => Ok(Execution(x.events + [e], Recorded(x.fills, outcome)))
  }

  function Open(order: Order): Result<Execution, Stop> {
    match AppendEvent(order, [], Proposal(Created, 0.0, 0.0, order.createdAt, order.createdAt, ""))
    case Err(refusal) => Err(Refused(refusal))
    case Ok(e) => Ok(Execution([e], []))
  }

  function Drive(order: Order, markets: seq<Market>, config: Config): Result<Execution, Stop>
    requires config.Valid()
  {
    if markets == [] then Open(order)
    else match Drive(order, markets[..|markets| - 1], config)
      case Err(stop) => Err(stop)
      case Ok(x) => Work(order, x, markets[|markets| - 1], config)
  }

  // ---- what holds at every moment

  function QuantityTraded(fills: seq<Fill>): real {
    if fills == [] then 0.0 else QuantityTraded(fills[..|fills| - 1]) + fills[|fills| - 1].quantity
  }

  /** The recorded fills are valid records with settled totals. */
  ghost predicate Booked(side: Side, config: Config, fills: seq<Fill>)
    requires config.Valid()
  {
    && Settled(side, config, fills)
    && TradedNotional(fills) >= 0.0
    && (forall i :: 0 <= i < |fills| ==> Recordable(fills[i]))
  }

  /** The event stream replays, and says of quantity and commission what the fills add up to. */
  ghost predicate Working(order: Order, x: Execution, config: Config)
    requires config.Valid()
  {
    && Sound(x.events)
    && Reduce(order, x.events, None).Ok?
    && Booked(order.side, config, x.fills)
    && var g := Reduce(order, x.events, None).value;
       && g.commission == CommissionsCharged(x.fills)
       && g.filled == QuantityTraded(x.fills)
       && (g.status.Terminal() ==> g.status.Filled?)
  }

  lemma OpenWorks(order: Order, config: Config)
    requires order.Valid() && config.Valid()
    ensures Open(order).Ok? && Working(order, Open(order).value, config)
    ensures Reduce(order, Open(order).value.events, None).value.remaining == order.quantity
  {
    hide Reduce, AppendEvent, OrderCommission;
    var a := Proposal(Created, 0.0, 0.0, order.createdAt, order.createdAt, "");
    EmptyIsRejected(order, []);
    AppendIsExact(order, [], a);
    NothingTraded(config);
    var e := AppendEvent(order, [], a).value;
    assert [] + [e] == [e];
  }

  // ---- one tick: when it stops the cycle

  /** A quote inside the guard whose caps admit at least one quantity quantum. */
  ghost predicate Tradable(side: Side, t: Tick, config: Config)
    requires config.Valid()
  {
    && Executable(t) && t.decisionSpreadBps >= 0.0
    && AdverseBps(side, t) <= GuardBps(t.decisionSpreadBps, config)
    && t.displayed * config.displayedParticipation >= config.quantityPrecision
    && t.advCapacity >= config.quantityPrecision
  }

  /** The quantity a tick may take of a residual; nothing when a BUY has no price. */
  function Takeable(side: Side, remaining: real, fills: seq<Fill>, m: Market, config: Config): real
    requires config.Valid()
  {
    if side.Sell? then Min(remaining, m.position)
    else if FillPrice(Buy, m.tick, config) == 0.0 then 0.0
    else Min(remaining, MaximumAffordable(m.cash, FillPrice(Buy, m.tick, config), TradedNotional(fills), CommissionsCharged(fills), config).value)
  }

  /** A sale of this quantity earns more than the commission it is charged. */
  predicate Earns(executable: real, fills: seq<Fill>, t: Tick, config: Config)
    requires config.Valid()
  {
    var n := Notional(Quoted(executable, t, config), FillPrice(Sell, t, config));
    n > OrderCommission(TradedNotional(fills) + n, config) - CommissionsCharged(fills)
  }

  /** The tick stops the cycle. A BUY at a price that rounds to zero does, and so does any computed fill that a
      configuration cannot report; of the sales, one at a price of at most zero, without a settlement date,
      or that does not earn more than its commission. */
  ghost predicate Trips(side: Side, remaining: real, fills: seq<Fill>, m: Market, config: Config)
    requires config.Valid()
  {
    var half, executable := config.pricePrecision / 2.0, Takeable(side, remaining, fills, m, config);
    || (side.Buy? && -half <= DelayedPrice(Buy, m.tick, config) <= half)
    || (&& Tradable(side, m.tick, config)
        && executable >= config.quantityPrecision
        && (|| 5.0 !in config.sensitivityBps || 10.0 !in config.sensitivityBps
            || (side.Sell? && (DelayedPrice(Sell, m.tick, config) <= half || m.settlement.None? || !Earns(executable, fills, m.tick, config)))))
  }

  /** With booked fills, a fill is computed exactly for a tradable quote and an executable quantum. */
  lemma FillsExactlyWhen(side: Side, executable: real, t: Tick, fills: seq<Fill>, config: Config)
    requires config.Valid() && Booked(side, config, fills)
    ensures BuildFill(side, executable, t, TradedNotional(fills), CommissionsCharged(fills), config).Ok? <==>
      Tradable(side, t, config) && executable >= config.quantityPrecision
  {
    hide BuildFill, OrderCommission, AdverseBps, GuardBps, Notional, FillPrice, Quoted, Recordable, PaysForward;
    var notional, commission := TradedNotional(fills), CommissionsCharged(fills);
    ChargedNotNegative(notional, config);
    FillAcceptedExactlyWhen(side, executable, t, notional, commission, config);
    FillKeepsThread(side, executable, t, notional, commission, config);
    if Tradable(side, t, config) && executable >= config.quantityPrecision {
      NotRefusedOtherwise(side, executable, t, notional, commission, config);
    }
  }

  lemma ChargedNotNegative(notional: real, config: Config)
    requires config.Valid()
    ensures OrderCommission(notional, config) >= 0.0
  {
    hide TotalCommission;
    FillEconomics.CommissionNonNegative(notional, config.commissionRate, config.waiverThreshold, config.commissionPrecision);
  }

  /** A tradable quote and an executable quantum leave the commission as the only possible objection. */
  lemma NotRefusedOtherwise(side: Side, executable: real, t: Tick, notional: real, commission: real, config: Config)
    requires config.Valid() && Tradable(side, t, config) && executable >= config.quantityPrecision
    requires notional >= 0.0 && commission >= 0.0
    ensures var r := BuildFill(side, executable, t, notional, commission, config);
      r.Ok? || r.error.CommissionExceeded?
  {
    hide QuantizeDown, FillPrice, AdverseBps, OrderCommission, PriceCost, Sensitivity, Notional, Capped, GuardBps;
    var cap := Capped(executable, t, config);
    CapNonNegative(executable, t, config);
    QuantizeDownBounds(cap, config.quantityPrecision);
    CapAllows(executable, t, config, config.quantityPrecision);
  }

  /** A computed SELL is concluded exactly when it can be reported, priced, settled and earns its commission. */
  lemma SaleConcludesExactlyWhen(executable: real, fills: seq<Fill>, m: Market, config: Config)
    requires config.Valid()
    requires BuildFill(Sell, executable, m.tick, TradedNotional(fills), CommissionsCharged(fills), config).Ok?
    ensures var f := BuildFill(Sell, executable, m.tick, TradedNotional(fills), CommissionsCharged(fills), config).value;
      Conclude(Sell, f, m, config).Ok? <==>
        && 5.0 in config.sensitivityBps && 10.0 in config.sensitivityBps
        && DelayedPrice(Sell, m.tick, config) > config.pricePrecision / 2.0
        && m.settlement.Some? && Earns(executable, fills, m.tick, config)
  {
    hide BuildFill, Recordable, Notional, DelayedPrice, TradedNotional, CommissionsCharged, FillPrice, OrderCommission, QuantizeDown,
      Capped, OnGrid;
    FillIsWithinCaps(Sell, executable, m.tick, TradedNotional(fills), CommissionsCharged(fills), config);
    RecordableExactlyWhen(Sell, executable, m.tick, TradedNotional(fills), CommissionsCharged(fills), config);
  }

  lemma ConcludeStops(side: Side, f: Fill, m: Market, config: Config)
    ensures var r := Conclude(side, f, m, config);
      && (r.Ok? ==> r.value == Trade(f) && Recordable(f))
      && (r.Err? ==> !r.error.Refused? && !r.error.NoQuantity?)
      && (side.Sell? ==> r != Err(Unaffordable))
  {
    hide Recordable, Notional, Reports;
  }

  /** A SELL is stopped exactly when it trips, and never for want of cash. */
  lemma SellStopsExactlyWhen(order: Order, g: Aggregate, fills: seq<Fill>, m: Market, config: Config)
    requires config.Valid() && order.side.Sell? && Booked(Sell, config, fills) && g.commission == CommissionsCharged(fills)
    ensures Weigh(order, g, TradedNotional(fills), m, config).Err? <==> Trips(Sell, g.remaining, fills, m, config)
    ensures Weigh(order, g, TradedNotional(fills), m, config).Err? ==>
      Legitimate(Weigh(order, g, TradedNotional(fills), m, config).error)
  {
    hide BuildFill, Booked, Tradable, Recordable, Notional, DelayedPrice, TradedNotional, CommissionsCharged, Earns, Conclude;
    var executable := Min(g.remaining, m.position);
    FillsExactlyWhen(Sell, executable, m.tick, fills, config);
    if Tradable(Sell, m.tick, config) {
      TradableHasVolume(Sell, m.tick, config);
    }
    var r := BuildFill(Sell, executable, m.tick, TradedNotional(fills), g.commission, config);
    if r.Ok? {
      SaleConcludesExactlyWhen(executable, fills, m, config);
      ConcludeStops(Sell, r.value, m, config);
    }
  }

  /** The stops that the market or the configuration can cause. */
  predicate Legitimate(stop: Stop) {
    !stop.Refused? && !stop.Unaffordable?
  }

  lemma TradableHasVolume(side: Side, t: Tick, config: Config)
    requires config.Valid() && Tradable(side, t, config)
    ensures t.advCapacity > 0.0 && Executable(t)
  {
  }

  /** A BUY is stopped exactly by a price that rounds to zero or a missing sensitivity; the settled-cash guard
      and the fields of the record never stop it. */
  lemma BuyStopsExactlyWhen(order: Order, g: Aggregate, fills: seq<Fill>, m: Market, config: Config)
    requires config.Valid() && order.side.Buy? && Booked(Buy, config, fills) && g.commission == CommissionsCharged(fills)
    ensures Weigh(order, g, TradedNotional(fills), m, config).Err? <==> Trips(Buy, g.remaining, fills, m, config)
    ensures Weigh(order, g, TradedNotional(fills), m, config).Err? ==>
      Legitimate(Weigh(order, g, TradedNotional(fills), m, config).error)
  {
    hide BuildFill, Booked, Recordable, Notional, DelayedPrice, TradedNotional, CommissionsCharged, FillPrice, Descend, FirstGuess, Multiple,
      Tradable, Earns;
    var price, notional := FillPrice(Buy, m.tick, config), TradedNotional(fills);
    PriceSign(Buy, m.tick, config);
    if price != 0.0 {
      var limit := MaximumAffordable(m.cash, price, notional, g.commission, config).value;
      var executable := Min(g.remaining, limit);
      FillsExactlyWhen(Buy, executable, m.tick, fills, config);
      if Tradable(Buy, m.tick, config) {
        TradableHasVolume(Buy, m.tick, config);
      }
      if BuildFill(Buy, executable, m.tick, notional, g.commission, config).Ok? {
        AffordableFillIsPaid(executable, m.tick, m.cash, notional, g.commission, config);
        BoughtAtPositivePrice(executable, m.tick, notional, g.commission, config);
      }
    }
  }

  lemma BoughtAtPositivePrice(executable: real, t: Tick, notional: real, commission: real, config: Config)
    requires config.Valid() && BuildFill(Buy, executable, t, notional, commission, config).Ok? && FillPrice(Buy, t, config) != 0.0
    ensures Recordable(BuildFill(Buy, executable, t, notional, commission, config).value)
  {
    hide BuildFill, Recordable, DelayedPrice, FillPrice;
    HistoryIsSane(Buy, executable, t, notional, commission, config);
    PriceFollowsDelay(Buy, t, config);
    PriceSign(Buy, t, config);
    RecordableExactlyWhen(Buy, executable, t, notional, commission, config);
  }

  /** A tick stops the cycle exactly when it trips, and never for a refused event or for want of cash. */
  lemma StopsExactlyWhen(order: Order, g: Aggregate, fills: seq<Fill>, m: Market, config: Config)
    requires config.Valid() && Booked(order.side, config, fills) && g.commission == CommissionsCharged(fills)
    ensures Weigh(order, g, TradedNotional(fills), m, config).Err? <==> Trips(order.side, g.remaining, fills, m, config)
    ensures Weigh(order, g, TradedNotional(fills), m, config).Err? ==>
      Legitimate(Weigh(order, g, TradedNotional(fills), m, config).error)
  {
    hide Weigh, Trips, Booked, TradedNotional, CommissionsCharged, Legitimate;
    if order.side.Buy? {
      BuyStopsExactlyWhen(order, g, fills, m, config);
    } else {
      SellStopsExactlyWhen(order, g, fills, m, config);
    }
  }

  // ---- one tick: what it does otherwise

  /** A live quote whose adverse move since the decision is more than the guard. */
  ghost predicate OverGuard(side: Side, t: Tick, config: Config)
    requires config.Valid()
  {
    && 0.0 < t.bid <= t.ask && t.displayed > 0.0 && t.advCapacity > 0.0 && t.decisionPrice > 0.0
    && t.decisionSpreadBps >= 0.0
    && AdverseBps(side, t) > GuardBps(t.decisionSpreadBps, config)
  }

  lemma AllowanceIs(order: Order, g: Aggregate, fills: seq<Fill>, m: Market, config: Config)
    requires config.Valid() && g.commission == CommissionsCharged(fills)
    requires !Trips(order.side, g.remaining, fills, m, config)
    ensures Allowance(order, g.commission, TradedNotional(fills), m, config).Ok?
    ensures Takeable(order.side, g.remaining, fills, m, config)
         == Min(g.remaining, Allowance(order, g.commission, TradedNotional(fills), m, config).value)
  {
    hide FillPrice, DelayedPrice, TradedNotional, CommissionsCharged, Tradable, Earns, Reports, Descend, FirstGuess, Multiple;
    PriceSign(order.side, m.tick, config);
  }

  lemma AttemptGives(side: Side, executable: real, fills: seq<Fill>, t: Tick, config: Config)
    requires config.Valid() && Booked(side, config, fills)
    ensures var r := BuildFill(side, executable, t, TradedNotional(fills), CommissionsCharged(fills), config);
      && (r.Err? && r.error.PriceGuard? <==> executable > 0.0 && OverGuard(side, t, config))
      && (r.Ok? ==>
            && r.value.quantity == Quoted(executable, t, config) && r.value.price == FillPrice(side, t, config)
            && r.value.commission == OrderCommission(TradedNotional(fills) + Notional(r.value.quantity, r.value.price), config)
                                     - CommissionsCharged(fills))
  {
    hide FillPrice, AdverseBps, GuardBps, OrderCommission, PriceCost, Sensitivity, Notional, Capped, QuantizeDown, Recordable,
      TradedNotional;
    ChargedNotNegative(TradedNotional(fills), config);
  }

  lemma LiveVolume(side: Side, t: Tick, config: Config)
    requires config.Valid()
    ensures Tradable(side, t, config) || OverGuard(side, t, config) ==> t.advCapacity > 0.0
    ensures !(Tradable(side, t, config) && OverGuard(side, t, config))
  {
  }

  /** Which of trade and block a tick gives: a tradable quantum is traded, the guard blocks an executable quantity whose
      adverse move is over it, and every other pending order waits for data. */
  ghost predicate Gives(side: Side, remaining: real, fills: seq<Fill>, m: Market, config: Config, outcome: Outcome)
    requires config.Valid()
  {
    var executable := Takeable(side, remaining, fills, m, config);
    match outcome
    case Trade(f) =>
      && Tradable(side, m.tick, config) && executable >= config.quantityPrecision
      && f.quantity == Quoted(executable, m.tick, config) && f.price == FillPrice(side, m.tick, config)
      && f.commission == OrderCommission(TradedNotional(fills) + Notional(f.quantity, f.price), config) - CommissionsCharged(fills)
    case Block(kind) =>
      && !(Tradable(side, m.tick, config) && executable >= config.quantityPrecision)
      && kind == if executable > 0.0 && OverGuard(side, m.tick, config) then BlockedByPriceGuard else BlockedByData
  }

  /** What a tick that does not trip does with a pending order. */
  lemma TicksExactlyWhen(order: Order, g: Aggregate, fills: seq<Fill>, m: Market, config: Config)
    requires config.Valid() && Booked(order.side, config, fills) && g.commission == CommissionsCharged(fills)
    requires !Trips(order.side, g.remaining, fills, m, config)
    ensures Weigh(order, g, TradedNotional(fills), m, config).Ok?
    ensures Gives(order.side, g.remaining, fills, m, config, Weigh(order, g, TradedNotional(fills), m, config).value)
  {
    hide BuildFill, Booked, Trips, Tradable, OverGuard, TradedNotional, CommissionsCharged, Allowance, Quoted, FillPrice, Takeable,
      Recordable, Notional, Reports, OrderCommission;
    var executable := Takeable(order.side, g.remaining, fills, m, config);
    StopsExactlyWhen(order, g, fills, m, config);
    AllowanceIs(order, g, fills, m, config);
    FillsExactlyWhen(order.side, executable, m.tick, fills, config);
    AttemptGives(order.side, executable, fills, m.tick, config);
    LiveVolume(order.side, m.tick, config);
  }

  /** The event says what became of the order, at the instant and from the origin of the tick; it is FILLED exactly when
      the whole residual was traded. */
  ghost predicate Announces(e: Event, order: Order, remaining: real, m: Market, outcome: Outcome) {
    && e.orderId == order.id && e.occurredAt == m.at && e.availableAt == m.at && e.origin == m.origin
    && match outcome
       case Trade(f) =>
         && e.quantityDelta == f.quantity && e.commissionDelta == f.commission
         && e.kind == if f.quantity == remaining then Filled else PartiallyFilled
       case Block(kind) => e.kind == kind && e.quantityDelta == 0.0 && e.commissionDelta == 0.0
  }

  lemma ProposedIsAnnounced(order: Order, events: seq<Event>, g: Aggregate, m: Market, outcome: Outcome)
    requires AppendEvent(order, events, Propose(outcome, g, m)).Ok?
    ensures Announces(AppendEvent(order, events, Propose(outcome, g, m)).value, order, g.remaining, m, outcome)
  {
    hide AppendEvent;
    AppendedIsValid(order, events, Propose(outcome, g, m));
  }

  /** What one tick does to a working order: nothing once it has ended, otherwise one outcome, announced and recorded. */
  lemma WorkAnswers(order: Order, x: Execution, m: Market, config: Config)
    requires order.Valid() && config.Valid() && Working(order, x, config) && Work(order, x, m, config).Ok?
    ensures var g, after := Reduce(order, x.events, None).value, Work(order, x, m, config).value;
      && (!g.Pending() ==> after == x)
      && (g.Pending() ==>
            exists e, outcome :: Gives(order.side, g.remaining, x.fills, m, config, outcome)
              && Announces(e, order, g.remaining, m, outcome) && after.events == x.events + [e]
              && after.fills == (match outcome case Trade(f) => x.fills + [f] case Block(_) => x.fills))
  {
    hide Reduce, AppendEvent, Propose, Weigh, Gives, Announces, Booked, Sound;
    var g := Reduce(order, x.events, None).value;
    if g.Pending() {
      StopsExactlyWhen(order, g, x.fills, m, config);
      TicksExactlyWhen(order, g, x.fills, m, config);
      var outcome := Weigh(order, g, TradedNotional(x.fills), m, config).value;
      ProposedIsAnnounced(order, x.events, g, m, outcome);
    }
  }

  /** Every fill the economics compute for an order's residual is a legal next event of its stream. */
  lemma ProposalFits(order: Order, g: Aggregate, notional: real, m: Market, config: Config)
    requires config.Valid() && !g.status.Terminal() && Weigh(order, g, notional, m, config).Ok?
    ensures var a := Propose(Weigh(order, g, notional, m, config).value, g, m);
      && FitsStatus(a, g)
      && a.commissionDelta >= 0.0
      && a.occurredAt == m.at && a.availableAt == m.at
      && (a.kind.Terminal() ==> a.kind.Filled?)
  {
    hide BuildFill, QuantizeDown, Capped, FillPrice, OrderCommission, Notional, OnGrid, Allowance;
    var limit := Allowance(order, g.commission, notional, m, config).value;
    var executable := Min(g.remaining, limit);
    if BuildFill(order.side, executable, m.tick, notional, g.commission, config).Ok? {
      FillIsWithinCaps(order.side, executable, m.tick, notional, g.commission, config);
    }
  }

  /** The event of a tick goes through, and moves the aggregate by what it proposes. */
  lemma OutcomeAppends(order: Order, events: seq<Event>, outcome: Outcome, m: Market)
    requires order.Valid() && Sound(events) && order.createdAt <= m.at && Reduce(order, events, None).Ok?
    requires var g := Reduce(order, events, None).value;
      var a := Propose(outcome, g, m);
      FitsStatus(a, g) && a.commissionDelta >= 0.0 && a.occurredAt == m.at && a.availableAt == m.at
    ensures var g := Reduce(order, events, None).value;
      var a := Propose(outcome, g, m);
      && AppendEvent(order, events, a).Ok?
      && Sound(events + [AppendEvent(order, events, a).value])
      && var after := Reduce(order, events + [AppendEvent(order, events, a).value], None);
         && after.Ok?
         && after.value.status == a.kind
         && after.value.remaining == g.remaining - a.quantityDelta
         && after.value.filled == g.filled + a.quantityDelta
         && after.value.commission == g.commission + a.commissionDelta
  {
    hide Reduce, AppendEvent, Propose, FitsStatus, Relevant;
    var a := Propose(outcome, Reduce(order, events, None).value, m);
    IdentifiedStreamsAreFresh(order, events, a);
    FitsIsLater(a, Reduce(order, events, None).value);
    AppendIsExact(order, events, a);
  }

  lemma FitsIsLater(a: Proposal, g: Aggregate)
    requires FitsStatus(a, g)
    ensures !a.kind.Created?
  {
  }

  /** A recorded fill keeps the fills booked, and adds its quantity and commission. */
  lemma OutcomeBooks(order: Order, g: Aggregate, fills: seq<Fill>, m: Market, config: Config)
    requires config.Valid() && Booked(order.side, config, fills) && g.commission == CommissionsCharged(fills)
    requires Weigh(order, g, TradedNotional(fills), m, config).Ok?
    ensures var outcome := Weigh(order, g, TradedNotional(fills), m, config).value;
      && Booked(order.side, config, Recorded(fills, outcome))
      && CommissionsCharged(Recorded(fills, outcome)) == g.commission + Propose(outcome, g, m).commissionDelta
      && QuantityTraded(Recorded(fills, outcome)) == QuantityTraded(fills) + Propose(outcome, g, m).quantityDelta
  {
    hide BuildFill, Notional, Allowance, Settled, Recordable;
    var outcome := Weigh(order, g, TradedNotional(fills), m, config).value;
    if outcome.Trade? {
      var limit := Allowance(order, g.commission, TradedNotional(fills), m, config).value;
      FillIsBooked(order.side, Min(g.remaining, limit), m.tick, fills, config);
    }
  }

  lemma FillIsBooked(side: Side, executable: real, t: Tick, fills: seq<Fill>, config: Config)
    requires config.Valid() && Booked(side, config, fills)
    requires BuildFill(side, executable, t, TradedNotional(fills), CommissionsCharged(fills), config).Ok?
    requires Recordable(BuildFill(side, executable, t, TradedNotional(fills), CommissionsCharged(fills), config).value)
    ensures var f := BuildFill(side, executable, t, TradedNotional(fills), CommissionsCharged(fills), config).value;
      && Booked(side, config, fills + [f])
      && CommissionsCharged(fills + [f]) == CommissionsCharged(fills) + f.commission
      && QuantityTraded(fills + [f]) == QuantityTraded(fills) + f.quantity
  {
    hide BuildFill, Threaded, Notional;
    var f := BuildFill(side, executable, t, TradedNotional(fills), CommissionsCharged(fills), config).value;
    SettledStep(side, config, fills, Attempt(executable, t));
    assert (fills + [f])[..|fills|] == fills;
    RecordedNotional(f);
  }

  lemma RecordedNotional(f: Fill)
    requires Recordable(f)
    ensures Notional(f.quantity, f.price) >= 0.0
  {
    NonNegativeProduct(f.quantity, f.price);
  }

  /** One tick that does not trip keeps the order working, and takes the filled quantity off its residual. */
  lemma WorkWorks(order: Order, x: Execution, m: Market, config: Config)
    requires order.Valid() && config.Valid() && Working(order, x, config) && order.createdAt <= m.at
    ensures var g := Reduce(order, x.events, None).value;
      Work(order, x, m, config).Err? <==> g.Pending() && Trips(order.side, g.remaining, x.fills, m, config)
    ensures Work(order, x, m, config).Err? ==> Legitimate(Work(order, x, m, config).error)
    ensures Work(order, x, m, config).Ok? ==> Working(order, Work(order, x, m, config).value, config)
  {
    hide Weigh, Reduce, AppendEvent, Propose, Recorded, Booked, Trips, Sound, TradedNotional, CommissionsCharged, QuantityTraded, FitsStatus;
    var g := Reduce(order, x.events, None).value;
    if g.Pending() {
      StopsExactlyWhen(order, g, x.fills, m, config);
      if Weigh(order, g, TradedNotional(x.fills), m, config).Ok? {
        var outcome := Weigh(order, g, TradedNotional(x.fills), m, config).value;
        ProposalFits(order, g, TradedNotional(x.fills), m, config);
        OutcomeAppends(order, x.events, outcome, m);
        OutcomeBooks(order, g, x.fills, m, config);
      }
    }
  }

  // ---- whole runs

  /** Safety over every run: whatever the market does, no event is refused and no purchase overdraws; while the
      run goes on, the stream replays, the order can only end FILLED, quantity and commission are those of the
      recorded fills, and the commission is the one-shot commission on the notional they traded. */
  lemma {:induction false} DriveIsSafe(order: Order, markets: seq<Market>, config: Config)
    requires order.Valid() && config.Valid()
    requires forall m :: m in markets ==> order.createdAt <= m.at
    ensures Drive(order, markets, config).Err? ==> Legitimate(Drive(order, markets, config).error)
    ensures Drive(order, markets, config).Ok? ==>
      var x := Drive(order, markets, config).value;
      && Working(order, x, config)
      && Reduce(order, x.events, None).value.filled == QuantityTraded(x.fills)
      && Reduce(order, x.events, None).value.commission == OrderCommission(TradedNotional(x.fills), config)
  {
    hide Work, Open, Reduce, OrderCommission, Sound, TradedNotional, CommissionsCharged, QuantityTraded, Recordable;
    if markets == [] {
      OpenWorks(order, config);
    } else {
      var last := markets[|markets| - 1];
      assert last in markets;
      DriveIsSafe(order, markets[..|markets| - 1], config);
      if Drive(order, markets[..|markets| - 1], config).Ok? {
        WorkWorks(order, Drive(order, markets[..|markets| - 1], config).value, last, config);
      }
    }
  }

  /** The order is still pending when the k-th tick comes, and that tick trips. */
  ghost predicate TripsAt(order: Order, markets: seq<Market>, config: Config, k: nat)
    requires config.Valid() && k < |markets|
  {
    && Drive(order, markets[..k], config).Ok?
    && Reduce(order, Drive(order, markets[..k], config).value.events, None).Ok?
    && var x := Drive(order, markets[..k], config).value;
       var g := Reduce(order, x.events, None).value;
       g.Pending() && Trips(order.side, g.remaining, x.fills, markets[k], config)
  }

  /** A run goes through exactly when no tick trips while the order is pending. */
  lemma {:induction false} DriveGoesThroughExactlyWhen(order: Order, markets: seq<Market>, config: Config)
    requires order.Valid() && config.Valid()
    requires forall m :: m in markets ==> order.createdAt <= m.at
    ensures Drive(order, markets, config).Ok? <==> forall k :: 0 <= k < |markets| ==> !TripsAt(order, markets, config, k)
  {
    hide Work, Open, Reduce, TripsAt, Working;
    if markets == [] {
      OpenWorks(order, config);
    } else {
      var last := |markets| - 1;
      var init := markets[..last];
      assert markets[last] in markets;
      DriveGoesThroughExactlyWhen(order, init, config);
      DriveIsSafe(order, init, config);
      forall k | 0 <= k < last ensures TripsAt(order, init, config, k) <==> TripsAt(order, markets, config, k) {
        TripsInPrefix(order, markets, config, k);
      }
      LastTrips(order, markets, config);
    }
  }

  lemma TripsInPrefix(order: Order, markets: seq<Market>, config: Config, k: nat)
    requires config.Valid() && k < |markets| - 1
    ensures TripsAt(order, markets[..|markets| - 1], config, k) <==> TripsAt(order, markets, config, k)
  {
    hide Drive, Reduce, Trips;
    assert markets[..|markets| - 1][..k] == markets[..k];
  }

  lemma LastTrips(order: Order, markets: seq<Market>, config: Config)
    requires order.Valid() && config.Valid() && markets != []
    requires forall m :: m in markets ==> order.createdAt <= m.at
    ensures Drive(order, markets, config).Ok? <==>
      Drive(order, markets[..|markets| - 1], config).Ok? && !TripsAt(order, markets, config, |markets| - 1)
  {
    hide Work, Open, Reduce, Trips, Working;
    var last := |markets| - 1;
    assert markets[last] in markets;
    DriveIsSafe(order, markets[..last], config);
    if Drive(order, markets[..last], config).Ok? {
      WorkingReplays(order, Drive(order, markets[..last], config).value, config);
      WorkWorks(order, Drive(order, markets[..last], config).value, markets[last], config);
    }
  }

  lemma WorkingReplays(order: Order, x: Execution, config: Config)
    requires config.Valid() && Working(order, x, config)
    ensures Reduce(order, x.events, None).Ok?
  {
  }

}
