/** When working an order goes through and fills it, and runs on which the cycle stops. */
module OrderLiveness {
  import opened Affordability
  import opened Decimals
  import opened FillEconomics
  import opened FillLaws
  import opened Identifiers
  import opened Orders
  import opened OrderAppend
  import opened OrderBookLaws
  import opened OrderExecution
  import opened OrderReplay
  import opened OrderReplayLaws
  import opened Results

  // ---- ticks that never stop the cycle

  /** A reported configuration and a price above half a quantum; for a sale also a settlement date, and a price
      at which one quantum pays for any commission. */
  ghost predicate Healthy(side: Side, m: Market, config: Config)
    requires config.Valid()
  {
    && 5.0 in config.sensitivityBps && 10.0 in config.sensitivityBps
    && DelayedPrice(side, m.tick, config) > config.pricePrecision / 2.0
    && (side.Sell? ==> m.settlement.Some? && SalePays(FillPrice(Sell, m.tick, config), config))
  }

  lemma QuotedTakesQuantum(executable: real, t: Tick, side: Side, config: Config)
    requires config.Valid() && Tradable(side, t, config) && executable >= config.quantityPrecision
    ensures Quoted(executable, t, config) >= config.quantityPrecision
  {
    hide QuantizeDown, Capped, AdverseBps, GuardBps;
    CapAllows(executable, t, config, config.quantityPrecision);
    AtLeastOneQuantum(Capped(executable, t, config), config.quantityPrecision);
  }

  lemma HealthyNeverTrips(side: Side, remaining: real, fills: seq<Fill>, m: Market, config: Config)
    requires config.Valid() && Booked(side, config, fills) && Healthy(side, m, config)
    ensures !Trips(side, remaining, fills, m, config)
  {
    hide DelayedPrice, FillPrice, Notional, OrderCommission, TradedNotional, CommissionsCharged, Recordable, Quoted, SalePays, Reports,
      Tradable, PaysForward;
    var executable := Takeable(side, remaining, fills, m, config);
    if side.Sell? && Tradable(Sell, m.tick, config) && executable >= config.quantityPrecision {
      PriceSign(Sell, m.tick, config);
      QuotedTakesQuantum(executable, m.tick, Sell, config);
      PayingSaleEarns(Quoted(executable, m.tick, config), FillPrice(Sell, m.tick, config), TradedNotional(fills), config);
    }
  }

  /** Every run over healthy ticks goes through. */
  lemma HealthyTicksGoThrough(order: Order, markets: seq<Market>, config: Config)
    requires order.Valid() && config.Valid()
    requires forall m :: m in markets ==> order.createdAt <= m.at && Healthy(order.side, m, config)
    ensures Drive(order, markets, config).Ok?
  {
    hide Drive, Reduce, Healthy, Trips, Booked;
    DriveGoesThroughExactlyWhen(order, markets, config);
    forall k | 0 <= k < |markets| ensures !TripsAt(order, markets, config, k) {
      assert markets[k] in markets;
      if Drive(order, markets[..k], config).Ok? && Reduce(order, Drive(order, markets[..k], config).value.events, None).Ok? {
        var x := Drive(order, markets[..k], config).value;
        DriveIsSafe(order, markets[..k], config);
        HealthyNeverTrips(order.side, Reduce(order, x.events, None).value.remaining, x.fills, markets[k], config);
      }
    }
  }

  // ---- enough liquid ticks fill the order

  /** A tradable quote, with a quantum to sell or the cash to buy one. */
  ghost predicate Liquid(side: Side, m: Market, config: Config)
    requires config.Valid()
  {
    && Tradable(side, m.tick, config)
    && (if side.Sell? then m.position >= config.quantityPrecision
        else Funded(m.cash, FillPrice(Buy, m.tick, config), config))
  }

  lemma LiquidAllows(order: Order, remaining: real, fills: seq<Fill>, m: Market, config: Config)
    requires config.Valid() && Liquid(order.side, m, config) && Booked(order.side, config, fills)
    requires !Trips(order.side, remaining, fills, m, config)
    ensures var limit := Allowance(order, CommissionsCharged(fills), TradedNotional(fills), m, config);
      limit.Ok? && limit.value >= config.quantityPrecision
  {
    hide DelayedPrice, FillPrice, MaximumAffordable, Funded, TradedNotional, CommissionsCharged, OrderCommission, Recordable, Earns, Takeable;
    if order.side.Buy? {
      PriceSign(Buy, m.tick, config);
      PriceFollowsDelay(Buy, m.tick, config);
      FundedAffordsOne(m.cash, FillPrice(Buy, m.tick, config), TradedNotional(fills), config);
      PositiveHasQuantity(m, fills, config);
    }
  }

  lemma PositiveHasQuantity(m: Market, fills: seq<Fill>, config: Config)
    requires config.Valid() && FillPrice(Buy, m.tick, config) > 0.0
    ensures MaximumAffordable(m.cash, FillPrice(Buy, m.tick, config), TradedNotional(fills), CommissionsCharged(fills), config).Ok?
  {
  }

  /** A liquid tick that does not stop the cycle fills at least one quantum, by a multiple of the quantum. */
  lemma LiquidTrades(order: Order, g: Aggregate, fills: seq<Fill>, m: Market, config: Config)
    requires config.Valid() && Liquid(order.side, m, config) && g.remaining >= config.quantityPrecision
    requires Booked(order.side, config, fills) && g.commission == CommissionsCharged(fills)
    requires !Trips(order.side, g.remaining, fills, m, config)
    ensures var r := Weigh(order, g, TradedNotional(fills), m, config);
      && r.Ok? && r.value.Trade?
      && OnGrid(r.value.fill.quantity, config.quantityPrecision)
      && config.quantityPrecision <= r.value.fill.quantity <= g.remaining
  {
    hide BuildFill, Booked, Recordable, Notional, DelayedPrice, TradedNotional, CommissionsCharged, FillPrice, OnGrid, Allowance,
      QuantizeDown, Capped, OrderCommission, Trips, Conclude;
    LiquidAllows(order, g.remaining, fills, m, config);
    StopsExactlyWhen(order, g, fills, m, config);
    var limit := Allowance(order, g.commission, TradedNotional(fills), m, config).value;
    var executable := Min(g.remaining, limit);
    FillsExactlyWhen(order.side, executable, m.tick, fills, config);
    TradableHasVolume(order.side, m.tick, config);
    FillIsWithinCaps(order.side, executable, m.tick, TradedNotional(fills), g.commission, config);
    FillTakesQuantum(order.side, executable, m.tick, TradedNotional(fills), g.commission, config);
    ConcludeStops(order.side, BuildFill(order.side, executable, m.tick, TradedNotional(fills), g.commission, config).value, m, config);
  }

  lemma FillTakesQuantum(side: Side, executable: real, t: Tick, notional: real, commission: real, config: Config)
    requires config.Valid() && BuildFill(side, executable, t, notional, commission, config).Ok?
    requires Tradable(side, t, config) && executable >= config.quantityPrecision
    ensures BuildFill(side, executable, t, notional, commission, config).value.quantity >= config.quantityPrecision
  {
    hide BuildFill, QuantizeDown, Capped, AdverseBps, GuardBps, FillPrice, OrderCommission, Notional, OnGrid;
    FillIsWithinCaps(side, executable, t, notional, commission, config);
    CapAllows(executable, t, config, config.quantityPrecision);
    AtLeastOneQuantum(Capped(executable, t, config), config.quantityPrecision);
  }

  lemma AtLeastOneQuantum(x: real, q: real)
    requires q > 0.0 && x >= q
    ensures QuantizeDown(x, q) >= q
  {
    DivideMonotone(q, x, q);
    assert x / q >= 1.0;
    var n := Truncate(x / q);
    ScaledBelow(n as real, 1.0, 0.0, q, q);
  }

  lemma GridDifference(n: int, k: int, q: real)
    ensures Multiple(n, q) - Multiple(k, q) == Multiple(n - k, q)
  {
  }

  lemma GridOrder(n: int, k: int, q: real)
    requires q > 0.0
    ensures Multiple(n, q) <= Multiple(k, q) <==> n <= k
    ensures Multiple(0, q) == 0.0 && Multiple(1, q) == q
  {
    if n <= k {
      TimesMonotone(n as real, k as real, q);
    } else {
      assert (n - k) as real * q > 0.0;
      GridDifference(n, k, q);
    }
  }

  /** One liquid tick that goes through takes at least one quantum off a residual of n quanta. */
  lemma LiquidStep(order: Order, x: Execution, m: Market, config: Config, n: nat) returns (left: nat)
    requires order.Valid() && config.Valid() && Working(order, x, config) && order.createdAt <= m.at
    requires Liquid(order.side, m, config) && Work(order, x, m, config).Ok?
    requires Reduce(order, x.events, None).value.remaining == Multiple(n, config.quantityPrecision)
    ensures Reduce(order, Work(order, x, m, config).value.events, None).Ok?
    ensures Reduce(order, Work(order, x, m, config).value.events, None).value.remaining == Multiple(left, config.quantityPrecision)
    ensures n == 0 ==> left == 0
    ensures n > 0 ==> left < n
  {
    hide Reduce, OnGrid, Multiple, Weigh, Booked, Liquid, Sound, TradedNotional, CommissionsCharged, QuantityTraded, AppendEvent,
      Propose, FitsStatus, Recorded, Trips;
    var q := config.quantityPrecision;
    var g := Reduce(order, x.events, None).value;
    GridOrder(n, 0, q);
    AggregateConserves(order, x.events, None);
    if n == 0 {
      left := 0;
    } else {
      GridOrder(1, n, q);
      WorkWorks(order, x, m, config);
      LiquidTrades(order, g, x.fills, m, config);
      ProposalFits(order, g, TradedNotional(x.fills), m, config);
      var outcome := Weigh(order, g, TradedNotional(x.fills), m, config).value;
      OutcomeAppends(order, x.events, outcome, m);
      ProposedQuantity(outcome, g, m);
      var k := GridPoint(outcome.fill.quantity, q);
      GridOrder(k, n, q);
      GridOrder(1, k, q);
      GridDifference(n, k, q);
      left := n - k;
    }
  }

  lemma ProposedQuantity(outcome: Outcome, g: Aggregate, m: Market)
    requires outcome.Trade?
    ensures Propose(outcome, g, m).quantityDelta == outcome.fill.quantity
  {
  }

  lemma GridPoint(x: real, q: real) returns (k: int)
    requires q > 0.0 && OnGrid(x, q)
    ensures x == Multiple(k, q)
  {
    k :| x == Multiple(k, q);
  }

  lemma {:induction false} LiquidCountdown(order: Order, markets: seq<Market>, config: Config, n: nat) returns (left: nat)
    requires order.Valid() && config.Valid() && Drive(order, markets, config).Ok?
    requires order.quantity == Multiple(n, config.quantityPrecision)
    requires forall m :: m in markets ==> order.createdAt <= m.at && Liquid(order.side, m, config)
    ensures Reduce(order, Drive(order, markets, config).value.events, None).Ok?
    ensures Reduce(order, Drive(order, markets, config).value.events, None).value.remaining == Multiple(left, config.quantityPrecision)
    ensures left == 0 || left + |markets| <= n
  {
    hide Work, Open, Reduce, Liquid, Multiple;
    if markets == [] {
      OpenWorks(order, config);
      left := n;
    } else {
      var init, last := markets[..|markets| - 1], markets[|markets| - 1];
      assert last in markets && forall m :: m in init ==> m in markets;
      var before := LiquidCountdown(order, init, config, n);
      DriveIsSafe(order, init, config);
      left := LiquidStep(order, Drive(order, init, config).value, last, config, before);
    }
  }

  /** Liveness: after n liquid ticks an order of n quantity quanta is FILLED, for exactly its quantity, unless one
      of the ticks has stopped the cycle. */
  lemma LiquidMarketsFillTheOrder(order: Order, markets: seq<Market>, config: Config, n: nat)
    requires order.Valid() && config.Valid()
    requires order.quantity == Multiple(n, config.quantityPrecision) && |markets| >= n
    requires forall m :: m in markets ==> order.createdAt <= m.at && Liquid(order.side, m, config)
    ensures Drive(order, markets, config).Ok? <==> forall k :: 0 <= k < |markets| ==> !TripsAt(order, markets, config, k)
    ensures Drive(order, markets, config).Ok? ==>
      var x := Drive(order, markets, config).value;
      && Reduce(order, x.events, None).Ok?
      && Reduce(order, x.events, None).value.status.Filled?
      && QuantityTraded(x.fills) == Reduce(order, x.events, None).value.filled == order.quantity
      && Reduce(order, x.events, None).value.commission == OrderCommission(TradedNotional(x.fills), config)
  {
    hide Drive, Reduce, Multiple, OrderCommission, Liquid, TradedNotional, QuantityTraded, TripsAt;
    DriveGoesThroughExactlyWhen(order, markets, config);
    if Drive(order, markets, config).Ok? {
      var left := LiquidCountdown(order, markets, config, n);
      DriveIsSafe(order, markets, config);
      AggregateConserves(order, Drive(order, markets, config).value.events, None);
      GridOrder(left, 0, config.quantityPrecision);
      GridOrder(n, 0, config.quantityPrecision);
    }
  }

  /** On healthy liquid ticks the order is always FILLED. */
  lemma HealthyMarketsFillTheOrder(order: Order, markets: seq<Market>, config: Config, n: nat)
    requires order.Valid() && config.Valid()
    requires order.quantity == Multiple(n, config.quantityPrecision) && |markets| >= n
    requires forall m :: m in markets ==>
      order.createdAt <= m.at && Liquid(order.side, m, config) && Healthy(order.side, m, config)
    ensures Drive(order, markets, config).Ok?
    ensures Reduce(order, Drive(order, markets, config).value.events, None).Ok?
    ensures Reduce(order, Drive(order, markets, config).value.events, None).value.status.Filled?
  {
    hide Drive, Reduce, Multiple, Liquid, Healthy, OrderCommission, TripsAt;
    HealthyTicksGoThrough(order, markets, config);
    LiquidMarketsFillTheOrder(order, markets, config, n);
  }

  // ---- ticks that stop it

  /** The BUY whose price rounds to zero stops the cycle at its first tick. */
  lemma CheapBuyStopsTheCycle(order: Order, m: Market)
    requires order.Valid() && order.side.Buy? && order.createdAt <= m.at && m.tick == Tick(0.4, 0.4, 1.0, 1.0, 0.4, 0.0)
    ensures PLAIN.Valid() && Reports(PLAIN) && Drive(order, [m], PLAIN).Err?
  {
    hide Drive, Trips, DelayedPrice;
    UndelayedPrice(m.tick);
    BuyTrips(m, PLAIN);
    FirstTickTrips(order, m, PLAIN);
  }

  /** So does the SELL whose delay exceeds its price. */
  lemma DelayedSellStopsTheCycle(order: Order, m: Market)
    requires order.Valid() && order.side.Sell? && order.quantity >= 1.0 && order.createdAt <= m.at
    requires m.position >= 1.0 && m.tick == Tick(1.0, 1.0, 1.0, 1.0, 1.0, 0.0)
    ensures OVERDUE.Valid() && Reports(OVERDUE) && Drive(order, [m], OVERDUE).Err?
  {
    hide Drive, Trips, DelayedPrice;
    OverduePrice(m.tick);
    SellTrips(order.quantity, m, OVERDUE);
    FirstTickTrips(order, m, OVERDUE);
  }

  lemma BuyTrips(m: Market, config: Config)
    requires config.Valid()
    requires -config.pricePrecision / 2.0 <= DelayedPrice(Buy, m.tick, config) <= config.pricePrecision / 2.0
    ensures forall remaining, fills :: Trips(Buy, remaining, fills, m, config)
  {
    hide DelayedPrice, Takeable, Earns, Tradable;
  }

  lemma SellTrips(remaining: real, m: Market, config: Config)
    requires config.Valid() && config.(delayPenaltyBps := 0.0) == PLAIN && remaining >= 1.0 && m.position >= 1.0
    requires m.tick == Tick(1.0, 1.0, 1.0, 1.0, 1.0, 0.0) && DelayedPrice(Sell, m.tick, config) <= 0.0
    ensures Trips(Sell, remaining, [], m, config)
  {
    hide DelayedPrice, Earns;
    assert AdverseBps(Sell, m.tick) == 0.0;
  }

  lemma FirstTickTrips(order: Order, m: Market, config: Config)
    requires order.Valid() && config.Valid() && order.createdAt <= m.at && Trips(order.side, order.quantity, [], m, config)
    ensures Drive(order, [m], config).Err?
  {
    hide Work, Reduce, Trips, AppendEvent;
    OpenWorks(order, config);
    assert [m][..0] == [];
    AggregateConserves(order, Open(order).value.events, None);
    WorkWorks(order, Open(order).value, m, config);
  }

  // ---- a sale that crosses the commission waiver with its last quantum

  /** The repository's own execution parameters. */
  const SHIPPED := Config(0.1, 0.025, 1.0, 20.0, 75.0, 3.0, 0.000001, 0.0001, 0.001, 10.0, 0.01, [5.0, 10.0])

  function HundredDollarTick(capacity: real): Tick { Tick(100.0, 100.0, 1000.0, capacity, 100.0, 1.0) }

  lemma ShippedPrice(capacity: real)
    ensures SHIPPED.Valid() && Reports(SHIPPED)
    ensures DelayedPrice(Sell, HundredDollarTick(capacity), SHIPPED) == 99.99
    ensures FillPrice(Sell, HundredDollarTick(capacity), SHIPPED) == 99.99
  {
    assert 99.99 == Multiple(999900, 0.0001);
    hide QuantizeHalfEven;
    QuantizeFixesGrid(99.99, 0.0001);
  }

  lemma ShippedTradable(capacity: real)
    requires capacity >= 0.000001
    ensures Tradable(Sell, HundredDollarTick(capacity), SHIPPED)
  {
    assert AdverseBps(Sell, HundredDollarTick(capacity)) == 0.0;
  }

  /** What the first tick sells: its whole capacity, below the waiver. */
  lemma FirstSale(fills: seq<Fill>)
    requires fills == []
    ensures Quoted(0.100011, HundredDollarTick(0.10001), SHIPPED) == 0.10001
    ensures Notional(0.10001, 99.99) == 9.9999999
    ensures Earns(0.100011, fills, HundredDollarTick(0.10001), SHIPPED)
  {
    var t := HundredDollarTick(0.10001);
    assert Capped(0.100011, t, SHIPPED) == 0.10001;
    assert 0.10001 == Multiple(100010, 0.000001);
    hide QuantizeDown, FillPrice;
    QuantizeFixesGrid(0.10001, 0.000001);
    ShippedPrice(0.10001);
    WaivedCommission(9.9999999, SHIPPED);
  }

  lemma CommissionPastWaiver()
    ensures OrderCommission(10.00009989, SHIPPED) == 0.01
  {
    assert 10.00009989 * 0.001 == 0.01000009989;
    assert 0.01000009989 / 0.01 == 1.000009989;
    assert HalfEven(1.000009989) == 1;
  }

  /** What the second tick would sell: the last quantum, charged the whole commission. */
  lemma LastQuantum(fills: seq<Fill>)
    requires TradedNotional(fills) == 9.9999999 && CommissionsCharged(fills) == 0.0
    ensures !Earns(0.000001, fills, HundredDollarTick(1.0), SHIPPED)
  {
    hide TradedNotional, CommissionsCharged, QuantizeDown, FillPrice, OrderCommission;
    var t := HundredDollarTick(1.0);
    assert Capped(0.000001, t, SHIPPED) == 0.000001;
    assert 0.000001 == Multiple(1, 0.000001);
    QuantizeFixesGrid(0.000001, 0.000001);
    ShippedPrice(1.0);
    CommissionPastWaiver();
    assert Notional(0.000001, 99.99) == 0.00009999;
  }

  ghost predicate SaleMarket(m: Market, capacity: real, order: Order) {
    m.tick == HundredDollarTick(capacity) && m.position >= 0.100011 && m.settlement.Some? && order.createdAt <= m.at
  }

  lemma FirstSaleRecorded(order: Order, m: Market)
    requires order.Valid() && order.side.Sell? && order.quantity == 0.100011 && SaleMarket(m, 0.10001, order)
    ensures SHIPPED.Valid() && Drive(order, [m], SHIPPED).Ok?
    ensures var x := Drive(order, [m], SHIPPED).value;
      && TradedNotional(x.fills) == 9.9999999 && CommissionsCharged(x.fills) == 0.0
      && QuantityTraded(x.fills) == 0.10001
  {
    hide Reduce, AppendEvent, BuildFill, Weigh, Trips, Earns, Quoted, Notional, FillPrice, DelayedPrice, OrderCommission, Tradable, Propose;
    ShippedPrice(0.10001);
    OpenWorks(order, SHIPPED);
    assert [m][..0] == [];
    var x := Open(order).value;
    var g := Reduce(order, x.events, None).value;
    AggregateConserves(order, x.events, None);
    FirstSaleTrades(g, order, m);
    WorkWorks(order, x, m, SHIPPED);
    OpenAndTrade(order, m, g);
  }

  lemma OpenAndTrade(order: Order, m: Market, g: Aggregate)
    requires SHIPPED.Valid() && Open(order).Ok? && Open(order).value.fills == []
    requires Reduce(order, Open(order).value.events, None) == Ok(g) && g.Pending()
    requires Work(order, Open(order).value, m, SHIPPED).Ok?
    requires Weigh(order, g, 0.0, m, SHIPPED).Ok? && Weigh(order, g, 0.0, m, SHIPPED).value.Trade?
    ensures Work(order, Open(order).value, m, SHIPPED).value.fills == [Weigh(order, g, 0.0, m, SHIPPED).value.fill]
  {
    hide Reduce, AppendEvent, Weigh, Open;
  }

  lemma FirstSaleTrades(g: Aggregate, order: Order, m: Market)
    requires order.side.Sell? && SaleMarket(m, 0.10001, order) && g.remaining == 0.100011 && g.commission == 0.0
    ensures SHIPPED.Valid()
    ensures var r := Weigh(order, g, 0.0, m, SHIPPED);
      && r.Ok? && r.value.Trade?
      && r.value.fill.quantity == 0.10001 && Notional(r.value.fill.quantity, r.value.fill.price) == 9.9999999
      && r.value.fill.commission == 0.0
    ensures !Trips(Sell, 0.100011, [], m, SHIPPED)
  {
    hide BuildFill, Earns, Quoted, Notional, FillPrice, DelayedPrice, OrderCommission, Tradable, Recordable, OnGrid, QuantizeDown, Capped, Conclude;
    ShippedPrice(0.10001);
    ShippedTradable(0.10001);
    FirstSale([]);
    NothingBooked();
    FillsExactlyWhen(Sell, 0.100011, m.tick, [], SHIPPED);
    SaleConcludesExactlyWhen(0.100011, [], m, SHIPPED);
    FillIsWithinCaps(Sell, 0.100011, m.tick, 0.0, 0.0, SHIPPED);
    var f := BuildFill(Sell, 0.100011, m.tick, 0.0, 0.0, SHIPPED).value;
    ConcludeStops(Sell, f, m, SHIPPED);
    QuotedIs(0.100011, m.tick, SHIPPED);
    WaivedCommission(9.9999999, SHIPPED);
    TradableHasVolume(Sell, m.tick, SHIPPED);
  }

  lemma QuotedIs(executable: real, t: Tick, config: Config)
    requires config.Valid()
    ensures Quoted(executable, t, config) == QuantizeDown(Capped(executable, t, config), config.quantityPrecision)
  {
  }

  lemma NothingBooked()
    ensures SHIPPED.Valid() && Booked(Sell, SHIPPED, [])
  {
    NothingTraded(SHIPPED);
  }

  /** A SELL of 0.100011 at 100 dollars, cut by capacity to 0.10001, leaves a quantum that the waiver charges a
      cent for: the second tick, liquid and at a good price, stops the cycle. */
  lemma LastQuantumStopsTheCycle(order: Order, first: Market, second: Market)
    requires order.Valid() && order.side.Sell? && order.quantity == 0.100011
    requires SaleMarket(first, 0.10001, order) && SaleMarket(second, 1.0, order)
    ensures SHIPPED.Valid() && Drive(order, [first], SHIPPED).Ok? && Drive(order, [first, second], SHIPPED).Err?
    ensures Tradable(Sell, second.tick, SHIPPED) && DelayedPrice(Sell, second.tick, SHIPPED) > SHIPPED.pricePrecision / 2.0
  {
    hide Reduce, Work, Open, Earns, DelayedPrice, Tradable, TradedNotional, CommissionsCharged, QuantityTraded;
    ShippedPrice(1.0);
    ShippedTradable(1.0);
    FirstSaleRecorded(order, first);
    var x := Drive(order, [first], SHIPPED).value;
    assert [first] == [first, second][..1];
    DriveIsSafe(order, [first], SHIPPED);
    var g := Reduce(order, x.events, None).value;
    AggregateConserves(order, x.events, None);
    assert g.remaining == 0.000001;
    LastQuantum(x.fills);
    LastQuantumTrips(x.fills, second);
    WorkWorks(order, x, second, SHIPPED);
  }

  lemma LastQuantumTrips(fills: seq<Fill>, m: Market)
    requires SHIPPED.Valid() && m.tick == HundredDollarTick(1.0) && m.position >= 0.000001
    requires Tradable(Sell, m.tick, SHIPPED) && !Earns(0.000001, fills, m.tick, SHIPPED)
    ensures Trips(Sell, 0.000001, fills, m, SHIPPED)
  {
    hide Earns, Tradable, DelayedPrice;
  }
}
