/** Bounds on every accepted fill, and the commission threaded through partial fills of one order. */
module FillLaws {
  import opened Decimals
  import opened FillEconomics
  import opened Orders
  import opened Results

  /** An accepted fill is positive, on the quantity grid and within every cap; it charges no negative
      commission and costs at least what it charges. */
  lemma FillIsWithinCaps(side: Side, remaining: real, t: Tick, notional: real, commission: real, config: Config)
    requires config.Valid() && BuildFill(side, remaining, t, notional, commission, config).Ok?
    ensures
      var f := BuildFill(side, remaining, t, notional, commission, config).value;
      && 0.0 < f.quantity <= remaining
      && f.quantity <= t.displayed * config.displayedParticipation
      && f.quantity <= t.advCapacity
      && OnGrid(f.quantity, config.quantityPrecision)
      && f.quantity == QuantizeDown(Capped(remaining, t, config), config.quantityPrecision)
      && f.price == FillPrice(side, t, config)
      && 0.0 <= f.commission <= f.baseCost
      && f.commission == f.totalCommission - commission
      && f.notional == notional + Notional(f.quantity, f.price)
      && f.totalCommission == OrderCommission(f.notional, config)
      && f.adverseBps <= f.guardBps <= config.guardMaxBps
  {
    hide QuantizeDown, FillPrice, AdverseBps, OrderCommission, PriceCost, Sensitivity, OnGrid, Notional, Capped;
    var cap := Capped(remaining, t, config);
    QuantizeOnGrid(cap, config.quantityPrecision);
    CapNonNegative(remaining, t, config);
    CapIsLeast(remaining, t, config);
    QuantizeDownBounds(cap, config.quantityPrecision);
  }

  lemma CapIsLeast(remaining: real, t: Tick, config: Config)
    ensures Capped(remaining, t, config) <= remaining
    ensures Capped(remaining, t, config) <= t.displayed * config.displayedParticipation
    ensures Capped(remaining, t, config) <= t.advCapacity
  {
  }

  lemma CapNonNegative(remaining: real, t: Tick, config: Config)
    requires config.Valid() && remaining > 0.0 && Executable(t)
    ensures Capped(remaining, t, config) >= 0.0
  {
    NonNegativeProduct(t.displayed, config.displayedParticipation);
  }

  /** The fill that the caps and prices would give. */
  function Quoted(remaining: real, t: Tick, config: Config): real
    requires config.Valid()
  {
    QuantizeDown(Capped(remaining, t, config), config.quantityPrecision)
  }

  /** A fill is accepted exactly for a live residual, an executable quote and a sane history, when the adverse
      move is within the guard, every cap allows one quantum, and the commission so far is not more than is due. */
  lemma FillAcceptedExactlyWhen(side: Side, remaining: real, t: Tick, notional: real, commission: real, config: Config)
    requires config.Valid()
    ensures BuildFill(side, remaining, t, notional, commission, config).Ok? <==>
      && remaining > 0.0 && 0.0 < t.bid <= t.ask && t.displayed > 0.0 && t.advCapacity > 0.0 && t.decisionPrice > 0.0
      && notional >= 0.0 && commission >= 0.0 && t.decisionSpreadBps >= 0.0
      && AdverseBps(side, t) <= GuardBps(t.decisionSpreadBps, config)
      && remaining >= config.quantityPrecision
      && t.displayed * config.displayedParticipation >= config.quantityPrecision
      && t.advCapacity >= config.quantityPrecision
      && commission <= OrderCommission(notional + Notional(Quoted(remaining, t, config), FillPrice(side, t, config)), config)
  {
    hide QuantizeDown, FillPrice, AdverseBps, OrderCommission, PriceCost, Sensitivity, Notional, Capped, GuardBps;
    if remaining > 0.0 && Executable(t) {
      var cap := Capped(remaining, t, config);
      CapNonNegative(remaining, t, config);
      QuantizeDownBounds(cap, config.quantityPrecision);
      CapAllows(remaining, t, config, config.quantityPrecision);
    }
  }

  /** Which rejection is given, in the order in which the checks are made. */
  lemma RejectedAs(side: Side, remaining: real, t: Tick, notional: real, commission: real, config: Config)
    requires config.Valid()
    ensures var r := BuildFill(side, remaining, t, notional, commission, config);
      && (r == Err(NothingRemaining) <==> remaining <= 0.0)
      && (r == Err(NotExecutable) <==>
            && remaining > 0.0
            && !(0.0 < t.bid <= t.ask && t.displayed > 0.0 && t.advCapacity > 0.0 && t.decisionPrice > 0.0))
      && (remaining > 0.0 && 0.0 < t.bid <= t.ask && t.displayed > 0.0 && t.advCapacity > 0.0 && t.decisionPrice > 0.0 ==>
            && (r == Err(NegativeHistory) <==> notional < 0.0 || commission < 0.0)
            && (r == Err(NegativeSpread) <==> notional >= 0.0 && commission >= 0.0 && t.decisionSpreadBps < 0.0)
            && (notional >= 0.0 && commission >= 0.0 && t.decisionSpreadBps >= 0.0 ==>
                  && var guard, adverse := GuardBps(t.decisionSpreadBps, config), AdverseBps(side, t);
                  && (r == Err(PriceGuard(guard, adverse)) <==> adverse > guard)
                  && (r == Err(ZeroQuantity) <==>
                        && adverse <= guard
                        && (|| remaining < config.quantityPrecision || t.advCapacity < config.quantityPrecision
                            || t.displayed * config.displayedParticipation < config.quantityPrecision))))
  {
    hide QuantizeDown, FillPrice, AdverseBps, OrderCommission, PriceCost, Sensitivity, Notional, Capped, GuardBps;
    if remaining > 0.0 && Executable(t) {
      CapNonNegative(remaining, t, config);
      QuantizeDownBounds(Capped(remaining, t, config), config.quantityPrecision);
      CapAllows(remaining, t, config, config.quantityPrecision);
    }
  }

  /** No larger quantity on the grid would fit: one more quantum is over the residual or over a cap. */
  lemma FillIsLargest(side: Side, remaining: real, t: Tick, notional: real, commission: real, config: Config)
    requires config.Valid() && BuildFill(side, remaining, t, notional, commission, config).Ok?
    ensures var more := BuildFill(side, remaining, t, notional, commission, config).value.quantity + config.quantityPrecision;
      more > remaining || more > t.displayed * config.displayedParticipation || more > t.advCapacity
  {
    hide QuantizeDown, FillPrice, AdverseBps, OrderCommission, PriceCost, Sensitivity, Notional, Capped, GuardBps, OnGrid;
    CapNonNegative(remaining, t, config);
    QuantizeDownBounds(Capped(remaining, t, config), config.quantityPrecision);
    CapAllows(remaining, t, config, QuantizeDown(Capped(remaining, t, config), config.quantityPrecision) + config.quantityPrecision);
  }

  lemma CapAllows(remaining: real, t: Tick, config: Config, quantum: real)
    ensures Capped(remaining, t, config) >= quantum <==>
      remaining >= quantum && t.displayed * config.displayedParticipation >= quantum && t.advCapacity >= quantum
  {
  }

  /** The quote a fill starts from, moved against the trader by the delay penalty. */
  function DelayedPrice(side: Side, t: Tick, config: Config): real {
    match side
    case Buy => t.ask * (1.0 + config.delayPenaltyBps / 10000.0)
    case Sell => t.bid * (1.0 - config.delayPenaltyBps / 10000.0)
  }

  lemma RawIsDelayed(side: Side, t: Tick, config: Config)
    ensures RawPrice(side, t, config) == DelayedPrice(side, t, config)
  {
  }

  /** A fill price is on the price grid, within half a quantum of the delayed quote. */
  lemma PriceFollowsQuote(side: Side, t: Tick, config: Config)
    requires config.Valid()
    ensures OnGrid(FillPrice(side, t, config), config.pricePrecision)
    ensures FillPrice(side, t, config) - config.pricePrecision / 2.0 <= DelayedPrice(side, t, config)
    ensures DelayedPrice(side, t, config) <= FillPrice(side, t, config) + config.pricePrecision / 2.0
    ensures FillPrice(side, t, config) == QuantizeHalfEven(DelayedPrice(side, t, config), config.pricePrecision)
  {
    hide QuantizeHalfEven, RawPrice, DelayedPrice, OnGrid;
    RawIsDelayed(side, t, config);
    QuantizeOnGrid(DelayedPrice(side, t, config), config.pricePrecision);
    QuantizeHalfEvenError(DelayedPrice(side, t, config), config.pricePrecision);
  }

  /** A fill price is positive exactly when the delayed quote is more than half a price quantum,
      and negative exactly when it is less than minus half of one; otherwise it rounds to zero. */
  lemma PriceSign(side: Side, t: Tick, config: Config)
    requires config.Valid()
    ensures FillPrice(side, t, config) > 0.0 <==> DelayedPrice(side, t, config) > config.pricePrecision / 2.0
    ensures FillPrice(side, t, config) < 0.0 <==> DelayedPrice(side, t, config) < -config.pricePrecision / 2.0
  {
    hide QuantizeHalfEven, FillPrice, DelayedPrice, OnGrid;
    PriceFollowsQuote(side, t, config);
    QuantizeHalfEvenSign(DelayedPrice(side, t, config), config.pricePrecision);
  }

  const PLAIN := Config(1.0, 1.0, 0.0, 10.0, 10.0, 1.0, 1.0, 1.0, 0.0, 0.0, 1.0, [5.0, 10.0])

  /** A cheap BUY: at an ask of 0.4 and whole-unit prices the accepted fill has price zero. */
  lemma CheapBuyIsFree()
    ensures PLAIN.Valid()
    ensures var r := BuildFill(Buy, 1.0, Tick(0.4, 0.4, 1.0, 1.0, 0.4, 0.0), 0.0, 0.0, PLAIN);
      r.Ok? && r.value.quantity == 1.0 && r.value.price == 0.0
  {
    hide BuildFill, FillPrice, DelayedPrice;
    var t := Tick(0.4, 0.4, 1.0, 1.0, 0.4, 0.0);
    UndelayedPrice(t);
    PriceSign(Buy, t, PLAIN);
    FreeFill(Buy, t, PLAIN);
  }

  lemma UndelayedPrice(t: Tick)
    ensures DelayedPrice(Buy, t, PLAIN) == t.ask
  {
  }

  const OVERDUE := PLAIN.(delayPenaltyBps := 10001.0)

  lemma OverduePrice(t: Tick)
    requires t.bid == 1.0
    ensures DelayedPrice(Sell, t, OVERDUE) == -0.0001
  {
  }

  /** A SELL delayed by more than its price: at a bid of one and 10001 bps the accepted fill has price zero. */
  lemma DelayedSellIsFree()
    ensures OVERDUE.Valid() && !PaysForward(Sell, OVERDUE)
    ensures var r := BuildFill(Sell, 1.0, Tick(1.0, 1.0, 1.0, 1.0, 1.0, 0.0), 0.0, 0.0, OVERDUE);
      r.Ok? && r.value.quantity == 1.0 && r.value.price == 0.0
  {
    hide BuildFill, FillPrice, DelayedPrice;
    var t := Tick(1.0, 1.0, 1.0, 1.0, 1.0, 0.0);
    OverduePrice(t);
    PriceSign(Sell, t, OVERDUE);
    FreeFill(Sell, t, OVERDUE);
  }

  lemma FreeFill(side: Side, t: Tick, config: Config)
    requires config.Valid() && Executable(t) && FillPrice(side, t, config) == 0.0
    requires config.(delayPenaltyBps := 0.0) == PLAIN && t.displayed == 1.0 && t.advCapacity == 1.0
    requires t.bid == t.ask == t.decisionPrice && t.decisionSpreadBps == 0.0
    ensures var r := BuildFill(side, 1.0, t, 0.0, 0.0, config);
      r.Ok? && r.value.quantity == 1.0 && r.value.price == 0.0
  {
    hide QuantizeDown, FillPrice, Sensitivity;
    assert AdverseBps(side, t) == 0.0;
    assert Capped(1.0, t, config) == 1.0;
    assert 1.0 == Multiple(1, 1.0);
    QuantizeFixesGrid(1.0, 1.0);
    assert Notional(1.0, 0.0) == 0.0;
  }

  /** Whether the delay leaves the price on the paying side: the limit of the guard's promise. */
  ghost predicate PaysForward(side: Side, config: Config) {
    side.Buy? || config.delayPenaltyBps <= 10000.0
  }

  lemma PriceFollowsDelay(side: Side, t: Tick, config: Config)
    requires config.Valid() && Executable(t)
    ensures PaysForward(side, config) ==> FillPrice(side, t, config) >= 0.0
    ensures !PaysForward(side, config) ==> FillPrice(side, t, config) <= 0.0
  {
    hide QuantizeHalfEven, RawPrice;
    RawPriceSign(side, t, config);
    QuantizeHalfEvenSign(RawPrice(side, t, config), config.pricePrecision);
  }

  lemma RawPriceSign(side: Side, t: Tick, config: Config)
    requires config.Valid() && Executable(t)
    ensures PaysForward(side, config) ==> RawPrice(side, t, config) >= 0.0
    ensures !PaysForward(side, config) ==> RawPrice(side, t, config) <= 0.0
  {
    var reference, factor := Reference(side, t), DelayFactor(side, config);
    if PaysForward(side, config) {
      NonNegativeProduct(reference, factor);
    } else {
      NonNegativeProduct(reference, -factor);
      NegatedProduct(reference, factor);
    }
  }

  lemma NegatedProduct(a: real, b: real)
    ensures a * -b == -(a * b)
  {
  }

  // ---- the price guard

  lemma GuardedAsk(ask: real, decision: real, adverse: real, guard: real)
    requires decision > 0.0 && (ask - decision) / decision * 10000.0 <= adverse <= guard
    ensures ask <= decision * (1.0 + guard / 10000.0)
  {
    var move := (ask - decision) / decision;
    TimesMonotone(move, guard / 10000.0, decision);
    assert move * decision == ask - decision;
    Expand(decision, guard / 10000.0);
  }

  lemma GuardedBid(bid: real, decision: real, adverse: real, guard: real)
    requires decision > 0.0 && (decision - bid) / decision * 10000.0 <= adverse <= guard
    ensures decision * (1.0 - guard / 10000.0) <= bid
  {
    var move := (decision - bid) / decision;
    TimesMonotone(move, guard / 10000.0, decision);
    assert move * decision == decision - bid;
    Expand(decision, -guard / 10000.0);
  }

  lemma Expand(a: real, b: real)
    ensures a * (1.0 + b) == a + b * a
  {
  }

  /** The decision price moved by the widest guard and the delay penalty, against the trader. */
  function WorstPrice(side: Side, t: Tick, config: Config): real {
    if side.Buy? then t.decisionPrice * (1.0 + config.guardMaxBps / 10000.0) * (1.0 + config.delayPenaltyBps / 10000.0)
    else t.decisionPrice * (1.0 - config.guardMaxBps / 10000.0) * (1.0 - config.delayPenaltyBps / 10000.0)
  }

  lemma RawBuyPrice(t: Tick, config: Config)
    requires config.Valid() && Executable(t) && AdverseBps(Buy, t) <= config.guardMaxBps
    ensures RawPrice(Buy, t, config) <= WorstPrice(Buy, t, config)
  {
    GuardedAsk(t.ask, t.decisionPrice, AdverseBps(Buy, t), config.guardMaxBps);
    TimesMonotone(t.ask, t.decisionPrice * (1.0 + config.guardMaxBps / 10000.0), DelayFactor(Buy, config));
  }

  lemma RawSellPrice(t: Tick, config: Config)
    requires config.Valid() && config.delayPenaltyBps <= 10000.0
    requires Executable(t) && AdverseBps(Sell, t) <= config.guardMaxBps
    ensures RawPrice(Sell, t, config) >= WorstPrice(Sell, t, config)
  {
    GuardedBid(t.bid, t.decisionPrice, AdverseBps(Sell, t), config.guardMaxBps);
    TimesMonotone(t.decisionPrice * (1.0 - config.guardMaxBps / 10000.0), t.bid, DelayFactor(Sell, config));
  }

  lemma AcceptedTick(side: Side, remaining: real, t: Tick, notional: real, commission: real, config: Config)
    requires config.Valid() && BuildFill(side, remaining, t, notional, commission, config).Ok?
    ensures Executable(t) && AdverseBps(side, t) <= config.guardMaxBps
    ensures BuildFill(side, remaining, t, notional, commission, config).value.price == FillPrice(side, t, config)
  {
    hide QuantizeDown, FillPrice, AdverseBps, OrderCommission, PriceCost, Sensitivity, Notional, Capped;
  }

  /** With a delay penalty of at most 10000 bps, an accepted BUY pays at most the worst price and an accepted SELL
      receives at least it, within half a price quantum. */
  lemma PriceIsGuarded(side: Side, remaining: real, t: Tick, notional: real, commission: real, config: Config)
    requires config.Valid() && PaysForward(side, config)
    requires BuildFill(side, remaining, t, notional, commission, config).Ok?
    ensures
      var price := BuildFill(side, remaining, t, notional, commission, config).value.price;
      if side.Buy? then price <= WorstPrice(Buy, t, config) + config.pricePrecision / 2.0
      else price >= WorstPrice(Sell, t, config) - config.pricePrecision / 2.0
  {
    hide QuantizeHalfEven, BuildFill, AdverseBps, RawPrice, WorstPrice;
    AcceptedTick(side, remaining, t, notional, commission, config);
    if side.Buy? {
      RawBuyPrice(t, config);
    } else {
      RawSellPrice(t, config);
    }
    QuantizeHalfEvenError(RawPrice(side, t, config), config.pricePrecision);
  }

  /** Sensitivity costs start at the base cost and grow with the added basis points. */
  lemma SensitivityIsMonotone(side: Side, remaining: real, t: Tick, notional: real, commission: real, config: Config, i: nat, j: nat)
    requires config.Valid() && PaysForward(side, config)
    requires BuildFill(side, remaining, t, notional, commission, config).Ok?
    requires i < |config.sensitivityBps| && j < |config.sensitivityBps|
    requires config.sensitivityBps[i] <= config.sensitivityBps[j]
    ensures
      var f := BuildFill(side, remaining, t, notional, commission, config).value;
      && |f.sensitivityCosts| == |config.sensitivityBps|
      && f.baseCost <= f.sensitivityCosts[i] <= f.sensitivityCosts[j]
  {
    hide QuantizeDown, FillPrice, AdverseBps, OrderCommission, PriceCost, Capped;
    FillIsWithinCaps(side, remaining, t, notional, commission, config);
    var f := BuildFill(side, remaining, t, notional, commission, config).value;
    PriceFollowsDelay(side, t, config);
    NonNegativeProduct(f.quantity, f.price);
    AddedCost(f.baseCost, Notional(f.quantity, f.price), config.sensitivityBps[i], config.sensitivityBps[j]);
  }

  /** The field rules of a stored fill record. */
  predicate Recordable(f: Fill) {
    && f.quantity > 0.0 && f.price > 0.0
    && f.commission >= 0.0 && f.totalCommission >= 0.0 && f.baseCost >= 0.0
    && forall i :: 0 <= i < |f.sensitivityCosts| ==> f.sensitivityCosts[i] >= 0.0
  }

  /** A computed fill can be recorded exactly when its price did not round to zero or below. */
  lemma RecordableExactlyWhen(side: Side, remaining: real, t: Tick, notional: real, commission: real, config: Config)
    requires config.Valid() && BuildFill(side, remaining, t, notional, commission, config).Ok?
    ensures Recordable(BuildFill(side, remaining, t, notional, commission, config).value) <==>
      DelayedPrice(side, t, config) > config.pricePrecision / 2.0
  {
    hide BuildFill, FillPrice, OrderCommission, QuantizeDown, Capped, OnGrid, DelayedPrice, Notional;
    FillIsWithinCaps(side, remaining, t, notional, commission, config);
    PriceSign(side, t, config);
    HistoryIsSane(side, remaining, t, notional, commission, config);
    var f := BuildFill(side, remaining, t, notional, commission, config).value;
    if f.price > 0.0 {
      PriceFollowsDelay(side, t, config);
      forall i | 0 <= i < |f.sensitivityCosts| ensures f.sensitivityCosts[i] >= 0.0 {
        SensitivityIsMonotone(side, remaining, t, notional, commission, config, i, i);
      }
    }
  }

  lemma HistoryIsSane(side: Side, remaining: real, t: Tick, notional: real, commission: real, config: Config)
    requires config.Valid() && BuildFill(side, remaining, t, notional, commission, config).Ok?
    ensures notional >= 0.0 && commission >= 0.0 && Executable(t)
    ensures |BuildFill(side, remaining, t, notional, commission, config).value.sensitivityCosts| == |config.sensitivityBps|
  {
    hide QuantizeDown, FillPrice, AdverseBps, OrderCommission, PriceCost, Notional, Capped;
  }

  lemma AddedCost(base: real, notional: real, low: real, high: real)
    requires notional >= 0.0 && 0.0 <= low <= high
    ensures base <= base + notional * low / 10000.0 <= base + notional * high / 10000.0
  {
    NonNegativeProduct(notional, low);
    TimesMonotone(low, high, notional);
  }

  // ---- what the guard and the costs measure

  /** The guard is the multiple of the spread, cut to its configured bounds. */
  lemma GuardIsClamped(spreadBps: real, config: Config)
    requires config.Valid() && spreadBps >= 0.0
    ensures var g, wish := GuardBps(spreadBps, config), config.guardSpreadMultiplier * spreadBps;
      && (wish <= config.guardMinBps ==> g == config.guardMinBps)
      && (config.guardMinBps <= wish <= config.guardMaxBps ==> g == wish)
      && (wish >= config.guardMaxBps ==> g == config.guardMaxBps)
  {
  }

  /** A quote is within g basis points of the decision exactly when its price is, on the side that is traded. */
  lemma WithinGuardExactlyWhen(side: Side, t: Tick, g: real)
    requires Executable(t) && g >= 0.0
    ensures AdverseBps(side, t) <= g <==>
      match side
      case Buy => t.ask <= t.decisionPrice * (1.0 + g / 10000.0)
      case Sell => t.bid >= t.decisionPrice * (1.0 - g / 10000.0)
  {
    var reference := if side.Buy? then t.ask else t.bid;
    var gap := if side.Buy? then reference - t.decisionPrice else t.decisionPrice - reference;
    GapInBps(gap, t.decisionPrice, g);
    Expand(t.decisionPrice, g / 10000.0);
    Expand(t.decisionPrice, -g / 10000.0);
    assert AdverseBps(side, t) == Max(0.0, gap / t.decisionPrice * 10000.0);
  }

  lemma GapInBps(gap: real, price: real, g: real)
    requires price > 0.0
    ensures gap / price * 10000.0 <= g <==> gap <= g / 10000.0 * price
  {
    QuotientAbove(gap, price, g / 10000.0);
  }

  /** A fill's base cost is its commission and what it lost against the midpoint, never a gain; each sensitivity
      adds its basis points of the notional. */
  lemma FillCosts(side: Side, remaining: real, t: Tick, notional: real, commission: real, config: Config)
    requires config.Valid() && BuildFill(side, remaining, t, notional, commission, config).Ok?
    ensures
      var f := BuildFill(side, remaining, t, notional, commission, config).value;
      var lost := (if side == Buy then f.price - (t.bid + t.ask) / 2.0 else (t.bid + t.ask) / 2.0 - f.price) * f.quantity;
      && f.baseCost == f.commission + (if lost >= 0.0 then lost else 0.0)
      && |f.sensitivityCosts| == |config.sensitivityBps|
      && (forall i :: 0 <= i < |f.sensitivityCosts| ==>
            f.sensitivityCosts[i] == f.baseCost + f.quantity * f.price * config.sensitivityBps[i] / 10000.0)
      && f.guardBps == GuardBps(t.decisionSpreadBps, config) && f.adverseBps == AdverseBps(side, t)
  {
    hide QuantizeDown, FillPrice, AdverseBps, OrderCommission, Capped, GuardBps, Notional, PriceCost, Sensitivity;
    var f := BuildFill(side, remaining, t, notional, commission, config).value;
    assert f.baseCost == Max(0.0, PriceCost(side, t, f.price, f.quantity)) + f.commission;
    assert f.sensitivityCosts == Sensitivity(f.baseCost, Notional(f.quantity, f.price), config.sensitivityBps);
    CostsAre(side, t, f.price, f.quantity, f.baseCost, config.sensitivityBps);
  }

  lemma CostsAre(side: Side, t: Tick, price: real, quantity: real, base: real, bps: seq<real>)
    ensures PriceCost(side, t, price, quantity)
         == (if side == Buy then price - (t.bid + t.ask) / 2.0 else (t.bid + t.ask) / 2.0 - price) * quantity
    ensures var costs := Sensitivity(base, Notional(quantity, price), bps);
      |costs| == |bps| && forall i :: 0 <= i < |costs| ==> costs[i] == base + quantity * price * bps[i] / 10000.0
  {
  }

  /** The commission due: nothing up to the waiver, then the rate on the notional, to the nearest quantum. */
  lemma CommissionFollowsRate(notional: real, config: Config)
    requires config.Valid()
    ensures var due, half := OrderCommission(notional, config), config.commissionPrecision / 2.0;
      && (notional <= config.waiverThreshold ==> due == 0.0)
      && (notional > config.waiverThreshold ==>
            && OnGrid(due, config.commissionPrecision)
            && notional * config.commissionRate - half <= due <= notional * config.commissionRate + half)
  {
    hide TotalCommission, OnGrid;
    CommissionNonNegative(notional, config.commissionRate, config.waiverThreshold, config.commissionPrecision);
    if notional > config.waiverThreshold {
      DueAboveWaiver(notional, config.commissionRate, config.waiverThreshold, config.commissionPrecision);
    }
  }

  lemma DueAboveWaiver(notional: real, rate: real, waiver: real, precision: real)
    requires precision > 0.0 && notional > waiver
    ensures var due := TotalCommission(notional, rate, waiver, precision);
      && OnGrid(due, precision)
      && notional * rate - precision / 2.0 <= due <= notional * rate + precision / 2.0
  {
    hide QuantizeHalfEven, OnGrid;
    QuantizeOnGrid(notional * rate, precision);
    QuantizeHalfEvenError(notional * rate, precision);
  }

  // ---- threading the cumulative totals through the fills of one order

  datatype Attempt = Attempt(remaining: real, tick: Tick)

  function NotionalAfter(fills: seq<Fill>): real {
    if fills == [] then 0.0 else fills[|fills| - 1].notional
  }

  function CommissionAfter(fills: seq<Fill>): real {
    if fills == [] then 0.0 else fills[|fills| - 1].totalCommission
  }

  function CommissionsCharged(fills: seq<Fill>): real {
    if fills == [] then 0.0 else CommissionsCharged(fills[..|fills| - 1]) + fills[|fills| - 1].commission
  }

  function TradedNotional(fills: seq<Fill>): real {
    if fills == [] then 0.0
    else TradedNotional(fills[..|fills| - 1]) + Notional(fills[|fills| - 1].quantity, fills[|fills| - 1].price)
  }

  function ThreadFills(side: Side, attempts: seq<Attempt>, config: Config): Result<seq<Fill>, Rejection>
    requires config.Valid()
  {
    if attempts == [] then Ok([])
    else
      var a := attempts[|attempts| - 1];
      match ThreadFills(side, attempts[..|attempts| - 1], config)
      case Err(rejection) => Err(rejection)
      case Ok(fills) =>
        match BuildFill(side, a.remaining, a.tick, NotionalAfter(fills), CommissionAfter(fills), config)
        case Err(rejection) => Err(rejection)
        case Ok(f) => Ok(fills + [f])
  }

  /** The totals an order carries between its fills. */
  ghost predicate Threaded(side: Side, config: Config, notional: real, commission: real)
    requires config.Valid()
  {
    && commission == OrderCommission(notional, config)
    && (if PaysForward(side, config) then notional >= 0.0 else notional <= 0.0)
  }

  /** From consistent totals a fill is never refused for its commission, and leaves consistent totals. */
  lemma FillKeepsThread(side: Side, remaining: real, t: Tick, notional: real, commission: real, config: Config)
    requires config.Valid() && Threaded(side, config, notional, commission)
    ensures
      var r := BuildFill(side, remaining, t, notional, commission, config);
      match r
      case Err(rejection) => !rejection.CommissionExceeded?
      case Ok(f) => Threaded(side, config, f.notional, f.totalCommission)
  {
    hide QuantizeDown, FillPrice, AdverseBps, OrderCommission, PriceCost, Sensitivity, Capped, Notional;
    if remaining > 0.0 && Executable(t) {
      var quantity := QuantizeDown(Capped(remaining, t, config), config.quantityPrecision);
      var price := FillPrice(side, t, config);
      PriceFollowsDelay(side, t, config);
      if quantity > 0.0 {
        NotionalMoves(side, config, notional, quantity, price);
      }
    }
  }

  lemma NotionalMoves(side: Side, config: Config, notional: real, quantity: real, price: real)
    requires config.Valid() && quantity > 0.0
    requires if PaysForward(side, config) then notional >= 0.0 && price >= 0.0 else notional <= 0.0 && price <= 0.0
    ensures OrderCommission(notional, config) <= OrderCommission(notional + Notional(quantity, price), config)
    ensures if PaysForward(side, config) then notional + Notional(quantity, price) >= 0.0 else notional + Notional(quantity, price) <= 0.0
  {
    hide TotalCommission;
    if PaysForward(side, config) {
      NonNegativeProduct(quantity, price);
      CommissionMonotone(notional, notional + Notional(quantity, price), config.commissionRate, config.waiverThreshold, config.commissionPrecision);
    } else {
      NonNegativeProduct(quantity, -price);
      NegatedProduct(quantity, price);
      CommissionNonNegative(notional, config.commissionRate, config.waiverThreshold, config.commissionPrecision);
      CommissionNonNegative(notional + Notional(quantity, price), config.commissionRate, config.waiverThreshold, config.commissionPrecision);
    }
  }

  /** The fills' running totals are consistent and equal to what the fills add up to. */
  ghost predicate Settled(side: Side, config: Config, fills: seq<Fill>)
    requires config.Valid()
  {
    && Threaded(side, config, NotionalAfter(fills), CommissionAfter(fills))
    && TradedNotional(fills) == NotionalAfter(fills)
    && CommissionsCharged(fills) == CommissionAfter(fills)
    && forall i :: 0 <= i < |fills| ==> fills[i].commission >= 0.0
  }

  lemma SettledStep(side: Side, config: Config, fills: seq<Fill>, a: Attempt)
    requires config.Valid() && Settled(side, config, fills)
    ensures var r := BuildFill(side, a.remaining, a.tick, NotionalAfter(fills), CommissionAfter(fills), config);
      if r.Ok? then Settled(side, config, fills + [r.value]) else !r.error.CommissionExceeded?
  {
    hide BuildFill, OrderCommission, Notional, QuantizeDown, Capped, FillPrice, OnGrid, Threaded;
    var notional, commission := NotionalAfter(fills), CommissionAfter(fills);
    FillKeepsThread(side, a.remaining, a.tick, notional, commission, config);
    var r := BuildFill(side, a.remaining, a.tick, notional, commission, config);
    if r.Ok? {
      FillIsWithinCaps(side, a.remaining, a.tick, notional, commission, config);
      assert (fills + [r.value])[..|fills|] == fills;
    }
  }

  /** Over every sequence of fills of one order: no increment is negative, they add up to the commission on the
      traded notional however it was split, and the commission rejection cannot happen. */
  lemma {:induction false} ThreadedCommission(side: Side, attempts: seq<Attempt>, config: Config)
    requires config.Valid()
    ensures
      match ThreadFills(side, attempts, config)
      case Err(rejection) => !rejection.CommissionExceeded?
      case Ok(fills) =>
        && Settled(side, config, fills)
        && CommissionsCharged(fills) == OrderCommission(TradedNotional(fills), config)
        && forall i :: 0 <= i < |fills| ==> fills[i].commission >= 0.0
  {
    hide BuildFill, OrderCommission, Notional;
    if attempts == [] {
      NothingTraded(config);
    } else {
      ThreadedCommission(side, attempts[..|attempts| - 1], config);
      match ThreadFills(side, attempts[..|attempts| - 1], config)
      case Err(_) =>
      case Ok(fills) =>
        SettledStep(side, config, fills, attempts[|attempts| - 1]);
    }
  }

  lemma NothingTraded(config: Config)
    requires config.Valid()
    ensures OrderCommission(0.0, config) == 0.0
  {
  }
}
