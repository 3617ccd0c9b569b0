/** Economics of one simulated fill: capped quantity, guarded price, cumulative commission. */
module FillEconomics {
  import opened Decimals
  import opened Orders
  import opened Results

  datatype Config = Config(
    displayedParticipation: real,
    advParticipation: real,
    delayPenaltyBps: real,
    guardMinBps: real,
    guardMaxBps: real,
    guardSpreadMultiplier: real,
    quantityPrecision: real,
    pricePrecision: real,
    commissionRate: real,
    waiverThreshold: real,
    commissionPrecision: real,
    sensitivityBps: seq<real>)
  {
    predicate Valid() {
      && 0.0 < displayedParticipation <= 1.0
      && 0.0 < advParticipation <= 1.0
      && delayPenaltyBps >= 0.0
      && 0.0 < guardMinBps <= guardMaxBps
      && guardSpreadMultiplier > 0.0
      && quantityPrecision > 0.0 && pricePrecision > 0.0
      && commissionRate >= 0.0 && waiverThreshold >= 0.0 && commissionPrecision > 0.0
      && forall i :: 0 <= i < |sensitivityBps| ==> sensitivityBps[i] >= 0.0
    }
  }

  /** The market side of one attempt, with the prices the decision was taken at. */
  datatype Tick = Tick(
    bid: real,
    ask: real,
    displayed: real,
    advCapacity: real,
    decisionPrice: real,
    decisionSpreadBps: real)

  datatype Fill = Fill(
    quantity: real,
    price: real,
    commission: real,
    notional: real,
    totalCommission: real,
    baseCost: real,
    sensitivityCosts: seq<real>,
    guardBps: real,
    adverseBps: real)

  datatype Rejection =
    | NothingRemaining
    | NotExecutable
    | NegativeHistory
    | NegativeSpread
    | PriceGuard(guardBps: real, adverseBps: real)
    | ZeroQuantity
    | CommissionExceeded

  function GuardBps(spreadBps: real, config: Config): (g: real)
    requires config.Valid() && spreadBps >= 0.0
    ensures config.guardMinBps <= g <= config.guardMaxBps
  {
    Min(config.guardMaxBps, Max(config.guardMinBps, config.guardSpreadMultiplier * spreadBps))
  }

  function Reference(side: Side, t: Tick): real {
    if side.Buy? then t.ask else t.bid
  }

  function AdverseBps(side: Side, t: Tick): (a: real)
    requires t.decisionPrice > 0.0
    ensures a >= 0.0
  {
    var reference := Reference(side, t);
    var move := if side.Buy? then (reference - t.decisionPrice) / t.decisionPrice
                else (t.decisionPrice - reference) / t.decisionPrice;
    Max(0.0, move * 10000.0)
  }

  /** The largest quantity the order, the displayed size and the volume cap all allow, before rounding. */
  function Capped(remaining: real, t: Tick, config: Config): real {
    Min(remaining, Min(t.displayed * config.displayedParticipation, t.advCapacity))
  }

  function DelayFactor(side: Side, config: Config): real {
    if side.Buy? then 1.0 + config.delayPenaltyBps / 10000.0 else 1.0 - config.delayPenaltyBps / 10000.0
  }

  function RawPrice(side: Side, t: Tick, config: Config): real {
    Reference(side, t) * DelayFactor(side, config)
  }

  function FillPrice(side: Side, t: Tick, config: Config): real
    requires config.Valid()
  {
    QuantizeHalfEven(RawPrice(side, t, config), config.pricePrecision)
  }

  function Notional(quantity: real, price: real): real { quantity * price }

  /** Commission on the whole order so far: waived up to the threshold, then rounded half-even. */
  function TotalCommission(notional: real, rate: real, waiver: real, precision: real): real
    requires precision > 0.0
  {
    if notional <= waiver then 0.0 else QuantizeHalfEven(notional * rate, precision)
  }

  function OrderCommission(notional: real, config: Config): real
    requires config.Valid()
  {
    TotalCommission(notional, config.commissionRate, config.waiverThreshold, config.commissionPrecision)
  }

  function PriceCost(side: Side, t: Tick, price: real, quantity: real): real {
    var midpoint := (t.bid + t.ask) / 2.0;
    if side.Buy? then (price - midpoint) * quantity else (midpoint - price) * quantity
  }

  function Sensitivity(base: real, fillNotional: real, bps: seq<real>): (s: seq<real>)
    ensures |s| == |bps|
    ensures forall i :: 0 <= i < |bps| ==> s[i] == base + fillNotional * bps[i] / 10000.0
  {
    seq(|bps|, i requires 0 <= i < |bps| => base + fillNotional * bps[i] / 10000.0)
  }

  predicate Executable(t: Tick) {
    && t.bid > 0.0 && t.ask > 0.0 && t.ask >= t.bid
    && t.displayed > 0.0 && t.advCapacity > 0.0 && t.decisionPrice > 0.0
  }

  function Settle(side: Side, t: Tick, config: Config, quantity: real, price: real,
                  notionalBefore: real, commissionBefore: real, guard: real, adverse: real): Result<Fill, Rejection>
    requires config.Valid()
  {
    var fillNotional := Notional(quantity, price);
    var notional := notionalBefore + fillNotional;
    var total := OrderCommission(notional, config);
    var commission := total - commissionBefore;
    if commission < 0.0 then Err(CommissionExceeded)
    else
      var base := Max(0.0, PriceCost(side, t, price, quantity)) + commission;
      Ok(Fill(quantity, price, commission, notional, total, base,
              Sensitivity(base, fillNotional, config.sensitivityBps), guard, adverse))
  }

  function BuildFill(side: Side, remaining: real, t: Tick, notionalBefore: real, commissionBefore: real, config: Config)
    : Result<Fill, Rejection>
    requires config.Valid()
  {
    if remaining <= 0.0 then Err(NothingRemaining)
    else if !Executable(t) then Err(NotExecutable)
    else if notionalBefore < 0.0 || commissionBefore < 0.0 then Err(NegativeHistory)
    else if t.decisionSpreadBps < 0.0 then Err(NegativeSpread)
    else
      var adverse := AdverseBps(side, t);
      var guard := GuardBps(t.decisionSpreadBps, config);
      if adverse > guard then Err(PriceGuard(guard, adverse))
      else
        var quantity := QuantizeDown(Capped(remaining, t, config), config.quantityPrecision);
        if quantity <= 0.0 then Err(ZeroQuantity)
        else Settle(side, t, config, quantity, FillPrice(side, t, config), notionalBefore, commissionBefore, guard, adverse)
  }

  // ---- commission

  lemma CommissionNonNegative(notional: real, rate: real, waiver: real, precision: real)
    requires rate >= 0.0 && waiver >= 0.0 && precision > 0.0
    ensures TotalCommission(notional, rate, waiver, precision) >= 0.0
    ensures notional <= waiver ==> TotalCommission(notional, rate, waiver, precision) == 0.0
  {
    hide QuantizeHalfEven;
    if notional > waiver {
      NonNegativeProduct(notional, rate);
      QuantizeHalfEvenMonotone(0.0, notional * rate, precision);
      QuantizeZero(precision);
    }
  }

  lemma NonNegativeProduct(a: real, b: real)
    requires a >= 0.0 && b >= 0.0
    ensures a * b >= 0.0
  {
  }

  lemma QuantizeZero(q: real)
    requires q > 0.0
    ensures QuantizeHalfEven(0.0, q) == 0.0
  {
    assert 0.0 / q == 0.0;
  }

  /** The commission schedule is monotone, across the waiver threshold and through half-even rounding. */
  lemma CommissionMonotone(m: real, n: real, rate: real, waiver: real, precision: real)
    requires rate >= 0.0 && waiver >= 0.0 && precision > 0.0 && m <= n
    ensures TotalCommission(m, rate, waiver, precision) <= TotalCommission(n, rate, waiver, precision)
  {
    hide QuantizeHalfEven;
    if m <= waiver {
      CommissionNonNegative(n, rate, waiver, precision);
    } else {
      TimesMonotone(m, n, rate);
      QuantizeHalfEvenMonotone(m * rate, n * rate, precision);
    }
  }

  // ---- the broker's commission, incremental over partial fills (quantum of one cent)

  const CENT := 0.01

  datatype CommissionFault = NegativeBefore | ExceedsCumulative

  function IncrementalCommission(fillNotional: real, notionalBefore: real, chargedBefore: real, rate: real, waiver: real)
    : Result<real, CommissionFault>
  {
    if notionalBefore < 0.0 || chargedBefore < 0.0 then Err(NegativeBefore)
    else
      var incremental := TotalCommission(notionalBefore + fillNotional, rate, waiver, CENT) - chargedBefore;
      if incremental < 0.0 then Err(ExceedsCumulative) else Ok(incremental)
  }

  function NotionalSum(parts: seq<real>): real {
    if parts == [] then 0.0 else NotionalSum(parts[..|parts| - 1]) + parts[|parts| - 1]
  }

  /** Commission charged over a sequence of partial fills, each call given the totals so far. */
  function ChargeAll(parts: seq<real>, rate: real, waiver: real): Result<seq<real>, CommissionFault> {
    if parts == [] then Ok([])
    else
      var init := parts[..|parts| - 1];
      match ChargeAll(init, rate, waiver)
      case Err(fault) => Err(fault)
      case Ok(charges) =>
        match IncrementalCommission(parts[|parts| - 1], NotionalSum(init), NotionalSum(charges), rate, waiver)
        case Err(fault) => Err(fault)
        case Ok(charge) => Ok(charges + [charge])
  }

  /** However an order is split, every increment is accepted and non-negative and the increments add up to
      the commission on the total notional. */
  lemma {:induction false} SplitsChargeTheSame(parts: seq<real>, rate: real, waiver: real)
    requires rate >= 0.0 && waiver >= 0.0 && forall i :: 0 <= i < |parts| ==> parts[i] >= 0.0
    ensures ChargeAll(parts, rate, waiver).Ok?
    ensures
      var charges := ChargeAll(parts, rate, waiver).value;
      && |charges| == |parts|
      && NotionalSum(charges) == TotalCommission(NotionalSum(parts), rate, waiver, 0.01)
      && forall i :: 0 <= i < |charges| ==> charges[i] >= 0.0
    ensures NotionalSum(parts) >= 0.0
  {
    hide TotalCommission;
    CommissionNonNegative(NotionalSum(parts), rate, waiver, CENT);
    if parts == [] {
    } else {
      var init := parts[..|parts| - 1];
      SplitsChargeTheSame(init, rate, waiver);
      CommissionNonNegative(NotionalSum(init), rate, waiver, CENT);
      CommissionMonotone(NotionalSum(init), NotionalSum(parts), rate, waiver, CENT);
      var charges := ChargeAll(init, rate, waiver).value;
      var charge := TotalCommission(NotionalSum(parts), rate, waiver, CENT) - NotionalSum(charges);
      assert (charges + [charge])[..|charges|] == charges;
    }
  }
}
