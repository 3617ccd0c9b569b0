/** How much a BUY may take so that settled cash covers its price and its commission. */
module Affordability {
  import opened Decimals
  import opened FillEconomics
  import opened FillLaws
  import opened Orders
  import opened Results

  datatype CashFault = ZeroPrice

  /** What a purchase takes from settled cash: its notional, and its commission increment when there is one. */
  function Outlay(quantity: real, price: real, notional: real, commission: real, config: Config): real
    requires config.Valid()
  {
    Notional(quantity, price) + Max(0.0, OrderCommission(notional + Notional(quantity, price), config) - commission)
  }

  /** Price and commission rate of one unit. */
  function Gross(price: real, config: Config): real {
    price * (1.0 + config.commissionRate)
  }

  function Spendable(cash: real, config: Config): real {
    Max(0.0, cash - config.commissionPrecision)
  }

  /** The quanta the search starts from. */
  function FirstGuess(cash: real, price: real, config: Config): int
    requires config.Valid() && price != 0.0
  {
    GrossNotZero(price, config);
    Truncate(Spendable(cash, config) / Gross(price, config) / config.quantityPrecision)
  }

  lemma GrossNotZero(price: real, config: Config)
    requires config.Valid() && price != 0.0
    ensures Gross(price, config) != 0.0
    ensures Gross(price, config) > 0.0 <==> price > 0.0
  {
    if price > 0.0 {
      TimesMonotone(1.0, 1.0 + config.commissionRate, price);
    } else {
      TimesMonotone(1.0, 1.0 + config.commissionRate, -price);
    }
  }

  /** The first affordable number of quanta from k downwards, or zero. */
  function Descend(k: int, cash: real, price: real, notional: real, commission: real, config: Config): (r: nat)
    requires config.Valid()
    ensures k <= 0 ==> r == 0
    ensures k > 0 ==> r <= k
    ensures r > 0 ==> Outlay(Multiple(r, config.quantityPrecision), price, notional, commission, config) <= cash
    decreases if k > 0 then k else 0
  {
    if k <= 0 then 0
    else if Outlay(Multiple(k, config.quantityPrecision), price, notional, commission, config) <= cash then k
    else Descend(k - 1, cash, price, notional, commission, config)
  }

  function MaximumAffordable(cash: real, price: real, notional: real, commission: real, config: Config): Result<real, CashFault>
    requires config.Valid()
  {
    if price == 0.0 then Err(ZeroPrice)
    else Ok(Multiple(Descend(FirstGuess(cash, price, config), cash, price, notional, commission, config), config.quantityPrecision))
  }

  /** The division fails at a zero price; otherwise the quantity is lowered quantum by quantum until it is affordable. */
  method MaximumAffordableQuantity(cash: real, t: Tick, notional: real, commission: real, config: Config)
    returns (r: Result<real, CashFault>)
    requires config.Valid()
    ensures r == MaximumAffordable(cash, FillPrice(Buy, t, config), notional, commission, config)
  {
    hide Outlay, Multiple, FillPrice;
    var q := config.quantityPrecision;
    var price := FillPrice(Buy, t, config);
    if price == 0.0 {
      return Err(ZeroPrice);
    }
    ghost var steps := FirstGuess(cash, price, config);
    GrossNotZero(price, config);
    var quantity := QuantizeDown(Spendable(cash, config) / Gross(price, config), q);
    QuantizeIsMultiple(Spendable(cash, config) / Gross(price, config), q);
    while quantity > 0.0
      invariant quantity == Multiple(steps, q)
      invariant Descend(steps, cash, price, notional, commission, config)
             == Descend(FirstGuess(cash, price, config), cash, price, notional, commission, config)
      decreases steps
    {
      MultipleSign(steps, q);
      if Outlay(quantity, price, notional, commission, config) <= cash {
        return Ok(quantity);
      }
      MultipleStep(steps, q);
      quantity := quantity - q;
      steps := steps - 1;
    }
    MultipleSign(steps, q);
    MultipleSign(0, q);
    r := Ok(0.0);
  }

  lemma QuantizeIsMultiple(x: real, q: real)
    requires q > 0.0
    ensures QuantizeDown(x, q) == Multiple(Truncate(x / q), q)
  {
  }

  lemma MultipleSign(n: int, q: real)
    requires q > 0.0
    ensures Multiple(n, q) > 0.0 <==> n > 0
    ensures n == 0 ==> Multiple(n, q) == 0.0
  {
    SignOfMultiple(n, q);
  }

  lemma MultipleStep(n: int, q: real)
    ensures Multiple(n - 1, q) == Multiple(n, q) - q
  {
  }

  // ---- the search finds the largest affordable quantity

  lemma NotionalMonotone(a: real, b: real, price: real)
    requires a <= b && price >= 0.0
    ensures Notional(a, price) <= Notional(b, price)
    ensures a >= 0.0 ==> Notional(a, price) >= 0.0
  {
    TimesMonotone(a, b, price);
    if a >= 0.0 {
      TimesMonotone(0.0, a, price);
    }
  }

  /** A smaller purchase never takes more cash, across the commission waiver too. */
  lemma OutlayMonotone(a: real, b: real, price: real, notional: real, commission: real, config: Config)
    requires config.Valid() && a <= b && price >= 0.0
    ensures Outlay(a, price, notional, commission, config) <= Outlay(b, price, notional, commission, config)
  {
    hide Notional, TotalCommission;
    NotionalMonotone(a, b, price);
    CommissionMonotone(notional + Notional(a, price), notional + Notional(b, price),
      config.commissionRate, config.waiverThreshold, config.commissionPrecision);
  }

  lemma MultipleMonotone(a: int, b: int, q: real)
    requires a <= b && q > 0.0
    ensures Multiple(a, q) <= Multiple(b, q)
  {
    TimesMonotone(a as real, b as real, q);
  }

  /** Up to the first guess, a number of quanta is affordable exactly when it is at most the one found. */
  lemma {:induction false} DescendIsLargest(k: int, j: nat, cash: real, price: real, notional: real, commission: real, config: Config)
    requires config.Valid() && price > 0.0 && 0 < j <= k
    ensures Outlay(Multiple(j, config.quantityPrecision), price, notional, commission, config) <= cash <==>
      j <= Descend(k, cash, price, notional, commission, config)
    decreases k
  {
    hide Outlay, Multiple;
    var q := config.quantityPrecision;
    var r := Descend(k, cash, price, notional, commission, config);
    if j <= r {
      MultipleMonotone(j, r, q);
      OutlayMonotone(Multiple(j, q), Multiple(r, q), price, notional, commission, config);
    } else if j < k {
      DescendIsLargest(k - 1, j, cash, price, notional, commission, config);
    }
  }

  /** So many quanta are within the first guess exactly when price and rate leave a commission quantum of cash. */
  lemma GuessIs(j: nat, cash: real, price: real, config: Config)
    requires config.Valid() && price > 0.0 && j > 0
    ensures j <= FirstGuess(cash, price, config) <==>
      Multiple(j, config.quantityPrecision) * (price * (1.0 + config.commissionRate)) <= cash - config.commissionPrecision
  {
    hide Gross, Multiple;
    GrossNotZero(price, config);
    var spendable, gross, q := Spendable(cash, config), Gross(price, config), config.quantityPrecision;
    var least := Multiple(j, q);
    assert gross == price * (1.0 + config.commissionRate) by { GrossIs(price, config); }
    assert least == j as real * q by { MultipleIs(j, q); }
    QuotientAbove(spendable / gross, q, j as real);
    QuotientAbove(spendable, gross, least);
    MultipleSign(j, q);
    NonNegativeProduct(least, gross);
    SpendableQuotient(spendable, gross, q);
    PositiveProduct(least, gross);
  }

  lemma GrossIs(price: real, config: Config)
    ensures Gross(price, config) == price * (1.0 + config.commissionRate)
  {
  }

  lemma MultipleIs(j: int, q: real)
    ensures Multiple(j, q) == j as real * q
  {
  }

  lemma PositiveProduct(a: real, b: real)
    requires a > 0.0 && b > 0.0
    ensures a * b > 0.0
  {
  }

  lemma SpendableQuotient(spendable: real, gross: real, q: real)
    requires spendable >= 0.0 && gross > 0.0 && q > 0.0
    ensures spendable / gross / q >= 0.0
  {
  }

  /**
   * The affordable quantity is the largest number of quanta whose price and rate leave a commission quantum of
   * cash, and whose price and commission increment the cash covers; a price of zero has none.
   */
  lemma MaximumIsLargest(cash: real, price: real, notional: real, commission: real, config: Config) returns (k: nat)
    requires config.Valid()
    ensures price == 0.0 ==> MaximumAffordable(cash, price, notional, commission, config).Err?
    ensures price < 0.0 ==> MaximumAffordable(cash, price, notional, commission, config) == Ok(0.0)
    ensures price > 0.0 ==>
      && MaximumAffordable(cash, price, notional, commission, config) == Ok(Multiple(k, config.quantityPrecision))
      && forall j: nat :: j > 0 ==> (j <= k <==> Fits(j, cash, price, notional, commission, config))
  {
    hide Fits, Descend, Multiple, FirstGuess, Outlay;
    k := 0;
    if price > 0.0 {
      var guess := FirstGuess(cash, price, config);
      k := Descend(guess, cash, price, notional, commission, config);
      forall j: nat | j > 0 ensures j <= k <==> Fits(j, cash, price, notional, commission, config) {
        FitsExactlyWhen(j, cash, price, notional, commission, config);
        if j <= guess {
          DescendIsLargest(guess, j, cash, price, notional, commission, config);
        }
      }
    } else if price < 0.0 {
      NegativeGuess(cash, price, config);
      var none := Descend(FirstGuess(cash, price, config), cash, price, notional, commission, config);
      MultipleSign(0, config.quantityPrecision);
    }
  }

  ghost predicate Fits(j: nat, cash: real, price: real, notional: real, commission: real, config: Config)
    requires config.Valid()
  {
    var quantity := Multiple(j, config.quantityPrecision);
    var worth := quantity * price;
    && quantity * (price * (1.0 + config.commissionRate)) <= cash - config.commissionPrecision
    && worth <= cash
    && worth + OrderCommission(notional + worth, config) - commission <= cash
  }

  lemma FitsExactlyWhen(j: nat, cash: real, price: real, notional: real, commission: real, config: Config)
    requires config.Valid() && price > 0.0 && j > 0
    ensures Fits(j, cash, price, notional, commission, config) <==>
      && j <= FirstGuess(cash, price, config)
      && Outlay(Multiple(j, config.quantityPrecision), price, notional, commission, config) <= cash
  {
    hide FirstGuess, Multiple, OrderCommission, Notional;
    GuessIs(j, cash, price, config);
    NotionalIs(Multiple(j, config.quantityPrecision), price);
  }

  lemma NotionalIs(quantity: real, price: real)
    ensures Notional(quantity, price) == quantity * price
  {
  }

  lemma NegativeGuess(cash: real, price: real, config: Config)
    requires config.Valid() && price < 0.0
    ensures FirstGuess(cash, price, config) <= 0
  {
    GrossNotZero(price, config);
    NegativeQuotient(Spendable(cash, config), Gross(price, config), config.quantityPrecision);
  }

  lemma NegativeQuotient(spendable: real, gross: real, q: real)
    requires spendable >= 0.0 && gross < 0.0 && q > 0.0
    ensures spendable / gross / q <= 0.0
  {
  }

  /** The settled-cash guard cannot fail: a fill of no more than the affordable quantity is paid for. */
  lemma AffordableFillIsPaid(remaining: real, t: Tick, cash: real, notional: real, commission: real, config: Config)
    requires config.Valid() && FillPrice(Buy, t, config) != 0.0
    requires remaining <= MaximumAffordable(cash, FillPrice(Buy, t, config), notional, commission, config).value
    requires BuildFill(Buy, remaining, t, notional, commission, config).Ok?
    ensures var f := BuildFill(Buy, remaining, t, notional, commission, config).value;
      Notional(f.quantity, f.price) + f.commission <= cash
  {
    hide BuildFill, FillPrice, OrderCommission, QuantizeDown, Capped, OnGrid, DelayedPrice, Notional, Multiple, FirstGuess;
    var price, q := FillPrice(Buy, t, config), config.quantityPrecision;
    FillIsWithinCaps(Buy, remaining, t, notional, commission, config);
    HistoryIsSane(Buy, remaining, t, notional, commission, config);
    PriceFollowsDelay(Buy, t, config);
    var f := BuildFill(Buy, remaining, t, notional, commission, config).value;
    var r := Descend(FirstGuess(cash, price, config), cash, price, notional, commission, config);
    MultipleSign(r, q);
    OutlayMonotone(f.quantity, Multiple(r, q), price, notional, commission, config);
  }

  // ---- how far the search goes

  /** The unrounded commission. */
  function Rated(notional: real, config: Config): real { notional * config.commissionRate }

  lemma RatedAdds(a: real, b: real, config: Config)
    ensures Rated(a + b, config) == Rated(a, config) + Rated(b, config)
  {
  }

  lemma RatedMonotone(a: real, b: real, config: Config)
    requires config.Valid() && a <= b
    ensures Rated(a, config) <= Rated(b, config)
    ensures a >= 0.0 ==> Rated(a, config) >= 0.0
  {
    TimesMonotone(a, b, config.commissionRate);
    if a >= 0.0 {
      TimesMonotone(0.0, a, config.commissionRate);
    }
  }

  lemma CommissionNearRate(notional: real, config: Config)
    requires config.Valid() && notional > config.waiverThreshold
    ensures Rated(notional, config) - config.commissionPrecision / 2.0 <= OrderCommission(notional, config)
    ensures OrderCommission(notional, config) <= Rated(notional, config) + config.commissionPrecision / 2.0
  {
    CommissionNearProduct(notional, config.commissionRate, config.waiverThreshold, config.commissionPrecision);
  }

  lemma CommissionNearProduct(notional: real, rate: real, waiver: real, precision: real)
    requires precision > 0.0 && notional > waiver
    ensures notional * rate - precision / 2.0 <= TotalCommission(notional, rate, waiver, precision)
    ensures TotalCommission(notional, rate, waiver, precision) <= notional * rate + precision / 2.0
  {
    hide QuantizeHalfEven;
    QuantizeHalfEvenError(notional * rate, precision);
  }

  lemma WaivedCommission(notional: real, config: Config)
    requires config.Valid() && notional <= config.waiverThreshold
    ensures OrderCommission(notional, config) == 0.0
  {
  }

  /** Past the waiver, an increment is at most the rate on the new notional and one commission quantum. */
  lemma IncrementBound(notional: real, more: real, config: Config)
    requires config.Valid() && notional > config.waiverThreshold && more >= 0.0
    ensures OrderCommission(notional + more, config) - OrderCommission(notional, config)
         <= Rated(more, config) + config.commissionPrecision
  {
    hide OrderCommission, Rated;
    CommissionNearRate(notional + more, config);
    CommissionNearRate(notional, config);
    RatedAdds(notional, more, config);
  }

  /** In every state it is at most the rate on the waived and the new notional, and one commission quantum. */
  lemma IncrementCeiling(notional: real, more: real, config: Config)
    requires config.Valid() && more >= 0.0
    ensures OrderCommission(notional + more, config) - OrderCommission(notional, config)
         <= Rated(config.waiverThreshold, config) + Rated(more, config) + config.commissionPrecision
  {
    hide OrderCommission, Rated;
    RatedMonotone(config.waiverThreshold, config.waiverThreshold, config);
    RatedMonotone(more, more, config);
    if notional > config.waiverThreshold {
      IncrementBound(notional, more, config);
    } else {
      WaivedCommission(notional, config);
      if notional + more > config.waiverThreshold {
        CommissionNearRate(notional + more, config);
        RatedAdds(notional, more, config);
        RatedMonotone(notional, config.waiverThreshold, config);
      } else {
        WaivedCommission(notional + more, config);
      }
    }
  }

  /** The first guess leaves room for its price, its commission rate and one commission quantum. */
  lemma GuessFits(k: nat, cash: real, price: real, config: Config)
    requires config.Valid() && price > 0.0 && 0 < k <= FirstGuess(cash, price, config)
    ensures var n := Notional(Multiple(k, config.quantityPrecision), price);
      n + Rated(n, config) + config.commissionPrecision <= cash
  {
    hide Truncate;
    var q, gross, amount := config.quantityPrecision, Gross(price, config), Spendable(cash, config);
    GrossNotZero(price, config);
    var x := amount / gross;
    assert x * gross == amount;
    DivideMonotone(0.0, amount, gross);
    QuantizeDownBounds(x, q);
    QuantizeIsMultiple(x, q);
    MultipleMonotone(k, FirstGuess(cash, price, config), q);
    MultipleSign(k, q);
    TimesMonotone(Multiple(k, q), x, gross);
    GrossSplits(Multiple(k, q), price, config);
    PositiveTimes(Multiple(k, q), gross);
  }

  lemma PositiveTimes(a: real, b: real)
    requires a > 0.0 && b > 0.0
    ensures a * b > 0.0
  {
  }

  lemma GrossSplits(quantity: real, price: real, config: Config)
    ensures quantity * Gross(price, config)
         == Notional(quantity, price) + Rated(Notional(quantity, price), config)
  {
    var r := config.commissionRate;
    calc {
      quantity * (price * (1.0 + r));
      (quantity * price) * (1.0 + r);
      quantity * price + (quantity * price) * r;
    }
  }

  /** Past the waiver and with its commission charged, the first guess is affordable: the search takes no step. */
  lemma SearchIsIdlePastWaiver(cash: real, price: real, notional: real, config: Config)
    requires config.Valid() && price > 0.0 && notional > config.waiverThreshold
    ensures var guess := FirstGuess(cash, price, config);
      guess > 0 ==> Descend(guess, cash, price, notional, OrderCommission(notional, config), config) == guess
  {
    hide FirstGuess, OrderCommission, Notional, Multiple, Rated;
    var guess := FirstGuess(cash, price, config);
    if guess > 0 {
      GuessFits(guess, cash, price, config);
      var quantity := Multiple(guess, config.quantityPrecision);
      MultipleSign(guess, config.quantityPrecision);
      NotionalMonotone(quantity, quantity, price);
      RatedMonotone(Notional(quantity, price), Notional(quantity, price), config);
      IncrementBound(notional, Notional(quantity, price), config);
    }
  }

  /** Cash for one quantum, its commission rate, the waived commission and a commission quantum. */
  predicate Funded(cash: real, price: real, config: Config) {
    var n := Notional(config.quantityPrecision, price);
    n + Rated(n, config) + Rated(config.waiverThreshold, config) + config.commissionPrecision <= cash
  }

  lemma GuessReachesOne(cash: real, price: real, config: Config)
    requires config.Valid() && price > 0.0 && Funded(cash, price, config)
    ensures FirstGuess(cash, price, config) >= 1
  {
    hide Truncate, Rated;
    var q, gross, amount := config.quantityPrecision, Gross(price, config), Spendable(cash, config);
    GrossNotZero(price, config);
    RatedMonotone(config.waiverThreshold, config.waiverThreshold, config);
    GrossSplits(q, price, config);
    assert q * gross <= amount;
    DivideMonotone(q * gross, amount, gross);
    DivideTimes(q, gross);
    var x := amount / gross;
    QuantizeDownBounds(x, q);
    QuantizeIsMultiple(x, q);
    MultipleSign(FirstGuess(cash, price, config), q);
  }

  /** Funded cash affords at least one quantum, whatever has been traded before. */
  lemma FundedAffordsOne(cash: real, price: real, notional: real, config: Config)
    requires config.Valid() && price > 0.0 && Funded(cash, price, config)
    ensures MaximumAffordable(cash, price, notional, OrderCommission(notional, config), config).value
         >= config.quantityPrecision
  {
    hide FirstGuess, OrderCommission, Notional, Multiple, Rated;
    var q, commission := config.quantityPrecision, OrderCommission(notional, config);
    var guess := FirstGuess(cash, price, config);
    GuessReachesOne(cash, price, config);
    OneQuantum(q);
    NotionalMonotone(q, q, price);
    RatedMonotone(Notional(q, price), Notional(q, price), config);
    RatedMonotone(config.waiverThreshold, config.waiverThreshold, config);
    IncrementCeiling(notional, Notional(q, price), config);
    DescendIsLargest(guess, 1, cash, price, notional, commission, config);
    MultipleMonotone(1, Descend(guess, cash, price, notional, commission, config), q);
  }

  lemma OneQuantum(q: real)
    ensures Multiple(1, q) == q
  {
  }

  /** One quantum sold is worth more than its commission rate, the waived commission and a commission quantum. */
  predicate SalePays(price: real, config: Config) {
    var n := Notional(config.quantityPrecision, price);
    n > Rated(n, config) + Rated(config.waiverThreshold, config) + config.commissionPrecision
  }

  lemma RateBelowOne(n: real, config: Config)
    requires config.Valid() && Rated(n, config) < n && n >= 0.0
    ensures config.commissionRate < 1.0
  {
    if config.commissionRate >= 1.0 {
      TimesMonotone(1.0, config.commissionRate, n);
    }
  }

  lemma RatedAtMost(n: real, config: Config)
    requires config.Valid() && config.commissionRate < 1.0 && n >= 0.0
    ensures Rated(n, config) <= n
  {
    TimesMonotone(config.commissionRate, 1.0, n);
  }

  /** Where one quantum pays, every larger sale earns more than its commission, whatever was sold before. */
  lemma PayingSaleEarns(quantity: real, price: real, notional: real, config: Config)
    requires config.Valid() && price > 0.0 && SalePays(price, config) && quantity >= config.quantityPrecision
    ensures var n := Notional(quantity, price);
      n > OrderCommission(notional + n, config) - OrderCommission(notional, config)
  {
    hide Notional, Rated, OrderCommission;
    var one, n := Notional(config.quantityPrecision, price), Notional(quantity, price);
    NotionalMonotone(config.quantityPrecision, quantity, price);
    RatedMonotone(config.waiverThreshold, config.waiverThreshold, config);
    RatedMonotone(one, one, config);
    RateBelowOne(one, config);
    RatedAtMost(n - one, config);
    RatedAdds(one, n - one, config);
    assert one + (n - one) == n;
    IncrementCeiling(notional, n, config);
  }
}
