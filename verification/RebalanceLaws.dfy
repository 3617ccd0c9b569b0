/** What carrying out a rebalance plan at its planning prices leaves in cash and positions. */
module RebalanceLaws {
  import opened Decimals
  import opened Identifiers
  import opened Ordering
  import opened Portfolio
  import opened Rebalance
  import opened TargetWeights
  import opened Totals

  /** An arm without debts or shorts whose long-only targets sum to one and cover its holdings. */
  ghost predicate Ready(desk: Desk) {
    && desk.state.cash >= 0.0
    && (forall k :: k in desk.state.positions ==> desk.state.positions[k] >= 0.0 && k in Symbols(desk.target))
    && desk.AllPriced()
    && (forall k :: k in Symbols(desk.target) ==> Get(desk.target, k) >= 0.0)
    && RiskySum(desk.target) + Get(desk.target, UsdCash) == 1.0
    && desk.terms.minimum >= 0.0
  }

  // ---- arithmetic of worth

  lemma WorthAdds(a: real, b: real, price: real)
    ensures Worth(a, price) + Worth(b, price) == Worth(a + b, price)
    ensures Worth(0.0, price) == 0.0
    ensures Worth(-a, price) == -Worth(a, price)
  {
  }

  lemma WorthNonNegative(a: real, price: real)
    requires a >= 0.0 && price >= 0.0
    ensures Worth(a, price) >= 0.0
  {
    TimesMonotone(0.0, a, price);
  }

  // ---- NAV

  /** NAV may be summed over the targets, since they cover the holdings. */
  lemma NavOverTargets(desk: Desk)
    requires Ready(desk)
    ensures desk.Value() == desk.state.cash + Sum(Held(desk.state.positions, desk.prices), Symbols(desk.target))
  {
    hide Sum, Worth, RiskySum;
    var held := Held(desk.state.positions, desk.prices);
    forall k | k !in desk.state.positions ensures held(k) == 0.0 {
      WorthAdds(0.0, 0.0, Get(desk.prices, k));
    }
    SumOverCover(held, Listed(desk.state.positions.Keys), Symbols(desk.target));
  }

  lemma ValueNonNegative(desk: Desk)
    requires Ready(desk)
    ensures desk.Value() >= 0.0
  {
    hide Sum, Worth, RiskySum;
    NavOverTargets(desk);
    var held, zero := Held(desk.state.positions, desk.prices), (k: Id) => 0.0;
    forall k | k in Symbols(desk.target) ensures held(k) >= 0.0 {
      WorthNonNegative(Get(desk.state.positions, k), Get(desk.prices, k));
    }
    SumZero(zero, Symbols(desk.target));
    SumAtMost(zero, held, Symbols(desk.target));
  }

  // ---- one symbol

  /** The largest quantity on the grid of 0.00000001 that a share of the value buys. */
  ghost predicate IsShare(q: real, value: real, weight: real, price: real) {
    && q >= 0.0 && OnGrid(q, 0.00000001)
    && q * price <= value * weight < (q + 0.00000001) * price
  }

  lemma QuantityIsShare(nav: real, weight: real, price: real)
    requires nav >= 0.0 && weight >= 0.0 && price > 0.0
    ensures IsShare(TargetQuantity(nav, weight, price), nav, weight, price)
  {
    hide QuantizeDown, OnGrid;
    TimesMonotone(0.0, nav, weight);
    DivideMonotone(0.0, nav * weight, price);
    QuantizeOnGrid(nav * weight / price, 0.00000001);
    QuantizeDownBounds(nav * weight / price, 0.00000001);
    Bracketed(TargetQuantity(nav, weight, price), nav * weight, price);
  }

  lemma Bracketed(q: real, share: real, price: real)
    requires price > 0.0 && q <= share / price < q + 0.00000001
    ensures q * price <= share < (q + 0.00000001) * price
  {
    QuotientAbove(share, price, q);
    QuotientAbove(share, price, q + 0.00000001);
  }

  lemma ShareWorth(q: real, value: real, weight: real, price: real)
    requires IsShare(q, value, weight, price)
    ensures Worth(q, price) <= Worth(weight, value)
    ensures Worth(weight, value) <= Worth(q, price) + Worth(0.00000001, price)
  {
    hide OnGrid;
    WorthAdds(q, 0.00000001, price);
  }

  /** What the plan wants of a symbol is its share of the value, to within one quantum. */
  lemma WantedFits(desk: Desk, s: Id)
    requires Ready(desk) && s in Symbols(desk.target)
    ensures Priced(desk.prices, s)
    ensures IsShare(desk.Wanted(s), desk.Value(), Get(desk.target, s), desk.prices[s])
    ensures desk.Wanted(s) >= 0.0
    ensures Worth(desk.Wanted(s), desk.prices[s]) <= Worth(Get(desk.target, s), desk.Value())
    ensures Worth(Get(desk.target, s), desk.Value()) <= Worth(desk.Wanted(s), desk.prices[s]) + Worth(0.00000001, desk.prices[s])
  {
    hide TargetQuantity, Worth, RiskySum, Symbols, Nav, OnGrid;
    ValueNonNegative(desk);
    QuantityIsShare(desk.Value(), Get(desk.target, s), desk.prices[s]);
    ShareWorth(desk.Wanted(s), desk.Value(), Get(desk.target, s), desk.prices[s]);
  }

  /** A sale below the minimum notional is not planned. */
  predicate SkippedSale(desk: Desk, s: Id) {
    Priced(desk.prices, s) && desk.Skipped(s) && desk.Difference(s) < 0.0
  }

  /** What the plan spends on a symbol; negative for a sale. */
  function Spend(desk: Desk): Id -> real {
    (s: Id) => if Priced(desk.prices, s) && !desk.Skipped(s) then Worth(desk.Difference(s), desk.prices[s]) else 0.0
  }

  function Share(desk: Desk): Id -> real {
    (s: Id) => Worth(Get(desk.target, s), desk.Value())
  }

  function Slack(desk: Desk): Id -> real {
    (s: Id) => if SkippedSale(desk, s) then desk.terms.minimum else 0.0
  }

  /** What is held after the plan is worth at most the symbol's share, plus what a skipped sale leaves. */
  lemma SymbolBudget(desk: Desk, s: Id)
    requires Ready(desk) && s in Symbols(desk.target)
    ensures Held(desk.state.positions, desk.prices)(s) + Spend(desk)(s) <= Share(desk)(s) + Slack(desk)(s)
  {
    hide TargetQuantity, Worth, RiskySum, Symbols, Nav, Desk.Wanted;
    WantedFits(desk, s);
    var price, held, d := desk.prices[s], Get(desk.state.positions, s), desk.Difference(s);
    WorthAdds(held, d, price);
    if desk.Skipped(s) {
      WorthAdds(d, 0.0, price);
      if d >= 0.0 {
        WorthNonNegative(d, price);
      }
    }
  }

  // ---- the whole plan

  function SkippedSales(desk: Desk): nat {
    |Filter((s: Id) => SkippedSale(desk, s), Symbols(desk.target))|
  }

  lemma {:induction false} SlackCount(desk: Desk, symbols: seq<Id>)
    ensures Sum(Slack(desk), symbols)
         == Worth(|Filter((s: Id) => SkippedSale(desk, s), symbols)| as real, desk.terms.minimum)
  {
    hide SkippedSale, Worth;
    var p := (s: Id) => SkippedSale(desk, s);
    if symbols == [] {
      WorthAdds(0.0, 0.0, desk.terms.minimum);
    } else {
      var init := symbols[..|symbols| - 1];
      SlackCount(desk, init);
      WorthAdds(|Filter(p, init)| as real, 1.0, desk.terms.minimum);
      WorthOne(desk.terms.minimum);
    }
  }

  lemma WorthOne(price: real)
    ensures Worth(1.0, price) == price
  {
  }

  lemma {:induction false} ShareTotal(desk: Desk, symbols: seq<Id>)
    ensures Sum(Share(desk), symbols) == Worth(Sum(At(desk.target), symbols), desk.Value())
  {
    hide Nav, Worth;
    if symbols == [] {
      WorthAdds(0.0, 0.0, desk.Value());
    } else {
      var init, last := symbols[..|symbols| - 1], symbols[|symbols| - 1];
      ShareTotal(desk, init);
      WorthAdds(Sum(At(desk.target), init), Get(desk.target, last), desk.Value());
    }
  }

  /** Cash left by the plan: at least the cash weight's share of NAV, less one minimum per skipped sale. */
  ghost function CashFloor(desk: Desk): real {
    Worth(Get(desk.target, UsdCash), desk.Value()) - Worth(SkippedSales(desk) as real, desk.terms.minimum)
  }

  lemma RiskySumIs(weights: Amounts)
    ensures RiskySum(weights) == Sum(At(weights), Symbols(weights))
  {
  }

  /** Symbol by symbol, holdings and spending stay within shares and slack; so do their sums. */
  lemma SumsOfBudget(desk: Desk)
    requires Ready(desk)
    ensures var symbols := Symbols(desk.target);
      Sum(Held(desk.state.positions, desk.prices), symbols) + Sum(Spend(desk), symbols)
      <= Sum(Share(desk), symbols) + Sum(Slack(desk), symbols)
  {
    hide *;
    var symbols := Symbols(desk.target);
    var held, spend, share, slack := Held(desk.state.positions, desk.prices), Spend(desk), Share(desk), Slack(desk);
    forall s | s in symbols ensures held(s) + spend(s) <= share(s) + slack(s) {
      SymbolBudget(desk, s);
    }
    SumsWithin(held, spend, share, slack, symbols);
  }

  lemma SumsWithin(a: Id -> real, b: Id -> real, c: Id -> real, d: Id -> real, symbols: seq<Id>)
    requires forall s :: s in symbols ==> a(s) + b(s) <= c(s) + d(s)
    ensures Sum(a, symbols) + Sum(b, symbols) <= Sum(c, symbols) + Sum(d, symbols)
  {
    hide Sum;
    var left, right := (s: Id) => a(s) + b(s), (s: Id) => c(s) + d(s);
    SumAtMost(left, right, symbols);
    SumPlus(a, b, left, symbols);
    SumPlus(c, d, right, symbols);
  }

  lemma PlanBudget(desk: Desk)
    requires Ready(desk)
    ensures desk.state.cash - Sum(Spend(desk), Symbols(desk.target)) >= CashFloor(desk)
  {
    hide Sum, Worth, RiskySum, Nav, Spend, Slack, Share, Held, SkippedSale, Symbols;
    var symbols := Symbols(desk.target);
    SumsOfBudget(desk);
    NavOverTargets(desk);
    ShareTotal(desk, symbols);
    RiskySumIs(desk.target);
    SlackCount(desk, symbols);
    WorthAdds(RiskySum(desk.target), Get(desk.target, UsdCash), desk.Value());
    WorthOne(desk.Value());
  }

  // ---- and the other way: what the plan may leave unspent

  /** A purchase below the minimum notional is not planned either. */
  predicate SkippedPurchase(desk: Desk, s: Id) {
    Priced(desk.prices, s) && desk.Skipped(s) && desk.Difference(s) > 0.0
  }

  function SkippedPurchases(desk: Desk): nat {
    |Filter((s: Id) => SkippedPurchase(desk, s), Symbols(desk.target))|
  }

  /** One quantum of the symbol. */
  function Dust(desk: Desk): Id -> real {
    (s: Id) => Worth(0.00000001, Get(desk.prices, s))
  }

  function Shortfall(desk: Desk): Id -> real {
    (s: Id) => if SkippedPurchase(desk, s) then desk.terms.minimum else 0.0
  }

  /** What is held after the plan is worth the symbol's share, but for one quantum and a skipped purchase. */
  lemma SymbolFloor(desk: Desk, s: Id)
    requires Ready(desk) && s in Symbols(desk.target)
    ensures Share(desk)(s) <= Held(desk.state.positions, desk.prices)(s) + Spend(desk)(s) + (Dust(desk)(s) + Shortfall(desk)(s))
  {
    hide TargetQuantity, Worth, RiskySum, Symbols, Nav, Desk.Wanted, IsShare;
    WantedFits(desk, s);
    var price, held, d := desk.prices[s], Get(desk.state.positions, s), desk.Difference(s);
    WorthAdds(held, d, price);
    if desk.Skipped(s) {
      WorthAdds(d, 0.0, price);
      if d <= 0.0 {
        WorthNonNegative(-d, price);
      }
    }
  }

  lemma {:induction false} ShortfallCount(desk: Desk, symbols: seq<Id>)
    ensures Sum(Shortfall(desk), symbols)
         == Worth(|Filter((s: Id) => SkippedPurchase(desk, s), symbols)| as real, desk.terms.minimum)
  {
    hide SkippedPurchase, Worth;
    var p := (s: Id) => SkippedPurchase(desk, s);
    if symbols == [] {
      WorthAdds(0.0, 0.0, desk.terms.minimum);
    } else {
      var init := symbols[..|symbols| - 1];
      ShortfallCount(desk, init);
      WorthAdds(|Filter(p, init)| as real, 1.0, desk.terms.minimum);
      WorthOne(desk.terms.minimum);
    }
  }

  /** Cash left by the plan: at most the cash weight's share of NAV, a quantum per symbol, and one minimum per
      skipped purchase. */
  ghost function CashCeiling(desk: Desk): real {
    Worth(Get(desk.target, UsdCash), desk.Value()) + Sum(Dust(desk), Symbols(desk.target))
    + Worth(SkippedPurchases(desk) as real, desk.terms.minimum)
  }

  lemma SumsOfFloor(desk: Desk)
    requires Ready(desk)
    ensures var symbols := Symbols(desk.target);
      Sum(Share(desk), symbols)
      <= Sum(Held(desk.state.positions, desk.prices), symbols) + Sum(Spend(desk), symbols)
         + Sum(Dust(desk), symbols) + Sum(Shortfall(desk), symbols)
  {
    hide *;
    var symbols := Symbols(desk.target);
    var held, spend, share := Held(desk.state.positions, desk.prices), Spend(desk), Share(desk);
    var dust, shortfall := Dust(desk), Shortfall(desk);
    var zero, both := (s: Id) => 0.0, (s: Id) => dust(s) + shortfall(s);
    var after := (s: Id) => held(s) + spend(s);
    forall s | s in symbols ensures share(s) + zero(s) <= after(s) + both(s) {
      SymbolFloor(desk, s);
    }
    SumsWithin(share, zero, after, both, symbols);
    SumZero(zero, symbols);
    SumPlus(dust, shortfall, both, symbols);
    SumPlus(held, spend, after, symbols);
  }

  lemma PlanSpends(desk: Desk)
    requires Ready(desk)
    ensures desk.state.cash - Sum(Spend(desk), Symbols(desk.target)) <= CashCeiling(desk)
  {
    hide Sum, Worth, RiskySum, Nav, Spend, Shortfall, Share, Held, SkippedPurchase, Symbols, Dust;
    var symbols := Symbols(desk.target);
    SumsOfFloor(desk);
    NavOverTargets(desk);
    ShareTotal(desk, symbols);
    RiskySumIs(desk.target);
    ShortfallCount(desk, symbols);
    WorthAdds(RiskySum(desk.target), Get(desk.target, UsdCash), desk.Value());
    WorthOne(desk.Value());
  }

  // ---- orders and their fills

  function OrderFlow(prices: Amounts): PaperOrder -> real {
    (o: PaperOrder) => if o.side.Buy? then -Worth(o.quantity, Get(prices, o.symbol)) else Worth(o.quantity, Get(prices, o.symbol))
  }

  lemma OrderSpends(desk: Desk, s: Id)
    requires Priced(desk.prices, s) && !desk.Skipped(s)
    ensures OrderFlow(desk.prices)(desk.OrderFor(s)) == -Spend(desk)(s)
  {
    hide Worth, Desk.Difference;
    WorthAdds(desk.Difference(s), 0.0, desk.prices[s]);
  }

  lemma {:induction false} PlanFlow(desk: Desk, symbols: seq<Id>)
    requires forall s :: s in symbols ==> Priced(desk.prices, s)
    ensures Sum(OrderFlow(desk.prices), desk.OrdersFor(symbols)) == -Sum(Spend(desk), symbols)
  {
    hide Worth, Desk.Difference, Desk.OrderFor, Desk.Skipped;
    if symbols != [] {
      var init, last := symbols[..|symbols| - 1], symbols[|symbols| - 1];
      PlanFlow(desk, init);
      if !desk.Skipped(last) {
        OrderSpends(desk, last);
        SumLast(OrderFlow(desk.prices), desk.OrdersFor(init), desk.OrderFor(last));
      } else {
        assert Spend(desk)(last) == 0.0;
      }
    }
  }

  /** The order a symbol would get. */
  ghost predicate PlannedFor(desk: Desk, o: PaperOrder) {
    && Priced(desk.prices, o.symbol)
    && !desk.Skipped(o.symbol)
    && o == desk.OrderFor(o.symbol)
  }

  function SymbolOf(o: PaperOrder): Id { o.symbol }

  lemma {:induction false} PlanShape(desk: Desk, symbols: seq<Id>)
    requires forall s :: s in symbols ==> Priced(desk.prices, s)
    requires forall i, j :: 0 <= i < j < |symbols| ==> symbols[i] != symbols[j]
    ensures DistinctBy(SymbolOf, desk.OrdersFor(symbols))
    ensures forall o :: o in desk.OrdersFor(symbols) ==> PlannedFor(desk, o) && o.symbol in symbols
    ensures forall s :: s in symbols && !desk.Skipped(s) ==> desk.OrderFor(s) in desk.OrdersFor(symbols)
  {
    hide Desk.Difference, Desk.Skipped, Worth;
    if symbols != [] {
      var init, last := symbols[..|symbols| - 1], symbols[|symbols| - 1];
      PlanShape(desk, init);
      assert symbols == init + [last];
    }
  }

  ghost predicate Executes(desk: Desk, o: PaperOrder, f: Fill) {
    && f.arm == o.arm && f.symbol == o.symbol && f.side == o.side && f.quantity == o.quantity
    && f.price == Get(desk.prices, o.symbol)
    && f.commission == 0.0
  }

  /** Every planned order filled once and whole at its planning price, sells before buys. */
  ghost predicate Execution(desk: Desk, orders: seq<PaperOrder>, fills: seq<Fill>)
    requires desk.AllPriced()
  {
    && multiset(orders) == multiset(desk.Plan())
    && |fills| == |orders|
    && (forall i :: 0 <= i < |orders| ==> Executes(desk, orders[i], fills[i]))
    && (forall i, j :: 0 <= i < j < |orders| && orders[i].side.Buy? ==> orders[j].side.Buy?)
  }

  lemma FillFlow(desk: Desk, o: PaperOrder, f: Fill)
    requires Executes(desk, o, f)
    ensures Flow(f) == OrderFlow(desk.prices)(o)
  {
    assert f.Notional() == Worth(o.quantity, Get(desk.prices, o.symbol));
    hide Fill.Notional, Worth;
  }

  lemma {:induction false} FillsFlow(desk: Desk, orders: seq<PaperOrder>, fills: seq<Fill>)
    requires |fills| == |orders| && forall i :: 0 <= i < |orders| ==> Executes(desk, orders[i], fills[i])
    ensures Sum(Flow, fills) == Sum(OrderFlow(desk.prices), orders)
  {
    hide Executes, Flow, OrderFlow;
    if orders != [] {
      var last := |orders| - 1;
      FillsFlow(desk, orders[..last], fills[..last]);
      FillFlow(desk, orders[last], fills[last]);
    }
  }

  /** The plan's fills leave at least the cash floor, and at most the ceiling. */
  lemma FinalCash(desk: Desk, orders: seq<PaperOrder>, fills: seq<Fill>)
    requires Ready(desk) && Execution(desk, orders, fills)
    ensures CashFloor(desk) <= desk.state.cash + Sum(Flow, fills) <= CashCeiling(desk)
  {
    hide Sum, Executes, Desk.OrdersFor, CashFloor, CashCeiling, OrderFlow, Spend;
    FillsFlow(desk, orders, fills);
    SumPermutes(OrderFlow(desk.prices), orders, desk.Plan());
    PlanFlow(desk, Symbols(desk.target));
    PlanBudget(desk);
    PlanSpends(desk);
  }

  // ---- acceptance

  /** Executed orders: each symbol once, valid amounts, no sale beyond the holding, sells first. */
  ghost predicate Orderly(state: ArmState, fills: seq<Fill>) {
    && (forall i, j :: 0 <= i < j < |fills| ==> fills[i].symbol != fills[j].symbol)
    && (forall i, j :: 0 <= i < j < |fills| && fills[i].side.Buy? ==> fills[j].side.Buy?)
    && (forall i :: 0 <= i < |fills| ==> OrderlyFill(state, fills[i]))
  }

  ghost predicate OrderlyFill(state: ArmState, f: Fill) {
    && f.arm == state.arm
    && (f.side.Buy? ==> Flow(f) <= 0.0)
    && (f.side.Sell? ==> Flow(f) >= 0.0)
    && Get(state.positions, f.symbol) + f.Signed() >= 0.0
  }

  lemma OrderIsOrderly(desk: Desk, o: PaperOrder, f: Fill)
    requires Ready(desk) && PlannedFor(desk, o) && o.symbol in Symbols(desk.target) && Executes(desk, o, f)
    ensures OrderlyFill(desk.state, f)
    ensures Get(desk.state.positions, f.symbol) + f.Signed() == desk.Wanted(f.symbol)
  {
    hide Desk.Wanted, Worth, RiskySum, Symbols, Flow;
    WantedFits(desk, o.symbol);
    FillFlow(desk, o, f);
    WorthNonNegative(o.quantity, Get(desk.prices, o.symbol));
  }

  lemma ExecutionIsOrderly(desk: Desk, orders: seq<PaperOrder>, fills: seq<Fill>)
    requires Ready(desk) && Execution(desk, orders, fills)
    ensures Orderly(desk.state, fills)
    ensures forall i :: 0 <= i < |fills| ==>
      && PlannedFor(desk, orders[i])
      && fills[i].symbol == orders[i].symbol
      && Get(desk.state.positions, fills[i].symbol) + fills[i].Signed() == desk.Wanted(fills[i].symbol)
  {
    hide PlannedFor, OrderlyFill, Desk.Wanted, Desk.OrdersFor, RiskySum, Symbols, Fill.Signed;
    OrdersArePlanned(desk, orders);
    forall i | 0 <= i < |fills|
      ensures fills[i].symbol == orders[i].symbol && PlannedFor(desk, orders[i])
      ensures OrderlyFill(desk.state, fills[i])
      ensures Get(desk.state.positions, fills[i].symbol) + fills[i].Signed() == desk.Wanted(fills[i].symbol)
    {
      assert orders[i] in orders;
      OrderIsOrderly(desk, orders[i], fills[i]);
    }
    forall i, j | 0 <= i < j < |fills| ensures fills[i].symbol != fills[j].symbol {
      assert SymbolOf(orders[i]) != SymbolOf(orders[j]);
    }
  }

  lemma OrdersArePlanned(desk: Desk, orders: seq<PaperOrder>)
    requires Ready(desk) && multiset(orders) == multiset(desk.Plan())
    ensures DistinctBy(SymbolOf, orders)
    ensures forall o :: o in orders ==> PlannedFor(desk, o) && o.symbol in Symbols(desk.target)
  {
    hide PlannedFor, DistinctBy, Desk.OrdersFor, RiskySum;
    PlanShape(desk, Symbols(desk.target));
    SameMultiset(orders, desk.Plan());
    DistinctByPermutes(SymbolOf, desk.Plan(), orders);
  }

  /** One fill per symbol moves that symbol by its own quantity only. */
  lemma DeltaOfOne(fills: seq<Fill>, k: nat)
    requires k < |fills| && forall i, j :: 0 <= i < j < |fills| ==> fills[i].symbol != fills[j].symbol
    ensures Sum(Delta(fills[k].symbol), fills[..k + 1]) == fills[k].Signed()
  {
    var d := Delta(fills[k].symbol);
    assert fills[..k + 1] == fills[..k] + [fills[k]];
    SumLast(d, fills[..k], fills[k]);
    SumZero(d, fills[..k]);
  }

  /** With sells first, cash never dips below both its start and its end. */
  lemma CashDips(state: ArmState, fills: seq<Fill>, k: nat)
    requires Orderly(state, fills) && k < |fills|
    ensures Sum(Flow, fills[..k + 1]) >= Min(0.0, Sum(Flow, fills))
  {
    hide Sum, Flow;
    var zero := (f: Fill) => 0.0;
    var head, tail := fills[..k + 1], fills[k + 1..];
    assert fills == head + tail;
    SumConcat(Flow, head, tail);
    if fills[k].side.Sell? {
      SumZero(zero, head);
      SumAtMost(zero, Flow, head);
    } else {
      SumZero(zero, tail);
      SumAtMost(Flow, zero, tail);
    }
  }

  /** An orderly execution is accepted step by step exactly when its final cash is not negative. */
  lemma OrderlyAcceptedExactlyWhen(state: ArmState, fills: seq<Fill>)
    requires Orderly(state, fills) && state.cash >= 0.0
    ensures ApplyAll(state, fills).Ok? <==> state.cash + Sum(Flow, fills) >= 0.0
  {
    hide Sum, ApplyAll, Flow;
    AcceptsExactlyAffordable(state, fills);
    assert fills[..|fills|] == fills;
    if state.cash + Sum(Flow, fills) >= 0.0 {
      forall k | 0 <= k < |fills| ensures Affordable(state, fills, k) {
        DeltaOfOne(fills, k);
        CashDips(state, fills, k);
      }
    } else if fills == [] {
      SumNothing();
    } else {
      assert !Affordable(state, fills, |fills| - 1);
    }
  }

  lemma SumNothing()
    ensures Sum(Flow, []) == 0.0
  {
  }

  /** Where a symbol ends: at its share, unless the way there is nothing or below the minimum. */
  ghost predicate EndsAt(desk: Desk, s: Id, quantity: real) {
    && s in desk.prices
    && exists q ::
         && IsShare(q, desk.Value(), Get(desk.target, s), desk.prices[s])
         && quantity == if q == Get(desk.state.positions, s) || Abs(q - Get(desk.state.positions, s)) * desk.prices[s] < desk.terms.minimum
                        then Get(desk.state.positions, s) else q
  }

  /**
   * Carried out at planning prices, a plan is accepted at every step exactly when its final cash
   * is not negative; that cash lies between the floor and the ceiling. Every symbol ends at its
   * share of the value, or where it was when the plan skipped it.
   */
  lemma RebalanceIsSafe(desk: Desk, orders: seq<PaperOrder>, fills: seq<Fill>)
    requires Ready(desk) && Execution(desk, orders, fills)
    ensures ApplyAll(desk.state, fills).Ok? <==> desk.state.cash + Sum(Flow, fills) >= 0.0
    ensures CashFloor(desk) >= 0.0 ==> ApplyAll(desk.state, fills).Ok?
    ensures ApplyAll(desk.state, fills).Ok? ==>
      && CashFloor(desk) <= ApplyAll(desk.state, fills).value.cash <= CashCeiling(desk)
      && forall s :: s in Symbols(desk.target) ==> EndsAt(desk, s, Get(ApplyAll(desk.state, fills).value.positions, s))
  {
    hide Sum, ApplyAll, CashFloor, CashCeiling, Flow, Orderly, Desk.Skipped, Desk.Wanted, EndsAt, Symbols, RiskySum, Worth;
    FinalCash(desk, orders, fills);
    ExecutionIsOrderly(desk, orders, fills);
    OrderlyAcceptedExactlyWhen(desk.state, fills);
    if ApplyAll(desk.state, fills).Ok? {
      StateIsSum(desk.state, fills);
      SymbolsEnd(desk, orders, fills);
    }
  }

  lemma SymbolsEnd(desk: Desk, orders: seq<PaperOrder>, fills: seq<Fill>)
    requires Ready(desk) && Execution(desk, orders, fills) && ApplyAll(desk.state, fills).Ok?
    ensures forall s :: s in Symbols(desk.target) ==> EndsAt(desk, s, Get(ApplyAll(desk.state, fills).value.positions, s))
  {
    hide Sum, ApplyAll, Desk.Skipped, Desk.Wanted, EndsAt, Execution, Symbols, RiskySum, Worth;
    StateIsSum(desk.state, fills);
    forall s | s in Symbols(desk.target)
      ensures EndsAt(desk, s, Get(ApplyAll(desk.state, fills).value.positions, s))
    {
      FinalPosition(desk, orders, fills, s);
      WantedEnds(desk, s);
    }
  }

  lemma WantedEnds(desk: Desk, s: Id)
    requires Ready(desk) && s in Symbols(desk.target)
    ensures EndsAt(desk, s, if desk.Skipped(s) then Get(desk.state.positions, s) else desk.Wanted(s))
  {
    hide TargetQuantity, RiskySum, Symbols, Nav, IsShare, Desk.Wanted;
    WantedFits(desk, s);
    assert IsShare(desk.Wanted(s), desk.Value(), Get(desk.target, s), desk.prices[s]);
  }

  lemma FinalPosition(desk: Desk, orders: seq<PaperOrder>, fills: seq<Fill>, s: Id)
    requires Ready(desk) && Execution(desk, orders, fills) && s in Symbols(desk.target)
    ensures Get(desk.state.positions, s) + Sum(Delta(s), fills)
         == if desk.Skipped(s) then Get(desk.state.positions, s) else desk.Wanted(s)
  {
    hide Desk.Skipped, Desk.Wanted, Execution, Sum, PlannedFor, OrderlyFill, Symbols, RiskySum, Fill.Signed;
    ExecutionIsOrderly(desk, orders, fills);
    if desk.Skipped(s) {
      SkippedHasNoFill(desk, orders, fills, s);
    } else {
      var k := FillOf(desk, orders, fills, s);
      DeltaOfOnly(fills, k);
    }
  }

  lemma DeltaOfOnly(fills: seq<Fill>, k: nat)
    requires k < |fills| && forall i, j :: 0 <= i < j < |fills| ==> fills[i].symbol != fills[j].symbol
    ensures Sum(Delta(fills[k].symbol), fills) == fills[k].Signed()
  {
    hide Sum;
    var d, tail := Delta(fills[k].symbol), fills[k + 1..];
    DeltaOfOne(fills, k);
    assert fills == fills[..k + 1] + tail;
    SumConcat(d, fills[..k + 1], tail);
    SumZero(d, tail);
  }

  lemma SkippedHasNoFill(desk: Desk, orders: seq<PaperOrder>, fills: seq<Fill>, s: Id)
    requires Ready(desk) && Execution(desk, orders, fills) && s in Symbols(desk.target) && desk.Skipped(s)
    ensures Sum(Delta(s), fills) == 0.0
  {
    ExecutionIsOrderly(desk, orders, fills);
    hide Ready, Desk.Skipped, Desk.Wanted, Execution, Desk.OrderFor;
    forall f | f in fills ensures f.symbol != s {
      var i :| 0 <= i < |fills| && fills[i] == f;
      assert PlannedFor(desk, orders[i]);
    }
    SumZero(Delta(s), fills);
  }

  lemma FillOf(desk: Desk, orders: seq<PaperOrder>, fills: seq<Fill>, s: Id) returns (k: nat)
    requires Ready(desk) && Execution(desk, orders, fills) && s in Symbols(desk.target) && !desk.Skipped(s)
    ensures k < |fills| && fills[k].symbol == s
  {
    PlanShape(desk, Symbols(desk.target));
    SameMultiset(orders, desk.Plan());
    hide Desk.Skipped;
    assert desk.OrderFor(s) in orders;
    k :| 0 <= k < |orders| && orders[k] == desk.OrderFor(s);
  }
}
