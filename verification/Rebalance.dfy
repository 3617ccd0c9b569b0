/** Rebalance planning of one arm: target quantities from NAV and weights, one order per symbol. */
module Rebalance {
  import opened Decimals
  import opened Identifiers
  import opened Orders
  import opened Portfolio
  import opened Results
  import opened TargetWeights
  import opened Totals

  datatype PaperOrder = PaperOrder(
    ref: OrderRef,
    arm: Id,
    symbol: Id,
    side: Side,
    quantity: real,
    createdAt: int,
    remaining: real,
    validUntil: int)

  datatype Terms = Terms(scope: Id, createdAt: int, validUntil: int, minimum: real)

  datatype PlanFault = MissingNavPrice | MissingPrice(symbol: Id)

  const QuantityQuantum := 0.00000001

  function Worth(quantity: real, price: real): real { quantity * price }

  /** The value of what is held in a symbol. */
  function Held(positions: Amounts, prices: Amounts): Id -> real {
    (k: Id) => Worth(Get(positions, k), Get(prices, k))
  }

  function Nav(state: ArmState, prices: Amounts): real {
    state.cash + Sum(Held(state.positions, prices), Listed(state.positions.Keys))
  }

  function TargetQuantity(nav: real, weight: real, price: real): real
    requires price > 0.0
  {
    QuantizeDown(nav * weight / price, QuantityQuantum)
  }

  predicate Priced(prices: Amounts, symbol: Id) {
    symbol in prices && prices[symbol] > 0.0
  }

  /** Everything one planning call is given. */
  datatype Desk = Desk(state: ArmState, target: Amounts, prices: Amounts, terms: Terms)
  {
    function Value(): real { Nav(state, prices) }

    function Wanted(s: Id): real
      requires Priced(prices, s)
    {
      TargetQuantity(Value(), Get(target, s), prices[s])
    }

    /** What must be bought, or sold when negative. */
    function Difference(s: Id): real
      requires Priced(prices, s)
    {
      Wanted(s) - Get(state.positions, s)
    }

    /** No order is planned for nothing, or for less than the minimum notional. */
    predicate Skipped(s: Id)
      requires Priced(prices, s)
    {
      Difference(s) == 0.0 || Worth(Abs(Difference(s)), prices[s]) < terms.minimum
    }

    function OrderFor(s: Id): PaperOrder
      requires Priced(prices, s)
    {
      var side := if Difference(s) > 0.0 then Buy else Sell;
      var quantity := Abs(Difference(s));
      PaperOrder(
        Planned(terms.scope, state.arm, s, side, quantity),
        state.arm, s, side, quantity, terms.createdAt, quantity, terms.validUntil)
    }

    function OrdersFor(symbols: seq<Id>): seq<PaperOrder>
      requires forall s :: s in symbols ==> Priced(prices, s)
    {
      if symbols == [] then []
      else
        var init, last := symbols[..|symbols| - 1], symbols[|symbols| - 1];
        if Skipped(last) then OrdersFor(init) else OrdersFor(init) + [OrderFor(last)]
    }

    ghost predicate AllPriced() {
      forall s :: s in Symbols(target) ==> Priced(prices, s)
    }

    ghost function Plan(): seq<PaperOrder>
      requires AllPriced()
    {
      OrdersFor(Symbols(target))
    }
  }

  /** Planning fails for a held or targeted symbol without a price, and otherwise plans every symbol. */
  method PlanRebalance(desk: Desk) returns (r: Result<seq<PaperOrder>, PlanFault>)
    ensures r.Ok? <==> desk.state.positions.Keys <= desk.prices.Keys && desk.AllPriced()
    ensures r.Ok? ==> r.value == desk.Plan()
  {
    hide Desk.Skipped, Desk.OrderFor, Desk.OrdersFor, Symbols;
    if !(desk.state.positions.Keys <= desk.prices.Keys) {
      return Err(MissingNavPrice);
    }
    var symbols := Symbols(desk.target);
    var orders: seq<PaperOrder> := [];
    OrdersForNone(desk);
    for k := 0 to |symbols|
      invariant forall i :: 0 <= i < k ==> Priced(desk.prices, symbols[i])
      invariant orders == desk.OrdersFor(symbols[..k])
    {
      OrdersForNext(desk, symbols, k);
      var symbol := symbols[k];
      if !Priced(desk.prices, symbol) {
        assert symbol in symbols;
        return Err(MissingPrice(symbol));
      }
      if !desk.Skipped(symbol) {
        orders := orders + [desk.OrderFor(symbol)];
      }
    }
    assert symbols[..|symbols|] == symbols;
    r := Ok(orders);
  }

  lemma OrdersForNone(desk: Desk)
    ensures desk.OrdersFor([]) == []
  {
  }

  lemma OrdersForNext(desk: Desk, symbols: seq<Id>, k: nat)
    requires k < |symbols| && forall i :: 0 <= i < k ==> Priced(desk.prices, symbols[i])
    ensures Priced(desk.prices, symbols[k]) ==>
      desk.OrdersFor(symbols[..k + 1])
      == desk.OrdersFor(symbols[..k]) + if desk.Skipped(symbols[k]) then [] else [desk.OrderFor(symbols[k])]
  {
    hide Desk.Skipped, Desk.OrderFor;
    assert symbols[..k + 1][..k] == symbols[..k];
  }
}
