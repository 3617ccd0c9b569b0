/** A factorial paper arm: portfolio, pending orders, fills and journal kept side by side. */
module FactorialArm {
  import opened Identifiers
  import opened Ledger
  import opened Ordering
  import opened Portfolio
  import opened Rebalance
  import opened Results
  import opened Totals

  datatype PaperArm = PaperArm(
    arm: Id,
    portfolio: ArmState,
    pending: seq<PaperOrder>,
    fills: seq<Fill>,
    ledger: seq<Entry>,
    nav: real,
    scenario: Id,
    capital: real)

  datatype Fault =
    | NoCapital
    | PlanRefused
    | NoPendingOrder
    | ForeignArm
    | ForeignScenario
    | OtherOrder
    | PredatesOrder
    | AfterExpiry
    | CreatedBeforeEffective
    | ExceedsRemaining
    | PortfolioRefused(refusal: Refusal)
    | JournalRefused
    | NavPriceMissing
    | NotReconciled

  /** The checks every constructed pending order has passed. */
  predicate ValidOrder(o: PaperOrder) {
    0.0 < o.remaining <= o.quantity && o.validUntil > o.createdAt
  }

  /** The live portfolio is what the journal rebuilds, and counts its fills. */
  ghost predicate Reconciled(hash: TransactionId -> int, a: PaperArm) {
    && Rebuilt(hash, a.ledger) == Holdings(a.portfolio.cash, a.portfolio.positions)
    && a.portfolio.sequence == |a.fills|
  }

  /** The checks every constructed arm has passed. */
  ghost predicate WellFormed(hash: TransactionId -> int, a: PaperArm) {
    && a.portfolio.arm == a.arm
    && a.capital > 0.0 && a.portfolio.initialCash == a.capital
    && (forall i :: 0 <= i < |a.pending| ==> a.pending[i].arm == a.arm)
    && (forall i :: 0 <= i < |a.fills| ==> a.fills[i].arm == a.arm && a.fills[i].scenario == a.scenario)
    && Consistent(a.ledger)
    && Reconciled(hash, a)
  }

  ghost function Checked(hash: TransactionId -> int, a: PaperArm): Result<PaperArm, Fault> {
    if WellFormed(hash, a) then Ok(a) else Err(NotReconciled)
  }

  ghost function Initialize(hash: TransactionId -> int, arm: Id, capital: real, at: int, scenario: Id): Result<PaperArm, Fault> {
    if capital <= 0.0 then Err(NoCapital)
    else Checked(hash, PaperArm(arm, Opening(arm, capital), [], [], [CapitalEntry(arm, capital, at)], capital, scenario, capital))
  }

  /** A rebalance replaces no unresolved order. */
  ghost function Plan(hash: TransactionId -> int, a: PaperArm, target: Amounts, prices: Amounts, terms: Terms): Result<PaperArm, Fault> {
    var desk := Desk(a.portfolio, target, prices, terms);
    if terms.validUntil <= terms.createdAt || terms.minimum < 0.0 || a.pending != [] then Err(PlanRefused)
    else if !(a.portfolio.positions.Keys <= prices.Keys) || !desk.AllPriced() then Err(PlanRefused)
    else Checked(hash, a.(pending := desk.Plan(), nav := desk.Value()))
  }

  /** The first pending order with this reference. */
  function Find(pending: seq<PaperOrder>, ref: OrderRef): (o: Option<PaperOrder>)
    ensures o.Some? ==> o.value in pending && o.value.ref == ref
    ensures o.None? <==> forall i :: 0 <= i < |pending| ==> pending[i].ref != ref
  {
    if pending == [] then None
    else if pending[0].ref == ref then Some(pending[0])
    else Find(pending[1..], ref)
  }

  function Others(ref: OrderRef): PaperOrder -> bool {
    (o: PaperOrder) => o.ref != ref
  }

  /** The matched order leaves the queue, and what remains of it goes to the back. */
  function AfterFill(pending: seq<PaperOrder>, matching: PaperOrder, quantity: real): seq<PaperOrder> {
    var rest := Filter(Others(matching.ref), pending);
    if matching.remaining - quantity > 0.0
    then rest + [matching.(remaining := matching.remaining - quantity)]
    else rest
  }

  function FillFault(a: PaperArm, matching: PaperOrder, fill: Fill): Option<Fault> {
    if fill.arm != a.arm then Some(ForeignArm)
    else if fill.scenario != a.scenario then Some(ForeignScenario)
    else if fill.side != matching.side || fill.symbol != matching.symbol then Some(OtherOrder)
    else if fill.effectiveAt < matching.createdAt then Some(PredatesOrder)
    else if fill.effectiveAt > matching.validUntil then Some(AfterExpiry)
    else if fill.createdAt < fill.effectiveAt then Some(CreatedBeforeEffective)
    else if fill.quantity > matching.remaining then Some(ExceedsRemaining)
    else None
  }

  ghost function Apply(hash: TransactionId -> int, a: PaperArm, fill: Fill, prices: Amounts): Result<PaperArm, Fault> {
    var matching := Find(a.pending, fill.order);
    if matching.None? then Err(NoPendingOrder)
    else
      var fault := FillFault(a, matching.value, fill);
      if fault.Some? then Err(fault.value)
      else
        var portfolio := ApplyFill(a.portfolio, fill);
        if portfolio.Err? then Err(PortfolioRefused(portfolio.error))
        else if !Consistent(a.ledger + [FillEntry(fill)]) then Err(JournalRefused)
        else if !(portfolio.value.positions.Keys <= prices.Keys) then Err(NavPriceMissing)
        else
          Checked(hash, PaperArm(
            a.arm,
            portfolio.value,
            AfterFill(a.pending, matching.value, fill.quantity),
            a.fills + [fill],
            a.ledger + [FillEntry(fill)],
            Nav(portfolio.value, prices),
            a.scenario,
            a.capital))
  }

  // ---- runs

  datatype Step =
    | Rebalancing(target: Amounts, prices: Amounts, terms: Terms)
    | Filling(fill: Fill, prices: Amounts)

  ghost predicate ValidStep(step: Step) {
    step.Filling? ==> step.fill.Valid()
  }

  ghost function Attempt(hash: TransactionId -> int, a: PaperArm, step: Step): Result<PaperArm, Fault> {
    match step
    case Rebalancing(target, prices, terms) => Plan(hash, a, target, prices, terms)
    case Filling(fill, prices) => Apply(hash, a, fill, prices)
  }

  /** An arm and every order it has ever planned. */
  datatype History = History(arm: PaperArm, issued: seq<PaperOrder>)

  /** A step that raises leaves the arm as it was. */
  ghost function Next(hash: TransactionId -> int, h: History, step: Step): History {
    var r := Attempt(hash, h.arm, step);
    if r.Err? then h
    else History(r.value, if step.Rebalancing? then h.issued + r.value.pending else h.issued)
  }

  ghost function Run(hash: TransactionId -> int, start: PaperArm, steps: seq<Step>): History {
    if steps == [] then History(start, [])
    else Next(hash, Run(hash, start, steps[..|steps| - 1]), steps[|steps| - 1])
  }
}
