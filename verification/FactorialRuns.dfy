/** What every run of a factorial arm keeps: its books reconcile and its orders are conserved. */
module FactorialRuns {
  import opened FactorialArm
  import opened Identifiers
  import opened Ledger
  import opened Ordering
  import opened Portfolio
  import opened Rebalance
  import opened RebalanceLaws
  import opened Results
  import opened TargetWeights
  import opened Totals

  // ---- the books

  /** The portfolio is the run of the fills, the ledger is their journal, and no fill id repeats. */
  ghost predicate BooksMatch(a: PaperArm, at: int) {
    && a.capital > 0.0
    && ApplyAll(Opening(a.arm, a.capital), a.fills) == Ok(a.portfolio)
    && a.ledger == Journal(a.arm, a.capital, at, a.fills)
    && DistinctBy(FillId, a.fills)
    && (forall i :: 0 <= i < |a.fills| ==> a.fills[i].arm == a.arm && a.fills[i].scenario == a.scenario)
    && (forall i :: 0 <= i < |a.pending| ==> a.pending[i].arm == a.arm)
  }

  /** Matching books pass every check of a constructed arm: reconciliation cannot fail. */
  lemma MatchingBooksReconcile(hash: TransactionId -> int, a: PaperArm, at: int)
    requires BooksMatch(a, at)
    ensures WellFormed(hash, a)
  {
    hide Consistent, ApplyAll, Rebuilt, Journal, DistinctBy;
    StateIsSum(Opening(a.arm, a.capital), a.fills);
    JournalRebuildsRun(hash, a.arm, a.capital, at, a.fills);
    JournalIsConsistentExactlyWhen(a.arm, a.capital, at, a.fills);
  }

  ghost predicate FreshFill(a: PaperArm, fill: Fill) {
    forall i :: 0 <= i < |a.fills| ==> a.fills[i].id != fill.id
  }

  lemma JournalGrows(arm: Id, capital: real, at: int, fills: seq<Fill>, fill: Fill)
    ensures Journal(arm, capital, at, fills + [fill]) == Journal(arm, capital, at, fills) + [FillEntry(fill)]
  {
  }

  lemma ApplyAllLast(state: ArmState, fills: seq<Fill>, fill: Fill)
    requires ApplyAll(state, fills).Ok?
    ensures ApplyAll(state, fills + [fill]) == ApplyFill(ApplyAll(state, fills).value, fill)
  {
    assert (fills + [fill])[..|fills|] == fills;
  }

  lemma DistinctGrows(fills: seq<Fill>, fill: Fill)
    requires DistinctBy(FillId, fills)
    ensures DistinctBy(FillId, fills + [fill]) <==> forall i :: 0 <= i < |fills| ==> fills[i].id != fill.id
  {
    var more := fills + [fill];
    if DistinctBy(FillId, more) {
      forall i | 0 <= i < |fills| ensures fills[i].id != fill.id {
        assert FillId(more[i]) != FillId(more[|fills|]);
      }
    }
  }

  /** The fill is of this order, in its lifetime and within what remains of it. */
  ghost predicate Matches(a: PaperArm, o: PaperOrder, fill: Fill) {
    && fill.arm == a.arm && fill.scenario == a.scenario && fill.side == o.side && fill.symbol == o.symbol
    && o.createdAt <= fill.effectiveAt <= o.validUntil && fill.effectiveAt <= fill.createdAt
    && fill.quantity <= o.remaining
  }

  /** The arm's own fill, of what it holds and what it can pay. */
  ghost predicate CanTake(state: ArmState, fill: Fill) {
    && fill.arm == state.arm
    && Get(state.positions, fill.symbol) + fill.Signed() >= 0.0 && state.cash + fill.CashFlow() >= 0.0
  }

  lemma CanTakeIs(state: ArmState, fill: Fill)
    ensures CanTake(state, fill) <==> ApplyFill(state, fill).Ok?
  {
  }

  lemma MatchesIs(a: PaperArm, o: PaperOrder, fill: Fill)
    ensures Matches(a, o, fill) <==> FillFault(a, o, fill).None?
  {
  }

  /** What a fill of a pending order must satisfy. */
  ghost predicate Admissible(a: PaperArm, fill: Fill, prices: Amounts) {
    var matching := Find(a.pending, fill.order);
    && matching.Some?
    && Matches(a, matching.value, fill)
    && CanTake(a.portfolio, fill)
    && FreshFill(a, fill)
    && a.portfolio.positions.Keys + {fill.symbol} <= prices.Keys
  }

  ghost function Filled(a: PaperArm, fill: Fill, prices: Amounts): PaperArm
    requires Admissible(a, fill, prices)
  {
    CanTakeIs(a.portfolio, fill);
    var portfolio := ApplyFill(a.portfolio, fill).value;
    PaperArm(
      a.arm, portfolio,
      AfterFill(a.pending, Find(a.pending, fill.order).value, fill.quantity),
      a.fills + [fill], a.ledger + [FillEntry(fill)],
      Nav(portfolio, prices), a.scenario, a.capital)
  }

  lemma FilledBooksMatch(a: PaperArm, at: int, fill: Fill, prices: Amounts)
    requires BooksMatch(a, at) && Admissible(a, fill, prices)
    ensures BooksMatch(Filled(a, fill, prices), at)
  {
    hide ApplyAll, Journal, DistinctBy, ApplyFill, Nav, CanTake;
    CanTakeIs(a.portfolio, fill);
    JournalGrows(a.arm, a.capital, at, a.fills, fill);
    ApplyAllLast(Opening(a.arm, a.capital), a.fills, fill);
    DistinctGrows(a.fills, fill);
    var pending := AfterFill(a.pending, Find(a.pending, fill.order).value, fill.quantity);
    forall i | 0 <= i < |pending| ensures pending[i].arm == a.arm {
      assert pending[i] in pending;
    }
  }

  lemma FreshExactlyWhen(a: PaperArm, at: int, fill: Fill)
    requires BooksMatch(a, at) && fill.arm == a.arm
    ensures Consistent(a.ledger + [FillEntry(fill)]) <==> FreshFill(a, fill)
  {
    hide Consistent, ApplyAll, Journal, DistinctBy;
    JournalGrows(a.arm, a.capital, at, a.fills, fill);
    DistinctGrows(a.fills, fill);
    JournalIsConsistentExactlyWhen(a.arm, a.capital, at, a.fills + [fill]);
  }

  lemma FillAddsSymbol(state: ArmState, fill: Fill)
    requires ApplyFill(state, fill).Ok?
    ensures ApplyFill(state, fill).value.positions.Keys == state.positions.Keys + {fill.symbol}
  {
  }

  lemma MatchedArm(a: PaperArm, o: PaperOrder, fill: Fill)
    ensures Matches(a, o, fill) ==> fill.arm == a.arm
  {
  }

  /** On matching books a fill is accepted exactly when it is admissible; no other check can fail. */
  lemma FillAcceptedExactlyWhen(hash: TransactionId -> int, a: PaperArm, at: int, fill: Fill, prices: Amounts)
    requires BooksMatch(a, at)
    ensures Apply(hash, a, fill, prices).Ok? <==> Admissible(a, fill, prices)
    ensures Admissible(a, fill, prices) ==>
      Apply(hash, a, fill, prices) == Ok(Filled(a, fill, prices)) && BooksMatch(Filled(a, fill, prices), at)
    ensures Apply(hash, a, fill, prices) != Err(NotReconciled)
  {
    hide Consistent, WellFormed, BooksMatch, ApplyFill, Nav, AfterFill, FreshFill, FillEntry, CanTake, Matches;
    var matching := Find(a.pending, fill.order);
    CanTakeIs(a.portfolio, fill);
    if matching.Some? {
      MatchesIs(a, matching.value, fill);
      MatchedArm(a, matching.value, fill);
    }
    if matching.Some? && FillFault(a, matching.value, fill).None? && ApplyFill(a.portfolio, fill).Ok? {
      FillAddsSymbol(a.portfolio, fill);
      FreshExactlyWhen(a, at, fill);
      if Admissible(a, fill, prices) {
        FilledBooksMatch(a, at, fill, prices);
        MatchingBooksReconcile(hash, Filled(a, fill, prices), at);
      }
    }
  }

  /** On matching books a plan is made exactly for a valid term, when nothing is pending, everything held has a price and
      everything targeted a positive one; it changes the pending orders and the value, nothing else. */
  lemma PlanAcceptedExactlyWhen(hash: TransactionId -> int, a: PaperArm, at: int, target: Amounts, prices: Amounts, terms: Terms)
    requires BooksMatch(a, at)
    ensures Plan(hash, a, target, prices, terms).Ok? <==>
      && terms.createdAt < terms.validUntil && terms.minimum >= 0.0 && a.pending == []
      && a.portfolio.positions.Keys <= prices.Keys
      && (forall k :: k in target && k != UsdCash ==> k in prices && prices[k] > 0.0)
    ensures Plan(hash, a, target, prices, terms).Ok? ==>
      var desk := Desk(a.portfolio, target, prices, terms);
      && desk.AllPriced()
      && Plan(hash, a, target, prices, terms).value == a.(pending := desk.Plan(), nav := Nav(a.portfolio, prices))
      && BooksMatch(Plan(hash, a, target, prices, terms).value, at)
  {
    hide ApplyAll, Journal, DistinctBy, WellFormed, Nav, Desk.Plan, Desk.AllPriced, BooksMatch;
    var desk := Desk(a.portfolio, target, prices, terms);
    PricedExactlyWhen(desk);
    if desk.AllPriced() {
      PlannedBooksMatch(a, at, desk);
      MatchingBooksReconcile(hash, a.(pending := desk.Plan(), nav := desk.Value()), at);
    }
  }

  lemma PricedExactlyWhen(desk: Desk)
    ensures desk.AllPriced() <==> forall k :: k in desk.target && k != UsdCash ==> k in desk.prices && desk.prices[k] > 0.0
  {
    forall k ensures k in Symbols(desk.target) <==> k in desk.target && k != UsdCash {
    }
    if desk.AllPriced() {
      forall k | k in desk.target && k != UsdCash ensures k in desk.prices && desk.prices[k] > 0.0 {
        assert k in Symbols(desk.target);
      }
    }
  }

  lemma PlannedBooksMatch(a: PaperArm, at: int, desk: Desk)
    requires BooksMatch(a, at) && desk.state == a.portfolio && desk.AllPriced()
    ensures BooksMatch(a.(pending := desk.Plan(), nav := desk.Value()), at)
  {
    hide ApplyAll, Journal, DistinctBy, Nav, Desk.Plan, Desk.AllPriced;
    PlanIsOwn(desk);
    OwnPortfolio(a, at);
  }

  lemma OwnPortfolio(a: PaperArm, at: int)
    requires BooksMatch(a, at)
    ensures a.portfolio.arm == a.arm
  {
    hide ApplyAll, Journal, DistinctBy;
    StateIsSum(Opening(a.arm, a.capital), a.fills);
  }

  lemma PlanIsOwn(desk: Desk)
    requires desk.AllPriced()
    ensures forall i :: 0 <= i < |desk.Plan()| ==> desk.Plan()[i].arm == desk.state.arm
  {
    hide PlannedFor, Desk.OrdersFor, DistinctBy;
    PlanIsPlanned(desk);
    forall i | 0 <= i < |desk.Plan()| ensures desk.Plan()[i].arm == desk.state.arm {
      assert desk.Plan()[i] in desk.Plan();
      PlannedArm(desk, desk.Plan()[i]);
    }
  }

  lemma PlannedArm(desk: Desk, o: PaperOrder)
    requires PlannedFor(desk, o)
    ensures o.arm == desk.state.arm
  {
  }

  lemma PlanKeepsBooks(hash: TransactionId -> int, a: PaperArm, at: int, target: Amounts, prices: Amounts, terms: Terms)
    requires BooksMatch(a, at) && Plan(hash, a, target, prices, terms).Ok?
    ensures BooksMatch(Plan(hash, a, target, prices, terms).value, at)
  {
    hide ApplyAll, Journal, DistinctBy, Consistent, Reconciled;
  }

  /** An initialized arm starts with matching books. */
  lemma InitialBooksMatch(hash: TransactionId -> int, arm: Id, capital: real, at: int, scenario: Id)
    requires capital > 0.0
    ensures Initialize(hash, arm, capital, at, scenario).Ok?
    ensures BooksMatch(Initialize(hash, arm, capital, at, scenario).value, at)
  {
    var a := PaperArm(arm, Opening(arm, capital), [], [], [CapitalEntry(arm, capital, at)], capital, scenario, capital);
    assert Journal(arm, capital, at, []) == a.ledger;
    assert BooksMatch(a, at);
    MatchingBooksReconcile(hash, a, at);
    hide WellFormed;
  }

  lemma StepKeepsBooks(hash: TransactionId -> int, h: History, at: int, step: Step)
    requires BooksMatch(h.arm, at)
    ensures BooksMatch(Next(hash, h, step).arm, at)
  {
    hide BooksMatch, Plan, Apply, Admissible, Filled;
    match step
    case Rebalancing(target, prices, terms) =>
      if Plan(hash, h.arm, target, prices, terms).Ok? {
        PlanKeepsBooks(hash, h.arm, at, target, prices, terms);
      }
    case Filling(fill, prices) =>
      FillAcceptedExactlyWhen(hash, h.arm, at, fill, prices);
  }

  /** After every run of plans and fills the books match, so the reconciliation check never fires. */
  lemma {:induction false} EveryRunReconciles(hash: TransactionId -> int, arm: Id, capital: real, at: int, scenario: Id, steps: seq<Step>)
    requires capital > 0.0
    ensures Initialize(hash, arm, capital, at, scenario).Ok?
    ensures var a := Run(hash, Initialize(hash, arm, capital, at, scenario).value, steps).arm;
      && BooksMatch(a, at)
      && WellFormed(hash, a)
      && a.portfolio.sequence == |a.fills|
  {
    hide BooksMatch, WellFormed, Next, Initialize;
    InitialBooksMatch(hash, arm, capital, at, scenario);
    var start := Initialize(hash, arm, capital, at, scenario).value;
    if steps != [] {
      EveryRunReconciles(hash, arm, capital, at, scenario, steps[..|steps| - 1]);
      StepKeepsBooks(hash, Run(hash, start, steps[..|steps| - 1]), at, steps[|steps| - 1]);
    }
    var a := Run(hash, start, steps).arm;
    MatchingBooksReconcile(hash, a, at);
    assert a.portfolio.sequence == |a.fills| by { CountsFills(hash, a); }
  }

  lemma CountsFills(hash: TransactionId -> int, a: PaperArm)
    requires WellFormed(hash, a)
    ensures a.portfolio.sequence == |a.fills|
  {
  }

  /** Sorted replay agrees with the live arm whenever it is accepted, and always on ordered arrival. */
  lemma LiveArmIsReplay(a: PaperArm, at: int)
    requires BooksMatch(a, at)
    ensures Rebuild(a.arm, a.capital, a.fills).Ok? ==> Rebuild(a.arm, a.capital, a.fills) == Ok(a.portfolio)
    ensures Sorted(ByTime, a.fills) ==> Rebuild(a.arm, a.capital, a.fills) == Ok(a.portfolio)
  {
    hide Journal, DistinctBy, ApplyAll, Rebuild, Sorted;
    if Rebuild(a.arm, a.capital, a.fills).Ok? {
      LiveIsReplay(a.arm, a.capital, a.fills);
    }
    if Sorted(ByTime, a.fills) {
      OrderedArrivalReplays(a.arm, a.capital, a.fills);
    }
  }

  // ---- the orders

  function Left(ref: OrderRef): PaperOrder -> real {
    (o: PaperOrder) => if o.ref == ref then o.remaining else 0.0
  }

  function Done(ref: OrderRef): Fill -> real {
    (f: Fill) => if f.order == ref then f.quantity else 0.0
  }

  function RefOf(o: PaperOrder): OrderRef { o.ref }

  ghost predicate Issued(issued: seq<PaperOrder>, ref: OrderRef) {
    exists i :: 0 <= i < |issued| && issued[i].ref == ref
  }

  /** An issued order is partly filled and partly pending, and nothing else. */
  ghost predicate Conserved(a: PaperArm, o: PaperOrder) {
    Sum(Done(o.ref), a.fills) + Sum(Left(o.ref), a.pending) == o.quantity
  }

  ghost predicate OrdersMatch(h: History) {
    && DistinctBy(RefOf, h.arm.pending)
    && (forall i :: 0 <= i < |h.arm.pending| ==> ValidOrder(h.arm.pending[i]) && Issued(h.issued, h.arm.pending[i].ref))
    && (forall i :: 0 <= i < |h.arm.fills| ==> Issued(h.issued, h.arm.fills[i].order))
    && (forall i :: 0 <= i < |h.issued| ==> Conserved(h.arm, h.issued[i]))
  }

  /** Every issued order carries one of these scopes. */
  ghost predicate Scoped(issued: seq<PaperOrder>, scopes: set<Id>) {
    forall i :: 0 <= i < |issued| ==> issued[i].ref.Planned? && issued[i].ref.scope in scopes
  }

  lemma {:induction false} LeftOfOthers(pending: seq<PaperOrder>, x: OrderRef, ref: OrderRef)
    ensures Sum(Left(ref), Filter(Others(x), pending)) == if ref == x then 0.0 else Sum(Left(ref), pending)
  {
    if pending != [] {
      var init, last := pending[..|pending| - 1], pending[|pending| - 1];
      LeftOfOthers(init, x, ref);
      if last.ref != x {
        SumLast(Left(ref), Filter(Others(x), init), last);
      }
    }
  }

  lemma LeftOfPending(pending: seq<PaperOrder>, o: PaperOrder)
    requires DistinctBy(RefOf, pending) && o in pending
    ensures Sum(Left(o.ref), pending) == o.remaining
  {
    hide Sum;
    var j :| 0 <= j < |pending| && pending[j] == o;
    SumWithout(Left(o.ref), pending, j);
    forall p | p in Without(pending, j) ensures Left(o.ref)(p) == 0.0 {
      var i :| 0 <= i < |pending| && i != j && pending[i] == p;
      assert RefOf(pending[i]) != RefOf(pending[j]);
    }
    SumZero(Left(o.ref), Without(pending, j));
  }

  /** A fill moves its quantity from what is left of its own order, and of no other. */
  lemma LeftAfterFill(pending: seq<PaperOrder>, o: PaperOrder, quantity: real, ref: OrderRef)
    requires DistinctBy(RefOf, pending) && o in pending && quantity <= o.remaining
    ensures Sum(Left(ref), AfterFill(pending, o, quantity))
         == Sum(Left(ref), pending) - if ref == o.ref then quantity else 0.0
  {
    hide Sum;
    LeftOfOthers(pending, o.ref, ref);
    LeftOfPending(pending, o);
    SumLast(Left(ref), Filter(Others(o.ref), pending), o.(remaining := o.remaining - quantity));
  }

  lemma PendingAfterFill(pending: seq<PaperOrder>, o: PaperOrder, quantity: real)
    requires DistinctBy(RefOf, pending) && o in pending && 0.0 < quantity <= o.remaining && ValidOrder(o)
    ensures DistinctBy(RefOf, AfterFill(pending, o, quantity))
    ensures forall p :: p in AfterFill(pending, o, quantity) ==>
      p in pending || (ValidOrder(p) && p.ref == o.ref)
  {
    DistinctByFilter(RefOf, Others(o.ref), pending);
    var rest := Filter(Others(o.ref), pending);
    forall i | 0 <= i < |rest| ensures RefOf(rest[i]) != o.ref {
      assert rest[i] in rest;
    }
  }

  lemma FillKeepsConserved(a: PaperArm, fill: Fill, prices: Amounts, o: PaperOrder)
    requires DistinctBy(RefOf, a.pending) && Admissible(a, fill, prices) && Conserved(a, o)
    ensures Conserved(Filled(a, fill, prices), o)
  {
    hide Sum, ApplyFill, Nav, AfterFill, FreshFill, DistinctBy;
    var matching := Find(a.pending, fill.order).value;
    SumLast(Done(o.ref), a.fills, fill);
    LeftAfterFill(a.pending, matching, fill.quantity, o.ref);
  }

  lemma FillKeepsOrders(h: History, fill: Fill, prices: Amounts)
    requires OrdersMatch(h) && fill.Valid() && Admissible(h.arm, fill, prices)
    ensures OrdersMatch(History(Filled(h.arm, fill, prices), h.issued))
  {
    hide Sum, ApplyFill, Nav, AfterFill, FreshFill, DistinctBy, Issued, Conserved, ValidOrder;
    var a, after := h.arm, Filled(h.arm, fill, prices);
    var matching := Find(a.pending, fill.order).value;
    assert ValidOrder(matching) && Issued(h.issued, matching.ref);
    PendingAfterFill(a.pending, matching, fill.quantity);
    forall i | 0 <= i < |after.pending|
      ensures ValidOrder(after.pending[i]) && Issued(h.issued, after.pending[i].ref)
    {
      assert after.pending[i] in after.pending;
    }
    forall i | 0 <= i < |h.issued| ensures Conserved(after, h.issued[i]) {
      FillKeepsConserved(a, fill, prices, h.issued[i]);
    }
  }

  lemma PlannedOrder(desk: Desk, o: PaperOrder)
    requires PlannedFor(desk, o) && desk.terms.validUntil > desk.terms.createdAt
    ensures ValidOrder(o) && o.remaining == o.quantity
    ensures o.createdAt == desk.terms.createdAt && o.validUntil == desk.terms.validUntil
    ensures o.ref == Planned(desk.terms.scope, desk.state.arm, o.symbol, o.side, o.quantity)
  {
    hide Desk.Difference, Worth;
  }

  /** The orders of a plan made under one scope. */
  ghost predicate PlanOf(plan: seq<PaperOrder>, scope: Id) {
    && DistinctBy(RefOf, plan)
    && (forall o :: o in plan ==> ValidOrder(o) && o.remaining == o.quantity && o.ref.Planned? && o.ref.scope == scope)
  }

  lemma PlanIsPlanned(desk: Desk)
    requires desk.AllPriced()
    ensures DistinctBy(SymbolOf, desk.Plan())
    ensures forall o :: o in desk.Plan() ==> PlannedFor(desk, o)
  {
    hide PlannedFor, Desk.OrdersFor, DistinctBy;
    PlanShape(desk, Symbols(desk.target));
  }

  lemma PlannedOrders(desk: Desk)
    requires desk.AllPriced() && desk.terms.validUntil > desk.terms.createdAt
    ensures PlanOf(desk.Plan(), desk.terms.scope)
  {
    hide PlannedFor, Desk.Plan, ValidOrder;
    PlanIsPlanned(desk);
    var plan := desk.Plan();
    forall o | o in plan
      ensures ValidOrder(o) && o.remaining == o.quantity
      ensures o.ref == Planned(desk.terms.scope, desk.state.arm, SymbolOf(o), o.side, o.quantity)
    {
      PlannedOrder(desk, o);
    }
    forall i, j | 0 <= i < j < |plan| ensures RefOf(plan[i]) != RefOf(plan[j]) {
      assert SymbolOf(plan[i]) != SymbolOf(plan[j]);
      assert plan[i] in plan && plan[j] in plan;
    }
  }

  /** A plan's orders are new when its scope is: nothing of them is filled, all of them is pending. */
  lemma NewOrderConserved(h: History, scopes: set<Id>, plan: seq<PaperOrder>, after: PaperArm, o: PaperOrder)
    requires after.pending == plan && after.fills == h.arm.fills
    requires OrdersMatch(h) && Scoped(h.issued, scopes) && DistinctBy(RefOf, plan)
    requires o in plan && o.remaining == o.quantity && o.ref.Planned? && o.ref.scope !in scopes
    ensures Conserved(after, o)
  {
    hide Sum, DistinctBy, ValidOrder;
    forall f | f in h.arm.fills ensures Done(o.ref)(f) == 0.0 {
      var i :| 0 <= i < |h.arm.fills| && h.arm.fills[i] == f;
      assert Issued(h.issued, f.order);
    }
    SumZero(Done(o.ref), h.arm.fills);
    LeftOfPending(plan, o);
  }

  lemma OldOrderConserved(h: History, scopes: set<Id>, scope: Id, plan: seq<PaperOrder>, after: PaperArm, o: PaperOrder)
    requires after.pending == plan && after.fills == h.arm.fills
    requires Scoped(h.issued, scopes) && scope !in scopes && h.arm.pending == []
    requires forall p :: p in plan ==> p.ref.Planned? && p.ref.scope == scope
    requires o in h.issued && Conserved(h.arm, o)
    ensures Conserved(after, o)
  {
    assert o.ref.scope in scopes;
    SumZero(Left(o.ref), plan);
  }

  lemma IssuedGrows(issued: seq<PaperOrder>, plan: seq<PaperOrder>, ref: OrderRef)
    ensures Issued(issued, ref) ==> Issued(issued + plan, ref)
    ensures forall i :: 0 <= i < |plan| ==> Issued(issued + plan, plan[i].ref)
  {
    var all := issued + plan;
    if Issued(issued, ref) {
      var i :| 0 <= i < |issued| && issued[i].ref == ref;
      assert all[i].ref == ref;
    }
    forall i | 0 <= i < |plan| ensures Issued(all, plan[i].ref) {
      assert all[|issued| + i].ref == plan[i].ref;
    }
  }

  lemma NewPlanConserves(h: History, scopes: set<Id>, scope: Id, plan: seq<PaperOrder>, after: PaperArm)
    requires OrdersMatch(h) && Scoped(h.issued, scopes) && h.arm.pending == []
    requires PlanOf(plan, scope) && scope !in scopes
    requires after.pending == plan && after.fills == h.arm.fills
    ensures forall o :: o in h.issued + plan ==> Conserved(after, o)
  {
    hide Conserved, DistinctBy, Issued, ValidOrder;
    forall o | o in h.issued + plan ensures Conserved(after, o) {
      if o in plan {
        NewOrderConserved(h, scopes, plan, after, o);
      } else {
        OldOrderConserved(h, scopes, scope, plan, after, o);
      }
    }
  }

  lemma NewPlanKeepsOrders(h: History, scopes: set<Id>, scope: Id, plan: seq<PaperOrder>, after: PaperArm)
    requires OrdersMatch(h) && Scoped(h.issued, scopes) && h.arm.pending == []
    requires PlanOf(plan, scope) && scope !in scopes
    requires after.pending == plan && after.fills == h.arm.fills
    ensures OrdersMatch(History(after, h.issued + plan))
    ensures Scoped(h.issued + plan, scopes + {scope})
  {
    hide Conserved, DistinctBy, Issued, ValidOrder;
    NewPlanConserves(h, scopes, scope, plan, after);
    forall i | 0 <= i < |after.fills| ensures Issued(h.issued + plan, after.fills[i].order) {
      IssuedGrows(h.issued, plan, after.fills[i].order);
    }
    forall i | 0 <= i < |plan| ensures Issued(h.issued + plan, plan[i].ref) {
      IssuedGrows(h.issued, plan, plan[i].ref);
    }
  }

  lemma PlanKeepsOrders(h: History, scopes: set<Id>, desk: Desk)
    requires OrdersMatch(h) && Scoped(h.issued, scopes) && h.arm.pending == []
    requires desk.AllPriced() && desk.terms.validUntil > desk.terms.createdAt && desk.terms.scope !in scopes
    ensures OrdersMatch(History(h.arm.(pending := desk.Plan(), nav := desk.Value()), h.issued + desk.Plan()))
    ensures Scoped(h.issued + desk.Plan(), scopes + {desk.terms.scope})
  {
    hide OrdersMatch, Scoped, PlanOf, Desk.Plan, Desk.Value;
    PlannedOrders(desk);
    NewPlanKeepsOrders(h, scopes, desk.terms.scope, desk.Plan(), h.arm.(pending := desk.Plan(), nav := desk.Value()));
  }

  /** The scopes a run has used, one per planning step. */
  ghost function Scopes(steps: seq<Step>): set<Id> {
    if steps == [] then {}
    else
      var last := steps[|steps| - 1];
      Scopes(steps[..|steps| - 1]) + if last.Rebalancing? then {last.terms.scope} else {}
  }

  /** No two planning steps share a scope. */
  ghost predicate ScopesDiffer(steps: seq<Step>) {
    steps != [] ==>
      && ScopesDiffer(steps[..|steps| - 1])
      && (steps[|steps| - 1].Rebalancing? ==> steps[|steps| - 1].terms.scope !in Scopes(steps[..|steps| - 1]))
  }

  lemma StepKeepsOrders(hash: TransactionId -> int, h: History, at: int, scopes: set<Id>, step: Step)
    requires BooksMatch(h.arm, at) && OrdersMatch(h) && Scoped(h.issued, scopes) && ValidStep(step)
    requires step.Rebalancing? ==> step.terms.scope !in scopes
    ensures OrdersMatch(Next(hash, h, step))
    ensures Scoped(Next(hash, h, step).issued, scopes + if step.Rebalancing? then {step.terms.scope} else {})
  {
    hide OrdersMatch, BooksMatch, WellFormed, Admissible, Filled, Apply, Desk.Plan, Desk.Value, Desk.AllPriced;
    match step
    case Rebalancing(target, prices, terms) =>
      if Plan(hash, h.arm, target, prices, terms).Ok? {
        PlanKeepsOrders(h, scopes, Desk(h.arm.portfolio, target, prices, terms));
      }
    case Filling(fill, prices) =>
      FillAcceptedExactlyWhen(hash, h.arm, at, fill, prices);
      if Admissible(h.arm, fill, prices) {
        FillKeepsOrders(h, fill, prices);
      }
  }

  lemma {:induction false} RunKeepsOrders(hash: TransactionId -> int, arm: Id, capital: real, at: int, scenario: Id, steps: seq<Step>)
    requires capital > 0.0 && ScopesDiffer(steps)
    requires forall i :: 0 <= i < |steps| ==> ValidStep(steps[i])
    ensures Initialize(hash, arm, capital, at, scenario).Ok?
    ensures var h := Run(hash, Initialize(hash, arm, capital, at, scenario).value, steps);
      OrdersMatch(h) && Scoped(h.issued, Scopes(steps))
  {
    hide BooksMatch, WellFormed, Next;
    InitialBooksMatch(hash, arm, capital, at, scenario);
    if steps != [] {
      var init, last := steps[..|steps| - 1], steps[|steps| - 1];
      hide Initialize, OrdersMatch;
      var start := Initialize(hash, arm, capital, at, scenario).value;
      RunKeepsOrders(hash, arm, capital, at, scenario, init);
      EveryRunReconciles(hash, arm, capital, at, scenario, init);
      StepKeepsOrders(hash, Run(hash, start, init), at, Scopes(init), last);
    }
  }

  /**
   * In every run whose plans use different scopes, filled plus remaining is the quantity of every
   * order ever planned, and every pending order has something left, but no more than it began with.
   */
  lemma EveryOrderIsConserved(hash: TransactionId -> int, arm: Id, capital: real, at: int, scenario: Id, steps: seq<Step>)
    requires capital > 0.0 && ScopesDiffer(steps)
    requires forall i :: 0 <= i < |steps| ==> ValidStep(steps[i])
    ensures Initialize(hash, arm, capital, at, scenario).Ok?
    ensures var h := Run(hash, Initialize(hash, arm, capital, at, scenario).value, steps);
      && (forall i :: 0 <= i < |h.issued| ==>
            Sum(Done(h.issued[i].ref), h.arm.fills) + Sum(Left(h.issued[i].ref), h.arm.pending) == h.issued[i].quantity)
      && (forall i :: 0 <= i < |h.arm.pending| ==> 0.0 < h.arm.pending[i].remaining <= h.arm.pending[i].quantity)
  {
    hide Run, Initialize, Sum;
    RunKeepsOrders(hash, arm, capital, at, scenario, steps);
    var h := Run(hash, Initialize(hash, arm, capital, at, scenario).value, steps);
    forall i | 0 <= i < |h.issued|
      ensures Sum(Done(h.issued[i].ref), h.arm.fills) + Sum(Left(h.issued[i].ref), h.arm.pending) == h.issued[i].quantity
    {
      assert Conserved(h.arm, h.issued[i]);
    }
  }
}
