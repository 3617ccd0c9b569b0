/** What the batch operations do to every order of a book, and what they leave alone. */
module OrderBookLaws {
  import opened Identifiers
  import opened Orders
  import opened OrderReplay
  import opened OrderAppend
  import opened OrderBook
  import opened Ordering
  import opened Results
  import opened Totals

  ghost predicate Sound(events: seq<Event>) {
    forall e :: e in events ==> e.Valid() && e.Identified()
  }

  function OrderId(o: Order): Id { o.id }

  function PendingId(p: PendingOrder): Id { p.order.id }

  /** Valid orders with distinct ids, well-formed events, and every stream replayable. */
  ghost predicate Book(orders: seq<Order>, events: seq<Event>) {
    && DistinctBy(OrderId, orders)
    && Sound(events)
    && forall o :: o in orders ==> o.Valid() && Reduce(o, events, None).Ok?
  }

  /** Closed without touching what was filled, charged or left. */
  ghost predicate ClosedAs(kind: Kind, before: Aggregate, after: Aggregate) {
    && after.status == kind
    && after.remaining == before.remaining
    && after.filled == before.filled
    && after.commission == before.commission
    && after.sequence == before.sequence + 1
  }

  ghost predicate ClosesSafely(a: Proposal) {
    && a.kind.Terminal() && !a.kind.Fills()
    && a.quantityDelta == 0.0 && a.commissionDelta == 0.0
    && a.occurredAt <= a.availableAt
  }

  lemma {:induction false} UntouchedByOthers(o: Order, events: seq<Event>, r: seq<Event>)
    requires forall e :: e in r ==> e.orderId != o.id
    ensures Relevant(o, events + r, None) == Relevant(o, events, None)
    ensures Reduce(o, events + r, None) == Reduce(o, events, None)
  {
    FilterConcat(Selects(o, None), events, r);
    FilterNone(Selects(o, None), r);
    assert Relevant(o, events, None) + [] == Relevant(o, events, None);
    hide Relevant;
  }

  ghost predicate Closable(p: PendingOrder, events: seq<Event>, a: Proposal) {
    && p.order.Valid()
    && Reduce(p.order, events, None) == Ok(p.aggregate)
    && !p.aggregate.status.Terminal()
    && p.order.createdAt <= a.occurredAt
  }

  /** One closing event on a sound book. */
  lemma AppendCloses(p: PendingOrder, events: seq<Event>, a: Proposal)
    requires Sound(events) && ClosesSafely(a) && Closable(p, events, a)
    ensures AppendEvent(p.order, events, a).Ok?
    ensures
      var e := AppendEvent(p.order, events, a).value;
      && e.Valid() && e.Identified() && e.orderId == p.order.id && e.availableAt == a.availableAt
      && e.sequence == p.aggregate.sequence + 1
      && Reduce(p.order, events + [e], None).Ok?
      && ClosedAs(a.kind, p.aggregate, Reduce(p.order, events + [e], None).value)
  {
    hide AppendEvent, Reduce, Relevant;
    IdentifiedStreamsAreFresh(p.order, events, a);
    AppendIsExact(p.order, events, a);
  }

  lemma {:induction false} EmitAllCloses(chosen: seq<PendingOrder>, events: seq<Event>, a: Proposal)
    requires Sound(events) && ClosesSafely(a) && DistinctBy(PendingId, chosen)
    requires forall p :: p in chosen ==> Closable(p, events, a)
    ensures EmitAll(chosen, events, a).Ok?
    ensures
      var r := EmitAll(chosen, events, a).value;
      && Sound(events + r)
      && (forall e :: e in r ==> e.availableAt == a.availableAt && exists p :: p in chosen && p.order.id == e.orderId)
      && |r| == |chosen|
      && (forall p :: p in chosen ==>
            && Reduce(p.order, events + r, None).Ok?
            && ClosedAs(a.kind, p.aggregate, Reduce(p.order, events + r, None).value)
            && Announced(r, p.order.id, p.aggregate.sequence + 1))
  {
    hide AppendEvent, Reduce, Relevant, ClosedAs, Sound, DistinctBy, EmitAll, ClosesSafely, Closable, Announced;
    if chosen == [] {
      EmitNone(events, a);
      assert events + [] == events;
    } else {
      var init, p := chosen[..|chosen| - 1], chosen[|chosen| - 1];
      assert chosen == init + [p];
      DistinctByLast(PendingId, chosen);
      forall q | q in init ensures q.order.id != p.order.id {
        assert PendingId(q) != PendingId(p);
      }
      EmitAllCloses(init, events, a);
      var r := EmitAll(init, events, a).value;
      StaysClosable(p, events, r, a);
      AppendCloses(p, events + r, a);
      var e := AppendEvent(p.order, events + r, a).value;
      EmitLast(init, p, events, a);
      assert events + (r + [e]) == (events + r) + [e];
      SoundWithLast(events + r, e);
      AnnouncedWithLast(r, e);
      forall q | q in init ensures Reduce(q.order, events + r + [e], None) == Reduce(q.order, events + r, None) {
        UntouchedByOthers(q.order, events + r, [e]);
      }
    }
  }

  /** The events announce this sequence number for the order. */
  ghost predicate Announced(r: seq<Event>, id: Id, sequence: int) {
    exists i :: 0 <= i < |r| && r[i].orderId == id && r[i].sequence == sequence
  }

  lemma AnnouncedWithLast(r: seq<Event>, e: Event)
    ensures forall id, n :: Announced(r, id, n) ==> Announced(r + [e], id, n)
    ensures Announced(r + [e], e.orderId, e.sequence)
  {
    var more := r + [e];
    forall id, n | Announced(r, id, n) ensures Announced(more, id, n) {
      var i :| 0 <= i < |r| && r[i].orderId == id && r[i].sequence == n;
      assert more[i] == r[i];
    }
    assert more[|r|] == e;
  }

  lemma EmitNone(events: seq<Event>, a: Proposal)
    ensures EmitAll([], events, a) == Ok([])
  {
  }

  lemma StaysClosable(p: PendingOrder, events: seq<Event>, r: seq<Event>, a: Proposal)
    requires Closable(p, events, a) && forall e :: e in r ==> e.orderId != p.order.id
    ensures Closable(p, events + r, a)
  {
    hide Reduce;
    UntouchedByOthers(p.order, events, r);
  }

  lemma SoundWithLast(events: seq<Event>, e: Event)
    requires Sound(events) && e.Valid() && e.Identified()
    ensures Sound(events + [e])
  {
  }

  // ---- the pending query

  lemma {:induction false} CollectIsExact(orders: seq<Order>, events: seq<Event>, asOf: Option<int>)
    requires forall o :: o in orders ==> Reduce(o, events, asOf).Ok?
    ensures CollectPending(orders, events, asOf).Ok?
    ensures
      var found := CollectPending(orders, events, asOf).value;
      && (forall p :: p in found <==>
            p.order in orders && Reduce(p.order, events, asOf) == Ok(p.aggregate) && p.aggregate.Pending())
      && (DistinctBy(OrderId, orders) ==> DistinctBy(PendingId, found))
  {
    hide Reduce;
    if orders != [] {
      var init, last := orders[..|orders| - 1], orders[|orders| - 1];
      assert orders == init + [last];
      CollectIsExact(init, events, asOf);
      var found := CollectPending(init, events, asOf).value;
      if DistinctBy(OrderId, orders) {
        forall i | 0 <= i < |init| ensures OrderId(init[i]) != OrderId(last) {
          assert init[i] == orders[i];
        }
        assert DistinctBy(OrderId, init) by {
          assert forall i :: 0 <= i < |init| ==> init[i] == orders[i];
        }
        forall i | 0 <= i < |found| ensures PendingId(found[i]) != last.id {
          assert found[i] in found && found[i].order in init;
        }
      }
    }
  }

  /** Created earlier, or at the same time under no larger id. */
  ghost predicate NotAfter(a: Order, b: Order) {
    a.createdAt < b.createdAt || (a.createdAt == b.createdAt && a.id.code <= b.id.code)
  }

  ghost predicate ByCreation(s: seq<PendingOrder>) {
    forall i, j :: 0 <= i < j < |s| ==> NotAfter(s[i].order, s[j].order)
  }

  lemma SortedByCreation(found: seq<PendingOrder>)
    ensures ByCreation(Sort(Before, found))
  {
    SortIsSorted(Before, found);
    var sorted := Sort(Before, found);
    forall i, j | 0 <= i < j < |sorted| ensures NotAfter(sorted[i].order, sorted[j].order) {
      assert Before(sorted[i], sorted[j]);
    }
  }

  lemma PendingIsExact(orders: seq<Order>, events: seq<Event>, asOf: Option<int>)
    requires forall o :: o in orders ==> Reduce(o, events, asOf).Ok?
    ensures PendingOrders(orders, events, asOf).Ok?
    ensures
      var found := PendingOrders(orders, events, asOf).value;
      && (forall p :: p in found <==>
            p.order in orders && Reduce(p.order, events, asOf) == Ok(p.aggregate) && p.aggregate.Pending())
      && (DistinctBy(OrderId, orders) ==> DistinctBy(PendingId, found))
      && ByCreation(found)
  {
    hide Reduce, DistinctBy, ByCreation;
    CollectIsExact(orders, events, asOf);
    var found := CollectPending(orders, events, asOf).value;
    SortIsPermutation(Before, found);
    SortedByCreation(found);
    if DistinctBy(OrderId, orders) {
      DistinctByPermutes(PendingId, found, Sort(Before, found));
    }
  }

  // ---- what a batch emits

  /** An event that closes an order, announced at these instants by this cycle. */
  ghost predicate Closes(e: Event, kind: Kind, occurredAt: int, availableAt: int, cycle: string) {
    && e.kind == kind && e.quantityDelta == 0.0 && e.commissionDelta == 0.0
    && e.occurredAt == occurredAt && e.availableAt == availableAt && e.origin == cycle
  }

  lemma AppendCarries(order: Order, existing: seq<Event>, a: Proposal)
    requires AppendEvent(order, existing, a).Ok?
    ensures AppendEvent(order, existing, a).value.orderId == order.id && Carries(AppendEvent(order, existing, a).value, a)
  {
    AppendedIsValid(order, existing, a);
  }

  lemma {:induction false} EmittedInTurn(chosen: seq<PendingOrder>, events: seq<Event>, a: Proposal)
    requires EmitAll(chosen, events, a).Ok?
    ensures var r := EmitAll(chosen, events, a).value;
      && |r| == |chosen|
      && forall i :: 0 <= i < |r| ==> r[i].orderId == chosen[i].order.id && Carries(r[i], a)
  {
    hide AppendEvent, Carries;
    if chosen != [] {
      var init, last := chosen[..|chosen| - 1], chosen[|chosen| - 1];
      EmittedInTurn(init, events, a);
      AppendCarries(last.order, events + EmitAll(init, events, a).value, a);
    }
  }

  /** The events of a batch are in the creation order of the orders they close. */
  ghost predicate InCreationOrder(orders: seq<Order>, r: seq<Event>) {
    forall i, j :: 0 <= i < j < |r| ==> InTurn(orders, r[i].orderId, r[j].orderId)
  }

  ghost predicate InTurn(orders: seq<Order>, x: Id, y: Id) {
    exists a, b :: a in orders && b in orders && a.id == x && b.id == y && NotAfter(a, b)
  }

  lemma BatchEmits(orders: seq<Order>, events: seq<Event>, asOf: Option<int>, select: PendingOrder -> bool, a: Proposal)
    requires Batch(orders, events, asOf, select, a).Ok?
    ensures var r := Batch(orders, events, asOf, select, a).value;
      InCreationOrder(orders, r) && forall e :: e in r ==> Carries(e, a)
  {
    hide EmitAll, Carries, ByCreation, Filter, PendingOrders, InCreationOrder;
    var pending := PendingOrders(orders, events, asOf).value;
    var chosen := Filter(select, pending);
    EmittedInTurn(chosen, events, a);
    FoundInOrder(orders, events, asOf);
    FilterKeepsOrder(select, pending);
    ChosenInOrder(orders, chosen, EmitAll(chosen, events, a).value);
    forall e | e in EmitAll(chosen, events, a).value ensures Carries(e, a) {
    }
  }

  lemma ChosenInOrder(orders: seq<Order>, chosen: seq<PendingOrder>, r: seq<Event>)
    requires |r| == |chosen| && forall i :: 0 <= i < |r| ==> r[i].orderId == chosen[i].order.id
    requires forall p :: p in chosen ==> p.order in orders
    requires ByCreation(chosen)
    ensures InCreationOrder(orders, r)
  {
    forall i, j | 0 <= i < j < |r| ensures InTurn(orders, r[i].orderId, r[j].orderId) {
      var a, b := chosen[i].order, chosen[j].order;
      assert chosen[i] in chosen && chosen[j] in chosen;
      assert a in orders && b in orders && NotAfter(a, b);
    }
  }

  lemma FoundInOrder(orders: seq<Order>, events: seq<Event>, asOf: Option<int>)
    requires PendingOrders(orders, events, asOf).Ok?
    ensures var found := PendingOrders(orders, events, asOf).value;
      (forall p :: p in found ==> p.order in orders) && ByCreation(found)
  {
    hide ByCreation, CollectPending, Sort;
    FoundAreOrders(orders, events, asOf);
    SortedByCreation(CollectPending(orders, events, asOf).value);
  }

  lemma {:induction false} FoundAreOrders(orders: seq<Order>, events: seq<Event>, asOf: Option<int>)
    requires CollectPending(orders, events, asOf).Ok?
    ensures forall p :: p in CollectPending(orders, events, asOf).value ==> p.order in orders
    ensures forall p :: p in PendingOrders(orders, events, asOf).value ==> p.order in orders
  {
    hide Reduce;
    if orders != [] {
      FoundAreOrders(orders[..|orders| - 1], events, asOf);
    }
    SortIsPermutation(Before, CollectPending(orders, events, asOf).value);
  }

  lemma {:induction false} FilterKeepsOrder(select: PendingOrder -> bool, s: seq<PendingOrder>)
    requires ByCreation(s)
    ensures ByCreation(Filter(select, s))
  {
    if s != [] {
      var init, last := s[..|s| - 1], s[|s| - 1];
      assert init + [last] == s;
      FilterKeepsOrder(select, init);
      FilterLast(select, init, last);
      var kept := Filter(select, init);
      hide Filter, NotAfter;
      forall i | 0 <= i < |kept| ensures NotAfter(kept[i].order, last.order) {
        BeforeTheLast(s, kept[i]);
      }
    }
  }

  lemma BeforeTheLast(s: seq<PendingOrder>, p: PendingOrder)
    requires ByCreation(s) && s != [] && p in s[..|s| - 1]
    ensures NotAfter(p.order, s[|s| - 1].order)
  {
    var k :| 0 <= k < |s| - 1 && s[k] == p;
  }

  /** What each operation announces, whatever the book: its own kind, instants and cycle, in creation order. */
  lemma OperationsAnnounce(orders: seq<Order>, events: seq<Event>, replacements: seq<Order>,
                           occurredAt: int, availableAt: int, cycle: string, atBoundary: bool)
    ensures var r := SoftStop(orders, events, occurredAt, availableAt, cycle);
      r.Ok? ==>
        && InCreationOrder(orders, r.value)
        && forall e :: e in r.value ==> Closes(e, CanceledByRisk, occurredAt, availableAt, cycle)
    ensures var r := Supersede(orders, events, replacements, occurredAt, availableAt, cycle);
      r.Ok? ==>
        && InCreationOrder(orders, r.value)
        && forall e :: e in r.value ==> Closes(e, Superseded, occurredAt, availableAt, cycle)
    ensures var r := Expire(orders, events, occurredAt, cycle, atBoundary);
      r.Ok? ==>
        && InCreationOrder(orders, r.value)
        && forall e :: e in r.value ==> Closes(e, Expired, occurredAt, occurredAt, cycle)
  {
    hide Batch, InCreationOrder;
    if SoftStop(orders, events, occurredAt, availableAt, cycle).Ok? {
      BatchEmits(orders, events, None, IsBuy, Closing(CanceledByRisk, occurredAt, availableAt, cycle));
    }
    if Filter(IsNormal, replacements) == [] {
      NothingToOrder(orders);
    } else if Supersede(orders, events, replacements, occurredAt, availableAt, cycle).Ok? {
      BatchEmits(orders, events, None, Replaced(replacements), Closing(Superseded, occurredAt, availableAt, cycle));
    }
    if Expire(orders, events, occurredAt, cycle, atBoundary).Ok? {
      BatchEmits(orders, events, Some(occurredAt), Lapsed(occurredAt, atBoundary), Closing(Expired, occurredAt, occurredAt, cycle));
    }
  }

  lemma NothingToOrder(orders: seq<Order>)
    ensures InCreationOrder(orders, [])
  {
  }

  // ---- a batch over the book

  ghost predicate Chosen(o: Order, events: seq<Event>, select: PendingOrder -> bool) {
    match Reduce(o, events, None)
    case Ok(g) => g.Pending() && select(PendingOrder(o, g))
    case Err(_) => false
  }

  /** The chosen orders are closed, every other order keeps its aggregate. */
  ghost predicate ClosesExactly(orders: seq<Order>, events: seq<Event>, after: seq<Event>,
                                select: PendingOrder -> bool, kind: Kind)
    requires Book(orders, events) && Book(orders, after)
  {
    forall o :: o in orders ==>
      if Chosen(o, events, select)
      then ClosedAs(kind, Reduce(o, events, None).value, Reduce(o, after, None).value)
      else Reduce(o, after, None) == Reduce(o, events, None)
  }

  lemma BatchClosesExactly(orders: seq<Order>, events: seq<Event>, select: PendingOrder -> bool, a: Proposal)
    requires Book(orders, events) && ClosesSafely(a)
    requires forall o :: o in orders && Chosen(o, events, select) ==> o.createdAt <= a.occurredAt
    ensures Batch(orders, events, None, select, a).Ok?
    ensures
      var after := events + Batch(orders, events, None, select, a).value;
      Book(orders, after) && ClosesExactly(orders, events, after, select, a.kind)
    ensures forall e :: e in Batch(orders, events, None, select, a).value ==> e.availableAt == a.availableAt
  {
    hide Reduce, DistinctBy, EmitAll, PendingOrders, Filter, Sound, ClosedAs;
    PendingIsExact(orders, events, None);
    var pending := PendingOrders(orders, events, None).value;
    DistinctByFilter(PendingId, select, pending);
    var chosen := Filter(select, pending);
    forall p | p in chosen ensures Closable(p, events, a) {
      assert p in pending && select(p);
      assert Chosen(p.order, events, select);
    }
    EmitAllCloses(chosen, events, a);
    var r := EmitAll(chosen, events, a).value;
    forall o | o in orders
      ensures Reduce(o, events + r, None).Ok?
      ensures
        if Chosen(o, events, select)
        then ClosedAs(a.kind, Reduce(o, events, None).value, Reduce(o, events + r, None).value)
        else Reduce(o, events + r, None) == Reduce(o, events, None)
    {
      var g := Reduce(o, events, None).value;
      if Chosen(o, events, select) {
        assert PendingOrder(o, g) in pending;
        assert PendingOrder(o, g) in chosen;
      } else {
        forall e | e in r ensures e.orderId != o.id {
          var p :| p in chosen && p.order.id == e.orderId;
          assert p in pending;
          if p.order.id == o.id {
            SameOrder(orders, p.order, o);
          }
        }
        UntouchedByOthers(o, events, r);
      }
    }
  }

  lemma SameOrder(orders: seq<Order>, a: Order, b: Order)
    requires DistinctBy(OrderId, orders) && a in orders && b in orders && a.id == b.id
    ensures a == b
  {
    var i :| 0 <= i < |orders| && orders[i] == a;
    var j :| 0 <= j < |orders| && orders[j] == b;
    assert i < j ==> OrderId(orders[i]) != OrderId(orders[j]);
    assert j < i ==> OrderId(orders[j]) != OrderId(orders[i]);
  }

  /** A batch with nothing left to choose emits nothing. */
  lemma NothingChosen(orders: seq<Order>, events: seq<Event>, select: PendingOrder -> bool, a: Proposal)
    requires Book(orders, events)
    requires forall o :: o in orders ==> !Chosen(o, events, select)
    ensures Batch(orders, events, None, select, a) == Ok([])
  {
    hide Reduce, DistinctBy;
    PendingIsExact(orders, events, None);
    var pending := PendingOrders(orders, events, None).value;
    forall p | p in pending ensures !select(p) {
      assert !Chosen(p.order, events, select);
    }
    FilterNone(select, pending);
  }

  /** Running the same batch again emits nothing. */
  lemma BatchIsIdempotent(orders: seq<Order>, events: seq<Event>, after: seq<Event>,
                          select: PendingOrder -> bool, kind: Kind, again: Proposal)
    requires Book(orders, events) && Book(orders, after) && kind.Terminal()
    requires ClosesExactly(orders, events, after, select, kind)
    ensures Batch(orders, after, None, select, again) == Ok([])
  {
    hide Reduce, Batch;
    NothingChosen(orders, after, select, again);
  }

  // ---- soft stop

  lemma SoftStopBlocksOnlyBuys(orders: seq<Order>, events: seq<Event>, occurredAt: int, availableAt: int, cycle: string)
    requires Book(orders, events) && occurredAt <= availableAt
    requires forall o :: o in orders && Chosen(o, events, IsBuy) ==> o.createdAt <= occurredAt
    ensures SoftStop(orders, events, occurredAt, availableAt, cycle).Ok?
    ensures
      var after := events + SoftStop(orders, events, occurredAt, availableAt, cycle).value;
      && Book(orders, after)
      && (forall o :: o in orders ==>
            if o.side == Buy && PendingIn(o, events)
            then ClosedAs(CanceledByRisk, Reduce(o, events, None).value, Reduce(o, after, None).value)
            else Reduce(o, after, None) == Reduce(o, events, None))
      && (forall o :: o in orders && o.side == Buy ==> !PendingIn(o, after))
      // a second soft stop, at whatever instants, has nothing to do
      && (forall later, seen, next :: SoftStop(orders, after, later, seen, next) == Ok([]))
  {
    hide Reduce, Batch;
    var a := Closing(CanceledByRisk, occurredAt, availableAt, cycle);
    BatchClosesExactly(orders, events, IsBuy, a);
    var after := events + SoftStop(orders, events, occurredAt, availableAt, cycle).value;
    forall later, seen, next ensures SoftStop(orders, after, later, seen, next) == Ok([]) {
      BatchIsIdempotent(orders, events, after, IsBuy, CanceledByRisk, Closing(CanceledByRisk, later, seen, next));
    }
  }

  ghost predicate PendingIn(o: Order, events: seq<Event>) {
    Reduce(o, events, None).Ok? && Reduce(o, events, None).value.Pending()
  }

  // ---- supersession

  ghost predicate Sells(o: Order, arm: Id, symbol: Id) {
    o.side.Sell? && o.arm == arm && o.symbol == symbol
  }

  /** Pending SELL quantity of one arm in one symbol. */
  ghost function PendingSells(orders: seq<Order>, events: seq<Event>, arm: Id, symbol: Id): real {
    if orders == [] then 0.0
    else
      var last := orders[|orders| - 1];
      PendingSells(orders[..|orders| - 1], events, arm, symbol)
      + if Sells(last, arm, symbol) && PendingIn(last, events) then Reduce(last, events, None).value.remaining else 0.0
  }

  function NormalSale(arm: Id, symbol: Id): Order -> real {
    (r: Order) => if r.orderClass == Normal && r.side == Sell && r.arm == arm && r.symbol == symbol then r.quantity else 0.0
  }

  /** What supersession is meant to take out: a pending NORMAL order whose arm has a NORMAL replacement, and of the
      SELLs only one that the same-symbol NORMAL replacement SELLs of its arm cover. */
  ghost predicate Taken(o: Order, events: seq<Event>, replacements: seq<Order>) {
    && PendingIn(o, events)
    && o.orderClass == Normal
    && (exists r :: r in replacements && r.orderClass == Normal && r.arm == o.arm)
    && (o.side == Sell ==> Sum(NormalSale(o.arm, o.symbol), replacements) >= Reduce(o, events, None).value.remaining)
  }

  lemma {:induction false} ReplacementSellsIsSum(replacements: seq<Order>, arm: Id, symbol: Id)
    ensures ReplacementSells(replacements, arm, symbol) == Sum(NormalSale(arm, symbol), replacements)
  {
    if replacements != [] {
      ReplacementSellsIsSum(replacements[..|replacements| - 1], arm, symbol);
    }
  }

  lemma ChosenIsTaken(o: Order, events: seq<Event>, replacements: seq<Order>)
    ensures Chosen(o, events, Replaced(replacements)) <==> Taken(o, events, replacements)
  {
    hide Reduce, Sum, ReplacementSells;
    ReplacementSellsIsSum(replacements, o.arm, o.symbol);
  }

  /** The part of it that a set of replacement orders takes out of the book. */
  ghost function SupersededSells(orders: seq<Order>, events: seq<Event>, replacements: seq<Order>, arm: Id, symbol: Id): real {
    if orders == [] then 0.0
    else
      var last := orders[|orders| - 1];
      SupersededSells(orders[..|orders| - 1], events, replacements, arm, symbol)
      + if Sells(last, arm, symbol) && Taken(last, events, replacements)
        then Reduce(last, events, None).value.remaining else 0.0
  }

  lemma {:induction false} SellsAccount(orders: seq<Order>, events: seq<Event>, after: seq<Event>,
                                        replacements: seq<Order>, arm: Id, symbol: Id)
    requires forall o :: o in orders ==> Reduce(o, events, None).Ok? && Reduce(o, after, None).Ok?
    requires forall o :: o in orders ==>
      if Taken(o, events, replacements)
      then ClosedAs(Superseded, Reduce(o, events, None).value, Reduce(o, after, None).value)
      else Reduce(o, after, None) == Reduce(o, events, None)
    ensures PendingSells(orders, after, arm, symbol)
         == PendingSells(orders, events, arm, symbol) - SupersededSells(orders, events, replacements, arm, symbol)
  {
    hide Reduce;
    if orders != [] {
      assert orders[|orders| - 1] in orders;
      SellsAccount(orders[..|orders| - 1], events, after, replacements, arm, symbol);
    }
  }

  /** Superseding ends exactly the orders it is meant to take, leaves every other aggregate as it was, and keeps
      sell coverage in a symbol exactly when the residuals taken out add up to no more than the replacement
      SELL quantity. */
  lemma SupersedeKeepsCoverageExactlyWhen(orders: seq<Order>, events: seq<Event>, replacements: seq<Order>,
                                          occurredAt: int, availableAt: int, cycle: string, arm: Id, symbol: Id)
    requires Book(orders, events) && occurredAt <= availableAt
    requires forall o :: o in orders && Taken(o, events, replacements) ==> o.createdAt <= occurredAt
    ensures Supersede(orders, events, replacements, occurredAt, availableAt, cycle).Ok?
    ensures
      var after := events + Supersede(orders, events, replacements, occurredAt, availableAt, cycle).value;
      && Book(orders, after)
      && (forall o :: o in orders ==>
            if Taken(o, events, replacements)
            then ClosedAs(Superseded, Reduce(o, events, None).value, Reduce(o, after, None).value)
            else Reduce(o, after, None) == Reduce(o, events, None))
      && (PendingSells(orders, after, arm, symbol) + Sum(NormalSale(arm, symbol), replacements)
            >= PendingSells(orders, events, arm, symbol)
          <==> SupersededSells(orders, events, replacements, arm, symbol) <= Sum(NormalSale(arm, symbol), replacements))
  {
    hide Reduce, Batch, Replaced, PendingSells, SupersededSells, Sum, Taken, ClosedAs;
    var a := Closing(Superseded, occurredAt, availableAt, cycle);
    forall o | o in orders ensures Chosen(o, events, Replaced(replacements)) <==> Taken(o, events, replacements) {
      ChosenIsTaken(o, events, replacements);
    }
    if Filter(IsNormal, replacements) == [] {
      assert events + [] == events;
      forall o | o in orders ensures !Taken(o, events, replacements) {
        NothingTaken(o, events, replacements);
      }
    } else {
      BatchClosesExactly(orders, events, Replaced(replacements), a);
    }
    var after := events + Supersede(orders, events, replacements, occurredAt, availableAt, cycle).value;
    SellsAccount(orders, events, after, replacements, arm, symbol);
  }

  lemma NothingTaken(o: Order, events: seq<Event>, replacements: seq<Order>)
    requires Filter(IsNormal, replacements) == []
    ensures !Taken(o, events, replacements)
  {
    hide Reduce, Sum;
    forall r | r in replacements ensures r.orderClass != Normal {
      assert r !in Filter(IsNormal, replacements);
    }
  }

  ghost predicate PendingNormalSell(o: Order, events: seq<Event>, arm: Id, symbol: Id) {
    IsNormal(o) && Sells(o, arm, symbol) && PendingIn(o, events)
  }

  /** No two positions of the book hold pending NORMAL SELLs of the same arm and symbol. */
  ghost predicate OnePendingNormalSell(orders: seq<Order>, events: seq<Event>, arm: Id, symbol: Id) {
    forall i, j :: 0 <= i < j < |orders| ==>
      !(PendingNormalSell(orders[i], events, arm, symbol) && PendingNormalSell(orders[j], events, arm, symbol))
  }

  lemma {:induction false} ReplacementNonNegative(replacements: seq<Order>, arm: Id, symbol: Id)
    requires forall r :: r in replacements ==> r.Valid()
    ensures Sum(NormalSale(arm, symbol), replacements) >= 0.0
  {
    if replacements != [] {
      ReplacementNonNegative(replacements[..|replacements| - 1], arm, symbol);
      assert replacements[|replacements| - 1] in replacements;
    }
  }

  /** With at most one pending NORMAL SELL per arm and symbol, coverage always survives. */
  lemma {:induction false} OneSellIsCovered(orders: seq<Order>, events: seq<Event>, replacements: seq<Order>, arm: Id, symbol: Id)
    requires forall r :: r in replacements ==> r.Valid()
    requires OnePendingNormalSell(orders, events, arm, symbol)
    ensures SupersededSells(orders, events, replacements, arm, symbol) <= Sum(NormalSale(arm, symbol), replacements)
    ensures SupersededSells(orders, events, replacements, arm, symbol) == 0.0
            || exists o :: o in orders && PendingNormalSell(o, events, arm, symbol)
  {
    hide Reduce, Sum;
    ReplacementNonNegative(replacements, arm, symbol);
    if orders != [] {
      var init, last := orders[..|orders| - 1], orders[|orders| - 1];
      assert forall i :: 0 <= i < |init| ==> init[i] == orders[i];
      OneSellIsCovered(init, events, replacements, arm, symbol);
      if Sells(last, arm, symbol) && Taken(last, events, replacements) {
        assert PendingNormalSell(orders[|orders| - 1], events, arm, symbol);
      }
    }
  }

  // ---- two pending sells in one symbol: each is compared on its own, so both can be taken out

  function TenShareSell(code: nat): Order {
    Order(Id(code), Id(0), Id(0), Sell, 10.0, Normal, 0, 100)
  }

  function Opened(o: Order): Event {
    Build(o, Proposal(Created, 0.0, 0.0, o.createdAt, o.createdAt, ""), 1, o.quantity, 0.0, 0.0)
  }

  lemma OpenedIsPending(o: Order, events: seq<Event>, others: seq<Event>)
    requires o.Valid() && (forall e :: e in events + others ==> e.orderId != o.id)
    ensures Opened(o).Valid() && Opened(o).Identified()
    ensures Reduce(o, events + [Opened(o)] + others, None) == Ok(Aggregate(Created, o.quantity, 0.0, 0.0, 1, Opened(o).id))
  {
    FilterNone(Selects(o, None), events);
    ReduceOfFirst(o, events, Opened(o));
    hide Reduce;
    UntouchedByOthers(o, events + [Opened(o)], others);
  }

  const TWO_SELLS := [TenShareSell(1), TenShareSell(2)]
  const TWO_OPENED := [Opened(TenShareSell(1)), Opened(TenShareSell(2))]
  const ONE_REPLACEMENT := [TenShareSell(3)]

  lemma TwoSellsArePending()
    ensures forall o :: o in TWO_SELLS ==>
      Reduce(o, TWO_OPENED, None) == Ok(Aggregate(Created, 10.0, 0.0, 0.0, 1, Opened(o).id))
    ensures Sound(TWO_OPENED)
  {
    var a, b := TenShareSell(1), TenShareSell(2);
    hide Reduce;
    OpenedIsPending(a, [], [Opened(b)]);
    OpenedIsPending(b, [Opened(a)], []);
    assert [] + [Opened(a)] + [Opened(b)] == TWO_OPENED && [Opened(a)] + [Opened(b)] + [] == TWO_OPENED;
  }

  lemma TwoSellsAreTaken()
    ensures Sum(NormalSale(Id(0), Id(0)), ONE_REPLACEMENT) == 10.0
    ensures forall o :: o in TWO_SELLS ==> Taken(o, TWO_OPENED, ONE_REPLACEMENT)
  {
    TwoSellsArePending();
    hide Reduce;
    assert ONE_REPLACEMENT[..0] == [];
    assert TenShareSell(3) in ONE_REPLACEMENT;
  }

  lemma TwoSellsAddUp()
    ensures SupersededSells(TWO_SELLS, TWO_OPENED, ONE_REPLACEMENT, Id(0), Id(0)) == 20.0
  {
    TwoSellsArePending();
    TwoSellsAreTaken();
    hide Reduce, Taken;
    var a, b := TenShareSell(1), TenShareSell(2);
    assert TWO_SELLS[..1] == [a] && [a][..0] == [];
    assert a in TWO_SELLS && b in TWO_SELLS;
    assert SupersededSells([a], TWO_OPENED, ONE_REPLACEMENT, Id(0), Id(0)) == 10.0;
  }

  /** The one-pending-sell hypothesis is needed: ten replacement shares take twenty pending ones out of the book. */
  lemma TwoSellsLoseCoverage()
    ensures Book(TWO_SELLS, TWO_OPENED) && forall r :: r in ONE_REPLACEMENT ==> r.Valid()
    ensures
      var r := Supersede(TWO_SELLS, TWO_OPENED, ONE_REPLACEMENT, 1, 1, "");
      && r.Ok?
      && PendingSells(TWO_SELLS, TWO_OPENED + r.value, Id(0), Id(0)) + Sum(NormalSale(Id(0), Id(0)), ONE_REPLACEMENT)
         < PendingSells(TWO_SELLS, TWO_OPENED, Id(0), Id(0))
  {
    TwoSellsArePending();
    TwoSellsAreTaken();
    TwoSellsAddUp();
    hide Reduce, Taken, Sum, SupersededSells, PendingSells, Supersede, Sound;
    SupersedeKeepsCoverageExactlyWhen(TWO_SELLS, TWO_OPENED, ONE_REPLACEMENT, 1, 1, "", Id(0), Id(0));
  }
}
