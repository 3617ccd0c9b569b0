/** Expiry of a book as it was known at an instant, applied to the whole of its streams. */
module OrderExpiry {
  import opened Identifiers
  import opened Orders
  import opened OrderReplay
  import opened OrderReplayLaws
  import opened OrderAppend
  import opened OrderBook
  import opened OrderBookLaws
  import opened Ordering
  import opened Results

  /** Pending in the view at the instant, and past its validity or at the boundary. */
  ghost predicate Due(o: Order, events: seq<Event>, asOf: int, atBoundary: bool) {
    match Reduce(o, events, Some(asOf))
    case Ok(g) => g.Pending() && (atBoundary || o.validUntil < asOf)
    case Err(_) => false
  }

  /** Every order's stream replays as far as it was available at the instant. */
  ghost predicate ViewsReplay(orders: seq<Order>, events: seq<Event>, asOf: int) {
    forall o :: o in orders ==> Reduce(o, events, Some(asOf)).Ok?
  }

  ghost predicate EndedIn(o: Order, events: seq<Event>) {
    Reduce(o, events, None).Ok? && Reduce(o, events, None).value.status.Terminal()
  }

  // ---- the view

  /** A stream that replays at an instant belongs to an order created by then. */
  lemma ViewFollowsCreation(o: Order, events: seq<Event>, asOf: int)
    requires o.Valid() && Sound(events) && Reduce(o, events, Some(asOf)).Ok?
    ensures o.createdAt <= asOf
  {
    hide Reduce, Fold;
    var view := Relevant(o, events, Some(asOf));
    OkMeansContiguous(o, events, Some(asOf));
    var ordered := Sort(Earlier, view);
    SameMultiset(ordered, view);
    AcceptedIsConsistent(o, ordered, 0);
    assert ordered[0] in view;
  }

  lemma {:induction false} CollectFails(orders: seq<Order>, events: seq<Event>, asOf: Option<int>, o: Order)
    requires o in orders && Reduce(o, events, asOf).Err?
    ensures CollectPending(orders, events, asOf).Err?
  {
    hide Reduce;
    var init, last := orders[..|orders| - 1], orders[|orders| - 1];
    assert orders == init + [last];
    if o in init {
      CollectFails(init, events, asOf, o);
    }
  }

  // ---- emitting for orders chosen in a view

  function OrdersOf(chosen: seq<PendingOrder>): (r: seq<Order>)
    ensures |r| == |chosen| && forall i :: 0 <= i < |r| ==> r[i] == chosen[i].order
  {
    seq(|chosen|, i requires 0 <= i < |chosen| => chosen[i].order)
  }

  /** What is emitted depends on the chosen orders, not on the aggregates they were chosen by. */
  lemma {:induction false} EmitByOrder(a: seq<PendingOrder>, b: seq<PendingOrder>, events: seq<Event>, p: Proposal)
    requires OrdersOf(a) == OrdersOf(b)
    ensures EmitAll(a, events, p) == EmitAll(b, events, p)
  {
    hide AppendEvent;
    if a != [] {
      assert |b| == |a|;
      var i := |a| - 1;
      assert OrdersOf(a)[i] == OrdersOf(b)[i];
      forall k | 0 <= k < i ensures a[k].order == b[k].order {
        assert OrdersOf(a)[k] == OrdersOf(b)[k];
      }
      assert OrdersOf(a[..i]) == OrdersOf(b[..i]);
      EmitByOrder(a[..i], b[..i], events, p);
    }
  }

  lemma {:induction false} EmittedBelongToChosen(chosen: seq<PendingOrder>, events: seq<Event>, a: Proposal)
    requires EmitAll(chosen, events, a).Ok?
    ensures forall e :: e in EmitAll(chosen, events, a).value ==> exists p :: p in chosen && p.order.id == e.orderId
  {
    hide AppendEvent;
    if chosen != [] {
      var init, last := chosen[..|chosen| - 1], chosen[|chosen| - 1];
      assert chosen == init + [last];
      EmittedBelongToChosen(init, events, a);
      AppendedIsValid(last.order, events + EmitAll(init, events, a).value, a);
    }
  }

  lemma TerminalRefuses(o: Order, events: seq<Event>, a: Proposal)
    requires EndedIn(o, events)
    ensures AppendEvent(o, events, a).Err?
  {
    hide Reduce, Relevant;
    RelevantTwice(o, events);
    EmptyIsRejected(o, events);
  }

  /** A chosen order whose whole stream has ended makes the batch fail. */
  lemma {:induction false} EndedFails(chosen: seq<PendingOrder>, events: seq<Event>, a: Proposal, p: PendingOrder)
    requires DistinctBy(PendingId, chosen) && p in chosen && EndedIn(p.order, events)
    ensures EmitAll(chosen, events, a).Err?
  {
    hide AppendEvent, EndedIn, EmitAll, DistinctBy, Reduce;
    var init, last := chosen[..|chosen| - 1], chosen[|chosen| - 1];
    assert chosen == init + [last];
    DistinctByLast(PendingId, chosen);
    EmitUnfold(chosen, events, a);
    if p in init {
      EndedFails(init, events, a, p);
    } else if EmitAll(init, events, a).Ok? {
      var r := EmitAll(init, events, a).value;
      EmittedBelongToChosen(init, events, a);
      forall e | e in r ensures e.orderId != last.order.id {
        var q :| q in init && q.order.id == e.orderId;
        assert PendingId(q) != PendingId(last);
      }
      UntouchedByOthers(last.order, events, r);
      assert EndedIn(last.order, events + r) by { StillEnded(last.order, events, events + r); }
      TerminalRefuses(last.order, events + r, a);
    }
  }

  lemma StillEnded(o: Order, events: seq<Event>, more: seq<Event>)
    requires EndedIn(o, events) && Reduce(o, more, None) == Reduce(o, events, None)
    ensures EndedIn(o, more)
  {
  }

  lemma EmitUnfold(chosen: seq<PendingOrder>, events: seq<Event>, a: Proposal)
    requires chosen != []
    ensures var init, last := chosen[..|chosen| - 1], chosen[|chosen| - 1];
      && (EmitAll(init, events, a).Err? ==> EmitAll(chosen, events, a).Err?)
      && (EmitAll(init, events, a).Ok? ==>
            (EmitAll(chosen, events, a).Ok? <==>
              AppendEvent(last.order, events + EmitAll(init, events, a).value, a).Ok?))
  {
    hide AppendEvent;
  }

  /** The chosen orders, with the aggregates of their whole streams. */
  ghost function Whole(chosen: seq<PendingOrder>, events: seq<Event>): (r: seq<PendingOrder>)
    requires forall p :: p in chosen ==> Reduce(p.order, events, None).Ok?
    ensures |r| == |chosen|
    ensures forall i :: 0 <= i < |r| ==>
      r[i].order == chosen[i].order && Reduce(r[i].order, events, None) == Ok(r[i].aggregate)
  {
    seq(|chosen|, i requires 0 <= i < |chosen| =>
      assert chosen[i] in chosen; PendingOrder(chosen[i].order, Reduce(chosen[i].order, events, None).value))
  }

  // ---- the pending orders that are due

  ghost function DueOrders(orders: seq<Order>, events: seq<Event>, asOf: int, atBoundary: bool): seq<PendingOrder>
    requires PendingOrders(orders, events, Some(asOf)).Ok?
  {
    Filter(Lapsed(asOf, atBoundary), PendingOrders(orders, events, Some(asOf)).value)
  }

  lemma DueIsExact(orders: seq<Order>, events: seq<Event>, asOf: int, atBoundary: bool)
    requires DistinctBy(OrderId, orders) && ViewsReplay(orders, events, asOf)
    ensures PendingOrders(orders, events, Some(asOf)).Ok?
    ensures DistinctBy(PendingId, DueOrders(orders, events, asOf, atBoundary))
    ensures forall p :: p in DueOrders(orders, events, asOf, atBoundary) ==>
      p.order in orders && Due(p.order, events, asOf, atBoundary)
    ensures forall o :: o in orders && Due(o, events, asOf, atBoundary) ==>
      exists p :: p in DueOrders(orders, events, asOf, atBoundary) && p.order == o
  {
    hide Reduce, DistinctBy, PendingOrders, Filter;
    PendingIsExact(orders, events, Some(asOf));
    var pending := PendingOrders(orders, events, Some(asOf)).value;
    DistinctByFilter(PendingId, Lapsed(asOf, atBoundary), pending);
    forall o | o in orders && Due(o, events, asOf, atBoundary)
      ensures exists p :: p in DueOrders(orders, events, asOf, atBoundary) && p.order == o
    {
      var p := PendingOrder(o, Reduce(o, events, Some(asOf)).value);
      assert p in pending && Lapsed(asOf, atBoundary)(p);
    }
  }

  lemma ExpireIs(orders: seq<Order>, events: seq<Event>, asOf: int, cycle: string, atBoundary: bool)
    ensures PendingOrders(orders, events, Some(asOf)).Err? ==> Expire(orders, events, asOf, cycle, atBoundary).Err?
    ensures PendingOrders(orders, events, Some(asOf)).Ok? ==>
      Expire(orders, events, asOf, cycle, atBoundary)
      == EmitAll(DueOrders(orders, events, asOf, atBoundary), events, Closing(Expired, asOf, asOf, cycle))
  {
    hide PendingOrders, EmitAll, Filter;
  }

  lemma PendingFails(orders: seq<Order>, events: seq<Event>, asOf: int)
    requires !ViewsReplay(orders, events, asOf)
    ensures PendingOrders(orders, events, Some(asOf)).Err?
  {
    hide Reduce, CollectPending;
    var o :| o in orders && Reduce(o, events, Some(asOf)).Err?;
    CollectFails(orders, events, Some(asOf), o);
  }

  /** No order that is due at the instant has ended later in its stream. */
  ghost predicate NoneEnded(orders: seq<Order>, events: seq<Event>, asOf: int, atBoundary: bool) {
    forall o :: o in orders && Due(o, events, asOf, atBoundary) ==> !EndedIn(o, events)
  }

  lemma WholeIsDistinct(chosen: seq<PendingOrder>, whole: seq<PendingOrder>)
    requires DistinctBy(PendingId, chosen) && |whole| == |chosen|
    requires forall i :: 0 <= i < |whole| ==> whole[i].order == chosen[i].order
    ensures DistinctBy(PendingId, whole)
    ensures OrdersOf(whole) == OrdersOf(chosen)
  {
    forall i, j | 0 <= i < j < |whole| ensures PendingId(whole[i]) != PendingId(whole[j]) {
      assert PendingId(chosen[i]) != PendingId(chosen[j]);
    }
  }

  /** What the events emitted by an expiry do. */
  ghost predicate Ends(orders: seq<Order>, events: seq<Event>, asOf: int, atBoundary: bool, emitted: seq<Event>) {
    && Sound(events + emitted)
    && (forall e :: e in emitted ==> e.availableAt == asOf)
    && (forall o :: o in orders ==> EndsOne(o, events, asOf, atBoundary, emitted))
  }

  ghost predicate EndsOne(o: Order, events: seq<Event>, asOf: int, atBoundary: bool, emitted: seq<Event>) {
    && Reduce(o, events, None).Ok? && Reduce(o, events + emitted, None).Ok?
    && (if Due(o, events, asOf, atBoundary)
        then
          && ClosedAs(Expired, Reduce(o, events, None).value, Reduce(o, events + emitted, None).value)
          && Announced(emitted, o.id, Reduce(o, events, None).value.sequence + 1)
        else
          && Reduce(o, events + emitted, None) == Reduce(o, events, None)
          && forall e :: e in emitted ==> e.orderId != o.id)
  }

  /** The due orders are closed as a batch over their whole streams. */
  lemma DueAreClosed(orders: seq<Order>, events: seq<Event>, asOf: int, cycle: string, atBoundary: bool)
    requires Book(orders, events) && ViewsReplay(orders, events, asOf) && NoneEnded(orders, events, asOf, atBoundary)
    ensures Expire(orders, events, asOf, cycle, atBoundary).Ok?
    ensures Ends(orders, events, asOf, atBoundary, Expire(orders, events, asOf, cycle, atBoundary).value)
  {
    hide Reduce, DistinctBy, EmitAll, PendingOrders, Filter, Sound, ClosedAs, DueOrders, Announced, Due, EndedIn, Expire;
    var a := Closing(Expired, asOf, asOf, cycle);
    DueIsExact(orders, events, asOf, atBoundary);
    ExpireIs(orders, events, asOf, cycle, atBoundary);
    var due := DueOrders(orders, events, asOf, atBoundary);
    var whole := Whole(due, events);
    WholeIsDistinct(due, whole);
    EmitByOrder(due, whole, events, a);
    forall p | p in whole ensures Closable(p, events, a) {
      var i :| 0 <= i < |whole| && whole[i] == p;
      assert due[i] in due;
      ViewFollowsCreation(p.order, events, asOf);
      NotEnded(p.order, events, p.aggregate);
    }
    EmitAllCloses(whole, events, a);
    var r := EmitAll(whole, events, a).value;
    forall o | o in orders ensures EndsOne(o, events, asOf, atBoundary, r) {
      if Due(o, events, asOf, atBoundary) {
        var p :| p in due && p.order == o;
        var i :| 0 <= i < |due| && due[i] == p;
        assert whole[i] in whole;
      } else {
        OthersAreUntouched(orders, events, asOf, atBoundary, due, whole, r, o);
      }
    }
  }

  lemma NotEnded(o: Order, events: seq<Event>, g: Aggregate)
    requires !EndedIn(o, events) && Reduce(o, events, None) == Ok(g)
    ensures !g.status.Terminal()
  {
  }

  lemma OthersAreUntouched(orders: seq<Order>, events: seq<Event>, asOf: int, atBoundary: bool,
                           due: seq<PendingOrder>, whole: seq<PendingOrder>, r: seq<Event>, o: Order)
    requires DistinctBy(OrderId, orders) && o in orders && !Due(o, events, asOf, atBoundary) && |whole| == |due|
    requires forall p :: p in due ==> p.order in orders && Due(p.order, events, asOf, atBoundary)
    requires forall i :: 0 <= i < |whole| ==> whole[i].order == due[i].order
    requires forall e :: e in r ==> exists p :: p in whole && p.order.id == e.orderId
    ensures forall e :: e in r ==> e.orderId != o.id
    ensures Reduce(o, events + r, None) == Reduce(o, events, None)
  {
    hide Reduce, DistinctBy, Due;
    forall e | e in r ensures e.orderId != o.id {
      var p :| p in whole && p.order.id == e.orderId;
      var i :| 0 <= i < |whole| && whole[i] == p;
      assert due[i] in due;
      if p.order.id == o.id {
        SameOrder(orders, p.order, o);
      }
    }
    UntouchedByOthers(o, events, r);
  }

  lemma DueAndEndedFails(orders: seq<Order>, events: seq<Event>, asOf: int, cycle: string, atBoundary: bool)
    requires Book(orders, events) && ViewsReplay(orders, events, asOf) && !NoneEnded(orders, events, asOf, atBoundary)
    ensures Expire(orders, events, asOf, cycle, atBoundary).Err?
  {
    hide Reduce, DistinctBy, EmitAll, PendingOrders, Filter, Sound, DueOrders, Due, EndedIn, Expire;
    DueIsExact(orders, events, asOf, atBoundary);
    ExpireIs(orders, events, asOf, cycle, atBoundary);
    var o :| o in orders && Due(o, events, asOf, atBoundary) && EndedIn(o, events);
    var p :| p in DueOrders(orders, events, asOf, atBoundary) && p.order == o;
    EndedFails(DueOrders(orders, events, asOf, atBoundary), events, Closing(Expired, asOf, asOf, cycle), p);
  }

  // ---- a second call

  /** Every event of the order was available at the instant. */
  ghost predicate AllSeen(o: Order, events: seq<Event>, asOf: int) {
    forall e :: e in events && e.orderId == o.id ==> e.availableAt <= asOf
  }

  lemma AllSeenView(o: Order, events: seq<Event>, asOf: int)
    requires AllSeen(o, events, asOf)
    ensures Reduce(o, events, Some(asOf)) == Reduce(o, events, None)
  {
    RelevantByInstant(o, events, asOf);
    FilterAll(AvailableBy(asOf), Relevant(o, events, None));
    hide Relevant;
  }

  lemma SameView(o: Order, events: seq<Event>, emitted: seq<Event>, asOf: int)
    requires forall e :: e in emitted ==> e.orderId != o.id
    ensures Reduce(o, events + emitted, Some(asOf)) == Reduce(o, events, Some(asOf))
  {
    FilterConcat(Selects(o, Some(asOf)), events, emitted);
    FilterNone(Selects(o, Some(asOf)), emitted);
    assert Relevant(o, events, Some(asOf)) + [] == Relevant(o, events, Some(asOf));
    hide Relevant;
  }

  lemma {:induction false} FilterShrinks<T(!new)>(p: T -> bool, s: seq<T>, x: T)
    requires x in s && !p(x)
    ensures |Filter(p, s)| < |s|
  {
    var init, last := s[..|s| - 1], s[|s| - 1];
    assert s == init + [last];
    if p(last) || x != last {
      FilterShrinks(p, init, x);
    }
  }

  lemma SequenceWithin(o: Order, events: seq<Event>, asOf: Option<int>, e: Event)
    requires Reduce(o, events, asOf).Ok? && e in Relevant(o, events, asOf)
    ensures e.sequence <= |Relevant(o, events, asOf)|
  {
    hide Reduce;
    var view := Relevant(o, events, asOf);
    OkMeansContiguous(o, events, asOf);
    var ordered := Sort(Earlier, view);
    SameMultiset(ordered, view);
    assert e in ordered;
    var i :| 0 <= i < |ordered| && ordered[i] == e;
    hide Relevant, Sort;
  }

  /** An expiry announced behind an event not yet available leaves a gap in the view. */
  lemma UnseenLeavesGap(o: Order, events: seq<Event>, emitted: seq<Event>, asOf: int, atBoundary: bool)
    requires o.Valid() && Due(o, events, asOf, atBoundary) && EndsOne(o, events, asOf, atBoundary, emitted)
    requires (forall e :: e in emitted ==> e.availableAt == asOf) && !AllSeen(o, events, asOf)
    ensures Reduce(o, events + emitted, Some(asOf)).Err?
  {
    hide Reduce, Due;
    var after := events + emitted;
    var n := Reduce(o, events, None).value.sequence;
    AggregateConserves(o, events, None);
    AggregateConserves(o, after, None);
    assert |Relevant(o, after, None)| == n + 1;
    var late :| late in events && late.orderId == o.id && late.availableAt > asOf;
    RelevantByInstant(o, after, asOf);
    assert late in after && late in Relevant(o, after, None);
    FilterShrinks(AvailableBy(asOf), Relevant(o, after, None), late);
    var i :| 0 <= i < |emitted| && emitted[i].orderId == o.id && emitted[i].sequence == n + 1;
    assert emitted[i] in emitted && emitted[i] in after;
    assert emitted[i] in Relevant(o, after, Some(asOf));
    if Reduce(o, after, Some(asOf)).Ok? {
      SequenceWithin(o, after, Some(asOf), emitted[i]);
    }
  }

  /** Afterwards an order is due again never, and its view replays exactly when nothing of it is still to come. */
  lemma AfterOne(o: Order, events: seq<Event>, emitted: seq<Event>, asOf: int, atBoundary: bool)
    requires o.Valid() && Reduce(o, events, Some(asOf)).Ok? && EndsOne(o, events, asOf, atBoundary, emitted)
    requires forall e :: e in emitted ==> e.availableAt == asOf
    ensures Reduce(o, events + emitted, Some(asOf)).Ok? <==> (Due(o, events, asOf, atBoundary) ==> AllSeen(o, events, asOf))
    ensures !Due(o, events + emitted, asOf, atBoundary)
  {
    hide Reduce;
    if Due(o, events, asOf, atBoundary) {
      if AllSeen(o, events, asOf) {
        AllSeenView(o, events + emitted, asOf);
      } else {
        UnseenLeavesGap(o, events, emitted, asOf, atBoundary);
      }
    } else {
      SameView(o, events, emitted, asOf);
    }
  }

  lemma SomethingDue(due: seq<PendingOrder>)
    ensures due == [] || exists p :: p in due
  {
    if due != [] {
      assert due[0] in due;
    }
  }

  lemma NothingDue(orders: seq<Order>, events: seq<Event>, asOf: int, cycle: string, atBoundary: bool)
    requires DistinctBy(OrderId, orders) && ViewsReplay(orders, events, asOf)
    requires forall o :: o in orders ==> !Due(o, events, asOf, atBoundary)
    ensures Expire(orders, events, asOf, cycle, atBoundary) == Ok([])
  {
    hide Reduce, DistinctBy, PendingOrders, DueOrders, Due, Expire, EmitAll;
    DueIsExact(orders, events, asOf, atBoundary);
    ExpireIs(orders, events, asOf, cycle, atBoundary);
    SomethingDue(DueOrders(orders, events, asOf, atBoundary));
    EmitNone(events, Closing(Expired, asOf, asOf, cycle));
  }

  lemma ExpireAgain(orders: seq<Order>, events: seq<Event>, asOf: int, atBoundary: bool, emitted: seq<Event>, cycle: string)
    requires Book(orders, events) && ViewsReplay(orders, events, asOf) && Ends(orders, events, asOf, atBoundary, emitted)
    ensures Expire(orders, events + emitted, asOf, cycle, atBoundary) == Ok([]) <==>
      forall o :: o in orders && Due(o, events, asOf, atBoundary) ==> AllSeen(o, events, asOf)
    ensures Expire(orders, events + emitted, asOf, cycle, atBoundary).Err? <==>
      !forall o :: o in orders && Due(o, events, asOf, atBoundary) ==> AllSeen(o, events, asOf)
  {
    hide Reduce, DistinctBy, Sound, Due, AllSeen, Expire, EndsOne;
    var after := events + emitted;
    forall o | o in orders
      ensures Reduce(o, after, Some(asOf)).Ok? <==> (Due(o, events, asOf, atBoundary) ==> AllSeen(o, events, asOf))
      ensures !Due(o, after, asOf, atBoundary)
    {
      AfterOne(o, events, emitted, asOf, atBoundary);
    }
    if ViewsReplay(orders, after, asOf) {
      NothingDue(orders, after, asOf, cycle, atBoundary);
    } else {
      PendingFails(orders, after, asOf);
      ExpireIs(orders, after, asOf, cycle, atBoundary);
    }
  }

  /**
   * Expiry on any sound book goes through if and only if every order's stream replays at the instant and no
   * order due then has ended since. It then ends exactly the due orders, keeping what was filled, charged
   * and left. A second call emits nothing if every event of the orders it ended was available; otherwise
   * the expiry stands behind a gap in the view, and the second call fails.
   */
  lemma ExpireEndsExactlyTheLapsed(orders: seq<Order>, events: seq<Event>, asOf: int, cycle: string, atBoundary: bool)
    requires Book(orders, events)
    ensures Expire(orders, events, asOf, cycle, atBoundary).Ok? <==>
      ViewsReplay(orders, events, asOf) && NoneEnded(orders, events, asOf, atBoundary)
    ensures Expire(orders, events, asOf, cycle, atBoundary).Ok? ==>
      var after := events + Expire(orders, events, asOf, cycle, atBoundary).value;
      && Book(orders, after)
      && (forall o :: o in orders ==>
            if Due(o, events, asOf, atBoundary)
            then ClosedAs(Expired, Reduce(o, events, None).value, Reduce(o, after, None).value)
            else Reduce(o, after, None) == Reduce(o, events, None))
      && (forall next ::
            if forall o :: o in orders && Due(o, events, asOf, atBoundary) ==> AllSeen(o, events, asOf)
            then Expire(orders, after, asOf, next, atBoundary) == Ok([])
            else Expire(orders, after, asOf, next, atBoundary).Err?)
  {
    hide Reduce, DistinctBy, Sound, Due, AllSeen, Expire, ClosedAs, Announced, EndedIn;
    if !ViewsReplay(orders, events, asOf) {
      PendingFails(orders, events, asOf);
      ExpireIs(orders, events, asOf, cycle, atBoundary);
    } else if !NoneEnded(orders, events, asOf, atBoundary) {
      DueAndEndedFails(orders, events, asOf, cycle, atBoundary);
    } else {
      DueAreClosed(orders, events, asOf, cycle, atBoundary);
      var emitted := Expire(orders, events, asOf, cycle, atBoundary).value;
      forall o | o in orders ensures EndsOne(o, events, asOf, atBoundary, emitted) {
      }
      forall next
        ensures if forall o :: o in orders && Due(o, events, asOf, atBoundary) ==> AllSeen(o, events, asOf)
          then Expire(orders, events + emitted, asOf, next, atBoundary) == Ok([])
          else Expire(orders, events + emitted, asOf, next, atBoundary).Err?
      {
        ExpireAgain(orders, events, asOf, atBoundary, emitted, next);
      }
    }
  }

  /** With every event available at the instant, expiry always goes through and a second call emits nothing. */
  lemma ExpireOfKnownBook(orders: seq<Order>, events: seq<Event>, asOf: int, cycle: string, atBoundary: bool)
    requires Book(orders, events) && forall e :: e in events ==> e.availableAt <= asOf
    ensures Expire(orders, events, asOf, cycle, atBoundary).Ok?
    ensures forall o :: o in orders ==>
      (Due(o, events, asOf, atBoundary) <==> PendingIn(o, events) && (atBoundary || o.validUntil < asOf))
    ensures forall next ::
      Expire(orders, events + Expire(orders, events, asOf, cycle, atBoundary).value, asOf, next, atBoundary) == Ok([])
  {
    hide Reduce, DistinctBy, Sound, Expire, ClosedAs;
    forall o | o in orders
      ensures AllSeen(o, events, asOf) && Reduce(o, events, Some(asOf)) == Reduce(o, events, None)
      ensures Due(o, events, asOf, atBoundary) ==> !EndedIn(o, events)
    {
      AllSeenView(o, events, asOf);
    }
    hide Due, AllSeen, EndedIn;
    ExpireEndsExactlyTheLapsed(orders, events, asOf, cycle, atBoundary);
  }

  /** A second call can fail: a block that becomes available at 5 stands before an expiry as of 3. */
  lemma SecondExpiryCanFail(o: Order) returns (events: seq<Event>)
    requires o.Valid() && o.createdAt == 0
    ensures Book([o], events)
    ensures Expire([o], events, 3, "", true).Ok?
    ensures Expire([o], events + Expire([o], events, 3, "", true).value, 3, "", true).Err?
  {
    hide Reduce, AppendEvent, Expire, ClosedAs, Relevant;
    var first := [] + [Opened(o)] + [];
    OpenedIsPending(o, [], []);
    assert Sound(first);
    var a := Proposal(BlockedByData, 0.0, 0.0, 0, 5, "");
    IdentifiedStreamsAreFresh(o, first, a);
    AppendIsExact(o, first, a);
    var late := AppendEvent(o, first, a).value;
    events := first + [late];
    assert late.availableAt == 5;
    assert Book([o], events) by { SoundWithLast(first, late); }
    LateIsUnseen(o, first, late);
    AllSeenView(o, first, 3);
    DueNow(o, events);
    assert late in events && !AllSeen(o, events, 3);
    ExpireEndsExactlyTheLapsed([o], events, 3, "", true);
  }

  lemma DueNow(o: Order, events: seq<Event>)
    requires Reduce(o, events, Some(3)).Ok? && Reduce(o, events, Some(3)).value.Pending()
    requires Reduce(o, events, None).Ok? && !Reduce(o, events, None).value.status.Terminal()
    ensures Due(o, events, 3, true) && ViewsReplay([o], events, 3) && NoneEnded([o], events, 3, true)
  {
    hide Reduce;
  }

  lemma LateIsUnseen(o: Order, events: seq<Event>, late: Event)
    requires late.availableAt == 5
    ensures Reduce(o, events + [late], Some(3)) == Reduce(o, events, Some(3))
  {
    FilterLast(Selects(o, Some(3)), events, late);
  }

  /** A first call can fail: an order filled at 0, which becomes known at 5, is still due as of 3. */
  lemma ExpiryOfFilledOrderFails(o: Order, cycle: string) returns (events: seq<Event>)
    requires o.Valid() && o.createdAt == 0
    ensures Book([o], events)
    ensures ViewsReplay([o], events, 3) && Due(o, events, 3, true) && EndedIn(o, events)
    ensures Expire([o], events, 3, cycle, true).Err?
  {
    hide Reduce, AppendEvent, Expire, ClosedAs, Relevant;
    var first := [] + [Opened(o)] + [];
    OpenedIsPending(o, [], []);
    assert Sound(first);
    var a := Proposal(Filled, o.quantity, 0.0, 0, 5, "");
    IdentifiedStreamsAreFresh(o, first, a);
    AppendIsExact(o, first, a);
    var late := AppendEvent(o, first, a).value;
    events := first + [late];
    assert late.availableAt == 5;
    assert Book([o], events) by { SoundWithLast(first, late); }
    LateIsUnseen(o, first, late);
    AllSeenView(o, first, 3);
    assert o in [o];
    ExpireEndsExactlyTheLapsed([o], events, 3, cycle, true);
  }
}
