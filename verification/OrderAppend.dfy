/** Appending the next event to one order's stream: the incremental form of replay. */
module OrderAppend {
  import opened Identifiers
  import opened Orders
  import opened OrderReplay
  import opened OrderReplayLaws
  import opened Ordering
  import opened Results

  datatype Proposal = Proposal(
    kind: Kind,
    quantityDelta: real,
    commissionDelta: real,
    occurredAt: int,
    availableAt: int,
    origin: string)

  datatype Refusal =
    | AvailableBeforeOccurred
    | CreatedAlreadyExists
    | CreatedCarriesDeltas
    | StreamIsTerminal
    | DeltaOutsideRemaining
    | PartialWithoutResidual
    | FilledWithResidual
    | NonFillCarriesDeltas
    | InvalidFields
    | ReplayFault(fault: Fault)

  function Build(order: Order, a: Proposal, sequence: int, remaining: real, filled: real, commission: real): Event {
    var id := Stable(Identity(order.id, a.kind, sequence, a.quantityDelta, a.commissionDelta, remaining, a.occurredAt, a.origin));
    Event(id, KeyOf(id), order.id, a.kind, sequence, a.quantityDelta, a.commissionDelta,
          remaining, filled, commission, a.occurredAt, a.availableAt, a.origin)
  }

  /** Field validation by the event constructor, then the closing replay over the extended stream. */
  function Close(order: Order, relevant: seq<Event>, e: Event): Result<Event, Refusal> {
    if !e.Valid() then Err(InvalidFields)
    else match Reduce(order, relevant + [e], None)
      case Err(fault) => Err(ReplayFault(fault))
      case Ok(_) => Ok(e)
  }

  function AppendEvent(order: Order, existing: seq<Event>, a: Proposal): Result<Event, Refusal> {
    if a.availableAt < a.occurredAt then Err(AvailableBeforeOccurred)
    else
      var relevant := Relevant(order, existing, None);
      if a.kind.Created? then
        if relevant != [] then Err(CreatedAlreadyExists)
        else if a.quantityDelta != 0.0 || a.commissionDelta != 0.0 then Err(CreatedCarriesDeltas)
        else Close(order, relevant, Build(order, a, 1, order.quantity, 0.0, 0.0))
      else match Reduce(order, relevant, None)
        case Err(fault) => Err(ReplayFault(fault))
        case Ok(g) =>
          if g.status.Terminal() then Err(StreamIsTerminal)
          else if a.kind.Fills() then
            if a.quantityDelta <= 0.0 || a.quantityDelta > g.remaining then Err(DeltaOutsideRemaining)
            else
              var remaining := g.remaining - a.quantityDelta;
              if a.kind.PartiallyFilled? && remaining <= 0.0 then Err(PartialWithoutResidual)
              else if a.kind.Filled? && remaining != 0.0 then Err(FilledWithResidual)
              else Close(order, relevant, Build(order, a, g.sequence + 1, remaining,
                g.filled + a.quantityDelta, g.commission + a.commissionDelta))
          else if a.quantityDelta != 0.0 || a.commissionDelta != 0.0 then Err(NonFillCarriesDeltas)
          else Close(order, relevant, Build(order, a, g.sequence + 1, g.remaining, g.filled, g.commission))
  }

  // ---- the conditions under which an append goes through, without replaying anything

  ghost predicate FitsStatus(a: Proposal, g: Aggregate) {
    && !a.kind.Created?
    && !g.status.Terminal()
    && match a.kind
       case PartiallyFilled => 0.0 < a.quantityDelta < g.remaining
       case Filled => 0.0 < a.quantityDelta == g.remaining
       case _ => a.quantityDelta == 0.0 && a.commissionDelta == 0.0
  }

  ghost predicate Fresh(s: seq<Event>, e: Event) {
    forall x :: x in s ==> x.id != e.id && x.key != e.key
  }

  /** The event the proposal stands for, given the state of the stream. */
  ghost function Next(order: Order, existing: seq<Event>, a: Proposal): Event {
    match Reduce(order, existing, None)
    case Ok(g) => Build(order, a, g.sequence + 1, g.remaining - a.quantityDelta,
                        g.filled + a.quantityDelta, g.commission + a.commissionDelta)
    case Err(_) => Build(order, a, 1, order.quantity, 0.0, 0.0)
  }

  ghost predicate Admissible(order: Order, existing: seq<Event>, a: Proposal) {
    && order.createdAt <= a.occurredAt <= a.availableAt
    && a.commissionDelta >= 0.0
    && (if a.kind.Created?
        then Relevant(order, existing, None) == [] && a.quantityDelta == 0.0 && a.commissionDelta == 0.0
        else Reduce(order, existing, None).Ok? && FitsStatus(a, Reduce(order, existing, None).value))
    && Fresh(Relevant(order, existing, None), Next(order, existing, a))
  }

  // ---- replaying a stream with one more event

  lemma RelevantTwice(order: Order, existing: seq<Event>)
    ensures Relevant(order, Relevant(order, existing, None), None) == Relevant(order, existing, None)
    ensures Reduce(order, Relevant(order, existing, None), None) == Reduce(order, existing, None)
  {
    FilterAll(Selects(order, None), Relevant(order, existing, None));
  }

  lemma RelevantWithLast(order: Order, existing: seq<Event>, e: Event)
    ensures e.orderId == order.id ==> Relevant(order, existing + [e], None) == Relevant(order, existing, None) + [e]
    ensures e.orderId != order.id ==> Relevant(order, existing + [e], None) == Relevant(order, existing, None)
  {
    FilterLast(Selects(order, None), existing, e);
  }

  /** The closing replay sees the same stream as a replay of the whole extended book. */
  lemma ClosingReplay(order: Order, existing: seq<Event>, e: Event)
    requires e.orderId == order.id
    ensures Reduce(order, Relevant(order, existing, None) + [e], None) == Reduce(order, existing + [e], None)
  {
    RelevantTwice(order, existing);
    RelevantWithLast(order, existing, e);
    RelevantWithLast(order, Relevant(order, existing, None), e);
  }

  lemma DistinctWithLast(s: seq<Event>, e: Event)
    ensures DistinctIdentity(s + [e]) <==> DistinctIdentity(s) && Fresh(s, e)
  {
    var t := s + [e];
    if DistinctIdentity(t) {
      forall i | 0 <= i < |s| ensures s[i].id != e.id && s[i].key != e.key {
        assert t[i] == s[i] && t[|s|] == e;
        assert IdOf(t[i]) != IdOf(t[|s|]) && KeyOfEvent(t[i]) != KeyOfEvent(t[|s|]);
      }
      forall i, j | 0 <= i < j < |s| ensures IdOf(s[i]) != IdOf(s[j]) && KeyOfEvent(s[i]) != KeyOfEvent(s[j]) {
        assert t[i] == s[i] && t[j] == s[j];
      }
    }
  }

  /** Extending an accepted stream by its next sequence number replays to one more step. */
  lemma ReduceWithLast(order: Order, existing: seq<Event>, e: Event)
    requires e.orderId == order.id && Reduce(order, existing, None).Ok?
    requires e.sequence == Reduce(order, existing, None).value.sequence + 1
    ensures
      var s := Relevant(order, existing, None);
      var before := Fold(order, Sort(Earlier, s));
      && before.Ok?
      && Reduce(order, existing + [e], None) ==
         (if !Fresh(s, e) then Err(DuplicateIdentity)
          else match Step(order, before.value, e)
            case Err(fault) => Err(fault)
            case Ok(p) => Ok(Summary(p, e)))
  {
    var s := Relevant(order, existing, None);
    var ordered := Sort(Earlier, s);
    OkMeansContiguous(order, existing, None);
    RelevantWithLast(order, existing, e);
    DistinctWithLast(s, e);
    SameMultiset(s, ordered);
    var extended := ordered + [e];
    assert Contiguous(extended);
    ContiguousIsTheSort(s + [e], extended);
    assert extended[..|ordered|] == ordered;
    hide Relevant, DistinctIdentity, Sort, Step, Fresh;
  }

  lemma ReduceOfFirst(order: Order, existing: seq<Event>, e: Event)
    requires e.orderId == order.id && Relevant(order, existing, None) == []
    requires e.kind.Created? && e.sequence == 1
    ensures Reduce(order, existing + [e], None) ==
      match Step(order, Start(order), e)
        case Err(fault) => Err(fault)
        case Ok(p) => Ok(Summary(p, e))
  {
    RelevantWithLast(order, existing, e);
    hide Relevant, Step;
    assert Relevant(order, existing + [e], None) == [e];
    ContiguousIsTheSort([e], [e]);
    ReplayOfOne(order, e);
    hide Sort, ReplayOrdered;
  }

  lemma ReplayOfOne(order: Order, e: Event)
    requires e.kind.Created? && e.sequence == 1
    ensures ReplayOrdered(order, [e]) ==
      match Step(order, Start(order), e)
        case Err(fault) => Err(fault)
        case Ok(p) => Ok(Summary(p, e))
  {
    hide Step;
    assert [e][..0] == [];
    assert Fold(order, [e]) == Step(order, Start(order), e);
  }

  lemma EmptyIsRejected(order: Order, existing: seq<Event>)
    ensures Relevant(order, existing, None) == [] ==> Reduce(order, existing, None).Err?
  {
  }

  /** The aggregate after an admissible event. */
  ghost function After(order: Order, existing: seq<Event>, a: Proposal): Aggregate {
    var e := Next(order, existing, a);
    Aggregate(a.kind, e.remaining, e.filled, e.commission, e.sequence, e.id)
  }

  lemma AppendCreated(order: Order, existing: seq<Event>, a: Proposal)
    requires order.Valid() && a.kind.Created?
    ensures AppendEvent(order, existing, a).Ok? <==> Admissible(order, existing, a)
    ensures AppendEvent(order, existing, a).Ok? ==>
      && AppendEvent(order, existing, a).value == Next(order, existing, a)
      && Reduce(order, existing + [Next(order, existing, a)], None) == Ok(After(order, existing, a))
  {
    hide Relevant, Reduce;
    EmptyIsRejected(order, existing);
    if Relevant(order, existing, None) == [] {
      var e := Build(order, a, 1, order.quantity, 0.0, 0.0);
      ClosingReplay(order, existing, e);
      ReduceOfFirst(order, existing, e);
    }
  }

  lemma AppendLater(order: Order, existing: seq<Event>, a: Proposal)
    requires order.Valid() && !a.kind.Created?
    requires forall e :: e in existing ==> e.Valid()
    ensures AppendEvent(order, existing, a).Ok? <==> Admissible(order, existing, a)
    ensures AppendEvent(order, existing, a).Ok? ==>
      && AppendEvent(order, existing, a).value == Next(order, existing, a)
      && Reduce(order, existing + [Next(order, existing, a)], None) == Ok(After(order, existing, a))
  {
    hide Relevant, Reduce, Fold, Sort, DistinctIdentity, QuantitySum, CommissionSum;
    RelevantTwice(order, existing);
    if Reduce(order, existing, None).Ok? {
      var g := Reduce(order, existing, None).value;
      var s := Relevant(order, existing, None);
      var e := Next(order, existing, a);
      AggregateConserves(order, existing, None);
      OkMeansContiguous(order, existing, None);
      FoldSums(order, Sort(Earlier, s));
      CommissionNonNegative(order, existing);
      ClosingReplay(order, existing, e);
      ReduceWithLast(order, existing, e);
    }
  }

  lemma {:induction false} CommissionSumNonNegative(s: seq<Event>)
    requires forall e :: e in s ==> e.Valid()
    ensures CommissionSum(s) >= 0.0
  {
    if s != [] {
      CommissionSumNonNegative(s[..|s| - 1]);
      assert s[|s| - 1] in s;
    }
  }

  lemma CommissionNonNegative(order: Order, existing: seq<Event>)
    requires order.Valid() && Reduce(order, existing, None).Ok?
    requires forall e :: e in existing ==> e.Valid()
    ensures Reduce(order, existing, None).value.commission >= 0.0
  {
    AggregateConserves(order, existing, None);
    SortIsPermutation(Earlier, Relevant(order, existing, None));
    CommissionSumNonNegative(Sort(Earlier, Relevant(order, existing, None)));
  }

  /** Appending is sound and complete against full replay: an append goes through exactly when its proposal is
      admissible, the event it makes is well formed and identified, and replaying the extended stream gives
      the incrementally updated aggregate. */
  lemma AppendIsExact(order: Order, existing: seq<Event>, a: Proposal)
    requires order.Valid() && forall e :: e in existing ==> e.Valid()
    ensures AppendEvent(order, existing, a).Ok? <==> Admissible(order, existing, a)
    ensures AppendEvent(order, existing, a).Ok? ==>
      var e := AppendEvent(order, existing, a).value;
      && e == Next(order, existing, a)
      && e.Valid() && e.Identified() && e.orderId == order.id && Carries(e, a)
      && Reduce(order, existing + [e], None) == Ok(After(order, existing, a))
  {
    if a.kind.Created? {
      AppendCreated(order, existing, a);
    } else {
      AppendLater(order, existing, a);
    }
    if AppendEvent(order, existing, a).Ok? {
      AppendedIsValid(order, existing, a);
    }
    hide *;
  }

  /** The event says what was proposed. */
  ghost predicate Carries(e: Event, a: Proposal) {
    && e.kind == a.kind && e.quantityDelta == a.quantityDelta && e.commissionDelta == a.commissionDelta
    && e.occurredAt == a.occurredAt && e.availableAt == a.availableAt && e.origin == a.origin
  }

  lemma AppendedIsValid(order: Order, existing: seq<Event>, a: Proposal)
    requires AppendEvent(order, existing, a).Ok?
    ensures AppendEvent(order, existing, a).value.Valid()
    ensures AppendEvent(order, existing, a).value.Identified()
    ensures AppendEvent(order, existing, a).value.orderId == order.id
    ensures Carries(AppendEvent(order, existing, a).value, a)
  {
    hide Relevant, Reduce;
  }

  /** Events that carry their own derived ids never collide with the next one, whose sequence is new. */
  lemma IdentifiedStreamsAreFresh(order: Order, existing: seq<Event>, a: Proposal)
    requires Reduce(order, existing, None).Ok? || Relevant(order, existing, None) == []
    requires forall e :: e in existing ==> e.Identified()
    ensures Fresh(Relevant(order, existing, None), Next(order, existing, a))
  {
    var s := Relevant(order, existing, None);
    if s != [] {
      OkMeansContiguous(order, existing, None);
      var ordered := Sort(Earlier, s);
      SameMultiset(s, ordered);
      forall x | x in s ensures x.id != Next(order, existing, a).id && x.key != Next(order, existing, a).key {
        var i :| 0 <= i < |ordered| && ordered[i] == x;
        assert x in existing && x.Identified();
      }
    }
  }
}
