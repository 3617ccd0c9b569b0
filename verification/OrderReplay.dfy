/** Replay of one order's append-only event stream into its aggregate state. */
module OrderReplay {
  import opened Identifiers
  import opened Orders
  import opened Ordering
  import opened Results

  datatype Fault =
    | NoEvents
    | DuplicateIdentity
    | FirstNotCreated
    | SequenceStart
    | SequenceGap
    | PredatesOrder
    | AfterTerminal
    | CreatedTwice
    | DeltaOutsideFill
    | NonPositiveFill
    | ExceedsRemaining
    | PartialLeavesNothing
    | FilledLeavesResidual
    | RemainingMismatch
    | FilledMismatch
    | CommissionMismatch

  /** The events of one order that were available at the requested instant. */
  function Selects(order: Order, asOf: Option<int>): Event -> bool {
    (e: Event) => e.orderId == order.id && (asOf.Some? ==> e.availableAt <= asOf.value)
  }

  function Relevant(order: Order, events: seq<Event>, asOf: Option<int>): seq<Event> {
    Filter(Selects(order, asOf), events)
  }

  predicate Earlier(a: Event, b: Event) { a.sequence <= b.sequence }

  lemma EarlierIsTotal()
    ensures TotalPreorder(Earlier)
  {
  }

  function IdOf(e: Event): EventId { e.id }

  function KeyOfEvent(e: Event): IdempotencyKey { e.key }

  predicate DistinctIdentity(s: seq<Event>) {
    DistinctBy(IdOf, s) && DistinctBy(KeyOfEvent, s)
  }

  predicate Contiguous(s: seq<Event>) {
    forall i :: 0 <= i < |s| ==> s[i].sequence == i + 1
  }

  /** The loop variables of the replay. */
  datatype Progress = Progress(remaining: real, filled: real, commission: real, previous: Option<Kind>)

  function Start(order: Order): Progress {
    Progress(order.quantity, 0.0, 0.0, None)
  }

  function Step(order: Order, p: Progress, e: Event): Result<Progress, Fault> {
    if e.occurredAt < order.createdAt then Err(PredatesOrder)
    else if p.previous.Some? && p.previous.value.Terminal() then Err(AfterTerminal)
    else if e.kind.Created? && p.previous.Some? then Err(CreatedTwice)
    else if !e.kind.Fills() && (e.quantityDelta != 0.0 || e.commissionDelta != 0.0) then
      Err(DeltaOutsideFill)
    else if e.kind.Fills() && e.quantityDelta <= 0.0 then Err(NonPositiveFill)
    else if e.kind.Fills() && e.quantityDelta > p.remaining then Err(ExceedsRemaining)
    else
      var remaining := p.remaining - e.quantityDelta;
      var filled := p.filled + e.quantityDelta;
      var commission := p.commission + e.commissionDelta;
      if e.kind.PartiallyFilled? && remaining <= 0.0 then Err(PartialLeavesNothing)
      else if e.kind.Filled? && remaining != 0.0 then Err(FilledLeavesResidual)
      else if e.remaining != remaining then Err(RemainingMismatch)
      else if e.filled != filled then Err(FilledMismatch)
      else if e.commission != commission then Err(CommissionMismatch)
      else Ok(Progress(remaining, filled, commission, Some(e.kind)))
  }

  function Fold(order: Order, s: seq<Event>): Result<Progress, Fault> {
    if s == [] then Ok(Start(order))
    else match Fold(order, s[..|s| - 1])
      case Err(fault) => Err(fault)
      case Ok(p) => Step(order, p, s[|s| - 1])
  }

  function Summary(p: Progress, latest: Event): Aggregate {
    Aggregate(latest.kind, p.remaining, p.filled, p.commission, latest.sequence, latest.id)
  }

  /** Replay of a stream that is already in sequence order. */
  function ReplayOrdered(order: Order, s: seq<Event>): Result<Aggregate, Fault> {
    if s == [] then Err(NoEvents)
    else if !s[0].kind.Created? then Err(FirstNotCreated)
    else if s[0].sequence != 1 then Err(SequenceStart)
    else if !Contiguous(s) then Err(SequenceGap)
    else match Fold(order, s)
      case Err(fault) => Err(fault)
      case Ok(p) => Ok(Summary(p, s[|s| - 1]))
  }

  function Reduce(order: Order, events: seq<Event>, asOf: Option<int>): Result<Aggregate, Fault> {
    var materialized := Relevant(order, events, asOf);
    if materialized == [] then Err(NoEvents)
    else if !DistinctIdentity(materialized) then Err(DuplicateIdentity)
    else ReplayOrdered(order, Sort(Earlier, materialized))
  }

  method ReduceOrderEvents(order: Order, events: seq<Event>, asOf: Option<int>) returns (r: Result<Aggregate, Fault>)
    ensures r == Reduce(order, events, asOf)
  {
    var materialized := Relevant(order, events, asOf);
    if materialized == [] {
      return Err(NoEvents);
    }
    if !DistinctIdentity(materialized) {
      return Err(DuplicateIdentity);
    }
    var ordered := Sort(Earlier, materialized);
    SortIsPermutation(Earlier, materialized);
    hide Relevant, DistinctIdentity, Sort, Fold;
    if !ordered[0].kind.Created? {
      return Err(FirstNotCreated);
    }
    if ordered[0].sequence != 1 {
      return Err(SequenceStart);
    }
    if !Contiguous(ordered) {
      return Err(SequenceGap);
    }
    var progress := FoldEvents(order, ordered);
    match progress
    case Err(fault) => r := Err(fault);
    case Ok(p) => r := Ok(Summary(p, ordered[|ordered| - 1]));
  }

  /** The replay loop over its four running values. */
  method FoldEvents(order: Order, ordered: seq<Event>) returns (r: Result<Progress, Fault>)
    ensures r == Fold(order, ordered)
  {
    var remaining, filled, commission := order.quantity, 0.0, 0.0;
    var previous: Option<Kind> := None;
    hide Fold;
    FoldUnfolds(order, ordered, 0);
    for k := 0 to |ordered|
      invariant Fold(order, ordered[..k]) == Ok(Progress(remaining, filled, commission, previous))
    {
      var e := ordered[k];
      FoldUnfolds(order, ordered, k + 1);
      ghost var next := Step(order, Progress(remaining, filled, commission, previous), e);
      if e.occurredAt < order.createdAt {
        return Err(PredatesOrder);
      }
      if previous.Some? && previous.value.Terminal() {
        return Err(AfterTerminal);
      }
      if e.kind.Created? && previous.Some? {
        return Err(CreatedTwice);
      }
      if e.kind.Fills() {
        if e.quantityDelta <= 0.0 {
          return Err(NonPositiveFill);
        }
        if e.quantityDelta > remaining {
          return Err(ExceedsRemaining);
        }
        filled := filled + e.quantityDelta;
        remaining := remaining - e.quantityDelta;
        commission := commission + e.commissionDelta;
        if e.kind.PartiallyFilled? && remaining <= 0.0 {
          return Err(PartialLeavesNothing);
        }
        if e.kind.Filled? && remaining != 0.0 {
          return Err(FilledLeavesResidual);
        }
      } else if e.quantityDelta != 0.0 || e.commissionDelta != 0.0 {
        return Err(DeltaOutsideFill);
      }
      if e.remaining != remaining {
        return Err(RemainingMismatch);
      }
      if e.filled != filled {
        return Err(FilledMismatch);
      }
      if e.commission != commission {
        return Err(CommissionMismatch);
      }
      previous := Some(e.kind);
    }
    assert ordered[..|ordered|] == ordered;
    r := Ok(Progress(remaining, filled, commission, previous));
  }

  /** Fold over a prefix of k events, and what a failure there means for the whole stream. */
  lemma FoldUnfolds(order: Order, s: seq<Event>, k: nat)
    requires k <= |s|
    ensures k == 0 ==> Fold(order, s[..k]) == Ok(Start(order))
    ensures k > 0 && Fold(order, s[..k - 1]).Ok? ==>
      Fold(order, s[..k]) == Step(order, Fold(order, s[..k - 1]).value, s[k - 1])
    ensures Fold(order, s[..k]).Err? ==> Fold(order, s) == Fold(order, s[..k])
  {
    if k > 0 {
      assert s[..k][..k - 1] == s[..k - 1];
    }
    if Fold(order, s[..k]).Err? {
      FoldFails(order, s, k);
    }
  }

  lemma {:induction false} FoldFails(order: Order, s: seq<Event>, k: nat)
    requires k <= |s| && Fold(order, s[..k]).Err?
    ensures Fold(order, s) == Fold(order, s[..k])
    decreases |s|
  {
    if k == |s| {
      assert s[..k] == s;
    } else {
      assert s[..|s| - 1][..k] == s[..k];
      FoldFails(order, s[..|s| - 1], k);
    }
  }

  // ---- what an accepted stream looks like, without the fold

  function QuantitySum(s: seq<Event>): real {
    if s == [] then 0.0 else QuantitySum(s[..|s| - 1]) + s[|s| - 1].quantityDelta
  }

  function CommissionSum(s: seq<Event>): real {
    if s == [] then 0.0 else CommissionSum(s[..|s| - 1]) + s[|s| - 1].commissionDelta
  }

  /** Event i of the stream, judged against the sums of the deltas up to it. */
  ghost predicate EventAgrees(order: Order, s: seq<Event>, i: nat)
    requires i < |s|
  {
    var e, upTo := s[i], s[..i + 1];
    && e.occurredAt >= order.createdAt
    && (e.kind.Created? ==> i == 0)
    && (e.kind in {Filled, CanceledByRisk, Superseded, Expired, Rejected} ==> i == |s| - 1)
    && (if e.kind in {PartiallyFilled, Filled} then e.quantityDelta > 0.0 else e.quantityDelta == 0.0 && e.commissionDelta == 0.0)
    && e.remaining == order.quantity - QuantitySum(upTo) >= 0.0
    && e.filled == QuantitySum(upTo)
    && e.commission == CommissionSum(upTo)
    && (e.kind.PartiallyFilled? ==> e.remaining > 0.0)
    && (e.kind.Filled? ==> e.remaining == 0.0)
  }

  ghost predicate Consistent(order: Order, s: seq<Event>) {
    forall i :: 0 <= i < |s| ==> EventAgrees(order, s, i)
  }

  /** A stream that ends before its last event loses only the right to end there. */
  lemma PrefixAgrees(order: Order, s: seq<Event>, i: nat)
    requires 0 < |s| && i < |s| - 1
    ensures EventAgrees(order, s, i) ==> EventAgrees(order, s[..|s| - 1], i)
    ensures EventAgrees(order, s[..|s| - 1], i) && !s[i].kind.Terminal() ==> EventAgrees(order, s, i)
  {
    assert s[..|s| - 1][..i + 1] == s[..i + 1];
  }

  /** In an accepted stream the running values are the sums, and nothing remains exactly when FILLED came last. */
  lemma {:induction false} FoldSums(order: Order, s: seq<Event>)
    requires order.Valid() && Fold(order, s).Ok?
    ensures
      var p := Fold(order, s).value;
      && p.filled == QuantitySum(s)
      && p.remaining == order.quantity - QuantitySum(s)
      && p.commission == CommissionSum(s)
      && p.previous == (if s == [] then None else Some(s[|s| - 1].kind))
      && p.remaining >= 0.0
      && (p.remaining == 0.0 <==> s != [] && s[|s| - 1].kind.Filled?)
  {
    if s != [] {
      FoldSums(order, s[..|s| - 1]);
    }
  }

  lemma {:induction false} AcceptedIsConsistent(order: Order, s: seq<Event>, i: nat)
    requires order.Valid() && Fold(order, s).Ok? && i < |s|
    ensures EventAgrees(order, s, i)
  {
    var n := |s| - 1;
    FoldSums(order, s);
    FoldSums(order, s[..n]);
    if i == n {
      assert s[..n + 1] == s;
    } else {
      AcceptedIsConsistent(order, s[..n], i);
      AcceptedIsConsistent(order, s[..n], n - 1);
      PrefixAgrees(order, s, i);
    }
  }

  lemma {:induction false} ConsistentIsAccepted(order: Order, s: seq<Event>)
    requires order.Valid() && Consistent(order, s)
    ensures Fold(order, s).Ok?
  {
    if s != [] {
      var init, n := s[..|s| - 1], |s| - 1;
      forall i | 0 <= i < n ensures EventAgrees(order, init, i) {
        PrefixAgrees(order, s, i);
      }
      ConsistentIsAccepted(order, init);
      FoldSums(order, init);
      assert EventAgrees(order, s, n) && s[..n + 1] == s;
      assert n > 0 ==> EventAgrees(order, s, n - 1);
    }
  }

  /** The fold accepts exactly the consistent streams. */
  lemma FoldAcceptsExactly(order: Order, s: seq<Event>)
    requires order.Valid()
    ensures Fold(order, s).Ok? <==> Consistent(order, s)
  {
    hide EventAgrees, Fold;
    if Fold(order, s).Ok? {
      forall i | 0 <= i < |s| ensures EventAgrees(order, s, i) {
        AcceptedIsConsistent(order, s, i);
      }
    }
    if Consistent(order, s) {
      ConsistentIsAccepted(order, s);
    }
  }
}
