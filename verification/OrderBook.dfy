/** Batch operations over a whole order book: soft stop, supersession and expiry. */
module OrderBook {
  import opened Identifiers
  import opened Orders
  import opened OrderReplay
  import opened OrderAppend
  import opened Ordering
  import opened Results

  datatype PendingOrder = PendingOrder(order: Order, aggregate: Aggregate)

  predicate Before(a: PendingOrder, b: PendingOrder) {
    a.order.createdAt < b.order.createdAt
    || (a.order.createdAt == b.order.createdAt && a.order.id.code <= b.order.id.code)
  }

  /** Every order is replayed; one unreadable stream fails the whole query. */
  function CollectPending(orders: seq<Order>, events: seq<Event>, asOf: Option<int>): Result<seq<PendingOrder>, Fault> {
    if orders == [] then Ok([])
    else match CollectPending(orders[..|orders| - 1], events, asOf)
      case Err(fault) => Err(fault)
      case Ok(found) =>
        var last := orders[|orders| - 1];
        match Reduce(last, events, asOf)
        case Err(fault) => Err(fault)
        case Ok(g) => Ok(if g.Pending() then found + [PendingOrder(last, g)] else found)
  }

  function PendingOrders(orders: seq<Order>, events: seq<Event>, asOf: Option<int>): Result<seq<PendingOrder>, Fault> {
    match CollectPending(orders, events, asOf)
    case Err(fault) => Err(fault)
    case Ok(found) => Ok(Sort(Before, found))
  }

  /** The same proposal appended to each chosen order in turn, later ones seeing the earlier events. */
  function EmitAll(chosen: seq<PendingOrder>, events: seq<Event>, a: Proposal): Result<seq<Event>, Refusal> {
    if chosen == [] then Ok([])
    else match EmitAll(chosen[..|chosen| - 1], events, a)
      case Err(refusal) => Err(refusal)
      case Ok(emitted) =>
        match AppendEvent(chosen[|chosen| - 1].order, events + emitted, a)
        case Err(refusal) => Err(refusal)
        case Ok(e) => Ok(emitted + [e])
  }

  /** A batch: close the selected pending orders of the book. */
  function Batch(orders: seq<Order>, events: seq<Event>, asOf: Option<int>, select: PendingOrder -> bool, a: Proposal)
    : Result<seq<Event>, Refusal>
  {
    match PendingOrders(orders, events, asOf)
    case Err(fault) => Err(ReplayFault(fault))
    case Ok(pending) => EmitAll(Filter(select, pending), events, a)
  }

  function Closing(kind: Kind, occurredAt: int, availableAt: int, cycle: string): Proposal {
    Proposal(kind, 0.0, 0.0, occurredAt, availableAt, cycle)
  }

  // ---- the three operations

  predicate IsBuy(p: PendingOrder) { p.order.side.Buy? }

  function SoftStop(orders: seq<Order>, events: seq<Event>, occurredAt: int, availableAt: int, cycle: string)
    : Result<seq<Event>, Refusal>
  {
    Batch(orders, events, None, IsBuy, Closing(CanceledByRisk, occurredAt, availableAt, cycle))
  }

  function Lapsed(asOf: int, atBoundary: bool): PendingOrder -> bool {
    (p: PendingOrder) => atBoundary || p.order.validUntil < asOf
  }

  function Expire(orders: seq<Order>, events: seq<Event>, asOf: int, cycle: string, atBoundary: bool)
    : Result<seq<Event>, Refusal>
  {
    Batch(orders, events, Some(asOf), Lapsed(asOf, atBoundary), Closing(Expired, asOf, asOf, cycle))
  }

  predicate IsNormal(o: Order) { o.orderClass.Normal? }

  /** Total quantity of the normal replacement SELLs of one arm in one symbol. */
  function ReplacementSells(replacements: seq<Order>, arm: Id, symbol: Id): real {
    if replacements == [] then 0.0
    else
      var last := replacements[|replacements| - 1];
      ReplacementSells(replacements[..|replacements| - 1], arm, symbol)
      + if IsNormal(last) && last.side.Sell? && last.arm == arm && last.symbol == symbol then last.quantity else 0.0
  }

  function Replaced(replacements: seq<Order>): PendingOrder -> bool {
    (p: PendingOrder) =>
      && IsNormal(p.order)
      && (exists r :: r in replacements && IsNormal(r) && r.arm == p.order.arm)
      && (p.order.side.Sell? ==>
            ReplacementSells(replacements, p.order.arm, p.order.symbol) >= p.aggregate.remaining)
  }

  function Supersede(orders: seq<Order>, events: seq<Event>, replacements: seq<Order>,
                     occurredAt: int, availableAt: int, cycle: string): Result<seq<Event>, Refusal>
  {
    if Filter(IsNormal, replacements) == [] then Ok([])
    else Batch(orders, events, None, Replaced(replacements), Closing(Superseded, occurredAt, availableAt, cycle))
  }

  // ---- the operations as loops over the pending list

  method CloseSelected(pending: seq<PendingOrder>, select: PendingOrder -> bool, events: seq<Event>, a: Proposal)
    returns (r: Result<seq<Event>, Refusal>)
    ensures r == EmitAll(Filter(select, pending), events, a)
  {
    hide EmitAll, AppendEvent, Filter;
    var result: seq<Event> := [];
    EmitStart(select, pending, events, a);
    for k := 0 to |pending|
      invariant EmitAll(Filter(select, pending[..k]), events, a) == Ok(result)
    {
      EmitStep(select, pending, k, events, a);
      if !select(pending[k]) {
        continue;
      }
      var appended := AppendEvent(pending[k].order, events + result, a);
      match appended
      case Err(refusal) => return Err(refusal);
      case Ok(e) => result := result + [e];
    }
    assert pending[..|pending|] == pending;
    r := Ok(result);
  }

  lemma EmitStart(select: PendingOrder -> bool, pending: seq<PendingOrder>, events: seq<Event>, a: Proposal)
    ensures EmitAll(Filter(select, pending[..0]), events, a) == Ok([])
  {
    assert Filter(select, pending[..0]) == [];
  }

  /** One turn of the loop, and the outcome of the whole loop when that turn fails. */
  lemma EmitStep(select: PendingOrder -> bool, pending: seq<PendingOrder>, k: nat, events: seq<Event>, a: Proposal)
    requires k < |pending| && EmitAll(Filter(select, pending[..k]), events, a).Ok?
    ensures
      var emitted := EmitAll(Filter(select, pending[..k]), events, a).value;
      var appended := AppendEvent(pending[k].order, events + emitted, a);
      && (!select(pending[k]) ==> EmitAll(Filter(select, pending[..k + 1]), events, a) == Ok(emitted))
      && (select(pending[k]) && appended.Ok? ==>
           EmitAll(Filter(select, pending[..k + 1]), events, a) == Ok(emitted + [appended.value]))
      && (select(pending[k]) && appended.Err? ==>
           EmitAll(Filter(select, pending), events, a) == Err(appended.error))
  {
    hide AppendEvent, EmitAll, Filter;
    var before := Filter(select, pending[..k]);
    assert pending[..k + 1] == pending[..k] + [pending[k]];
    FilterLast(select, pending[..k], pending[k]);
    EmitLast(before, pending[k], events, a);
    assert pending == pending[..k + 1] + pending[k + 1..];
    FilterConcat(select, pending[..k + 1], pending[k + 1..]);
    if EmitAll(Filter(select, pending[..k + 1]), events, a).Err? {
      EmitFails(Filter(select, pending[..k + 1]), Filter(select, pending[k + 1..]), events, a);
    }
  }

  lemma EmitLast(s: seq<PendingOrder>, p: PendingOrder, events: seq<Event>, a: Proposal)
    requires EmitAll(s, events, a).Ok?
    ensures EmitAll(s + [p], events, a) ==
      match AppendEvent(p.order, events + EmitAll(s, events, a).value, a)
        case Err(refusal) => Err(refusal)
        case Ok(e) => Ok(EmitAll(s, events, a).value + [e])
  {
    hide AppendEvent;
    assert (s + [p])[..|s|] == s;
  }

  lemma {:induction false} EmitFails(s: seq<PendingOrder>, t: seq<PendingOrder>, events: seq<Event>, a: Proposal)
    requires EmitAll(s, events, a).Err?
    ensures EmitAll(s + t, events, a) == EmitAll(s, events, a)
  {
    hide AppendEvent;
    if t == [] {
      assert s + t == s;
    } else {
      EmitFails(s, t[..|t| - 1], events, a);
      assert (s + t)[..|s + t| - 1] == s + t[..|t| - 1];
    }
  }

  method SoftStopBuyCancellations(orders: seq<Order>, events: seq<Event>, occurredAt: int, availableAt: int, cycle: string)
    returns (r: Result<seq<Event>, Refusal>)
    ensures r == SoftStop(orders, events, occurredAt, availableAt, cycle)
  {
    var pending := PendingOrders(orders, events, None);
    match pending
    case Err(fault) => r := Err(ReplayFault(fault));
    case Ok(found) => r := CloseSelected(found, IsBuy, events, Closing(CanceledByRisk, occurredAt, availableAt, cycle));
  }

  method SupersedeNormalOrders(orders: seq<Order>, events: seq<Event>, replacements: seq<Order>,
                               occurredAt: int, availableAt: int, cycle: string) returns (r: Result<seq<Event>, Refusal>)
    ensures r == Supersede(orders, events, replacements, occurredAt, availableAt, cycle)
  {
    if Filter(IsNormal, replacements) == [] {
      return Ok([]);
    }
    var pending := PendingOrders(orders, events, None);
    match pending
    case Err(fault) => r := Err(ReplayFault(fault));
    case Ok(found) =>
      r := CloseSelected(found, Replaced(replacements), events, Closing(Superseded, occurredAt, availableAt, cycle));
  }

  method ExpireOrders(orders: seq<Order>, events: seq<Event>, asOf: int, cycle: string, atBoundary: bool)
    returns (r: Result<seq<Event>, Refusal>)
    ensures r == Expire(orders, events, asOf, cycle, atBoundary)
  {
    var pending := PendingOrders(orders, events, Some(asOf));
    match pending
    case Err(fault) => r := Err(ReplayFault(fault));
    case Ok(found) => r := CloseSelected(found, Lapsed(asOf, atBoundary), events, Closing(Expired, asOf, asOf, cycle));
  }
}
