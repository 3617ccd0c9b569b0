/** Orders and their immutable events, as the event-sourced order book stores them. */
module Orders {
  import opened Identifiers

  datatype Side = Buy | Sell

  datatype OrderClass = Normal | EmergencyReduction | LlmReduction | LiveMirrorTransition

  datatype Order = Order(
    id: Id,
    arm: Id,
    symbol: Id,
    side: Side,
    quantity: real,
    orderClass: OrderClass,
    createdAt: int,
    validUntil: int)
  {
    predicate Valid() {
      quantity > 0.0 && validUntil > createdAt
    }
  }

  datatype Kind =
    | Created
    | Active
    | PartiallyFilled
    | Filled
    | CanceledByRisk
    | Superseded
    | Expired
    | Rejected
    | BlockedByData
    | BlockedByPriceGuard
  {
    predicate Terminal() {
      Filled? || CanceledByRisk? || Superseded? || Expired? || Rejected?
    }

    predicate Fills() {
      PartiallyFilled? || Filled?
    }
  }

  /** What an event's stable id is made of; equal ids mean equal identities. */
  datatype Identity = Identity(
    orderId: Id,
    kind: Kind,
    sequence: int,
    quantityDelta: real,
    commissionDelta: real,
    remaining: real,
    occurredAt: int,
    origin: string)

  datatype EventId = Stable(identity: Identity) | Foreign(text: string)

  datatype IdempotencyKey = KeyOf(id: EventId) | ForeignKey(text: string)

  datatype Event = Event(
    id: EventId,
    key: IdempotencyKey,
    orderId: Id,
    kind: Kind,
    sequence: int,
    quantityDelta: real,
    commissionDelta: real,
    remaining: real,
    filled: real,
    commission: real,
    occurredAt: int,
    availableAt: int,
    origin: string)
  {
    /** The field rules every constructed event has passed. */
    predicate Valid() {
      && sequence >= 1
      && quantityDelta >= 0.0 && commissionDelta >= 0.0
      && remaining >= 0.0 && filled >= 0.0 && commission >= 0.0
      && availableAt >= occurredAt
      && (kind.Filled? ==> remaining == 0.0)
      && (kind.PartiallyFilled? ==> filled > 0.0)
      && (kind.Fills() ==> quantityDelta > 0.0)
      && (!kind.Fills() ==> quantityDelta == 0.0 && commissionDelta == 0.0)
    }

    /** The id and key are the ones derived from the event's own contents. */
    predicate Identified() {
      && id == Stable(Identity(orderId, kind, sequence, quantityDelta, commissionDelta, remaining, occurredAt, origin))
      && key == KeyOf(id)
    }
  }

  datatype Aggregate = Aggregate(
    status: Kind,
    remaining: real,
    filled: real,
    commission: real,
    sequence: int,
    eventId: EventId)
  {
    predicate Pending() {
      !status.Terminal() && remaining > 0.0
    }
  }
}
