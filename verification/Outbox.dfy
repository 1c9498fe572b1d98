/** Records, operations and the outbox state machine shared by both persistence adapters
    (packages/persistence/src/outbox-logic.ts, records.ts, cursor.ts).

    Identifiers are bounded strings over a fixed alphabet of which only equality and code-unit
    order are used, so they are modelled by their rank. Times are integers. `Content` stands for
    everything a record carries along unread.
 */
module Outbox {
  import opened Basics

  type Id = nat
  type Time = int
  type Content = string

  datatype Error =
    | ConcurrencyConflict(actual: Option<nat>)
    | NotFound
    | DuplicateId
    | DuplicateIdempotencyKey
    | OutboxStateConflict
    | InvalidCursor
    | Validation
    | StorageFailure
    | TransactionCompleted
    | AdapterClosed

  datatype Result<+T> = Ok(value: T) | Err(error: Error)

  datatype Status = Pending | Leased | Acknowledged | DeadLettered

  datatype Message = Message(
    messageId: Id, content: Content, idempotencyKey: Id, status: Status, attemptCount: nat,
    createdAt: Time, availableAt: Time, leaseOwner: Option<Id>, leaseExpiresAt: Option<Time>,
    acknowledgedAt: Option<Time>, deadLetteredAt: Option<Time>, lastFailureCategory: Option<Id>, sequence: nat)

  predicate IsClaimable(m: Message, now: Time) {
    match m.status
    case Pending => m.availableAt <= now
    case Leased => m.leaseExpiresAt.Some? && m.leaseExpiresAt.value <= now
    case _ => false
  }

  function ApplyClaim(m: Message, owner: Id, leaseExpiresAt: Time): Message {
    m.(status := Leased, leaseOwner := Some(owner), leaseExpiresAt := Some(leaseExpiresAt),
        attemptCount := m.attemptCount + 1)
  }

  predicate LeasedBy(m: Message, owner: Id) {
    m.status == Leased && m.leaseOwner == Some(owner)
  }

  datatype Acknowledgement = Acknowledgement(changed: bool, message: Message)

  function ApplyAcknowledge(m: Message, owner: Id, now: Time): Result<Acknowledgement> {
    if m.status == Acknowledged then Ok(Acknowledgement(false, m))
    else if !LeasedBy(m, owner) then Err(OutboxStateConflict)
    else Ok(Acknowledgement(true,
      m.(status := Acknowledged, acknowledgedAt := Some(now), leaseOwner := None, leaseExpiresAt := None)))
  }

  function ApplyScheduleRetry(m: Message, owner: Id, retryAt: Time, category: Option<Id>): Result<Message> {
    if !LeasedBy(m, owner) then Err(OutboxStateConflict)
    else Ok(m.(status := Pending, availableAt := retryAt, leaseOwner := None, leaseExpiresAt := None,
               lastFailureCategory := if category.Some? then category else m.lastFailureCategory))
  }

  function ApplyDeadLetter(m: Message, owner: Id, category: Id, now: Time): Result<Message> {
    if !LeasedBy(m, owner) then Err(OutboxStateConflict)
    else Ok(m.(status := DeadLettered, deadLetteredAt := Some(now), leaseOwner := None, leaseExpiresAt := None,
               lastFailureCategory := Some(category)))
  }

  datatype Aggregate = Aggregate(
    aggregateType: Id, aggregateId: Id, version: nat, content: Content, createdAt: Time, updatedAt: Time)

  datatype Event = Event(
    eventId: Id, aggregateType: Id, aggregateId: Id, content: Content, recordedAt: Time, globalSequence: nat)

  datatype Cursor = StringKey(lastKey: Id) | Sequence(lastSequence: nat)
  datatype Page<T> = Page(items: seq<T>, nextCursor: Option<Cursor>)

  /** Cuts `limit` items off a listing that was fetched with one extra entry. */
  function BuildPage<T>(items: seq<T>, limit: nat, cursorOf: T -> Cursor): Page<T>
    requires limit >= 1
  {
    if |items| <= limit then Page(items, None)
    else Page(items[..limit], Some(cursorOf(items[limit - 1])))
  }

  /** One store operation, with its validated input and the clock reading it takes. */
  datatype Op =
    | CreateAggregate(aggregateType: Id, aggregateId: Id, content: Content, now: Time)
    | UpdateAggregate(aggregateType: Id, aggregateId: Id, content: Content, now: Time, expectedVersion: nat)
    | GetAggregate(aggregateType: Id, aggregateId: Id)
    | ListAggregates(aggregateType: Id, cursor: Option<Cursor>, limit: nat)
    | AppendEvent(eventId: Id, aggregateType: Id, aggregateId: Id, content: Content, now: Time)
    | ListEvents(eventType: Option<Id>, eventAggregate: Option<Id>, cursor: Option<Cursor>, limit: nat)
    | Enqueue(messageId: Id, content: Content, idempotencyKey: Id, availableAt: Option<Time>, now: Time)
    | Claim(owner: Id, leaseDuration: nat, limit: nat, now: Time)
    | Acknowledge(messageId: Id, owner: Id, now: Time)
    | ScheduleRetry(messageId: Id, owner: Id, retryAt: Time, category: Option<Id>)
    | DeadLetter(messageId: Id, owner: Id, failure: Id, now: Time)
    | GetMessage(messageId: Id)
    | ListMessages(status: Option<Status>, cursor: Option<Cursor>, limit: nat)

  /** The empty text, below every identifier. */
  const EMPTY_TEXT: Id := 0

  /** Input validation: identifiers are not empty; page sizes, claim limits and lease durations are at least one. */
  predicate ValidOp(op: Op) {
    match op
    case CreateAggregate(_, id, _, _) => id > EMPTY_TEXT
    case ListAggregates(_, _, limit) => limit >= 1
    case ListEvents(_, _, _, limit) => limit >= 1
    case ListMessages(_, _, limit) => limit >= 1
    case Claim(_, d, limit, _) => d >= 1 && limit >= 1
    case _ => true
  }

  datatype Answer =
    | Failed(error: Error)
    | OneAggregate(aggregate: Option<Aggregate>)
    | OneEvent(event: Event)
    | OneMessage(message: Option<Message>)
    | Claimed(messages: seq<Message>)
    | AggregatePage(aggregates: Page<Aggregate>)
    | EventPage(events: Page<Event>)
    | MessagePage(page: Page<Message>)

  function MessageKey(): Message -> int { (m: Message) => m.sequence }
  function EventKey(): Event -> int { (e: Event) => e.globalSequence }
  function AggregateKey(): Aggregate -> int { (a: Aggregate) => a.aggregateId }

  function NewMessage(op: Op, sequence: nat): Message
    requires op.Enqueue?
  {
    Message(op.messageId, op.content, op.idempotencyKey, Pending, 0, op.now,
            if op.availableAt.Some? then op.availableAt.value else op.now,
            None, None, None, None, None, sequence)
  }

  function NewAggregate(op: Op): Aggregate
    requires op.CreateAggregate?
  {
    Aggregate(op.aggregateType, op.aggregateId, 1, op.content, op.now, op.now)
  }

  function UpdatedAggregate(a: Aggregate, op: Op): Aggregate
    requires op.UpdateAggregate?
  {
    a.(version := op.expectedVersion + 1, content := op.content, updatedAt := op.now)
  }

  /** The key a cursor continues after, if it is of the expected kind. */
  function AfterKey(cursor: Option<Cursor>): Result<Option<nat>> {
    if cursor.None? then Ok(None) else if cursor.value.StringKey? then Ok(Some(cursor.value.lastKey))
        else Err(InvalidCursor)
  }

  function AfterSequence(cursor: Option<Cursor>): Result<Option<nat>> {
    if cursor.None? then Ok(None) else if cursor.value.Sequence? then Ok(Some(cursor.value.lastSequence))
        else Err(InvalidCursor)
  }
}
