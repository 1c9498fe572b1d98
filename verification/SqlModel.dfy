/** What each operation of the SQLite adapter does to its tables, statement by statement
    (packages/persistence-sqlite/src/sqlite-adapter.ts). A table maps primary keys to rows;
    UNIQUE columns are checked on insertion.
 */
module SqlModel {
  import opened Basics
  import opened Listing
  import opened Outbox
  import opened MemoryModel

  datatype SqlState = SqlState(
    aggregates: map<(Id, Id), Aggregate>,
    events: map<Id, Event>,
    outbox: map<Id, Message>)

  const EMPTY_SQL := SqlState(map[], map[], map[])

  /** Primary keys name their rows, and the UNIQUE columns are unique. */
  ghost predicate TablesOk(t: SqlState) {
    && RowsOk(t.outbox)
    && EventRowsOk(t.events)
    && (forall k :: k in t.aggregates ==> k == (t.aggregates[k].aggregateType, t.aggregates[k].aggregateId))
  }

  /** PRIMARY KEY (message_id), UNIQUE (sequence), UNIQUE (idempotency_key) */
  ghost predicate RowsOk(rows: map<Id, Message>) {
    && DistinctKeys(rows.Values, MessageKey())
    && (forall k :: k in rows ==> rows[k].messageId == k)
    && (forall k, l :: k in rows && l in rows && rows[k].idempotencyKey == rows[l].idempotencyKey ==> k == l)
  }

  /** PRIMARY KEY (event_id), UNIQUE (global_sequence) */
  ghost predicate EventRowsOk(rows: map<Id, Event>) {
    DistinctKeys(rows.Values, EventKey()) && forall k :: k in rows ==> rows[k].eventId == k
  }

  // Statements ---------------------------------------------------------

  /** SELECT COALESCE(MAX(sequence), 0) FROM outbox */
  function MaxMessageSequence(rows: map<Id, Message>): nat
    requires DistinctKeys(rows.Values, MessageKey())
  {
    if rows.Values == {} then 0 else Largest(rows.Values, MessageKey()).sequence
  }

  /** SELECT COALESCE(MAX(global_sequence), 0) FROM events */
  function MaxEventSequence(rows: map<Id, Event>): nat
    requires DistinctKeys(rows.Values, EventKey())
  {
    if rows.Values == {} then 0 else Largest(rows.Values, EventKey()).globalSequence
  }

  /** SELECT message_id FROM outbox WHERE idempotency_key = ? */
  predicate KeyInUse(rows: map<Id, Message>, key: Id) {
    exists k :: k in rows && rows[k].idempotencyKey == key
  }

  function InsertMessage(rows: map<Id, Message>, m: Message): Result<map<Id, Message>> {
    if m.messageId in rows || KeyInUse(rows, m.idempotencyKey)
       || (exists k :: k in rows && rows[k].sequence == m.sequence)
    then Err(StorageFailure)
    else Ok(rows[m.messageId := m])
  }

  function InsertEvent(rows: map<Id, Event>, e: Event): Result<map<Id, Event>> {
    if e.eventId in rows || exists k :: k in rows && rows[k].globalSequence == e.globalSequence
    then Err(StorageFailure)
    else Ok(rows[e.eventId := e])
  }

  function InsertAggregate(rows: map<(Id, Id), Aggregate>, a: Aggregate): Result<map<(Id, Id), Aggregate>> {
    if (a.aggregateType, a.aggregateId) in rows then Err(StorageFailure)
    else Ok(rows[(a.aggregateType, a.aggregateId) := a])
  }

  /** UPDATE outbox SET <state columns> WHERE message_id = ? */
  function UpdateState(rows: map<Id, Message>, m: Message): map<Id, Message> {
    if m.messageId !in rows then rows
    else rows[m.messageId := rows[m.messageId].(
      status := m.status, attemptCount := m.attemptCount, availableAt := m.availableAt, leaseOwner := m.leaseOwner,
      leaseExpiresAt := m.leaseExpiresAt, acknowledgedAt := m.acknowledgedAt, deadLetteredAt := m.deadLetteredAt,
      lastFailureCategory := m.lastFailureCategory)]
  }

  function Claimable(now: Time): Message -> bool {
    (m: Message) =>
      || (m.status == Pending && m.availableAt <= now)
      || (m.status == Leased && m.leaseExpiresAt.Some? && m.leaseExpiresAt.value <= now)
  }

  /** SELECT ... WHERE ... ORDER BY <key> ASC LIMIT ? */
  function Select<T(!new, ==)>(rows: set<T>, p: T -> bool, key: T -> int, limit: nat): seq<T>
    requires DistinctKeys(rows, key)
  {
    assert DistinctKeys(Where(rows, p), key);
    Take(Sorted(Where(rows, p), key), limit)
  }

  // Operations ---------------------------------------------------------

  function SqlCreate(t: SqlState, op: Op): (SqlState, Answer)
    requires op.CreateAggregate?
  {
    var key := (op.aggregateType, op.aggregateId);
    if key in t.aggregates then (t, Failed(ConcurrencyConflict(Some(t.aggregates[key].version))))
    else match InsertAggregate(t.aggregates, NewAggregate(op))
      case Err(e) => (t, Failed(e))
      case Ok(rows) => (t.(aggregates := rows), OneAggregate(if key in rows then Some(rows[key]) else None))
  }

  function SqlUpdate(t: SqlState, op: Op): (SqlState, Answer)
    requires op.UpdateAggregate?
  {
    var key := (op.aggregateType, op.aggregateId);
    if key !in t.aggregates then (t, Failed(NotFound))
    else if t.aggregates[key].version != op.expectedVersion then
      (t, Failed(ConcurrencyConflict(Some(t.aggregates[key].version))))
    else
      var rows := t.aggregates[key := t.aggregates[key].(version := op.expectedVersion + 1, content := op.content,
          updatedAt := op.now)];
      (t.(aggregates := rows), OneAggregate(Some(rows[key])))
  }

  function SqlGetAggregate(t: SqlState, op: Op): Answer
    requires op.GetAggregate?
  {
    var key := (op.aggregateType, op.aggregateId);
    OneAggregate(if key in t.aggregates then Some(t.aggregates[key]) else None)
  }

  /** Rows of one type; their ids are distinct because the key is (type, id). */
  function OfType(t: SqlState, aggregateType: Id): (rows: set<Aggregate>)
    requires TablesOk(t)
    ensures DistinctKeys(rows, AggregateKey())
  {
    var rows := Where(t.aggregates.Values, (a: Aggregate) => a.aggregateType == aggregateType);
    assert forall a :: a in rows ==>
        (a.aggregateType, a.aggregateId) in t.aggregates && t.aggregates[(a.aggregateType, a.aggregateId)] == a;
    rows
  }

  function IdAbove(key: Id): Aggregate -> bool { (a: Aggregate) => a.aggregateId > key }

  function SqlListAggregates(t: SqlState, op: Op): Answer
    requires op.ListAggregates? && op.limit >= 1 && TablesOk(t)
  {
    match AfterKey(op.cursor)
    case Err(e) => Failed(e)
    case Ok(after) =>
      var key := if after.None? then EMPTY_TEXT else after.value;
      var rows := Select(OfType(t, op.aggregateType), IdAbove(key), AggregateKey(), op.limit + 1);
      AggregatePage(BuildPage(rows, op.limit, AggregateCursor()))
  }

  function EventRows(eventType: Option<Id>, id: Option<Id>, after: nat): Event -> bool {
    (e: Event) =>
      && (eventType.None? || e.aggregateType == eventType.value)
      && (id.None? || e.aggregateId == id.value)
      && e.globalSequence > after
  }

  function SqlAppend(t: SqlState, op: Op): (SqlState, Answer)
    requires op.AppendEvent? && TablesOk(t)
  {
    if op.eventId in t.events then (t, Failed(DuplicateId))
    else
      var globalSequence := MaxEventSequence(t.events) + 1;
      match InsertEvent(t.events, NewEvent(op, globalSequence))
      case Err(e) => (t, Failed(e))
      case Ok(rows) =>
        // The row is read back as the first of its aggregate past the previous sequence.
        assert DistinctKeys(rows.Values,
            EventKey()) by { InsertedEventIsDistinct(t.events, NewEvent(op, globalSequence)); }
        var read := Select(rows.Values, EventRows(Some(op.aggregateType), Some(op.aggregateId), globalSequence - 1),
            EventKey(), 1);
        (t.(events := rows), if read == [] then Failed(StorageFailure) else OneEvent(read[0]))
  }

  lemma InsertedEventIsDistinct(rows: map<Id, Event>, e: Event)
    requires DistinctKeys(rows.Values, EventKey()) && InsertEvent(rows, e).Ok?
    ensures DistinctKeys(InsertEvent(rows, e).value.Values, EventKey())
  {
    assert InsertEvent(rows, e).value.Values <= rows.Values + {e};
  }

  function SqlListEvents(t: SqlState, op: Op): Answer
    requires op.ListEvents? && op.limit >= 1 && TablesOk(t)
  {
    if op.eventAggregate.Some? && op.eventType.None? then Failed(Validation)
    else match AfterSequence(op.cursor)
      case Err(e) => Failed(e)
      case Ok(after) =>
        var from := if after.None? then 0 else after.value;
        var rows := Select(t.events.Values, EventRows(op.eventType, op.eventAggregate, from), EventKey(), op.limit + 1);
        EventPage(BuildPage(rows, op.limit, EventCursor()))
  }

  function SqlEnqueue(t: SqlState, op: Op): (SqlState, Answer)
    requires op.Enqueue? && TablesOk(t)
  {
    if op.messageId in t.outbox then (t, Failed(DuplicateId))
    else if KeyInUse(t.outbox, op.idempotencyKey) then (t, Failed(DuplicateIdempotencyKey))
    else match InsertMessage(t.outbox, NewMessage(op, MaxMessageSequence(t.outbox) + 1))
      case Err(e) => (t, Failed(e))
      case Ok(rows) =>
        (t.(outbox := rows), if op.messageId in rows then OneMessage(Some(rows[op.messageId])) else Failed(NotFound))
  }

  /** The loop of `claim` over the selected rows. */
  function ClaimRows(rows: map<Id, Message>, picked: seq<Message>, claimed: seq<Message>, owner: Id, expires: Time,
      now: Time)
    : (map<Id, Message>, seq<Message>)
    decreases |picked|
  {
    if picked == [] then (rows, claimed)
    else if !IsClaimable(picked[0], now) then ClaimRows(rows, picked[1..], claimed, owner, expires, now)
    else
      var next := ApplyClaim(picked[0], owner, expires);
      ClaimRows(UpdateState(rows, next), picked[1..], claimed + [next], owner, expires, now)
  }

  function SqlClaim(t: SqlState, op: Op): (SqlState, Answer)
    requires op.Claim? && TablesOk(t)
  {
    var picked := Select(t.outbox.Values, Claimable(op.now), MessageKey(), op.limit);
    var (rows, claimed) := ClaimRows(t.outbox, picked, [], op.owner, op.now + op.leaseDuration, op.now);
    (t.(outbox := rows), Claimed(claimed))
  }

  function SqlSettle(t: SqlState, op: Op): (SqlState, Answer)
    requires op.Acknowledge? || op.ScheduleRetry? || op.DeadLetter?
  {
    if op.messageId !in t.outbox then (t, Failed(NotFound))
    else match Settle(t.outbox[op.messageId], op)
      case Err(e) => (t, Failed(e))
      case Ok(next) => (t.(outbox := UpdateState(t.outbox, next)), OneMessage(Some(next)))
  }

  function SqlGetMessage(t: SqlState, op: Op): Answer
    requires op.GetMessage?
  {
    OneMessage(if op.messageId in t.outbox then Some(t.outbox[op.messageId]) else None)
  }

  function MessageRows(status: Option<Status>, after: nat): Message -> bool {
    (m: Message) => (status.None? || m.status == status.value) && m.sequence > after
  }

  function SqlListMessages(t: SqlState, op: Op): Answer
    requires op.ListMessages? && op.limit >= 1 && TablesOk(t)
  {
    match AfterSequence(op.cursor)
    case Err(e) => Failed(e)
    case Ok(after) =>
      var from := if after.None? then 0 else after.value;
      var rows := Select(t.outbox.Values, MessageRows(op.status, from), MessageKey(), op.limit + 1);
      MessagePage(BuildPage(rows, op.limit, MessageCursor()))
  }

  function SqlStep(t: SqlState, op: Op): (SqlState, Answer)
    requires TablesOk(t) && ValidOp(op)
  {
    match op
    case CreateAggregate(_, _, _, _) => SqlCreate(t, op)
    case UpdateAggregate(_, _, _, _, _) => SqlUpdate(t, op)
    case GetAggregate(_, _) => (t, SqlGetAggregate(t, op))
    case ListAggregates(_, _, _) => (t, SqlListAggregates(t, op))
    case AppendEvent(_, _, _, _, _) => SqlAppend(t, op)
    case ListEvents(_, _, _, _) => (t, SqlListEvents(t, op))
    case Enqueue(_, _, _, _, _) => SqlEnqueue(t, op)
    case Claim(_, _, _, _) => SqlClaim(t, op)
    case Acknowledge(_, _, _) => SqlSettle(t, op)
    case ScheduleRetry(_, _, _, _) => SqlSettle(t, op)
    case DeadLetter(_, _, _, _) => SqlSettle(t, op)
    case GetMessage(_) => (t, SqlGetMessage(t, op))
    case ListMessages(_, _, _) => (t, SqlListMessages(t, op))
  }

  // The constraints of the schema hold in every state -------------------

  lemma InsertedMessageIsDistinct(rows: map<Id, Message>, m: Message)
    requires DistinctKeys(rows.Values, MessageKey()) && InsertMessage(rows, m).Ok?
    ensures DistinctKeys(InsertMessage(rows, m).value.Values, MessageKey())
  {
    assert InsertMessage(rows, m).value.Values <= rows.Values + {m};
  }

  lemma InsertKeepsRows(rows: map<Id, Message>, m: Message)
    requires RowsOk(rows) && InsertMessage(rows, m).Ok?
    ensures RowsOk(InsertMessage(rows, m).value)
  {
    hide DistinctKeys;
    InsertedMessageIsDistinct(rows, m);
  }

  lemma UpdateKeepsRows(rows: map<Id, Message>, m: Message)
    requires RowsOk(rows)
    ensures RowsOk(UpdateState(rows, m))
  {
    var after := UpdateState(rows, m);
    forall x, y | x in after.Values && y in after.Values && x.sequence == y.sequence
      ensures x == y
    {
      var k :| k in after && after[k] == x;
      var l :| l in after && after[l] == y;
      assert rows[k] in rows.Values && rows[l] in rows.Values;
      assert MessageKey()(rows[k]) == MessageKey()(rows[l]);
    }
  }

  lemma {:induction false} ClaimRowsKeepsRows(rows: map<Id, Message>, picked: seq<Message>, claimed: seq<Message>,
      owner: Id, expires: Time, now: Time)
    requires RowsOk(rows)
    ensures RowsOk(ClaimRows(rows, picked, claimed, owner, expires, now).0)
    decreases |picked|
  {
    if picked != [] {
      if IsClaimable(picked[0], now) {
        var next := ApplyClaim(picked[0], owner, expires);
        UpdateKeepsRows(rows, next);
        ClaimRowsKeepsRows(UpdateState(rows, next), picked[1..], claimed + [next], owner, expires, now);
      } else {
        ClaimRowsKeepsRows(rows, picked[1..], claimed, owner, expires, now);
      }
    }
  }

  lemma SqlStepKeepsTables(t: SqlState, op: Op)
    requires TablesOk(t) && ValidOp(op)
    ensures TablesOk(SqlStep(t, op).0)
  {
    hide DistinctKeys, Select, Sorted, Where, KeyInUse, MaxMessageSequence, MaxEventSequence;
    match op {
      case AppendEvent(_, _, _, _, _) =>
        var e := NewEvent(op, MaxEventSequence(t.events) + 1);
        if InsertEvent(t.events, e).Ok? {
          InsertedEventIsDistinct(t.events, e);
        }
      case Enqueue(_, _, _, _, _) =>
        var m := NewMessage(op, MaxMessageSequence(t.outbox) + 1);
        if InsertMessage(t.outbox, m).Ok? {
          InsertKeepsRows(t.outbox, m);
        }
      case Claim(_, _, _, _) =>
        var picked := Select(t.outbox.Values, Claimable(op.now), MessageKey(), op.limit);
        ClaimRowsKeepsRows(t.outbox, picked, [], op.owner, op.now + op.leaseDuration, op.now);
      case Acknowledge(_, _, _) => SettleKeepsTables(t, op);
      case ScheduleRetry(_, _, _, _) => SettleKeepsTables(t, op);
      case DeadLetter(_, _, _, _) => SettleKeepsTables(t, op);
      case _ =>
    }
  }

  lemma SettleKeepsTables(t: SqlState, op: Op)
    requires TablesOk(t) && (op.Acknowledge? || op.ScheduleRetry? || op.DeadLetter?)
    ensures TablesOk(SqlSettle(t, op).0)
  {
    hide DistinctKeys, UpdateState;
    if op.messageId in t.outbox && Settle(t.outbox[op.messageId], op).Ok? {
      UpdateKeepsRows(t.outbox, Settle(t.outbox[op.messageId], op).value);
    }
  }
}
