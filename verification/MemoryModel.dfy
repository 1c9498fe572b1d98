/** What each operation of the in-memory adapter does to its maps and counters
    (packages/persistence-memory/src/memory-adapter.ts).
 */
module MemoryModel {
  import opened Basics
  import opened Listing
  import opened Outbox

  datatype MemState = MemState(
    aggregates: map<Id, map<Id, Aggregate>>,
    events: map<Id, Event>,
    eventSequence: nat,
    outbox: map<Id, Message>,
    idempotencyKeys: map<Id, Id>,
    outboxSequence: nat)

  const EMPTY_MEM := MemState(map[], map[], 0, map[], map[], 0)

  /** Sequences identify records, so that sorting by them is unambiguous. */
  ghost predicate Sortable(s: MemState) {
    && DistinctKeys(s.outbox.Values, MessageKey())
    && DistinctKeys(s.events.Values, EventKey())
    && forall t :: t in s.aggregates ==> DistinctKeys(s.aggregates[t].Values, AggregateKey())
  }

  function ByType(s: MemState, aggregateType: Id): map<Id, Aggregate> {
    if aggregateType in s.aggregates then s.aggregates[aggregateType] else map[]
  }

  function PutAggregate(s: MemState, a: Aggregate): MemState {
    s.(aggregates := s.aggregates[a.aggregateType := ByType(s, a.aggregateType)[a.aggregateId := a]])
  }

  function MemCreate(s: MemState, op: Op): (MemState, Answer)
    requires op.CreateAggregate?
  {
    var existing := ByType(s, op.aggregateType);
    if op.aggregateId in existing then
      // The failing call still leaves an (empty or unchanged) inner map behind.
      (s.(aggregates := s.aggregates[op.aggregateType := existing]),
          Failed(ConcurrencyConflict(Some(existing[op.aggregateId].version))))
    else (PutAggregate(s, NewAggregate(op)), OneAggregate(Some(NewAggregate(op))))
  }

  function MemUpdate(s: MemState, op: Op): (MemState, Answer)
    requires op.UpdateAggregate?
  {
    var existing := ByType(s, op.aggregateType);
    var t := s.(aggregates := s.aggregates[op.aggregateType := existing]);
    if op.aggregateId !in existing then (t, Failed(NotFound))
    else if existing[op.aggregateId].version != op.expectedVersion then
      (t, Failed(ConcurrencyConflict(Some(existing[op.aggregateId].version))))
    else
      var stored := UpdatedAggregate(existing[op.aggregateId], op);
      (s.(aggregates := s.aggregates[op.aggregateType := existing[op.aggregateId := stored]]),
          OneAggregate(Some(stored)))
  }

  function MemGetAggregate(s: MemState, op: Op): Answer
    requires op.GetAggregate?
  {
    var existing := ByType(s, op.aggregateType);
    OneAggregate(if op.aggregateId in existing then Some(existing[op.aggregateId]) else None)
  }

  function AggregateAfter(after: Option<nat>): Aggregate -> bool {
    (a: Aggregate) => after.None? || a.aggregateId > after.value
  }

  function AggregateCursor(): Aggregate -> Cursor { (a: Aggregate) => StringKey(a.aggregateId) }

  function MemListAggregates(s: MemState, op: Op): Answer
    requires op.ListAggregates? && op.limit >= 1 && Sortable(s)
  {
    match AfterKey(op.cursor)
    case Err(e) => Failed(e)
    case Ok(after) =>
      var rows := ByType(s, op.aggregateType).Values;
      assert DistinctKeys(rows, AggregateKey());
      var items := Take(Filter(Sorted(rows, AggregateKey()), AggregateAfter(after)), op.limit + 1);
      AggregatePage(BuildPage(items, op.limit, AggregateCursor()))
  }

  function NewEvent(op: Op, sequence: nat): Event
    requires op.AppendEvent?
  {
    Event(op.eventId, op.aggregateType, op.aggregateId, op.content, op.now, sequence)
  }

  function MemAppend(s: MemState, op: Op): (MemState, Answer)
    requires op.AppendEvent?
  {
    if op.eventId in s.events then (s, Failed(DuplicateId))
    else
      var stored := NewEvent(op, s.eventSequence + 1);
      (s.(eventSequence := s.eventSequence + 1, events := s.events[op.eventId := stored]), OneEvent(stored))
  }

  function EventMatches(eventType: Option<Id>, id: Option<Id>, after: Option<nat>): Event -> bool {
    (e: Event) =>
      && (eventType.None? || e.aggregateType == eventType.value)
      && (id.None? || e.aggregateId == id.value)
      && (after.None? || e.globalSequence > after.value)
  }

  function EventCursor(): Event -> Cursor { (e: Event) => Sequence(e.globalSequence) }

  function MemListEvents(s: MemState, op: Op): Answer
    requires op.ListEvents? && op.limit >= 1 && Sortable(s)
  {
    if op.eventAggregate.Some? && op.eventType.None? then Failed(Validation)
    else match AfterSequence(op.cursor)
      case Err(e) => Failed(e)
      case Ok(after) =>
        var items := Take(Filter(Sorted(s.events.Values, EventKey()),
            EventMatches(op.eventType, op.eventAggregate, after)), op.limit + 1);
        EventPage(BuildPage(items, op.limit, EventCursor()))
  }

  function MemEnqueue(s: MemState, op: Op): (MemState, Answer)
    requires op.Enqueue?
  {
    if op.messageId in s.outbox then (s, Failed(DuplicateId))
    else if op.idempotencyKey in s.idempotencyKeys then (s, Failed(DuplicateIdempotencyKey))
    else
      var stored := NewMessage(op, s.outboxSequence + 1);
      (s.(outboxSequence := s.outboxSequence + 1,
          outbox := s.outbox[op.messageId := stored],
          idempotencyKeys := s.idempotencyKeys[op.idempotencyKey := op.messageId]),
       OneMessage(Some(stored)))
  }

  /** The scan of `claim` over a sorted snapshot: it writes as it goes and stops at the limit. */
  function ClaimScan(outbox: map<Id, Message>, scan: seq<Message>, claimed: seq<Message>, owner: Id, expires: Time,
      limit: nat, now: Time)
    : (map<Id, Message>, seq<Message>)
    decreases |scan|
  {
    if scan == [] || |claimed| >= limit then (outbox, claimed)
    else if !IsClaimable(scan[0], now) then ClaimScan(outbox, scan[1..], claimed, owner, expires, limit, now)
    else
      var next := ApplyClaim(scan[0], owner, expires);
      ClaimScan(outbox[next.messageId := next], scan[1..], claimed + [next], owner, expires, limit, now)
  }

  lemma ClaimScanStep(outbox: map<Id, Message>, scan: seq<Message>, claimed: seq<Message>, owner: Id, expires: Time,
      limit: nat, now: Time)
    ensures ClaimScan(outbox, scan, claimed, owner, expires, limit, now) ==
      if scan == [] || |claimed| >= limit then (outbox, claimed)
      else if !IsClaimable(scan[0], now) then ClaimScan(outbox, scan[1..], claimed, owner, expires, limit, now)
      else
        var next := ApplyClaim(scan[0], owner, expires);
        ClaimScan(outbox[next.messageId := next], scan[1..], claimed + [next], owner, expires, limit, now)
  {
  }

  function MemClaim(s: MemState, op: Op): (MemState, Answer)
    requires op.Claim? && Sortable(s)
  {
    var (outbox, claimed) :=
      ClaimScan(s.outbox, Sorted(s.outbox.Values, MessageKey()), [], op.owner, op.now + op.leaseDuration, op.limit,
          op.now);
    (s.(outbox := outbox), Claimed(claimed))
  }

  /** Acknowledge, schedule a retry or dead-letter: a transition of one stored message. */
  function Settle(m: Message, op: Op): Result<Message>
    requires op.Acknowledge? || op.ScheduleRetry? || op.DeadLetter?
  {
    match op
    case Acknowledge(_, owner, now) => (
      match ApplyAcknowledge(m, owner, now) case Ok(a) => Ok(a.message) case Err(e) => Err(e))
    case ScheduleRetry(_, owner, retryAt, category) => ApplyScheduleRetry(m, owner, retryAt, category)
    case DeadLetter(_, owner, failure, now) => ApplyDeadLetter(m, owner, failure, now)
  }

  function MemSettle(s: MemState, op: Op): (MemState, Answer)
    requires op.Acknowledge? || op.ScheduleRetry? || op.DeadLetter?
  {
    if op.messageId !in s.outbox then (s, Failed(NotFound))
    else match Settle(s.outbox[op.messageId], op)
      case Err(e) => (s, Failed(e))
      case Ok(next) => (s.(outbox := s.outbox[op.messageId := next]), OneMessage(Some(next)))
  }

  function MemGetMessage(s: MemState, op: Op): Answer
    requires op.GetMessage?
  {
    OneMessage(if op.messageId in s.outbox then Some(s.outbox[op.messageId]) else None)
  }

  function MessageMatches(status: Option<Status>, after: Option<nat>): Message -> bool {
    (m: Message) => (status.None? || m.status == status.value) && (after.None? || m.sequence > after.value)
  }

  function MessageCursor(): Message -> Cursor { (m: Message) => Sequence(m.sequence) }

  function MemListMessages(s: MemState, op: Op): Answer
    requires op.ListMessages? && op.limit >= 1 && Sortable(s)
  {
    match AfterSequence(op.cursor)
    case Err(e) => Failed(e)
    case Ok(after) =>
      var items := Take(Filter(Sorted(s.outbox.Values, MessageKey()), MessageMatches(op.status, after)), op.limit + 1);
      MessagePage(BuildPage(items, op.limit, MessageCursor()))
  }

  function MemStep(s: MemState, op: Op): (MemState, Answer)
    requires Sortable(s) && ValidOp(op)
  {
    match op
    case CreateAggregate(_, _, _, _) => MemCreate(s, op)
    case UpdateAggregate(_, _, _, _, _) => MemUpdate(s, op)
    case GetAggregate(_, _) => (s, MemGetAggregate(s, op))
    case ListAggregates(_, _, _) => (s, MemListAggregates(s, op))
    case AppendEvent(_, _, _, _, _) => MemAppend(s, op)
    case ListEvents(_, _, _, _) => (s, MemListEvents(s, op))
    case Enqueue(_, _, _, _, _) => MemEnqueue(s, op)
    case Claim(_, _, _, _) => MemClaim(s, op)
    case Acknowledge(_, _, _) => MemSettle(s, op)
    case ScheduleRetry(_, _, _, _) => MemSettle(s, op)
    case DeadLetter(_, _, _, _) => MemSettle(s, op)
    case GetMessage(_) => (s, MemGetMessage(s, op))
    case ListMessages(_, _, _) => (s, MemListMessages(s, op))
  }

  // ------------------------------------------------------------------
  // The invariant of every reachable state
  // ------------------------------------------------------------------

  /** Messages are stored under their id; the counter is the highest sequence and the number of messages. */
  ghost predicate OutboxNumbered(outbox: map<Id, Message>, counter: nat) {
    && (forall k :: k in outbox ==> outbox[k].messageId == k && 1 <= outbox[k].sequence <= counter)
    && (forall k, l :: k in outbox && l in outbox && outbox[k].sequence == outbox[l].sequence ==> k == l)
    && |outbox| == counter
    && (counter > 0 ==> exists k :: k in outbox && outbox[k].sequence == counter)
  }

  /** The key index holds exactly the keys in use and points at the messages that use them. */
  ghost predicate KeysIndexed(outbox: map<Id, Message>, index: map<Id, Id>) {
    && (forall k :: k in outbox ==> outbox[k].idempotencyKey in index && index[outbox[k].idempotencyKey] == k)
    && (forall key :: key in index ==> index[key] in outbox && outbox[index[key]].idempotencyKey == key)
  }

  ghost predicate EventsNumbered(events: map<Id, Event>, counter: nat) {
    && (forall k :: k in events ==> events[k].eventId == k && 1 <= events[k].globalSequence <= counter)
    && (forall k, l :: k in events && l in events && events[k].globalSequence == events[l].globalSequence ==> k == l)
    && |events| == counter
    && (counter > 0 ==> exists k :: k in events && events[k].globalSequence == counter)
  }

  ghost predicate AggregatesFiled(aggregates: map<Id, map<Id, Aggregate>>) {
    forall t, k :: t in aggregates && k in aggregates[t] ==>
      aggregates[t][k].aggregateType == t && aggregates[t][k].aggregateId == k && k > EMPTY_TEXT
  }

  ghost predicate MemInv(s: MemState) {
    && OutboxNumbered(s.outbox, s.outboxSequence)
    && KeysIndexed(s.outbox, s.idempotencyKeys)
    && EventsNumbered(s.events, s.eventSequence)
    && AggregatesFiled(s.aggregates)
  }

  lemma InvIsSortable(s: MemState)
    requires MemInv(s)
    ensures Sortable(s)
  {
  }

  lemma MemEmptyHasInv()
    ensures MemInv(EMPTY_MEM)
  {
  }

  lemma FileAggregate(aggregates: map<Id, map<Id, Aggregate>>, byId: map<Id, Aggregate>, t: Id)
    requires AggregatesFiled(aggregates)
    requires forall k :: k in byId ==> byId[k].aggregateType == t && byId[k].aggregateId == k && k > EMPTY_TEXT
    ensures AggregatesFiled(aggregates[t := byId])
  {
  }

  lemma AggregateOpKeepsInv(s: MemState, op: Op)
    requires MemInv(s) && (op.CreateAggregate? || op.UpdateAggregate?) && ValidOp(op)
    ensures MemInv(if op.CreateAggregate? then MemCreate(s, op).0 else MemUpdate(s, op).0)
  {
    hide OutboxNumbered, KeysIndexed, EventsNumbered;
    var t := if op.CreateAggregate? then MemCreate(s, op).0 else MemUpdate(s, op).0;
    FileAggregate(s.aggregates, t.aggregates[op.aggregateType], op.aggregateType);
  }

  lemma AppendKeepsInv(s: MemState, op: Op)
    requires MemInv(s) && op.AppendEvent?
    ensures MemInv(MemAppend(s, op).0)
  {
    hide OutboxNumbered, KeysIndexed, AggregatesFiled;
    if op.eventId !in s.events {
      EventAdded(s.events, s.eventSequence, NewEvent(op, s.eventSequence + 1));
    }
  }

  lemma EventAdded(events: map<Id, Event>, counter: nat, e: Event)
    requires EventsNumbered(events, counter) && e.eventId !in events && e.globalSequence == counter + 1
    ensures EventsNumbered(events[e.eventId := e], counter + 1)
  {
    var after := events[e.eventId := e];
    EventFiled(events, counter, e);
    EventCount(events, e);
    assert after[e.eventId].globalSequence == counter + 1;
  }

  lemma EventFiled(events: map<Id, Event>, counter: nat, e: Event)
    requires EventsNumbered(events, counter) && e.eventId !in events && e.globalSequence == counter + 1
    ensures var after := events[e.eventId := e];
      && (forall k :: k in after ==> after[k].eventId == k && 1 <= after[k].globalSequence <= counter + 1)
      && (forall k, l :: k in after && l in after && after[k].globalSequence == after[l].globalSequence ==> k == l)
  {
  }

  lemma EventCount(events: map<Id, Event>, e: Event)
    requires e.eventId !in events
    ensures |events[e.eventId := e]| == |events| + 1
  {
    assert events[e.eventId := e].Keys == events.Keys + {e.eventId};
  }

  lemma EnqueueKeepsInv(s: MemState, op: Op)
    requires MemInv(s) && op.Enqueue?
    ensures MemInv(MemEnqueue(s, op).0)
  {
    hide OutboxNumbered, EventsNumbered, AggregatesFiled;
    if op.messageId !in s.outbox && op.idempotencyKey !in s.idempotencyKeys {
      MessageAdded(s.outbox, s.outboxSequence, NewMessage(op, s.outboxSequence + 1));
    }
  }

  lemma MessageAdded(outbox: map<Id, Message>, counter: nat, m: Message)
    requires OutboxNumbered(outbox, counter) && m.messageId !in outbox && m.sequence == counter + 1
    ensures OutboxNumbered(outbox[m.messageId := m], counter + 1)
  {
    var after := outbox[m.messageId := m];
    MessageFiled(outbox, counter, m);
    MessageCount(outbox, m);
    assert after[m.messageId].sequence == counter + 1;
  }

  lemma MessageFiled(outbox: map<Id, Message>, counter: nat, m: Message)
    requires OutboxNumbered(outbox, counter) && m.messageId !in outbox && m.sequence == counter + 1
    ensures var after := outbox[m.messageId := m];
      && (forall k :: k in after ==> after[k].messageId == k && 1 <= after[k].sequence <= counter + 1)
      && (forall k, l :: k in after && l in after && after[k].sequence == after[l].sequence ==> k == l)
  {
  }

  lemma MessageCount(outbox: map<Id, Message>, m: Message)
    requires m.messageId !in outbox
    ensures |outbox[m.messageId := m]| == |outbox| + 1
  {
    assert outbox[m.messageId := m].Keys == outbox.Keys + {m.messageId};
  }

  /** Transitions leave identity, key and sequence of every message alone. */
  ghost predicate SameIdentity(a: Message, b: Message) {
    && b.messageId == a.messageId && b.sequence == a.sequence && b.idempotencyKey == a.idempotencyKey
    && b.content == a.content && b.createdAt == a.createdAt
  }

  ghost predicate SameIdentities(a: map<Id, Message>, b: map<Id, Message>) {
    a.Keys == b.Keys && forall k :: k in a ==> SameIdentity(a[k], b[k])
  }

  lemma SameIdentitiesKeepNumbers(a: map<Id, Message>, b: map<Id, Message>, counter: nat)
    requires OutboxNumbered(a, counter) && SameIdentities(a, b)
    ensures OutboxNumbered(b, counter)
  {
    assert |a| == |a.Keys| && |b| == |b.Keys|;
    if counter > 0 {
      var k :| k in a && a[k].sequence == counter;
      assert b[k].sequence == counter;
    }
  }

  lemma SameIdentitiesKeepInv(s: MemState, outbox: map<Id, Message>)
    requires MemInv(s) && SameIdentities(s.outbox, outbox)
    ensures MemInv(s.(outbox := outbox))
  {
    hide EventsNumbered, OutboxNumbered, AggregatesFiled;
    SameIdentitiesKeepNumbers(s.outbox, outbox, s.outboxSequence);
  }

  lemma {:induction false} ClaimScanKeepsIdentities(
    outbox: map<Id, Message>, scan: seq<Message>, claimed: seq<Message>, owner: Id, expires: Time, limit: nat,
        now: Time)
    requires forall i :: 0 <= i < |scan| ==> scan[i].messageId in outbox && outbox[scan[i].messageId] == scan[i]
    requires forall i, j :: 0 <= i < j < |scan| ==> scan[i].messageId != scan[j].messageId
    ensures SameIdentities(outbox, ClaimScan(outbox, scan, claimed, owner, expires, limit, now).0)
    decreases |scan|
  {
    if scan != [] && |claimed| < limit {
      assert scan[0] in scan;
      if IsClaimable(scan[0], now) {
        var next := ApplyClaim(scan[0], owner, expires);
        var after := outbox[next.messageId := next];
        forall i | 0 <= i < |scan| - 1
            ensures scan[1..][i].messageId in after && after[scan[1..][i].messageId] == scan[1..][i] {
          assert scan[1..][i] == scan[i + 1];
        }
        ClaimScanKeepsIdentities(after, scan[1..], claimed + [next], owner, expires, limit, now);
      } else {
        ClaimScanKeepsIdentities(outbox, scan[1..], claimed, owner, expires, limit, now);
      }
    }
  }

  /** The snapshot that a claim scans: every stored message once. */
  lemma ScanIsFaithful(outbox: map<Id, Message>)
    requires forall k :: k in outbox ==> outbox[k].messageId == k
    requires DistinctKeys(outbox.Values, MessageKey())
    ensures var scan := Sorted(outbox.Values, MessageKey());
      && StrictlySorted(scan, MessageKey())
      && (forall i :: 0 <= i < |scan| ==> scan[i].messageId in outbox && outbox[scan[i].messageId] == scan[i])
      && (forall k :: k in outbox ==> outbox[k] in scan)
      && (forall i, j :: 0 <= i < j < |scan| ==> scan[i].messageId != scan[j].messageId)
  {
    var scan := Sorted(outbox.Values, MessageKey());
    SortedLists(outbox.Values, MessageKey());
    forall i | 0 <= i < |scan| ensures scan[i].messageId in outbox && outbox[scan[i].messageId] == scan[i] {
      assert scan[i] in scan && scan[i] in outbox.Values;
    }
    forall i, j | 0 <= i < j < |scan| ensures scan[i].messageId != scan[j].messageId {
      assert MessageKey()(scan[i]) < MessageKey()(scan[j]);
      assert outbox[scan[i].messageId] == scan[i] && outbox[scan[j].messageId] == scan[j];
    }
  }

  lemma ClaimKeepsInv(s: MemState, op: Op)
    requires MemInv(s) && op.Claim? && Sortable(s)
    ensures SameIdentities(s.outbox, MemClaim(s, op).0.outbox)
    ensures MemInv(MemClaim(s, op).0)
  {
    hide KeysIndexed, EventsNumbered, IsClaimable, AggregatesFiled, SameIdentities, Sorted, ClaimScan, DistinctKeys,
        StrictlySorted;
    ScanIsFaithful(s.outbox);
    var scan := Sorted(s.outbox.Values, MessageKey());
    ClaimScanKeepsIdentities(s.outbox, scan, [], op.owner, op.now + op.leaseDuration, op.limit, op.now);
    SameIdentitiesKeepInv(s, MemClaim(s, op).0.outbox);
  }

  lemma FiledUnderId(s: MemState)
    requires MemInv(s)
    ensures forall k :: k in s.outbox ==> s.outbox[k].messageId == k
  {
  }

  lemma SettleKeepsInv(s: MemState, op: Op)
    requires MemInv(s) && (op.Acknowledge? || op.ScheduleRetry? || op.DeadLetter?)
    ensures SameIdentities(s.outbox, MemSettle(s, op).0.outbox)
    ensures MemInv(MemSettle(s, op).0)
  {
    hide KeysIndexed, EventsNumbered, AggregatesFiled, OutboxNumbered;
    assert op.messageId in s.outbox ==> s.outbox[op.messageId].messageId == op.messageId by { FiledUnderId(s); }
    SameIdentitiesKeepInv(s, MemSettle(s, op).0.outbox);
  }

  /** Every operation keeps counters, key index and filing exact. */
  lemma MemStepKeepsInv(s: MemState, op: Op)
    requires MemInv(s) && Sortable(s) && ValidOp(op)
    ensures MemInv(MemStep(s, op).0) && Sortable(MemStep(s, op).0)
  {
    hide MemInv, Sortable;
    match op {
      case CreateAggregate(_, _, _, _) => AggregateOpKeepsInv(s, op);
      case UpdateAggregate(_, _, _, _, _) => AggregateOpKeepsInv(s, op);
      case AppendEvent(_, _, _, _, _) => AppendKeepsInv(s, op);
      case Enqueue(_, _, _, _, _) => EnqueueKeepsInv(s, op);
      case Claim(_, _, _, _) => ClaimKeepsInv(s, op);
      case Acknowledge(_, _, _) => SettleKeepsInv(s, op);
      case ScheduleRetry(_, _, _, _) => SettleKeepsInv(s, op);
      case DeadLetter(_, _, _, _) => SettleKeepsInv(s, op);
      case _ =>
    }
    InvIsSortable(MemStep(s, op).0);
  }
}
