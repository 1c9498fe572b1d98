/** The SQLite adapter and the in-memory adapter are the same store: from related states every
    operation gives the same answer and related states, so every sequence of transactions,
    committed or rolled back, is observed identically on both.
 */
module AdapterRefinement {
  import opened Basics
  import opened Listing
  import opened Outbox
  import opened MemoryModel
  import opened SqlModel

  ghost predicate AggregatesRelated(m: map<Id, map<Id, Aggregate>>, t: map<(Id, Id), Aggregate>) {
    && (forall a, k :: (a, k) in t <==> a in m && k in m[a])
    && (forall a, k :: a in m && k in m[a] && (a, k) in t ==> t[(a, k)] == m[a][k])
  }

  ghost predicate Related(m: MemState, t: SqlState) {
    MemInv(m) && t.outbox == m.outbox && t.events == m.events && AggregatesRelated(m.aggregates, t.aggregates)
  }

  lemma RelatedTablesOk(m: MemState, t: SqlState)
    requires Related(m, t)
    ensures Sortable(m) && TablesOk(t)
  {
    InvIsSortable(m);
  }

  lemma EmptyRelated()
    ensures Related(EMPTY_MEM, EMPTY_SQL)
  {
  }

  // MAX + 1 is counter + 1 ---------------------------------------------

  lemma MaxIsCounter(outbox: map<Id, Message>, counter: nat)
    requires OutboxNumbered(outbox, counter) && DistinctKeys(outbox.Values, MessageKey())
    ensures MaxMessageSequence(outbox) == counter
  {
    if counter > 0 {
      var k :| k in outbox && outbox[k].sequence == counter;
      assert outbox[k] in outbox.Values;
      assert MessageKey()(outbox[k]) <= MessageKey()(Largest(outbox.Values, MessageKey()));
    } else {
      assert outbox == map[];
    }
  }

  lemma MaxEventIsCounter(events: map<Id, Event>, counter: nat)
    requires EventsNumbered(events, counter) && DistinctKeys(events.Values, EventKey())
    ensures MaxEventSequence(events) == counter
  {
    if counter > 0 {
      var k :| k in events && events[k].globalSequence == counter;
      assert events[k] in events.Values;
      assert EventKey()(events[k]) <= EventKey()(Largest(events.Values, EventKey()));
    } else {
      assert events == map[];
    }
  }

  /** The key index answers what the UNIQUE column answers. */
  lemma IndexIsExact(outbox: map<Id, Message>, index: map<Id, Id>, key: Id)
    requires KeysIndexed(outbox, index)
    ensures KeyInUse(outbox, key) <==> key in index
  {
  }

  lemma InsertSucceeds(outbox: map<Id, Message>, counter: nat, m: Message)
    requires OutboxNumbered(outbox, counter) && m.messageId !in outbox && !KeyInUse(outbox, m.idempotencyKey)
    requires m.sequence == counter + 1
    ensures InsertMessage(outbox, m) == Ok(outbox[m.messageId := m])
  {
  }

  lemma EnqueueRefines(m: MemState, t: SqlState, op: Op)
    requires Related(m, t) && op.Enqueue? && TablesOk(t)
    ensures SqlEnqueue(t, op).1 == MemEnqueue(m, op).1
    ensures Related(MemEnqueue(m, op).0, SqlEnqueue(t, op).0)
  {
    hide OutboxNumbered, KeysIndexed, EventsNumbered, AggregatesFiled, AggregatesRelated, DistinctKeys, InsertMessage,
        KeyInUse, MaxMessageSequence;
    EnqueueKeepsInv(m, op);
    MaxIsCounter(m.outbox, m.outboxSequence);
    IndexIsExact(m.outbox, m.idempotencyKeys, op.idempotencyKey);
    if op.messageId !in m.outbox && op.idempotencyKey !in m.idempotencyKeys {
      InsertSucceeds(m.outbox, m.outboxSequence, NewMessage(op, m.outboxSequence + 1));
    }
  }

  lemma EventInsertSucceeds(events: map<Id, Event>, counter: nat, e: Event)
    requires EventsNumbered(events, counter) && e.eventId !in events && e.globalSequence == counter + 1
    requires DistinctKeys(events.Values, EventKey())
    ensures InsertEvent(events, e) == Ok(events[e.eventId := e])
    ensures DistinctKeys(events[e.eventId := e].Values, EventKey())
    ensures forall k :: k in events ==> events[k].globalSequence < e.globalSequence
  {
    InsertedEventIsDistinct(events, e);
  }

  lemma AppendRefines(m: MemState, t: SqlState, op: Op)
    requires Related(m, t) && op.AppendEvent? && TablesOk(t)
    ensures SqlAppend(t, op).1 == MemAppend(m, op).1
    ensures Related(MemAppend(m, op).0, SqlAppend(t, op).0)
  {
    hide OutboxNumbered, KeysIndexed, EventsNumbered, AggregatesFiled, AggregatesRelated, DistinctKeys, InsertEvent,
        Select, MaxEventSequence;
    AppendKeepsInv(m, op);
    MaxEventIsCounter(m.events, m.eventSequence);
    if op.eventId !in m.events {
      var e := NewEvent(op, m.eventSequence + 1);
      EventInsertSucceeds(m.events, m.eventSequence, e);
      ReadBack(m.events, e);
    }
  }

  /** Reading back the first event past the old maximum finds the one just inserted. */
  lemma ReadBack(events: map<Id, Event>, e: Event)
    requires forall k :: k in events ==> events[k].globalSequence < e.globalSequence
    requires e.eventId !in events && DistinctKeys(events[e.eventId := e].Values, EventKey()) && e.globalSequence >= 1
    ensures var rows := events[e.eventId := e];
      Select(rows.Values, EventRows(Some(e.aggregateType), Some(e.aggregateId), e.globalSequence - 1), EventKey(), 1)
          == [e]
  {
    var rows := events[e.eventId := e];
    var p := EventRows(Some(e.aggregateType), Some(e.aggregateId), e.globalSequence - 1);
    assert rows[e.eventId] == e;
    assert e in rows.Values;
    assert Where(rows.Values, p) == {e};
    ListingIsUnique([e], Sorted({e}, EventKey()), {e}, EventKey()) by { SortedLists({e}, EventKey()); }
  }

  // Sort then filter is filter then sort --------------------------------

  lemma SelectIsFilter<T(!new)>(rows: set<T>, p: T -> bool, q: T -> bool, key: T -> int, limit: nat)
    requires DistinctKeys(rows, key) && forall x :: x in rows ==> p(x) == q(x)
    ensures Select(rows, q, key, limit) == Take(Filter(Sorted(rows, key), p), limit)
  {
    FilterSorted(rows, key, p);
    assert Where(rows, p) == Where(rows, q);
  }

  lemma SequencesPositive(m: MemState)
    requires MemInv(m)
    ensures forall x :: x in m.outbox.Values ==> x.sequence >= 1
    ensures forall x :: x in m.events.Values ==> x.globalSequence >= 1
  {
  }

  lemma ListMessagesRefines(m: MemState, t: SqlState, op: Op)
    requires Related(m, t) && op.ListMessages? && ValidOp(op) && Sortable(m) && TablesOk(t)
    ensures SqlListMessages(t, op) == MemListMessages(m, op)
  {
    hide MemInv, Select, Filter, Sorted, DistinctKeys, AggregatesRelated;
    SequencesPositive(m);
    if AfterSequence(op.cursor).Ok? {
      var after := AfterSequence(op.cursor).value;
      var from := if after.None? then 0 else after.value;
      SelectIsFilter(m.outbox.Values, MessageMatches(op.status, after), MessageRows(op.status, from), MessageKey(),
          op.limit + 1);
    }
  }

  lemma ListEventsRefines(m: MemState, t: SqlState, op: Op)
    requires Related(m, t) && op.ListEvents? && ValidOp(op) && Sortable(m) && TablesOk(t)
    ensures SqlListEvents(t, op) == MemListEvents(m, op)
  {
    hide MemInv, Select, Filter, Sorted, DistinctKeys, AggregatesRelated;
    SequencesPositive(m);
    if AfterSequence(op.cursor).Ok? {
      var after := AfterSequence(op.cursor).value;
      var from := if after.None? then 0 else after.value;
      SelectIsFilter(m.events.Values, EventMatches(op.eventType, op.eventAggregate, after),
                     EventRows(op.eventType, op.eventAggregate, from), EventKey(), op.limit + 1);
    }
  }

  lemma TypeRows(m: MemState, t: SqlState, aggregateType: Id)
    requires Related(m, t) && TablesOk(t)
    ensures OfType(t, aggregateType) == ByType(m, aggregateType).Values
  {
    hide OutboxNumbered, EventsNumbered, KeysIndexed;
    forall a ensures a in OfType(t, aggregateType) <==> a in ByType(m, aggregateType).Values {
      if a in OfType(t, aggregateType) {
        assert (a.aggregateType, a.aggregateId) in t.aggregates;
        assert a.aggregateId in m.aggregates[a.aggregateType] && m.aggregates[a.aggregateType][a.aggregateId] == a;
      }
      if a in ByType(m, aggregateType).Values {
        var k :| k in m.aggregates[aggregateType] && m.aggregates[aggregateType][k] == a;
        assert (aggregateType, k) in t.aggregates && t.aggregates[(aggregateType, k)] == a;
      }
    }
  }

  lemma IdsAreNotEmpty(m: MemState, aggregateType: Id)
    requires MemInv(m) && Sortable(m)
    ensures forall a :: a in ByType(m, aggregateType).Values ==> a.aggregateId > EMPTY_TEXT
    ensures DistinctKeys(ByType(m, aggregateType).Values, AggregateKey())
  {
  }

  lemma ListAggregatesRefines(m: MemState, t: SqlState, op: Op)
    requires Related(m, t) && op.ListAggregates? && ValidOp(op) && Sortable(m) && TablesOk(t)
    ensures SqlListAggregates(t, op) == MemListAggregates(m, op)
  {
    hide MemInv, Select, Filter, Sorted, DistinctKeys, AggregatesRelated, OfType, ByType;
    TypeRows(m, t, op.aggregateType);
    IdsAreNotEmpty(m, op.aggregateType);
    if AfterKey(op.cursor).Ok? {
      var after := AfterKey(op.cursor).value;
      var key := if after.None? then EMPTY_TEXT else after.value;
      SelectIsFilter(ByType(m, op.aggregateType).Values, AggregateAfter(after), IdAbove(key), AggregateKey(),
          op.limit + 1);
    }
  }

  lemma AggregateFound(m: map<Id, map<Id, Aggregate>>, t: map<(Id, Id), Aggregate>, a: Id, k: Id)
    requires AggregatesRelated(m, t)
    ensures (a, k) in t <==> a in m && k in m[a]
    ensures (a, k) in t ==> t[(a, k)] == m[a][k]
  {
  }

  lemma RelatedPut(m: map<Id, map<Id, Aggregate>>, t: map<(Id, Id), Aggregate>, a: Id, k: Id, x: Aggregate)
    requires AggregatesRelated(m, t)
    ensures var byId := if a in m then m[a] else map[];
      && AggregatesRelated(m[a := byId[k := x]], t[(a, k) := x])
      && AggregatesRelated(m[a := byId], t)
  {
  }

  lemma CreateRefines(m: MemState, t: SqlState, op: Op)
    requires Related(m, t) && op.CreateAggregate? && ValidOp(op)
    ensures SqlCreate(t, op).1 == MemCreate(m, op).1 && Related(MemCreate(m, op).0, SqlCreate(t, op).0)
  {
    hide OutboxNumbered, EventsNumbered, KeysIndexed, AggregatesFiled, AggregatesRelated;
    AggregateOpKeepsInv(m, op);
    AggregateFound(m.aggregates, t.aggregates, op.aggregateType, op.aggregateId);
    RelatedPut(m.aggregates, t.aggregates, op.aggregateType, op.aggregateId, NewAggregate(op));
  }

  lemma UpdateRefines(m: MemState, t: SqlState, op: Op)
    requires Related(m, t) && op.UpdateAggregate? && ValidOp(op)
    ensures SqlUpdate(t, op).1 == MemUpdate(m, op).1 && Related(MemUpdate(m, op).0, SqlUpdate(t, op).0)
  {
    hide OutboxNumbered, EventsNumbered, KeysIndexed, AggregatesFiled, AggregatesRelated;
    AggregateOpKeepsInv(m, op);
    AggregateFound(m.aggregates, t.aggregates, op.aggregateType, op.aggregateId);
    var existing := ByType(m, op.aggregateType);
    var stored := if op.aggregateId in existing then UpdatedAggregate(existing[op.aggregateId], op)
                  else Aggregate(0, 0, 0, op.content, 0, 0);
    RelatedPut(m.aggregates, t.aggregates, op.aggregateType, op.aggregateId, stored);
  }

  // The claim loops -----------------------------------------------------

  /** Updating the state columns of a row that changed nothing else is replacing the row. */
  lemma UpdateStateReplaces(rows: map<Id, Message>, m: Message)
    requires m.messageId in rows && SameIdentity(rows[m.messageId], m)
    ensures UpdateState(rows, m) == rows[m.messageId := m]
  {
  }

  /** Scanning everything with a limit is looping over the first `limit` claimable messages. */
  lemma {:induction false} ClaimLoopsAgree(
    rows: map<Id, Message>, scan: seq<Message>, claimed: seq<Message>, owner: Id, expires: Time, limit: nat, now: Time)
    requires |claimed| <= limit
    requires forall i :: 0 <= i < |scan| ==> scan[i].messageId in rows && rows[scan[i].messageId] == scan[i]
    requires forall i, j :: 0 <= i < j < |scan| ==> scan[i].messageId != scan[j].messageId
    ensures ClaimScan(rows, scan, claimed, owner, expires, limit, now)
         == ClaimRows(rows, Take(Filter(scan, Claimable(now)), limit - |claimed|), claimed, owner, expires, now)
    decreases |scan|
  {
    if scan != [] && |claimed| < limit {
      var rest := scan[1..];
      FilterStep(scan, Claimable(now));
      if IsClaimable(scan[0], now) {
        var next := ApplyClaim(scan[0], owner, expires);
        assert scan[0] in scan;
        UpdateStateReplaces(rows, next);
        var after := rows[next.messageId := next];
        forall i | 0 <= i < |rest| ensures rest[i].messageId in after && after[rest[i].messageId] == rest[i] {
          assert rest[i] == scan[i + 1];
        }
        ClaimLoopsAgree(after, rest, claimed + [next], owner, expires, limit, now);
        TakeCons(scan[0], Filter(rest, Claimable(now)), limit - |claimed|);
      } else {
        ClaimLoopsAgree(rows, rest, claimed, owner, expires, limit, now);
      }
    }
  }

  lemma ClaimRefines(m: MemState, t: SqlState, op: Op)
    requires Related(m, t) && op.Claim? && Sortable(m) && TablesOk(t)
    ensures SqlClaim(t, op).1 == MemClaim(m, op).1
    ensures Related(MemClaim(m, op).0, SqlClaim(t, op).0)
  {
    hide MemInv, AggregatesRelated, Sorted, Filter, Take, Select, ClaimScan, ClaimRows, DistinctKeys, StrictlySorted;
    ClaimKeepsInv(m, op);
    FiledUnderId(m);
    ScanIsFaithful(m.outbox);
    var scan := Sorted(m.outbox.Values, MessageKey());
    ClaimLoopsAgree(m.outbox, scan, [], op.owner, op.now + op.leaseDuration, op.limit, op.now);
    SelectIsFilter(m.outbox.Values, Claimable(op.now), Claimable(op.now), MessageKey(), op.limit);
  }

  lemma SettleRefines(m: MemState, t: SqlState, op: Op)
    requires Related(m, t) && (op.Acknowledge? || op.ScheduleRetry? || op.DeadLetter?)
    ensures SqlSettle(t, op) == (SqlSettle(t, op).0, MemSettle(m, op).1)
    ensures Related(MemSettle(m, op).0, SqlSettle(t, op).0)
  {
    hide OutboxNumbered, EventsNumbered, KeysIndexed, AggregatesFiled, AggregatesRelated;
    SettleKeepsInv(m, op);
    FiledUnderId(m);
    if op.messageId in m.outbox && Settle(m.outbox[op.messageId], op).Ok? {
      UpdateStateReplaces(m.outbox, Settle(m.outbox[op.messageId], op).value);
    }
  }

  lemma GetRefines(m: MemState, t: SqlState, op: Op)
    requires Related(m, t) && (op.GetAggregate? || op.GetMessage?)
    ensures op.GetAggregate? ==> SqlGetAggregate(t, op) == MemGetAggregate(m, op)
    ensures op.GetMessage? ==> SqlGetMessage(t, op) == MemGetMessage(m, op)
  {
    hide MemInv;
  }

  /** One operation: same answer, related states. */
  lemma StepRefines(m: MemState, t: SqlState, op: Op)
    requires Related(m, t) && ValidOp(op)
    ensures Sortable(m) && TablesOk(t)
    ensures SqlStep(t, op).1 == MemStep(m, op).1
    ensures Related(MemStep(m, op).0, SqlStep(t, op).0)
  {
    RelatedTablesOk(m, t);
    hide Related, MemInv, Sortable, TablesOk, MemGetAggregate, SqlGetAggregate, MemGetMessage, SqlGetMessage,
         MemCreate, MemUpdate, MemAppend, MemEnqueue, MemClaim, MemSettle, MemListAggregates, MemListEvents,
         MemListMessages,
         SqlCreate, SqlUpdate, SqlAppend, SqlEnqueue, SqlClaim, SqlSettle, SqlListAggregates, SqlListEvents,
             SqlListMessages;
    match op
    case CreateAggregate(_, _, _, _) => CreateRefines(m, t, op);
    case UpdateAggregate(_, _, _, _, _) => UpdateRefines(m, t, op);
    case GetAggregate(_, _) => GetRefines(m, t, op);
    case ListAggregates(_, _, _) => ListAggregatesRefines(m, t, op);
    case AppendEvent(_, _, _, _, _) => AppendRefines(m, t, op);
    case ListEvents(_, _, _, _) => ListEventsRefines(m, t, op);
    case Enqueue(_, _, _, _, _) => EnqueueRefines(m, t, op);
    case Claim(_, _, _, _) => ClaimRefines(m, t, op);
    case Acknowledge(_, _, _) => SettleRefines(m, t, op);
    case ScheduleRetry(_, _, _, _) => SettleRefines(m, t, op);
    case DeadLetter(_, _, _, _) => SettleRefines(m, t, op);
    case GetMessage(_) => GetRefines(m, t, op);
    case ListMessages(_, _, _) => ListMessagesRefines(m, t, op);
  }
}
