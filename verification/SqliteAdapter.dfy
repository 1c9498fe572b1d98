/** The SQLite persistence adapter over its tables
    (packages/persistence-sqlite/src/sqlite-adapter.ts). Every statement runs against shared tables
    between BEGIN and COMMIT or ROLLBACK; `claim` writes row by row.
 */
module SqliteAdapter {
  import opened Basics
  import opened Listing
  import opened Outbox
  import opened MemoryModel
  import opened SqlModel
  import opened Work
  import opened MemoryAdapter

  class SqliteDatabase {
    var aggregates: map<(Id, Id), Aggregate>
    var events: map<Id, Event>
    var outbox: map<Id, Message>
    /** The tables as of BEGIN, while a transaction is open. */
    var begun: Option<SqlState>

    function Tables(): SqlState
      reads this
    {
      SqlState(aggregates, events, outbox)
    }

    ghost predicate Valid()
      reads this
    {
      TablesOk(Tables()) && (begun.Some? ==> TablesOk(begun.value))
    }

    constructor ()
      ensures Valid() && Tables() == EMPTY_SQL && begun.None?
    {
      aggregates, events, outbox, begun := map[], map[], map[], None;
    }

    method Begin()
      requires Valid() && begun.None?
      modifies this`begun
      ensures Valid() && begun == Some(Tables())
    {
      begun := Some(Tables());
    }

    method Commit()
      requires Valid() && begun.Some?
      modifies this`begun
      ensures Valid() && begun.None?
    {
      begun := None;
    }

    method Rollback()
      requires Valid() && begun.Some?
      modifies this
      ensures Valid() && begun.None? && Tables() == old(begun).value
    {
      aggregates, events, outbox := begun.value.aggregates, begun.value.events, begun.value.outbox;
      begun := None;
    }

    /** UPDATE outbox SET <state columns> WHERE message_id = ? */
    method WriteOutboxMessage(m: Message)
      modifies this`outbox
      ensures outbox == UpdateState(old(outbox), m)
    {
      if m.messageId in outbox {
        var row := outbox[m.messageId];
        outbox := outbox[m.messageId := row.(
          status := m.status, attemptCount := m.attemptCount, availableAt := m.availableAt, leaseOwner := m.leaseOwner,
          leaseExpiresAt := m.leaseExpiresAt, acknowledgedAt := m.acknowledgedAt, deadLetteredAt := m.deadLetteredAt,
          lastFailureCategory := m.lastFailureCategory)];
      }
    }

    method CreateAggregate(op: Op) returns (answer: Answer)
      requires op.CreateAggregate?
      modifies this`aggregates
      ensures (Tables(), answer) == SqlCreate(old(Tables()), op)
    {
      var key := (op.aggregateType, op.aggregateId);
      if key in aggregates {
        return Failed(ConcurrencyConflict(Some(aggregates[key].version)));
      }
      // The key was just seen to be free.
      aggregates := InsertAggregate(aggregates, NewAggregate(op)).value;
      return OneAggregate(if key in aggregates then Some(aggregates[key]) else None);
    }

    method UpdateAggregate(op: Op) returns (answer: Answer)
      requires op.UpdateAggregate?
      modifies this`aggregates
      ensures (Tables(), answer) == SqlUpdate(old(Tables()), op)
    {
      var key := (op.aggregateType, op.aggregateId);
      if key !in aggregates {
        return Failed(NotFound);
      }
      var existing := aggregates[key];
      if existing.version != op.expectedVersion {
        return Failed(ConcurrencyConflict(Some(existing.version)));
      }
      aggregates := aggregates[key := existing.(version := op.expectedVersion + 1, content := op.content,
          updatedAt := op.now)];
      return OneAggregate(Some(aggregates[key]));
    }

    method AppendEvent(op: Op) returns (answer: Answer)
      requires op.AppendEvent? && Valid()
      modifies this`events
      ensures (Tables(), answer) == SqlAppend(old(Tables()), op)
    {
      hide DistinctKeys, Sorted, Where, EventRows, InsertEvent, MaxEventSequence;
      if op.eventId in events {
        return Failed(DuplicateId);
      }
      var globalSequence := MaxEventSequence(events) + 1;
      var stored := NewEvent(op, globalSequence);
      var inserted := InsertEvent(events, stored);
      if inserted.Err? {
        return Failed(inserted.error);
      }
      InsertedEventIsDistinct(events, stored);
      events := inserted.value;
      var read := Select(events.Values, EventRows(Some(op.aggregateType), Some(op.aggregateId), globalSequence - 1),
          EventKey(), 1);
      return if read == [] then Failed(StorageFailure) else OneEvent(read[0]);
    }

    method EnqueueMessage(op: Op) returns (answer: Answer)
      requires op.Enqueue? && Valid()
      modifies this`outbox
      ensures (Tables(), answer) == SqlEnqueue(old(Tables()), op)
    {
      hide DistinctKeys, KeyInUse, InsertMessage, MaxMessageSequence;
      if op.messageId in outbox {
        return Failed(DuplicateId);
      }
      if KeyInUse(outbox, op.idempotencyKey) {
        return Failed(DuplicateIdempotencyKey);
      }
      var inserted := InsertMessage(outbox, NewMessage(op, MaxMessageSequence(outbox) + 1));
      if inserted.Err? {
        return Failed(inserted.error);
      }
      outbox := inserted.value;
      return if op.messageId in outbox then OneMessage(Some(outbox[op.messageId])) else Failed(NotFound);
    }

    method ClaimMessages(op: Op) returns (answer: Answer)
      requires op.Claim? && Valid()
      modifies this`outbox
      ensures (Tables(), answer) == SqlClaim(old(Tables()), op)
    {
      hide DistinctKeys, Select, UpdateState, ClaimRows;
      ghost var was := outbox;
      var expires := op.now + op.leaseDuration;
      var picked := Select(outbox.Values, Claimable(op.now), MessageKey(), op.limit);
      var claimed: seq<Message> := [];
      var i := 0;
      while i < |picked|
        invariant 0 <= i <= |picked|
        invariant aggregates == old(aggregates) && events == old(events)
        invariant ClaimRows(outbox, picked[i..], claimed, op.owner, expires, op.now)
               == ClaimRows(was, picked, [], op.owner, expires, op.now)
      {
        ClaimRowsStep(outbox, picked[i..], claimed, op.owner, expires, op.now);
        assert picked[i..][1..] == picked[i + 1..];
        if IsClaimable(picked[i], op.now) {
          var next := ApplyClaim(picked[i], op.owner, expires);
          WriteOutboxMessage(next);
          claimed := claimed + [next];
        }
        i := i + 1;
      }
      ClaimRowsStep(outbox, picked[i..], claimed, op.owner, expires, op.now);
      answer := Claimed(claimed);
    }

    method SettleMessage(op: Op) returns (answer: Answer)
      requires Valid() && (op.Acknowledge? || op.ScheduleRetry? || op.DeadLetter?)
      modifies this`outbox
      ensures (Tables(), answer) == SqlSettle(old(Tables()), op)
    {
      hide UpdateState;
      if op.messageId !in outbox {
        return Failed(NotFound);
      }
      var message := outbox[op.messageId];
      if op.Acknowledge? {
        var result := ApplyAcknowledge(message, op.owner, op.now);
        if result.Err? {
          return Failed(result.error);
        }
        if result.value.changed {
          WriteOutboxMessage(result.value.message);
        } else {
          UpdateWithItself(outbox, message);
        }
        return OneMessage(Some(result.value.message));
      }
      var result := if op.ScheduleRetry? then ApplyScheduleRetry(message, op.owner, op.retryAt, op.category)
                    else ApplyDeadLetter(message, op.owner, op.failure, op.now);
      if result.Err? {
        return Failed(result.error);
      }
      WriteOutboxMessage(result.value);
      return OneMessage(Some(result.value));
    }

    /** Any operation, validated first. */
    method Execute(op: Op) returns (answer: Answer)
      requires Valid()
      modifies this`aggregates, this`events, this`outbox
      ensures Valid() && (Tables(), answer) == SqlDo(old(Tables()), op)
    {
      hide TablesOk, SqlCreate, SqlUpdate, SqlAppend, SqlEnqueue, SqlClaim, SqlSettle;
      hide SqlGetAggregate, SqlListAggregates, SqlListEvents, SqlGetMessage, SqlListMessages;
      if !ValidOp(op) {
        return Failed(Validation);
      }
      SqlStepKeepsTables(Tables(), op);
      match op {
        case CreateAggregate(_, _, _, _) => answer := CreateAggregate(op);
        case UpdateAggregate(_, _, _, _, _) => answer := UpdateAggregate(op);
        case GetAggregate(_, _) => answer := SqlGetAggregate(Tables(), op);
        case ListAggregates(_, _, _) => answer := SqlListAggregates(Tables(), op);
        case AppendEvent(_, _, _, _, _) => answer := AppendEvent(op);
        case ListEvents(_, _, _, _) => answer := SqlListEvents(Tables(), op);
        case Enqueue(_, _, _, _, _) => answer := EnqueueMessage(op);
        case Claim(_, _, _, _) => answer := ClaimMessages(op);
        case Acknowledge(_, _, _) => answer := SettleMessage(op);
        case ScheduleRetry(_, _, _, _) => answer := SettleMessage(op);
        case DeadLetter(_, _, _, _) => answer := SettleMessage(op);
        case GetMessage(_) => answer := SqlGetMessage(Tables(), op);
        case ListMessages(_, _, _) => answer := SqlListMessages(Tables(), op);
      }
    }
  }

  class SqlitePersistenceAdapter {
    const db: SqliteDatabase
    const closedGate: SessionGate

    constructor ()
      ensures db.Valid() && db.begun.None? && db.Tables() == EMPTY_SQL && closedGate.active
    {
      db := new SqliteDatabase();
      closedGate := new SessionGate();
    }

    method Transact(w: Body) returns (result: Result<Outcome>)
      requires db.Valid() && db.begun.None?
      modifies db
      ensures db.Valid() && db.begun.None?
      ensures !closedGate.active ==> result == Err(AdapterClosed) && db.Tables() == old(db.Tables())
      ensures closedGate.active ==> result.Ok? && (db.Tables(), result.value) == SqlTransact(old(db.Tables()), w)
    {
      hide SqlWork, SqlDo, TablesOk;
      if !closedGate.active {
        return Err(AdapterClosed);
      }
      ghost var was := db.Tables();
      db.Begin();
      var answers: seq<Answer> := [];
      var action := ActionOf(w, answers);
      while action.Do?
        invariant db.Valid() && db.begun == Some(was)
        invariant action == ActionOf(w, answers)
        invariant SqlWork(db.Tables(), w, answers) == SqlWork(was, w, [])
        decreases w.most - |answers|
      {
        SqlWorkStep(db.Tables(), w, answers);
        var answer := db.Execute(action.op);
        answers := answers + [answer];
        action := ActionOf(w, answers);
      }
      SqlWorkStep(db.Tables(), w, answers);
      if action.Return? {
        db.Commit();
      } else {
        db.Rollback();
      }
      return Ok(Outcome(action.Return?, answers));
    }
  }

  lemma SqlWorkStep(t: SqlState, w: Body, answers: seq<Answer>)
    requires TablesOk(t)
    ensures ActionOf(w, answers).Return? ==> SqlWork(t, w, answers) == (t, Outcome(true, answers))
    ensures ActionOf(w, answers).Throw? ==> SqlWork(t, w, answers) == (t, Outcome(false, answers))
    ensures ActionOf(w, answers).Do? ==>
      var r := SqlDo(t, ActionOf(w, answers).op);
      |answers| < w.most && SqlWork(t, w, answers) == SqlWork(r.0, w, answers + [r.1])
  {
  }

  lemma ClaimRowsStep(rows: map<Id, Message>, picked: seq<Message>, claimed: seq<Message>, owner: Id, expires: Time,
      now: Time)
    ensures ClaimRows(rows, picked, claimed, owner, expires, now) ==
      if picked == [] then (rows, claimed)
      else if !IsClaimable(picked[0], now) then ClaimRows(rows, picked[1..], claimed, owner, expires, now)
      else
        var next := ApplyClaim(picked[0], owner, expires);
        ClaimRows(UpdateState(rows, next), picked[1..], claimed + [next], owner, expires, now)
  {
  }

  lemma UpdateWithItself(rows: map<Id, Message>, m: Message)
    requires m.messageId in rows ==> rows[m.messageId] == m
    ensures UpdateState(rows, m) == rows
  {
  }
}
