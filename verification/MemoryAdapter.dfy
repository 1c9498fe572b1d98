/** The in-memory persistence adapter over its mutable maps
    (packages/persistence-memory/src/memory-adapter.ts).

    The maps are heap objects: a transaction's snapshot is a set of other map objects, and rolling
    back replaces the objects. Each method is proved against the operation of `MemoryModel`.
 */
module MemoryAdapter {
  import opened Basics
  import opened Listing
  import opened Outbox
  import opened MemoryModel
  import opened Work

  /** A mutable map object. */
  class JsMap<V> {
    var entries: map<Id, V>

    constructor ()
      ensures entries == map[]
    {
      entries := map[];
    }

    constructor CopyOf(original: map<Id, V>)
      ensures entries == original
    {
      entries := original;
    }
  }

  /** One flag: active until closed (packages/persistence/src/adapter-support.ts). */
  class SessionGate {
    var active: bool

    constructor ()
      ensures active
    {
      active := true;
    }

    method Close()
      modifies this
      ensures !active
    {
      active := false;
    }
  }

  type AggregateMaps = map<Id, JsMap<Aggregate>>

  /** No two aggregate types share an inner map. */
  ghost predicate Unshared(maps: AggregateMaps) {
    forall s, t :: s in maps && t in maps && maps[s] == maps[t] ==> s == t
  }

  ghost function InnerMaps(maps: AggregateMaps): set<object> {
    set t | t in maps :: maps[t] as object
  }

  ghost function Contents(maps: AggregateMaps): map<Id, map<Id, Aggregate>>
    reads InnerMaps(maps)
  {
    map t | t in maps :: maps[t].entries
  }

  /** The maps and counters a snapshot holds. */
  datatype StateSnapshot = StateSnapshot(
    aggregates: JsMap<JsMap<Aggregate>>, events: JsMap<Event>, eventSequence: nat,
    outbox: JsMap<Message>, idempotencyKeys: JsMap<Id>, outboxSequence: nat)
  {
    ghost function Footprint(): set<object>
      reads aggregates
    {
      {aggregates as object, events as object, outbox as object,
          idempotencyKeys as object} + InnerMaps(aggregates.entries)
    }

    ghost predicate Shape()
      reads aggregates
    {
      Unshared(aggregates.entries)
    }

    ghost function Value(): MemState
      reads Footprint()
    {
      MemState(Contents(aggregates.entries), events.entries, eventSequence, outbox.entries, idempotencyKeys.entries,
          outboxSequence)
    }
  }

  class MemoryState {
    var aggregates: JsMap<JsMap<Aggregate>>
    var events: JsMap<Event>
    var eventSequence: nat
    var outbox: JsMap<Message>
    var idempotencyKeys: JsMap<Id>
    var outboxSequence: nat

    ghost function Fields(): StateSnapshot
      reads this
    {
      StateSnapshot(aggregates, events, eventSequence, outbox, idempotencyKeys, outboxSequence)
    }

    ghost function Now(): MemState
      reads this, Fields().Footprint()
    {
      Fields().Value()
    }

    ghost predicate Valid()
      reads this, Fields().Footprint()
    {
      Fields().Shape() && MemInv(Now())
    }

    constructor ()
      ensures Valid() && Now() == EMPTY_MEM
      ensures fresh(aggregates) && fresh(events) && fresh(outbox) && fresh(idempotencyKeys) && aggregates.entries
          == map[]
    {
      aggregates := new JsMap();
      events := new JsMap();
      eventSequence := 0;
      outbox := new JsMap();
      idempotencyKeys := new JsMap();
      outboxSequence := 0;
      new;
      hide MemInv;
      assert InnerMaps(aggregates.entries) == {};
      MemEmptyHasInv();
    }

    // Snapshots ---------------------------------------------------------

    /** New map objects with the same entries; the inner maps are copied, the records in them are shared. */
    method SnapshotState() returns (snapshot: StateSnapshot)
      requires Valid()
      ensures snapshot.Shape() && snapshot.Value() == Now()
      ensures fresh(snapshot.Footprint())
    {
      hide MemInv;
      var copies := CopyInnerMaps();
      var eventCopy := new JsMap.CopyOf(events.entries);
      var outboxCopy := new JsMap.CopyOf(outbox.entries);
      var keyCopy := new JsMap.CopyOf(idempotencyKeys.entries);
      snapshot := StateSnapshot(copies, eventCopy, eventSequence, outboxCopy, keyCopy, outboxSequence);
    }

    method CopyInnerMaps() returns (copies: JsMap<JsMap<Aggregate>>)
      ensures fresh(copies) && fresh(InnerMaps(copies.entries))
      ensures Unshared(copies.entries) && Contents(copies.entries) == Contents(aggregates.entries)
    {
      copies := new JsMap();
      var todo := aggregates.entries.Keys;
      while todo != {}
        invariant fresh(copies) && todo <= aggregates.entries.Keys
        invariant copies.entries.Keys == aggregates.entries.Keys - todo
        invariant forall t :: t in copies.entries ==>
            fresh(copies.entries[t]) && copies.entries[t].entries == aggregates.entries[t].entries
        invariant Unshared(copies.entries)
        decreases todo
      {
        var t :| t in todo;
        var copy := new JsMap.CopyOf(aggregates.entries[t].entries);
        copies.entries := copies.entries[t := copy];
        todo := todo - {t};
      }
    }

    method RestoreState(snapshot: StateSnapshot)
      requires snapshot.Shape() && MemInv(snapshot.Value()) && this !in snapshot.Footprint()
      modifies this
      ensures Fields() == snapshot && Valid() && Now() == old(snapshot.Value())
    {
      hide MemInv, Contents, Unshared;
      aggregates := snapshot.aggregates;
      events := snapshot.events;
      eventSequence := snapshot.eventSequence;
      outbox := snapshot.outbox;
      idempotencyKeys := snapshot.idempotencyKeys;
      outboxSequence := snapshot.outboxSequence;
    }

    // Aggregates --------------------------------------------------------

    /** The inner map of a type, created on demand. */
    method ByTypeMap(aggregateType: Id) returns (inner: JsMap<Aggregate>)
      requires Fields().Shape()
      modifies aggregates
      ensures Fields().Shape() && Fields() == old(Fields())
      ensures aggregateType in aggregates.entries && aggregates.entries[aggregateType] == inner
      ensures inner.entries == old(ByType(Now(), aggregateType))
      ensures Now() == old(Now().(aggregates := Now().aggregates[aggregateType := ByType(Now(), aggregateType)]))
      ensures inner in old(InnerMaps(aggregates.entries)) || fresh(inner)
      ensures InnerMaps(aggregates.entries) <= old(InnerMaps(aggregates.entries)) + {inner}
    {
      ghost var was := Now();
      if aggregateType in aggregates.entries {
        inner := aggregates.entries[aggregateType];
      } else {
        inner := new JsMap();
        aggregates.entries := aggregates.entries[aggregateType := inner];
      }
      assert Contents(aggregates.entries) == was.aggregates[aggregateType := ByType(was, aggregateType)];
    }

    method PutInto(aggregateType: Id, inner: JsMap<Aggregate>, stored: Aggregate)
      requires Fields().Shape() && aggregateType in aggregates.entries && aggregates.entries[aggregateType] == inner
      modifies inner
      ensures Fields().Shape() && Fields() == old(Fields()) && aggregates.entries == old(aggregates.entries)
      ensures Now() == old(Now().(aggregates := Now().aggregates[aggregateType := ByType(Now(),
          aggregateType)[stored.aggregateId := stored]]))
    {
      ghost var was := Now();
      inner.entries := inner.entries[stored.aggregateId := stored];
      assert Contents(aggregates.entries)
          == was.aggregates[aggregateType := ByType(was, aggregateType)[stored.aggregateId := stored]];
    }

    method Create(op: Op) returns (answer: Answer)
      requires Valid() && op.CreateAggregate? && ValidOp(op)
      modifies aggregates, InnerMaps(aggregates.entries)
      ensures Valid() && (Now(), answer) == MemCreate(old(Now()), op)
      ensures fresh(Fields().Footprint() - old(Fields().Footprint()))
    {
      hide MemInv, Unshared, Contents;
      ghost var was := Now();
      AggregateOpKeepsInv(was, op);
      var inner := ByTypeMap(op.aggregateType);
      if op.aggregateId in inner.entries {
        answer := Failed(ConcurrencyConflict(Some(inner.entries[op.aggregateId].version)));
      } else {
        var stored := NewAggregate(op);
        PutInto(op.aggregateType, inner, stored);
        LastPutCounts(was.aggregates, op.aggregateType, ByType(was, op.aggregateType),
            ByType(was, op.aggregateType)[op.aggregateId := stored]);
        answer := OneAggregate(Some(stored));
      }
    }

    method Update(op: Op) returns (answer: Answer)
      requires Valid() && op.UpdateAggregate? && ValidOp(op)
      modifies aggregates, InnerMaps(aggregates.entries)
      ensures Valid() && (Now(), answer) == MemUpdate(old(Now()), op)
      ensures fresh(Fields().Footprint() - old(Fields().Footprint()))
    {
      hide MemInv, Unshared, Contents;
      ghost var was := Now();
      AggregateOpKeepsInv(was, op);
      var inner := ByTypeMap(op.aggregateType);
      if op.aggregateId !in inner.entries {
        return Failed(NotFound);
      }
      var existing := inner.entries[op.aggregateId];
      if existing.version != op.expectedVersion {
        return Failed(ConcurrencyConflict(Some(existing.version)));
      }
      var stored := UpdatedAggregate(existing, op);
      assert stored.aggregateId == op.aggregateId by { FiledAt(was, op.aggregateType, op.aggregateId); }
      PutInto(op.aggregateType, inner, stored);
      LastPutCounts(was.aggregates, op.aggregateType, ByType(was, op.aggregateType),
          ByType(was, op.aggregateType)[op.aggregateId := stored]);
      return OneAggregate(Some(stored));
    }

    method GetAggregate(op: Op) returns (answer: Answer)
      requires op.GetAggregate?
      ensures answer == MemGetAggregate(Now(), op)
    {
      if op.aggregateType in aggregates.entries && op.aggregateId in aggregates.entries[op.aggregateType].entries {
        return OneAggregate(Some(aggregates.entries[op.aggregateType].entries[op.aggregateId]));
      }
      return OneAggregate(None);
    }

    method ListAggregates(op: Op) returns (answer: Answer)
      requires op.ListAggregates? && op.limit >= 1 && Sortable(Now())
      ensures answer == MemListAggregates(Now(), op)
    {
      hide Sorted, Filter, Take, AggregateAfter, DistinctKeys;
      var after := AfterKey(op.cursor);
      if after.Err? {
        return Failed(after.error);
      }
      var rows: map<Id, Aggregate> := map[];
      if op.aggregateType in aggregates.entries {
        rows := aggregates.entries[op.aggregateType].entries;
      }
      assert rows == ByType(Now(), op.aggregateType);
      assert DistinctKeys(rows.Values, AggregateKey()) by { TypeSortable(Now(), op.aggregateType); }
      var items := Take(Filter(Sorted(rows.Values, AggregateKey()), AggregateAfter(after.value)), op.limit + 1);
      return AggregatePage(BuildPage(items, op.limit, AggregateCursor()));
    }

    // Events ------------------------------------------------------------

    method ListEvents(op: Op) returns (answer: Answer)
      requires op.ListEvents? && op.limit >= 1 && Sortable(Now())
      ensures answer == MemListEvents(Now(), op)
    {
      hide Sorted, Filter, Take;
      if op.eventAggregate.Some? && op.eventType.None? {
        return Failed(Validation);
      }
      var after := AfterSequence(op.cursor);
      if after.Err? {
        return Failed(after.error);
      }
      var items := Take(Filter(Sorted(events.entries.Values, EventKey()),
          EventMatches(op.eventType, op.eventAggregate, after.value)), op.limit + 1);
      return EventPage(BuildPage(items, op.limit, EventCursor()));
    }

    method Append(op: Op) returns (answer: Answer)
      requires Valid() && op.AppendEvent?
      modifies this`eventSequence, events
      ensures Valid() && (Now(), answer) == MemAppend(old(Now()), op)
      ensures Fields().Footprint() == old(Fields().Footprint())
    {
      hide MemInv;
      ghost var was := Now();
      if op.eventId in events.entries {
        return Failed(DuplicateId);
      }
      eventSequence := eventSequence + 1;
      var stored := NewEvent(op, eventSequence);
      events.entries := events.entries[op.eventId := stored];
      assert Contents(aggregates.entries) == was.aggregates;
      assert Now() == was.(eventSequence := eventSequence, events := events.entries);
      AppendKeepsInv(was, op);
      return OneEvent(stored);
    }

    // Outbox ------------------------------------------------------------

    method EnqueueMessage(op: Op) returns (answer: Answer)
      requires Valid() && op.Enqueue?
      modifies this`outboxSequence, outbox, idempotencyKeys
      ensures Valid() && (Now(), answer) == MemEnqueue(old(Now()), op)
      ensures Fields().Footprint() == old(Fields().Footprint())
    {
      hide MemInv;
      ghost var was := Now();
      if op.messageId in outbox.entries {
        return Failed(DuplicateId);
      }
      if op.idempotencyKey in idempotencyKeys.entries {
        return Failed(DuplicateIdempotencyKey);
      }
      outboxSequence := outboxSequence + 1;
      var stored := NewMessage(op, outboxSequence);
      outbox.entries := outbox.entries[op.messageId := stored];
      idempotencyKeys.entries := idempotencyKeys.entries[op.idempotencyKey := op.messageId];
      assert Contents(aggregates.entries) == was.aggregates;
      assert Now() == was.(outboxSequence := outboxSequence, outbox := outbox.entries,
          idempotencyKeys := idempotencyKeys.entries);
      EnqueueKeepsInv(was, op);
      return OneMessage(Some(stored));
    }

    method ClaimMessages(op: Op) returns (answer: Answer)
      requires Valid() && op.Claim?
      modifies outbox
      ensures Valid() && Sortable(old(Now())) && (Now(), answer) == MemClaim(old(Now()), op)
      ensures Fields().Footprint() == old(Fields().Footprint())
    {
      hide MemInv, Sortable, Sorted, ClaimScan, Unshared;
      ghost var was := Now();
      InvIsSortable(was);
      ClaimKeepsInv(was, op);
      assert DistinctKeys(outbox.entries.Values, MessageKey()) by { OutboxSortable(was); }
      var claimed := ClaimInTurn(Sorted(outbox.entries.Values, MessageKey()), op);
      assert Fields() == old(Fields()) && Now() == was.(outbox := outbox.entries);
      answer := Claimed(claimed);
    }

    /** The loop of a claim, over the sorted messages. */
    method ClaimInTurn(scan: seq<Message>, op: Op) returns (claimed: seq<Message>)
      requires op.Claim?
      modifies outbox
      ensures (outbox.entries, claimed)
           == ClaimScan(old(outbox.entries), scan, [], op.owner, op.now + op.leaseDuration, op.limit, op.now)
    {
      hide ClaimScan;
      var expires := op.now + op.leaseDuration;
      claimed := [];
      var i := 0;
      while i < |scan| && |claimed| < op.limit
        invariant 0 <= i <= |scan|
        invariant ClaimScan(outbox.entries, scan[i..], claimed, op.owner, expires, op.limit, op.now)
               == ClaimScan(old(outbox.entries), scan, [], op.owner, expires, op.limit, op.now)
        modifies outbox
      {
        ClaimScanStep(outbox.entries, scan[i..], claimed, op.owner, expires, op.limit, op.now);
        assert scan[i..][1..] == scan[i + 1..];
        if IsClaimable(scan[i], op.now) {
          var next := ApplyClaim(scan[i], op.owner, expires);
          outbox.entries := outbox.entries[next.messageId := next];
          claimed := claimed + [next];
        }
        i := i + 1;
      }
      ClaimScanStep(outbox.entries, scan[i..], claimed, op.owner, expires, op.limit, op.now);
    }

    method GetMessage(op: Op) returns (answer: Answer)
      requires op.GetMessage?
      ensures answer == MemGetMessage(Now(), op)
    {
      if op.messageId in outbox.entries {
        return OneMessage(Some(outbox.entries[op.messageId]));
      }
      return OneMessage(None);
    }

    method ListMessages(op: Op) returns (answer: Answer)
      requires op.ListMessages? && op.limit >= 1 && Sortable(Now())
      ensures answer == MemListMessages(Now(), op)
    {
      hide Sorted, Filter, Take;
      var after := AfterSequence(op.cursor);
      if after.Err? {
        return Failed(after.error);
      }
      var items := Take(Filter(Sorted(outbox.entries.Values, MessageKey()), MessageMatches(op.status, after.value)),
          op.limit + 1);
      return MessagePage(BuildPage(items, op.limit, MessageCursor()));
    }

    method SettleMessage(op: Op) returns (answer: Answer)
      requires Valid() && (op.Acknowledge? || op.ScheduleRetry? || op.DeadLetter?)
      modifies outbox
      ensures Valid() && (Now(), answer) == MemSettle(old(Now()), op)
      ensures Fields().Footprint() == old(Fields().Footprint())
    {
      hide MemInv, Unshared, LeasedBy;
      ghost var was := Now();
      SettleKeepsInv(was, op);
      if op.messageId !in outbox.entries {
        return Failed(NotFound);
      }
      var stored := outbox.entries[op.messageId];
      if op.Acknowledge? {
        var result := ApplyAcknowledge(stored, op.owner, op.now);
        if result.Err? {
          return Failed(result.error);
        }
        if result.value.changed {
          outbox.entries := outbox.entries[op.messageId := result.value.message];
        }
        assert Contents(aggregates.entries) == was.aggregates;
        assert outbox.entries == was.outbox[op.messageId := result.value.message];
        return OneMessage(Some(result.value.message));
      }
      var result := if op.ScheduleRetry? then ApplyScheduleRetry(stored, op.owner, op.retryAt, op.category)
                    else ApplyDeadLetter(stored, op.owner, op.failure, op.now);
      if result.Err? {
        return Failed(result.error);
      }
      outbox.entries := outbox.entries[op.messageId := result.value];
      assert Contents(aggregates.entries) == was.aggregates;
      assert Now() == was.(outbox := outbox.entries);
      return OneMessage(Some(result.value));
    }

    /** Any operation, validated first. */
    method Execute(op: Op) returns (answer: Answer)
      requires Valid()
      modifies this, Fields().Footprint()
      ensures Valid() && (Now(), answer) == MemDo(old(Now()), op)
      ensures fresh(Fields().Footprint() - old(Fields().Footprint()))
    {
      hide MemInv, Sortable, Unshared, Contents, ByType;
      hide MemCreate, MemUpdate, MemAppend, MemEnqueue, MemClaim, MemSettle;
      hide MemGetAggregate, MemListAggregates, MemListEvents, MemGetMessage, MemListMessages;
      if !ValidOp(op) {
        return Failed(Validation);
      }
      InvIsSortable(Now());
      match op {
        case CreateAggregate(_, _, _, _) => answer := Create(op);
        case UpdateAggregate(_, _, _, _, _) => answer := Update(op);
        case GetAggregate(_, _) => answer := GetAggregate(op);
        case ListAggregates(_, _, _) => answer := ListAggregates(op);
        case AppendEvent(_, _, _, _, _) => answer := Append(op);
        case ListEvents(_, _, _, _) => answer := ListEvents(op);
        case Enqueue(_, _, _, _, _) => answer := EnqueueMessage(op);
        case Claim(_, _, _, _) => answer := ClaimMessages(op);
        case Acknowledge(_, _, _) => answer := SettleMessage(op);
        case ScheduleRetry(_, _, _, _) => answer := SettleMessage(op);
        case DeadLetter(_, _, _, _) => answer := SettleMessage(op);
        case GetMessage(_) => answer := GetMessage(op);
        case ListMessages(_, _, _) => answer := ListMessages(op);
      }
    }
  }

  /** What a work body receives: the shared state behind the gate of its transaction. */
  class TransactionContext {
    const state: MemoryState
    const gate: SessionGate

    constructor (state: MemoryState, gate: SessionGate)
      ensures this.state == state && this.gate == gate
    {
      this.state := state;
      this.gate := gate;
    }

    ghost predicate Valid()
      reads this, state, state.Fields().Footprint()
    {
      state.Valid() && gate !in state.Fields().Footprint()
    }

    method Perform(op: Op) returns (answer: Answer)
      requires Valid()
      modifies state, state.Fields().Footprint()
      ensures Valid() && gate.active == old(gate.active)
      ensures old(gate.active) ==> (state.Now(), answer) == MemDo(old(state.Now()), op)
      ensures !old(gate.active) ==> answer == Failed(TransactionCompleted) && state.Now() == old(state.Now())
      ensures fresh(state.Fields().Footprint() - old(state.Fields().Footprint()))
    {
      hide MemInv, MemDo, Unshared, Contents;
      if !gate.active {
        return Failed(TransactionCompleted);
      }
      answer := state.Execute(op);
    }

    lemma InvWhenValid()
      requires Valid()
      ensures MemInv(state.Now())
    {
    }

    /** Performs what the body asks for until it returns or throws. */
    method RunBody(w: Body) returns (outcome: Outcome)
      requires Valid() && gate.active
      modifies state, state.Fields().Footprint()
      ensures Valid() && gate.active
      ensures (state.Now(), outcome) == MemWork(old(state.Now()), w, [])
      ensures fresh(state.Fields().Footprint() - old(state.Fields().Footprint()))
    {
      hide MemInv, MemDo, MemWork, Unshared, Contents, StateSnapshot.Value, StateSnapshot.Shape, MemoryState.Valid;
      ghost var was := state.Now();
      InvWhenValid();
      var answers: seq<Answer> := [];
      var action := ActionOf(w, answers);
      while action.Do?
        invariant Valid() && gate.active && MemInv(state.Now())
        invariant fresh(state.Fields().Footprint() - old(state.Fields().Footprint()))
        invariant action == ActionOf(w, answers)
        invariant MemWork(state.Now(), w, answers) == MemWork(was, w, [])
        decreases w.most - |answers|
      {
        WorkStep(state.Now(), w, answers);
        var answer := Perform(action.op);
        InvWhenValid();
        answers := answers + [answer];
        action := ActionOf(w, answers);
      }
      WorkStep(state.Now(), w, answers);
      outcome := Outcome(action.Return?, answers);
    }

    /** Puts the snapshot back. */
    method Rollback(snapshot: StateSnapshot)
      requires Valid() && MemInv(snapshot.Value()) && snapshot.Shape()
      requires state !in snapshot.Footprint() && gate !in snapshot.Footprint()
      modifies state
      ensures Valid() && gate.active == old(gate.active) && state.Fields() == snapshot && state.Now()
          == old(snapshot.Value())
    {
      hide MemInv, Unshared, Contents;
      state.RestoreState(snapshot);
    }

    /** Closes the gate, and puts the snapshot back after a throw. */
    method End(committed: bool, snapshot: StateSnapshot)
      requires Valid() && MemInv(snapshot.Value()) && snapshot.Shape()
      requires state !in snapshot.Footprint() && gate !in snapshot.Footprint()
      modifies gate, state
      ensures Valid() && !gate.active
      ensures committed ==> state.Fields() == old(state.Fields()) && state.Now() == old(state.Now())
      ensures !committed ==> state.Fields() == snapshot && state.Now() == old(snapshot.Value())
    {
      hide MemInv, Unshared, Contents, StateSnapshot.Value, StateSnapshot.Shape, MemoryState.Valid;
      gate.Close();
      if !committed {
        Rollback(snapshot);
      }
    }

    /** The body, then the end of the transaction. */
    method RunTransaction(w: Body, snapshot: StateSnapshot) returns (outcome: Outcome)
      requires Valid() && gate.active
      requires snapshot.Shape() && snapshot.Value() == state.Now()
      requires snapshot.Footprint() !! {state, gate} && snapshot.Footprint() !! state.Fields().Footprint()
      modifies gate, state, state.Fields().Footprint()
      ensures Valid() && !gate.active
      ensures (state.Now(), outcome) == MemTransact(old(state.Now()), w)
      ensures fresh(state.Fields().Footprint() - old(state.Fields().Footprint()) - old(snapshot.Footprint()))
    {
      hide MemInv, MemDo, MemWork, Unshared, Contents, StateSnapshot.Value, StateSnapshot.Shape, MemoryState.Valid;
      InvWhenValid();
      outcome := RunBody(w);
      End(outcome.committed, snapshot);
    }
  }

  class MemoryPersistenceAdapter {
    const state: MemoryState
    const closedGate: SessionGate

    ghost predicate Valid()
      reads this, state, state.Fields().Footprint()
    {
      state.Valid() && closedGate !in state.Fields().Footprint()
    }

    constructor ()
      ensures Valid() && closedGate.active && state.Now() == EMPTY_MEM
    {
      hide MemInv;
      state := new MemoryState();
      closedGate := new SessionGate();
    }

    /** Runs a work body to its end. A throw puts the snapshot back; either way the context is dead afterwards. */
    method Transact(w: Body) returns (result: Result<Outcome>, context: TransactionContext?)
      requires Valid()
      modifies state, state.Fields().Footprint()
      ensures Valid() && closedGate.active == old(closedGate.active)
      ensures !old(closedGate.active) ==> result == Err(AdapterClosed) && state.Now() == old(state.Now())
      ensures old(closedGate.active) ==> result.Ok? && (state.Now(), result.value) == MemTransact(old(state.Now()), w)
      ensures old(closedGate.active) ==>
          context != null && context.Valid() && context.state == state && !context.gate.active
    {
      hide MemInv, MemDo, MemWork, Unshared, Contents;
      if !closedGate.active {
        return Err(AdapterClosed), null;
      }
      var snapshot := state.SnapshotState();
      context := CreateContext();
      var outcome := context.RunTransaction(w, snapshot);
      result := Ok(outcome);
    }

    method Close()
      requires Valid()
      modifies closedGate
      ensures Valid() && !closedGate.active && state.Now() == old(state.Now())
    {
      hide MemInv, Unshared, Contents;
      closedGate.Close();
    }

    method CreateContext() returns (tx: TransactionContext)
      requires Valid()
      ensures fresh(tx) && fresh(tx.gate) && tx.Valid() && tx.state == state && tx.gate.active
    {
      hide MemInv, Unshared, Contents;
      var gate := new SessionGate();
      tx := new TransactionContext(state, gate);
    }
  }

  lemma WorkStep(s: MemState, w: Body, answers: seq<Answer>)
    requires MemInv(s)
    ensures ActionOf(w, answers).Return? ==> MemWork(s, w, answers) == (s, Outcome(true, answers))
    ensures ActionOf(w, answers).Throw? ==> MemWork(s, w, answers) == (s, Outcome(false, answers))
    ensures ActionOf(w, answers).Do? ==>
      var r := MemDo(s, ActionOf(w, answers).op);
      |answers| < w.most && MemWork(s, w, answers) == MemWork(r.0, w, answers + [r.1])
  {
  }

  lemma TypeSortable(s: MemState, t: Id)
    requires Sortable(s)
    ensures DistinctKeys(ByType(s, t).Values, AggregateKey())
  {
  }

  lemma FiledAt(s: MemState, t: Id, k: Id)
    requires MemInv(s) && k in ByType(s, t)
    ensures ByType(s, t)[k].aggregateId == k
  {
  }

  lemma LastPutCounts<V>(m: map<Id, V>, k: Id, first: V, last: V)
    ensures m[k := first][k := last] == m[k := last]
  {
  }

  lemma OutboxSortable(s: MemState)
    requires Sortable(s)
    ensures DistinctKeys(s.outbox.Values, MessageKey())
  {
  }
}
