/** What the store holds of aggregates and events, in terms of the operations alone
    (packages/persistence-memory/src/memory-adapter.ts).
 */
module RecordHistory {
  import opened Basics
  import opened Listing
  import opened Outbox
  import opened MemoryModel
  import opened Work
  import opened LeaseSafety

  // Single operations ------------------------------------------------------------------------

  function AggregateAt(s: MemState, t: Id, id: Id): Option<Aggregate> {
    if t in s.aggregates && id in s.aggregates[t] then Some(s.aggregates[t][id]) else None
  }

  /** All aggregates but perhaps this one, and all events and messages, are as they were. */
  ghost predicate OnlyAggregate(s: MemState, u: MemState, t: Id, id: Id) {
    && (forall x, k :: x != t || k != id ==> AggregateAt(u, x, k) == AggregateAt(s, x, k))
    && u.events == s.events && u.outbox == s.outbox
  }

  lemma FiledOne(s: MemState, a: Aggregate)
    ensures var t, id := a.aggregateType, a.aggregateId;
      var u := s.(aggregates := s.aggregates[t := ByType(s, t)[id := a]]);
      OnlyAggregate(s, u, t, id) && AggregateAt(u, t, id) == Some(a)
  {
  }

  lemma FiledNone(s: MemState, t: Id, id: Id)
    ensures var u := s.(aggregates := s.aggregates[t := ByType(s, t)]);
      OnlyAggregate(s, u, t, id) && AggregateAt(u, t, id) == AggregateAt(s, t, id)
  {
  }

  lemma ExistingIs(s: MemState, t: Id, id: Id)
    ensures AggregateAt(s, t, id) == if id in ByType(s, t) then Some(ByType(s, t)[id]) else None
  {
  }

  /** Creating succeeds for a new, non-empty id. */
  lemma CreateIsExact(s: MemState, op: Op)
    requires MemInv(s) && op.CreateAggregate?
    ensures var (u, answer) := MemDo(s, op);
      var t, id := op.aggregateType, op.aggregateId;
      var before := AggregateAt(s, t, id);
      && OnlyAggregate(s, u, t, id)
      && if id == EMPTY_TEXT then answer == Failed(Validation) && AggregateAt(u, t, id) == before
         else if before.Some?
         then answer == Failed(ConcurrencyConflict(Some(before.value.version))) && AggregateAt(u, t, id) == before
         else
           && answer == OneAggregate(Some(Aggregate(t, id, 1, op.content, op.now, op.now)))
           && AggregateAt(u, t, id) == answer.aggregate
  {
    hide MemInv, OnlyAggregate, AggregateAt, ByType, Sortable;
    SameIsOnly(s, op.aggregateType, op.aggregateId);
    ExistingIs(s, op.aggregateType, op.aggregateId);
    FiledNone(s, op.aggregateType, op.aggregateId);
    FiledOne(s, Aggregate(op.aggregateType, op.aggregateId, 1, op.content, op.now, op.now));
  }

  lemma SameIsOnly(s: MemState, t: Id, id: Id)
    ensures OnlyAggregate(s, s, t, id)
  {
  }

  /** Updating succeeds for the version that is stored, and makes the next one. */
  lemma UpdateIsExact(s: MemState, op: Op)
    requires MemInv(s) && op.UpdateAggregate?
    ensures var (u, answer) := MemDo(s, op);
      var t, id := op.aggregateType, op.aggregateId;
      var before := AggregateAt(s, t, id);
      && OnlyAggregate(s, u, t, id)
      && if before.None? then answer == Failed(NotFound) && AggregateAt(u, t, id) == before
         else if before.value.version != op.expectedVersion
         then answer == Failed(ConcurrencyConflict(Some(before.value.version))) && AggregateAt(u, t, id) == before
         else
           && answer == OneAggregate(Some(Aggregate(t, id, before.value.version + 1, op.content, before.value.createdAt,
                                                    op.now)))
           && AggregateAt(u, t, id) == answer.aggregate
  {
    hide MemInv, OnlyAggregate, AggregateAt, ByType, Sortable;
    var t, id := op.aggregateType, op.aggregateId;
    ExistingIs(s, t, id);
    FiledNone(s, t, id);
    if AggregateAt(s, t, id).Some? {
      AggregatesAreFiled(s, t, id);
      var old_ := AggregateAt(s, t, id).value;
      FiledOne(s, Aggregate(t, id, old_.version + 1, op.content, old_.createdAt, op.now));
    }
  }

  lemma AggregatesAreFiled(s: MemState, t: Id, id: Id)
    requires MemInv(s) && AggregateAt(s, t, id).Some?
    ensures AggregateAt(s, t, id).value.aggregateType == t && AggregateAt(s, t, id).value.aggregateId == id
  {
  }

  /** Appending succeeds for a new id, and gives the next number. */
  lemma AppendIsExact(s: MemState, op: Op)
    requires MemInv(s) && op.AppendEvent?
    ensures var (u, answer) := MemDo(s, op);
      if op.eventId in s.events then u == s && answer == Failed(DuplicateId)
      else
        var e := Event(op.eventId, op.aggregateType, op.aggregateId, op.content, op.now, |s.events| + 1);
        && answer == OneEvent(e) && u.events == s.events[op.eventId := e]
        && u.aggregates == s.aggregates && u.outbox == s.outbox
  {
  }

  /** Reading changes nothing and answers what is stored. */
  lemma ReadsAreExact(s: MemState, op: Op)
    requires MemInv(s) && (op.GetAggregate? || op.GetMessage?)
    ensures MemDo(s, op) == (s, if op.GetAggregate? then OneAggregate(AggregateAt(s, op.aggregateType, op.aggregateId))
                                else OneMessage(if op.messageId in s.outbox then Some(s.outbox[op.messageId])
                                                else None))
  {
    hide MemInv;
  }

  /** What is refused before anything is looked at. */
  lemma ValidationIsExact(s: MemState, op: Op)
    requires MemInv(s)
    ensures var (t, answer) := MemDo(s, op);
      answer == Failed(Validation) <==>
        || (op.CreateAggregate? && op.aggregateId == EMPTY_TEXT)
        || ((op.ListAggregates? || op.ListEvents? || op.ListMessages?) && op.limit == 0)
        || (op.Claim? && (op.leaseDuration == 0 || op.limit == 0))
        || (op.ListEvents? && op.eventAggregate.Some? && op.eventType.None?)
    ensures MemDo(s, op).1 == Failed(Validation) ==> MemDo(s, op).0 == s
  {
    hide MemInv, Sorted, Filter, Take, ClaimScan, Sortable;
  }

  lemma OthersLeaveRecords(s: MemState, op: Op)
    requires MemInv(s)
    ensures !op.CreateAggregate? && !op.UpdateAggregate? ==> MemDo(s, op).0.aggregates == s.aggregates
    ensures !op.AppendEvent? ==> MemDo(s, op).0.events == s.events
  {
    hide MemInv, MemListAggregates, MemListEvents, MemListMessages, Settle, ClaimScan, Sortable;
  }

  // Whole runs -------------------------------------------------------------------------------------

  /** Operation `i` creates or updates this aggregate. */
  ghost predicate WritesAt(ops: seq<Op>, i: nat, t: Id, id: Id)
    requires i < |ops|
  {
    && (ops[i].CreateAggregate? || ops[i].UpdateAggregate?)
    && ops[i].aggregateType == t && ops[i].aggregateId == id && AnswerAt(ops, i).OneAggregate?
  }

  ghost function WriteCount(ops: seq<Op>, n: nat, t: Id, id: Id): nat
    requires n <= |ops|
  {
    if n == 0 then 0 else WriteCount(ops, n - 1, t, id) + if WritesAt(ops, n - 1, t, id) then 1 else 0
  }

  /** What an operation does to one aggregate: a create makes the first version, an update the next one. */
  lemma WriteIs(ops: seq<Op>, n: nat, t: Id, id: Id)
    requires n < |ops|
    ensures var before, after := AggregateAt(At(ops, n), t, id), AggregateAt(At(ops, n + 1), t, id);
      if !WritesAt(ops, n, t, id) then after == before
      else
        && AnswerAt(ops, n) == OneAggregate(after)
        && (ops[n].CreateAggregate? ==>
              before.None? && after == Some(Aggregate(t, id, 1, ops[n].content, ops[n].now, ops[n].now)))
        && (ops[n].UpdateAggregate? ==>
              && before.Some? && ops[n].expectedVersion == before.value.version
              && after == Some(Aggregate(t, id, before.value.version + 1, ops[n].content, before.value.createdAt,
                                         ops[n].now)))
  {
    hide At, MemDo, MemInv, AggregateAt;
    AtNext(ops, n);
    var s, op := At(ops, n), ops[n];
    if op.CreateAggregate? {
      CreateIsExact(s, op);
    } else if op.UpdateAggregate? {
      UpdateIsExact(s, op);
    } else {
      OthersLeaveRecords(s, op);
      SameRecords(s, MemDo(s, op).0, t, id);
    }
  }

  lemma SameRecords(s: MemState, u: MemState, t: Id, id: Id)
    requires u.aggregates == s.aggregates
    ensures AggregateAt(u, t, id) == AggregateAt(s, t, id)
  {
  }

  /** The last write before `n`, if any. */
  ghost predicate IsLastWrite(ops: seq<Op>, n: nat, t: Id, id: Id, i: nat)
    requires n <= |ops|
  {
    i < n && WritesAt(ops, i, t, id) && forall k :: i < k < n ==> !WritesAt(ops, k, t, id)
  }

  ghost predicate IsFirstWrite(ops: seq<Op>, n: nat, t: Id, id: Id, i: nat)
    requires n <= |ops|
  {
    i < n && WritesAt(ops, i, t, id) && forall k :: 0 <= k < i ==> !WritesAt(ops, k, t, id)
  }

  predicate IsWriting(op: Op) {
    op.CreateAggregate? || op.UpdateAggregate?
  }

  /** The aggregate is what its last write gave it, counts its writes, and remembers when it was created. */
  ghost predicate AsWritten(ops: seq<Op>, n: nat, t: Id, id: Id, a: Aggregate)
    requires n <= |ops|
  {
    && a.aggregateType == t && a.aggregateId == id && a.version == WriteCount(ops, n, t, id)
    && (forall i: nat :: IsLastWrite(ops, n, t, id, i) ==>
          IsWriting(ops[i]) && a.content == ops[i].content && a.updatedAt == ops[i].now)
    && (forall i: nat :: IsFirstWrite(ops, n, t, id, i) ==> ops[i].CreateAggregate? && a.createdAt == ops[i].now)
  }

  /** In every run an aggregate exists exactly if it was written, and is as it was written. */
  lemma {:induction false} AggregateIsLastWrite(ops: seq<Op>, n: nat, t: Id, id: Id)
    requires n <= |ops|
    ensures var a := AggregateAt(At(ops, n), t, id);
      && (a.None? <==> forall i: nat :: i < n ==> !WritesAt(ops, i, t, id))
      && (a.None? ==> WriteCount(ops, n, t, id) == 0)
      && (a.Some? ==> AsWritten(ops, n, t, id, a.value))
  {
    hide At, AnswerAt, MemInv, AggregateAt, WritesAt, AsWritten;
    if n == 0 {
      NothingAtFirst(ops, t, id);
    } else {
      AggregateIsLastWrite(ops, n - 1, t, id);
      WriteIs(ops, n - 1, t, id);
      NextIsWritten(ops, n - 1, t, id, AggregateAt(At(ops, n - 1), t, id), AggregateAt(At(ops, n), t, id));
    }
  }

  lemma NextIsWritten(ops: seq<Op>, n: nat, t: Id, id: Id, before: Option<Aggregate>, after: Option<Aggregate>)
    requires n < |ops| && (before.Some? ==> AsWritten(ops, n, t, id, before.value))
    requires before.None? <==> forall i: nat :: i < n ==> !WritesAt(ops, i, t, id)
    requires before.None? ==> WriteCount(ops, n, t, id) == 0
    requires !WritesAt(ops, n, t, id) ==> after == before
    requires WritesAt(ops, n, t, id) && ops[n].CreateAggregate? ==>
      before.None? && after == Some(Aggregate(t, id, 1, ops[n].content, ops[n].now, ops[n].now))
    requires WritesAt(ops, n, t, id) && ops[n].UpdateAggregate? ==>
      && before.Some?
      && after == Some(Aggregate(t, id, before.value.version + 1, ops[n].content, before.value.createdAt, ops[n].now))
    ensures after.None? <==> forall i: nat :: i < n + 1 ==> !WritesAt(ops, i, t, id)
    ensures after.None? ==> WriteCount(ops, n + 1, t, id) == 0
    ensures after.Some? ==> AsWritten(ops, n + 1, t, id, after.value)
  {
    hide AnswerAt, MemInv, WritesAt;
    assert WritesAt(ops, n, t, id) ==> IsWriting(ops[n]) by { OnlyWritesWrite(ops, n, t, id); }
    forall i: nat | IsLastWrite(ops, n + 1, t, id, i)
      ensures i == n || (!WritesAt(ops, n, t, id) && IsLastWrite(ops, n, t, id, i))
    {
    }
    forall i: nat | IsFirstWrite(ops, n + 1, t, id, i)
      ensures i < n ==> IsFirstWrite(ops, n, t, id, i)
      ensures i == n ==> before.None?
    {
    }
  }

  lemma OnlyWritesWrite(ops: seq<Op>, n: nat, t: Id, id: Id)
    requires n < |ops|
    ensures WritesAt(ops, n, t, id) ==> IsWriting(ops[n])
  {
  }

  lemma NothingAtFirst(ops: seq<Op>, t: Id, id: Id)
    ensures AggregateAt(At(ops, 0), t, id).None? && At(ops, 0).events == map[]
  {
  }

  ghost predicate AppendsAt(ops: seq<Op>, i: nat, id: Id)
    requires i < |ops|
  {
    ops[i].AppendEvent? && ops[i].eventId == id && AnswerAt(ops, i).OneEvent?
  }

  ghost predicate SomeAppendAt(ops: seq<Op>, i: nat)
    requires i < |ops|
  {
    ops[i].AppendEvent? && AnswerAt(ops, i).OneEvent?
  }

  ghost function AppendCount(ops: seq<Op>, n: nat): nat
    requires n <= |ops|
  {
    if n == 0 then 0 else AppendCount(ops, n - 1) + if SomeAppendAt(ops, n - 1) then 1 else 0
  }

  lemma AppendIs(ops: seq<Op>, n: nat)
    requires n < |ops|
    ensures var before, after := At(ops, n).events, At(ops, n + 1).events;
      if !SomeAppendAt(ops, n) then after == before
      else
        var op := ops[n];
        && op.AppendEvent? && op.eventId !in before
        && after == before[op.eventId := Event(op.eventId, op.aggregateType, op.aggregateId, op.content, op.now,
                                               |before| + 1)]
        && |after| == |before| + 1
  {
    hide At, MemDo, MemInv;
    AtNext(ops, n);
    if ops[n].AppendEvent? {
      AppendIsExact(At(ops, n), ops[n]);
      var op := ops[n];
      if op.eventId !in At(ops, n).events {
        EventCount(At(ops, n).events,
                   Event(op.eventId, op.aggregateType, op.aggregateId, op.content, op.now, |At(ops, n).events| + 1));
      }
    } else {
      OthersLeaveRecords(At(ops, n), ops[n]);
    }
  }

  /** In every run the events are the successful appends, unchanged, numbered in their order. */
  lemma {:induction false} EventsAreAppends(ops: seq<Op>, n: nat, id: Id)
    requires n <= |ops|
    ensures |At(ops, n).events| == AppendCount(ops, n)
    ensures id in At(ops, n).events <==> exists i :: 0 <= i < n && AppendsAt(ops, i, id)
    ensures forall i :: 0 <= i < n && AppendsAt(ops, i, id) ==>
      id in At(ops, n).events
      && At(ops, n).events[id] == Event(id, ops[i].aggregateType, ops[i].aggregateId, ops[i].content, ops[i].now,
                                        AppendCount(ops, i) + 1)
  {
    hide At, AnswerAt, MemInv;
    if n == 0 {
      NothingAtFirst(ops, 0, 0);
    } else {
      EventsAreAppends(ops, n - 1, id);
      AppendIs(ops, n - 1);
      assert AppendsAt(ops, n - 1, id) <==> SomeAppendAt(ops, n - 1) && ops[n - 1].eventId == id;
    }
  }
}
