/** What the outbox does with a message, in terms of the operations alone: when it becomes claimable, who gets it,
    and how it ends (packages/persistence/src/outbox-logic.ts, packages/persistence-memory/src/memory-adapter.ts).
 */
module OutboxHistory {
  import opened Basics
  import opened Listing
  import opened Outbox
  import opened MemoryModel
  import opened Work
  import opened LeaseSafety

  // Single operations ------------------------------------------------------------------------

  function RequestedTime(op: Op): Time
    requires op.Enqueue?
  {
    match op.availableAt case Some(at) => at case None => op.now
  }

  ghost predicate KeyUsed(s: MemState, key: Id) {
    exists k :: k in s.outbox && s.outbox[k].idempotencyKey == key
  }

  /** Enqueueing succeeds for a new id with an unused key, and stores what was asked for. */
  lemma EnqueueIsExact(s: MemState, op: Op)
    requires MemInv(s) && op.Enqueue?
    ensures var (t, answer) := MemDo(s, op);
      if op.messageId in s.outbox then t == s && answer == Failed(DuplicateId)
      else if KeyUsed(s, op.idempotencyKey) then t == s && answer == Failed(DuplicateIdempotencyKey)
      else
        var m := Message(op.messageId, op.content, op.idempotencyKey, Pending, 0, op.now, RequestedTime(op), None, None,
                         None, None, None, |s.outbox| + 1);
        && answer == OneMessage(Some(m)) && t.outbox == s.outbox[op.messageId := m]
        && t.aggregates == s.aggregates && t.events == s.events
  {
    hide EventsNumbered, AggregatesFiled, Sortable, OutboxNumbered, KeysIndexed;
    InvIsSortable(s);
    KeyUsedIff(s, op.idempotencyKey);
    assert |s.outbox| == s.outboxSequence by { CounterIsSize(s.outbox, s.outboxSequence); }
  }

  lemma KeyUsedIff(s: MemState, key: Id)
    requires KeysIndexed(s.outbox, s.idempotencyKeys)
    ensures key in s.idempotencyKeys <==> KeyUsed(s, key)
  {
  }

  lemma CounterIsSize(outbox: map<Id, Message>, counter: nat)
    requires OutboxNumbered(outbox, counter)
    ensures |outbox| == counter
  {
  }

  function Ended(m: Message, status: Status): Message {
    m.(status := status, leaseOwner := None, leaseExpiresAt := None)
  }

  /** Settling succeeds for the owner of the lease; acknowledging again is acknowledged without effect. */
  lemma SettleIsExact(s: MemState, op: Op)
    requires MemInv(s) && (op.Acknowledge? || op.ScheduleRetry? || op.DeadLetter?)
    ensures var (t, answer) := MemDo(s, op);
      if op.messageId !in s.outbox then t == s && answer == Failed(NotFound)
      else
        var m := s.outbox[op.messageId];
        if op.Acknowledge? && m.status == Status.Acknowledged then t == s && answer == OneMessage(Some(m))
        else if m.status != Leased || m.leaseOwner != Some(op.owner)
            then t == s && answer == Failed(OutboxStateConflict)
        else
          var n := match op
            case Acknowledge(_, _, now) => Ended(m, Status.Acknowledged).(acknowledgedAt := Some(now))
            case DeadLetter(_, _, failure, now) =>
              Ended(m, DeadLettered).(deadLetteredAt := Some(now), lastFailureCategory := Some(failure))
            case ScheduleRetry(_, _, retryAt, Some(category)) =>
              Ended(m, Pending).(availableAt := retryAt, lastFailureCategory := Some(category))
            case ScheduleRetry(_, _, retryAt, None) => Ended(m, Pending).(availableAt := retryAt)
            case _ => m;
          answer == OneMessage(Some(n)) && t == s.(outbox := s.outbox[op.messageId := n])
  {
    hide MemInv, Sortable;
    InvIsSortable(s);
    if op.messageId in s.outbox {
      assert s.outbox[op.messageId := s.outbox[op.messageId]] == s.outbox;
    }
  }

  /** Waiting and its time has come, or leased and the lease has run out. */
  predicate IsDue(m: Message, now: Time) {
    || (m.status == Pending && m.availableAt <= now)
    || (m.status == Leased && m.leaseExpiresAt.Some? && m.leaseExpiresAt.value <= now)
  }

  /** The due messages that were enqueued before this one. */
  ghost function DueBefore(s: MemState, k: Id, now: Time): set<Id>
    requires k in s.outbox
  {
    set x | x in s.outbox && IsDue(s.outbox[x], now) && s.outbox[x].sequence < s.outbox[k].sequence
  }

  function LeasedTo(m: Message, owner: Id, expires: Time): Message {
    m.(status := Leased, leaseOwner := Some(owner), leaseExpiresAt := Some(expires), attemptCount := m.attemptCount + 1)
  }

  lemma DueIff(m: Message, now: Time)
    ensures IsClaimable(m, now) <==> IsDue(m, now)
  {
  }

  ghost predicate DueList(s: MemState, xs: seq<Message>, now: Time) {
    && StrictlySorted(xs, MessageKey())
    && forall m :: m in xs <==> m in s.outbox.Values && IsDue(m, now)
  }

  lemma DueMessages(s: MemState, now: Time)
    requires MemInv(s)
    ensures Sortable(s)
    ensures DueList(s, Filter(Sorted(s.outbox.Values, MessageKey()), Due(now)), now)
  {
    hide MemInv, Filter, Sorted, IsDue, IsClaimable;
    InvIsSortable(s);
    var all := s.outbox.Values;
    SortedLists(all, MessageKey());
    FilterLists(Sorted(all, MessageKey()), all, MessageKey(), Due(now));
    forall m ensures IsClaimable(m, now) <==> IsDue(m, now) {
      DueIff(m, now);
    }
  }

  ghost function FirstIds(xs: seq<Message>, n: nat): set<Id>
    requires n <= |xs|
  {
    set j | 0 <= j < n :: xs[j].messageId
  }

  lemma {:induction false} FirstIdsCount(xs: seq<Message>, n: nat)
    requires n <= |xs| && forall i, j :: 0 <= i < j < |xs| ==> xs[i].messageId != xs[j].messageId
    ensures |FirstIds(xs, n)| == n
  {
    if n > 0 {
      FirstIdsCount(xs, n - 1);
      assert FirstIds(xs, n) == FirstIds(xs, n - 1) + {xs[n - 1].messageId};
    }
  }

  lemma ListedAreStored(s: MemState, xs: seq<Message>, now: Time, j: nat)
    requires MemInv(s) && DueList(s, xs, now) && j < |xs|
    ensures xs[j].messageId in s.outbox && s.outbox[xs[j].messageId] == xs[j] && IsDue(xs[j], now)
  {
    hide IsDue, KeysIndexed, EventsNumbered, AggregatesFiled;
    assert xs[j] in xs;
  }

  /** In the list of due messages, the number of those before a message is its position. */
  lemma PositionIs(s: MemState, xs: seq<Message>, now: Time, i: nat)
    requires MemInv(s) && DueList(s, xs, now) && i < |xs|
    ensures xs[i].messageId in s.outbox && s.outbox[xs[i].messageId] == xs[i]
    ensures |DueBefore(s, xs[i].messageId, now)| == i
  {
    hide IsDue, MemInv;
    forall j: nat | j < |xs|
      ensures xs[j].messageId in s.outbox && s.outbox[xs[j].messageId] == xs[j] && IsDue(xs[j], now)
    {
      ListedAreStored(s, xs, now, j);
    }
    var k := xs[i].messageId;
    forall x ensures x in DueBefore(s, k, now) <==> x in FirstIds(xs, i) {
      if x in DueBefore(s, k, now) {
        assert s.outbox[x] in s.outbox.Values;
        var j :| 0 <= j < |xs| && xs[j] == s.outbox[x];
        assert MessageKey()(xs[j]) < MessageKey()(xs[i]);
        Filed(s, x);
      }
      if x in FirstIds(xs, i) {
        var j :| 0 <= j < i && xs[j].messageId == x;
        assert MessageKey()(xs[j]) < MessageKey()(xs[i]);
      }
    }
    assert DueBefore(s, k, now) == FirstIds(xs, i);
    forall a, b | 0 <= a < b < |xs| ensures xs[a].messageId != xs[b].messageId {
      assert MessageKey()(xs[a]) < MessageKey()(xs[b]);
    }
    FirstIdsCount(xs, i);
  }

  lemma Filed(s: MemState, k: Id)
    requires MemInv(s) && k in s.outbox
    ensures s.outbox[k].messageId == k
  {
  }

  /** A claim returns a message exactly if it is due and fewer than `limit` due messages were enqueued before it; those
      are leased to the claimer, in the order they were enqueued, and nothing else changes. */
  lemma ClaimTakesEarliest(s: MemState, op: Op)
    requires MemInv(s) && op.Claim? && ValidOp(op)
    ensures var (t, answer) := MemDo(s, op);
      && answer.Claimed? && StrictlySorted(answer.messages, MessageKey())
      && (forall k :: k in s.outbox ==>
            (Returns(answer, k) <==> IsDue(s.outbox[k], op.now) && |DueBefore(s, k, op.now)| < op.limit))
      && t.outbox.Keys == s.outbox.Keys
      && (forall k :: k in s.outbox ==>
            t.outbox[k] == if Returns(answer, k) then LeasedTo(s.outbox[k], op.owner, op.now + op.leaseDuration)
                           else s.outbox[k])
      && (forall m :: m in answer.messages ==> m.messageId in t.outbox && t.outbox[m.messageId] == m)
      && t == s.(outbox := t.outbox)
  {
    hide MemInv, MemClaim, Targets, HasId, IsDue, DueBefore, StrictlySorted;
    InvIsSortable(s);
    ClaimIsExact(s, op);
    var targets, expires := Targets(s, op), op.now + op.leaseDuration;
    ClaimAllIds(targets, op.owner, expires);
    forall k | k in s.outbox
      ensures HasId(targets, k) <==> IsDue(s.outbox[k], op.now) && |DueBefore(s, k, op.now)| < op.limit
    {
      TargetIff(s, op, k);
    }
    ClaimedInOrder(s, op);
    OnlyOutbox(s, op);
    forall m | m in ClaimAll(targets, op.owner, expires)
      ensures m.messageId in s.outbox && HasId(targets, m.messageId)
      ensures m == LeasedTo(s.outbox[m.messageId], op.owner, expires)
    {
      var x :| x in targets && x.messageId == m.messageId && m == LeasedTo(x, op.owner, expires);
      InHasId(targets, x);
    }
  }

  lemma InHasId(ms: seq<Message>, m: Message)
    requires m in ms
    ensures HasId(ms, m.messageId)
  {
  }

  lemma OnlyOutbox(s: MemState, op: Op)
    requires op.Claim? && Sortable(s)
    ensures var t := MemClaim(s, op).0; t == s.(outbox := t.outbox)
  {
  }

  lemma TargetIff(s: MemState, op: Op, k: Id)
    requires MemInv(s) && op.Claim? && Sortable(s) && k in s.outbox
    ensures HasId(Targets(s, op), k) <==> IsDue(s.outbox[k], op.now) && |DueBefore(s, k, op.now)| < op.limit
  {
    hide MemInv, Sorted, Filter, IsDue, DueBefore;
    var xs := Filter(Sorted(s.outbox.Values, MessageKey()), Due(op.now));
    DueMessages(s, op.now);
    Filed(s, k);
    var targets := Targets(s, op);
    if HasId(targets, k) {
      var m :| m in targets && m.messageId == k;
      var i :| 0 <= i < |targets| && targets[i] == m;
      assert xs[i] == m;
      PositionIs(s, xs, op.now, i);
      ListedAreStored(s, xs, op.now, i);
    }
    if IsDue(s.outbox[k], op.now) && |DueBefore(s, k, op.now)| < op.limit {
      assert s.outbox[k] in s.outbox.Values && s.outbox[k] in xs;
      var i :| 0 <= i < |xs| && xs[i] == s.outbox[k];
      PositionIs(s, xs, op.now, i);
      assert targets[i] == s.outbox[k] && targets[i] in targets;
    }
  }

  lemma {:induction false} ClaimAllAt(targets: seq<Message>, owner: Id, expires: Time, i: nat)
    requires i < |targets|
    ensures |ClaimAll(targets, owner, expires)| == |targets|
    ensures ClaimAll(targets, owner, expires)[i] == LeasedTo(targets[i], owner, expires)
  {
    if i > 0 {
      ClaimAllAt(targets[1..], owner, expires, i - 1);
    } else if |targets| > 1 {
      ClaimAllAt(targets[1..], owner, expires, 0);
    }
  }

  ghost predicate IsLeased(targets: seq<Message>, m: Message, owner: Id, expires: Time) {
    exists x :: x in targets && x.messageId == m.messageId && m == LeasedTo(x, owner, expires)
  }

  lemma ClaimedInOrder(s: MemState, op: Op)
    requires MemInv(s) && op.Claim? && Sortable(s)
    ensures var all := ClaimAll(Targets(s, op), op.owner, op.now + op.leaseDuration);
      && StrictlySorted(all, MessageKey())
      && forall m :: m in all ==> IsLeased(Targets(s, op), m, op.owner, op.now + op.leaseDuration)
  {
    hide MemInv, Sorted, Filter, IsDue, ClaimAll;
    DueMessages(s, op.now);
    var targets, expires := Targets(s, op), op.now + op.leaseDuration;
    var all := ClaimAll(targets, op.owner, expires);
    if targets == [] {
      ClaimNothing(op.owner, expires);
    } else {
      ClaimAllAt(targets, op.owner, expires, 0);
      forall i | 0 <= i < |all|
        ensures all[i] == LeasedTo(targets[i], op.owner, expires) && IsLeased(targets, all[i], op.owner, expires)
      {
        ClaimAllAt(targets, op.owner, expires, i);
        assert targets[i] in targets;
        assert IsLeased(targets, all[i], op.owner, expires);
      }
      forall i, j | 0 <= i < j < |all| ensures MessageKey()(all[i]) < MessageKey()(all[j]) {
        assert MessageKey()(targets[i]) < MessageKey()(targets[j]);
      }
    }
  }

  // Whole runs -------------------------------------------------------------------------------------

  /** Operation `i` enqueues message `id` and stores it. */
  ghost predicate StoresAt(ops: seq<Op>, i: nat, id: Id)
    requires i < |ops|
  {
    ops[i].Enqueue? && ops[i].messageId == id && AnswerAt(ops, i).OneMessage?
  }

  /** Operation `i` is a successful retry of message `id`. */
  ghost predicate RescheduledAt(ops: seq<Op>, i: nat, id: Id)
    requires i < |ops|
  {
    ops[i].ScheduleRetry? && ops[i].messageId == id && AnswerAt(ops, i).OneMessage?
  }

  ghost predicate NotRescheduled(ops: seq<Op>, i: nat, j: nat, id: Id)
    requires j <= |ops|
  {
    forall k :: i <= k < j ==> !RescheduledAt(ops, k, id)
  }

  /** Nobody can claim the message before `t`, unless it is rescheduled. */
  ghost predicate HeldBack(m: Message, t: Time) {
    && (m.status == Pending ==> m.availableAt >= t)
    && (m.status == Leased ==> m.leaseExpiresAt.Some? && m.leaseExpiresAt.value >= t)
  }

  lemma FateKeepsBack(fate: Fate, op: Op, id: Id, m: Message, n: Message, answer: Answer, t: Time)
    requires IsFate(fate, op, id, m, n, answer) && HeldBack(m, t)
    requires !(op.ScheduleRetry? && op.messageId == id && answer.OneMessage?)
    ensures HeldBack(n, t) && (fate.Taken? ==> op.now >= t)
  {
  }

  lemma {:induction false} StaysBack(ops: seq<Op>, i: nat, j: nat, id: Id, t: Time)
    requires i <= j <= |ops| && id in At(ops, i).outbox && HeldBack(At(ops, i).outbox[id], t)
    requires NotRescheduled(ops, i, j, id)
    ensures id in At(ops, j).outbox && HeldBack(At(ops, j).outbox[id], t)
    ensures j < |ops| && ClaimsAt(ops, j, id) ==> ops[j].Claim? && ops[j].now >= t
    decreases j
  {
    hide At, AnswerAt, ClaimsAt, MemInv, IsFate, HeldBack;
    if i < j {
      StaysBack(ops, i, j - 1, id, t);
      var fate := StepAt(ops, j - 1, id);
      assert !RescheduledAt(ops, j - 1, id);
      FateKeepsBack(fate, ops[j - 1], id, At(ops, j - 1).outbox[id], At(ops, j).outbox[id], AnswerAt(ops, j - 1), t);
    }
    if j < |ops| && ClaimsAt(ops, j, id) {
      ClaimsAtIsClaim(ops, j, id);
      var fate := StepAt(ops, j, id);
      TakenIsDue(fate, ops[j], id, At(ops, j).outbox[id], At(ops, j + 1).outbox[id], AnswerAt(ops, j), t);
    }
  }

  lemma TakenIsDue(fate: Fate, op: Op, id: Id, m: Message, n: Message, answer: Answer, t: Time)
    requires IsFate(fate, op, id, m, n, answer) && HeldBack(m, t) && op.Claim?
    ensures fate.Taken? ==> op.now >= t
  {
  }

  lemma StoredAs(ops: seq<Op>, i: nat, id: Id)
    requires i < |ops| && StoresAt(ops, i, id)
    ensures id !in At(ops, i).outbox && id in At(ops, i + 1).outbox
    ensures var op := ops[i];
      At(ops, i + 1).outbox[id]
        == Message(id, op.content, op.idempotencyKey, Pending, 0, op.now, RequestedTime(op), None, None, None, None,
                   None, |At(ops, i).outbox| + 1)
  {
    hide At, MemDo, MemInv;
    AtNext(ops, i);
    EnqueueIsExact(At(ops, i), ops[i]);
  }

  /** A message is not claimed before the time it was enqueued for, or before it was enqueued if no time was given. */
  lemma NeverBeforeItsTime(ops: seq<Op>, i: nat, j: nat, id: Id)
    requires i < j < |ops| && StoresAt(ops, i, id) && ClaimsAt(ops, j, id) && NotRescheduled(ops, i + 1, j, id)
    ensures ops[j].Claim? && ops[j].now >= RequestedTime(ops[i])
  {
    hide At, AnswerAt, ClaimsAt, MemInv, RescheduledAt;
    StoredAs(ops, i, id);
    StaysBack(ops, i + 1, j, id, RequestedTime(ops[i]));
  }

  /** After a retry it is not claimed before the time the retry was scheduled for. */
  lemma NeverBeforeRetry(ops: seq<Op>, i: nat, j: nat, id: Id)
    requires i < j < |ops| && RescheduledAt(ops, i, id) && ClaimsAt(ops, j, id) && NotRescheduled(ops, i + 1, j, id)
    ensures ops[j].Claim? && ops[j].now >= ops[i].retryAt
  {
    hide At, ClaimsAt, MemInv, MemDo;
    AtNext(ops, i);
    SettleIsExact(At(ops, i), ops[i]);
    StaysBack(ops, i + 1, j, id, ops[i].retryAt);
  }

  /** And from that time on it is due, until it is claimed. */
  lemma {:induction false} DueFromItsTime(ops: seq<Op>, i: nat, j: nat, id: Id)
    requires i < j <= |ops| && (StoresAt(ops, i, id) || RescheduledAt(ops, i, id))
    requires forall k :: i < k < j ==> !ClaimsAt(ops, k, id)
    ensures id in At(ops, j).outbox
    ensures var m := At(ops, j).outbox[id];
      && m.status == Pending && m.availableAt == if ops[i].Enqueue? then RequestedTime(ops[i]) else ops[i].retryAt
    decreases j
  {
    hide At, ClaimsAt, MemInv, MemDo;
    if j == i + 1 {
      AtNext(ops, i);
      if ops[i].Enqueue? {
        StoredAs(ops, i, id);
      } else {
        SettleIsExact(At(ops, i), ops[i]);
      }
    } else {
      DueFromItsTime(ops, i, j - 1, id);
      var fate := StepAt(ops, j - 1, id);
      PendingStays(fate, ops[j - 1], id, At(ops, j - 1).outbox[id], At(ops, j).outbox[id], AnswerAt(ops, j - 1));
    }
  }

  lemma PendingStays(fate: Fate, op: Op, id: Id, m: Message, n: Message, answer: Answer)
    requires IsFate(fate, op, id, m, n, answer) && m.status == Pending && !fate.Taken?
    ensures n == m
  {
  }

  /** What a message was enqueued with it keeps. */
  lemma {:induction false} ContentStays(ops: seq<Op>, i: nat, j: nat, id: Id)
    requires i < j <= |ops| && StoresAt(ops, i, id)
    ensures id in At(ops, j).outbox
    ensures var m, op := At(ops, j).outbox[id], ops[i];
      && m.messageId == id && m.content == op.content && m.idempotencyKey == op.idempotencyKey
      && m.createdAt == op.now && m.sequence == |At(ops, i).outbox| + 1
    decreases j
  {
    hide At, AnswerAt, ClaimsAt, MemInv, IsFate;
    StoredAs(ops, i, id);
    if i + 1 < j {
      ContentStays(ops, i, j - 1, id);
      var fate := StepAt(ops, j - 1, id);
      FateKeepsContent(fate, ops[j - 1], id, At(ops, j - 1).outbox[id], At(ops, j).outbox[id], AnswerAt(ops, j - 1));
    }
  }

  lemma FateKeepsContent(fate: Fate, op: Op, id: Id, m: Message, n: Message, answer: Answer)
    requires IsFate(fate, op, id, m, n, answer)
    ensures n.messageId == m.messageId && n.content == m.content && n.idempotencyKey == m.idempotencyKey
    ensures n.createdAt == m.createdAt && n.sequence == m.sequence
  {
  }

  /** An end, once reported, is on record for good: which one, when, and why. */
  lemma EndIsRecorded(ops: seq<Op>, i: nat, j: nat)
    requires i < j <= |ops| && (ops[i].Acknowledge? || ops[i].DeadLetter?) && AnswerAt(ops, i).OneMessage?
    ensures var id := ops[i].messageId;
      && id in At(ops, i).outbox && id in At(ops, j).outbox
      && var m := At(ops, j).outbox[id];
        && AnswerAt(ops, i) == OneMessage(Some(m))
        && (ops[i].DeadLetter? ==>
              m.status == DeadLettered && m.deadLetteredAt == Some(ops[i].now)
              && m.lastFailureCategory == Some(ops[i].failure))
        && (ops[i].Acknowledge? ==>
              m.status == Status.Acknowledged
              && (At(ops, i).outbox[id].status != Status.Acknowledged ==> m.acknowledgedAt == Some(ops[i].now)))
        && (j < |ops| ==> !ClaimsAt(ops, j, id))
  {
    hide At, ClaimsAt, MemInv, MemDo;
    AtNext(ops, i);
    SettleIsExact(At(ops, i), ops[i]);
    TerminalForever(ops, i + 1, j, ops[i].messageId);
  }
}
