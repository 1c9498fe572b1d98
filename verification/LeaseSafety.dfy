/** Lease safety of the outbox over whole runs of operations. */
module LeaseSafety {
  import opened Basics
  import opened Listing
  import opened Outbox
  import opened MemoryModel
  import opened Work

  /** The state before operation `i` of a run from the empty store. */
  function At(ops: seq<Op>, i: nat): (s: MemState)
    requires i <= |ops|
    ensures MemInv(s)
  {
    MemEmptyHasInv();
    Replay(EMPTY_MEM, ops[..i])
  }

  function AnswerAt(ops: seq<Op>, i: nat): Answer
    requires i < |ops|
  {
    MemDo(At(ops, i), ops[i]).1
  }

  lemma AtNext(ops: seq<Op>, i: nat)
    requires i < |ops|
    ensures At(ops, i + 1) == MemDo(At(ops, i), ops[i]).0
  {
    hide MemDo, MemInv;
    MemEmptyHasInv();
    assert ops[..i + 1][..i] == ops[..i];
  }

  // What one operation does to one message -------------------------------

  function Due(now: Time): Message -> bool { (m: Message) => IsClaimable(m, now) }

  /** The messages a claim takes: the first `limit` claimable ones by sequence. */
  function Targets(s: MemState, op: Op): seq<Message>
    requires op.Claim? && Sortable(s)
  {
    Take(Filter(Sorted(s.outbox.Values, MessageKey()), Due(op.now)), op.limit)
  }

  function ClaimAll(targets: seq<Message>, owner: Id, expires: Time): seq<Message> {
    if targets == [] then [] else [ApplyClaim(targets[0], owner, expires)] + ClaimAll(targets[1..], owner, expires)
  }

  ghost predicate HasId(ms: seq<Message>, id: Id) {
    exists m :: m in ms && m.messageId == id
  }

  ghost predicate Snapshot(outbox: map<Id, Message>, scan: seq<Message>) {
    && (forall i :: 0 <= i < |scan| ==> scan[i].messageId in outbox && outbox[scan[i].messageId] == scan[i])
    && (forall i, j :: 0 <= i < j < |scan| ==> scan[i].messageId != scan[j].messageId)
  }

  lemma SnapshotRest(outbox: map<Id, Message>, scan: seq<Message>, next: Message)
    requires Snapshot(outbox, scan) && scan != [] && next.messageId == scan[0].messageId
    ensures Snapshot(outbox, scan[1..]) && Snapshot(outbox[next.messageId := next], scan[1..])
    ensures scan[0].messageId in outbox && outbox[scan[0].messageId] == scan[0]
  {
    assert forall i :: 0 <= i < |scan| - 1 ==> scan[1..][i] == scan[i + 1];
  }

  lemma ClaimNothing(owner: Id, expires: Time)
    ensures ClaimAll([], owner, expires) == []
  {
  }

  lemma ClaimAllCons(m: Message, later: seq<Message>, owner: Id, expires: Time)
    ensures ClaimAll([m] + later, owner, expires) == [ApplyClaim(m, owner, expires)] + ClaimAll(later, owner, expires)
  {
  }

  lemma {:induction false} ScanReturnsTargets(
    outbox: map<Id, Message>, scan: seq<Message>, claimed: seq<Message>, owner: Id, expires: Time, limit: nat,
        now: Time)
    requires |claimed| <= limit
    ensures ClaimScan(outbox, scan, claimed, owner, expires, limit, now).1
         == claimed + ClaimAll(Take(Filter(scan, Due(now)), limit - |claimed|), owner, expires)
    decreases |scan|
  {
    hide Filter, IsClaimable, ClaimScan, ClaimAll;
    ClaimScanStep(outbox, scan, claimed, owner, expires, limit, now);
    if scan == [] || |claimed| >= limit {
      assert Take(Filter(scan, Due(now)), limit - |claimed|) == [] by { FilterNothing(Due(now)); }
      ClaimNothing(owner, expires);
    } else {
      FilterStep(scan, Due(now));
      if IsClaimable(scan[0], now) {
        ClaimAllCons(scan[0], Take(Filter(scan[1..], Due(now)), limit - |claimed| - 1), owner, expires);
        var next := ApplyClaim(scan[0], owner, expires);
        ScanReturnsTargets(outbox[next.messageId := next], scan[1..], claimed + [next], owner, expires, limit, now);
        var later := Take(Filter(scan[1..], Due(now)), limit - |claimed| - 1);
        TakeCons(scan[0], Filter(scan[1..], Due(now)), limit - |claimed|);
        assert claimed + [next] + ClaimAll(later, owner, expires)
            == claimed + ([next] + ClaimAll(later, owner, expires));
      } else {
        ScanReturnsTargets(outbox, scan[1..], claimed, owner, expires, limit, now);
      }
    }
  }

  /** What the scan of `n` more claims leaves stored under `k`. */
  lemma {:induction false} ScanWritesTargets(
    outbox: map<Id, Message>, scan: seq<Message>, claimed: seq<Message>, owner: Id, expires: Time, limit: nat,
        now: Time, k: Id)
    requires |claimed| <= limit && Snapshot(outbox, scan) && k in outbox
    ensures var targets := Take(Filter(scan, Due(now)), limit - |claimed|);
      var after := ClaimScan(outbox, scan, claimed, owner, expires, limit, now).0;
      k in after && after[k] == if HasId(targets, k) then ApplyClaim(outbox[k], owner, expires) else outbox[k]
    ensures HasId(Take(Filter(scan, Due(now)), limit - |claimed|), k) ==> HasId(scan, k)
    decreases |scan|
  {
    hide Filter, IsClaimable, HasId, Snapshot;
    HasIdNothing(k);
    if scan == [] || |claimed| >= limit {
      assert Take(Filter(scan, Due(now)), limit - |claimed|) == [] by { FilterNothing(Due(now)); }
    } else {
      FilterStep(scan, Due(now));
      var next := ApplyClaim(scan[0], owner, expires);
      SnapshotRest(outbox, scan, next);
      HeadHasId(outbox, scan, k);
      if IsClaimable(scan[0], now) {
        ScanWritesTargets(outbox[next.messageId := next], scan[1..], claimed + [next], owner, expires, limit, now, k);
        TakeCons(scan[0], Filter(scan[1..], Due(now)), limit - |claimed|);
        HasIdCons(scan[0], Take(Filter(scan[1..], Due(now)), limit - |claimed| - 1));
      } else {
        ScanWritesTargets(outbox, scan[1..], claimed, owner, expires, limit, now, k);
      }
    }
  }

  lemma HasIdNothing(k: Id)
    ensures !HasId([], k)
  {
  }

  lemma HeadHasId(outbox: map<Id, Message>, scan: seq<Message>, k: Id)
    requires Snapshot(outbox, scan) && scan != []
    ensures HasId(scan, k) <==> scan[0].messageId == k || HasId(scan[1..], k)
    ensures !HasId(scan[1..], scan[0].messageId)
  {
    HasIdCons(scan[0], scan[1..]);
    assert scan == [scan[0]] + scan[1..];
    assert forall i :: 0 <= i < |scan| - 1 ==> scan[1..][i] == scan[i + 1];
  }

  lemma HasIdCons(m: Message, ms: seq<Message>)
    ensures forall k :: HasId([m] + ms, k) <==> m.messageId == k || HasId(ms, k)
  {
    forall k ensures HasId([m] + ms, k) <==> m.messageId == k || HasId(ms, k) {
      assert m in [m] + ms;
    }
  }

  lemma {:induction false} ClaimAllIds(targets: seq<Message>, owner: Id, expires: Time)
    ensures forall k :: HasId(ClaimAll(targets, owner, expires), k) <==> HasId(targets, k)
  {
    if targets != [] {
      ClaimAllIds(targets[1..], owner, expires);
      HasIdCons(targets[0], targets[1..]);
      HasIdCons(ApplyClaim(targets[0], owner, expires), ClaimAll(targets[1..], owner, expires));
      assert targets == [targets[0]] + targets[1..];
    }
  }

  /** A claim returns exactly the first `limit` claimable messages by sequence, leased, and changes no other. */
  lemma ClaimIsExact(s: MemState, op: Op)
    requires MemInv(s) && op.Claim? && Sortable(s)
    ensures var targets := Targets(s, op);
      var expires := op.now + op.leaseDuration;
      var (t, answer) := MemClaim(s, op);
      && answer == Claimed(ClaimAll(targets, op.owner, expires))
      && t.outbox.Keys == s.outbox.Keys
      && (forall m :: m in targets ==> m.messageId in s.outbox && s.outbox[m.messageId] == m && IsClaimable(m, op.now))
      && forall k :: k in s.outbox ==>
           t.outbox[k] == if HasId(targets, k) then ApplyClaim(s.outbox[k], op.owner, expires) else s.outbox[k]
  {
    hide MemInv, Sorted, DistinctKeys, StrictlySorted, Filter, Take, ClaimScan, ClaimAll, HasId, IsClaimable;
    FiledUnderId(s);
    ScanIsFaithful(s.outbox);
    var scan := Sorted(s.outbox.Values, MessageKey());
    var expires := op.now + op.leaseDuration;
    ScanReturnsTargets(s.outbox, scan, [], op.owner, expires, op.limit, op.now);
    var all := ClaimAll(Targets(s, op), op.owner, expires);
    assert [] + all == all;
    ClaimKeepsInv(s, op);
    forall k | k in s.outbox
      ensures MemClaim(s, op).0.outbox[k] == if HasId(Targets(s, op), k)
          then ApplyClaim(s.outbox[k], op.owner, expires) else s.outbox[k]
    {
      ScanWritesTargets(s.outbox, scan, [], op.owner, expires, op.limit, op.now, k);
    }
    forall m | m in Targets(s, op)
      ensures m.messageId in s.outbox && s.outbox[m.messageId] == m && IsClaimable(m, op.now)
    {
      FilteredSatisfy(scan, Due(op.now), m);
    }
  }

  lemma {:induction false} FilteredSatisfy(xs: seq<Message>, p: Message -> bool, m: Message)
    requires m in Filter(xs, p)
    ensures m in xs && p(m)
  {
    if xs != [] {
      FilterStep(xs, p);
      if m in Filter(xs[1..], p) {
        FilteredSatisfy(xs[1..], p, m);
      }
    }
  }

  datatype Fate = Untouched | Taken | Settled

  ghost predicate Returns(answer: Answer, id: Id) {
    answer.Claimed? && HasId(answer.messages, id)
  }

  /** How an operation treated the message stored under `id`: `m` before, `n` after. */
  ghost predicate IsFate(fate: Fate, op: Op, id: Id, m: Message, n: Message, answer: Answer) {
    match fate
    case Untouched => n == m && !(op.Claim? && Returns(answer, id))
    case Taken =>
      && op.Claim? && Returns(answer, id) && IsClaimable(m, op.now)
      && n == ApplyClaim(m, op.owner, op.now + op.leaseDuration)
    case Settled =>
      && (op.Acknowledge? || op.ScheduleRetry? || op.DeadLetter?)
      && op.messageId == id && Settle(m, op) == Ok(n) && answer == OneMessage(Some(n))
  }

  /** Every operation leaves a stored message alone, claims it while claimable, or settles it by its rules. */
  lemma FateOf(s: MemState, op: Op, id: Id) returns (fate: Fate)
    requires MemInv(s) && id in s.outbox
    ensures var (t, answer) := MemDo(s, op);
      id in t.outbox && IsFate(fate, op, id, s.outbox[id], t.outbox[id], answer)
  {
    InvIsSortable(s);
    if !ValidOp(op) {
      fate := Untouched;
    } else if op.Claim? {
      fate := ClaimFate(s, op, id);
    } else if op.Acknowledge? || op.ScheduleRetry? || op.DeadLetter? {
      fate := SettleFate(s, op, id);
    } else {
      OtherFate(s, op, id);
      fate := Untouched;
    }
  }

  lemma SettleFate(s: MemState, op: Op, id: Id) returns (fate: Fate)
    requires MemInv(s) && id in s.outbox && (op.Acknowledge? || op.ScheduleRetry? || op.DeadLetter?)
    ensures var (t, answer) := MemDo(s, op);
      id in t.outbox && IsFate(fate, op, id, s.outbox[id], t.outbox[id], answer)
  {
    hide MemInv, Sortable, Settle;
    InvIsSortable(s);
    fate := if op.messageId == id && Settle(s.outbox[id], op).Ok? then Settled else Untouched;
  }

  lemma OtherFate(s: MemState, op: Op, id: Id)
    requires MemInv(s) && id in s.outbox && !op.Claim? && !op.Acknowledge? && !op.ScheduleRetry? && !op.DeadLetter?
    ensures var (t, answer) := MemDo(s, op);
      id in t.outbox && t.outbox[id] == s.outbox[id]
  {
    hide MemInv, Sortable, Sorted, Filter, MemListAggregates, MemListEvents, MemListMessages;
    InvIsSortable(s);
  }

  lemma ClaimFate(s: MemState, op: Op, id: Id) returns (fate: Fate)
    requires MemInv(s) && op.Claim? && ValidOp(op) && id in s.outbox
    ensures var (t, answer) := MemDo(s, op);
      id in t.outbox && IsFate(fate, op, id, s.outbox[id], t.outbox[id], answer)
  {
    hide MemInv, Sortable, Targets, MemClaim, IsClaimable, HasId;
    InvIsSortable(s);
    ClaimIsExact(s, op);
    ClaimAllIds(Targets(s, op), op.owner, op.now + op.leaseDuration);
    TargetsClaimable(s, Targets(s, op), id, op.now);
    fate := if HasId(Targets(s, op), id) then Taken else Untouched;
  }

  lemma TargetsClaimable(s: MemState, targets: seq<Message>, id: Id, now: Time)
    requires forall m :: m in targets ==> m.messageId in s.outbox && s.outbox[m.messageId] == m && IsClaimable(m, now)
    ensures HasId(targets, id) ==> id in s.outbox && IsClaimable(s.outbox[id], now)
  {
  }

  /** Operation `i` is a claim that returns message `id`. */
  ghost predicate ClaimsAt(ops: seq<Op>, i: nat, id: Id)
    requires i < |ops|
  {
    ops[i].Claim? && Returns(AnswerAt(ops, i), id)
  }

  /** Operation `i` is a successful retry of `id` by `owner`. */
  ghost predicate RetriedAt(ops: seq<Op>, i: nat, id: Id, owner: Id)
    requires i < |ops|
  {
    ops[i].ScheduleRetry? && ops[i].messageId == id && ops[i].owner == owner && AnswerAt(ops, i).OneMessage?
  }

  lemma StepAt(ops: seq<Op>, i: nat, id: Id) returns (fate: Fate)
    requires i < |ops| && id in At(ops, i).outbox
    ensures id in At(ops, i + 1).outbox
    ensures IsFate(fate, ops[i], id, At(ops, i).outbox[id], At(ops, i + 1).outbox[id], AnswerAt(ops, i))
    ensures ClaimsAt(ops, i, id) <==> fate == Taken
  {
    hide At, MemDo, MemInv;
    AtNext(ops, i);
    fate := FateOf(At(ops, i), ops[i], id);
  }

  /** Messages are never deleted. */
  lemma {:induction false} StoredForever(ops: seq<Op>, i: nat, j: nat, id: Id)
    requires i <= j <= |ops| && id in At(ops, i).outbox
    ensures id in At(ops, j).outbox
  {
    hide At, AnswerAt, ClaimsAt, MemInv, IsFate;
    if i < j {
      StoredForever(ops, i, j - 1, id);
      var fate := StepAt(ops, j - 1, id);
    }
  }

  lemma ClaimedIsStored(ops: seq<Op>, i: nat, id: Id)
    requires i < |ops| && ClaimsAt(ops, i, id)
    ensures id in At(ops, i).outbox
  {
    hide At, MemInv, Sortable, Targets, MemClaim, IsClaimable;
    var s := At(ops, i);
    var op := ops[i];
    InvIsSortable(s);
    if ValidOp(op) {
      ClaimIsExact(s, op);
      ClaimAllIds(Targets(s, op), op.owner, op.now + op.leaseDuration);
      var m :| m in Targets(s, op) && m.messageId == id;
    }
  }

  ghost predicate Terminal(m: Message) {
    m.status == Status.Acknowledged || m.status == DeadLettered
  }

  /** What settling can do to a message: only the lease holder changes it, and into which states. */
  lemma SettleFacts(m: Message, op: Op)
    requires op.Acknowledge? || op.ScheduleRetry? || op.DeadLetter?
    ensures Settle(m, op).Ok? ==>
      var n := Settle(m, op).value;
      && n.attemptCount == m.attemptCount
      && (n == m || LeasedBy(m, op.owner))
      && (Terminal(m) ==> n == m)
      && !LeasedBy(n, op.owner)
      && (n.status == Leased ==> n == m)
      && (op.ScheduleRetry? || Terminal(n))
      && (op.ScheduleRetry? ==> LeasedBy(m, op.owner))
  {
  }

  /** Claiming takes a message that is not terminal. */
  lemma ClaimableFacts(m: Message, now: Time)
    requires IsClaimable(m, now)
    ensures !Terminal(m) && (m.status == Leased ==> m.leaseExpiresAt.Some? && m.leaseExpiresAt.value <= now)
  {
  }

  lemma FateFacts(fate: Fate, op: Op, id: Id, m: Message, n: Message, answer: Answer)
    requires IsFate(fate, op, id, m, n, answer)
    ensures fate.Settled? ==>
      && n.attemptCount == m.attemptCount && (n == m || LeasedBy(m, op.owner)) && (Terminal(m) ==> n == m)
      && !LeasedBy(n, op.owner) && (n.status == Leased ==> n == m) && (op.ScheduleRetry? || Terminal(n))
      && (op.ScheduleRetry? ==> LeasedBy(m, op.owner))
    ensures fate.Taken? ==>
        !Terminal(m) && (m.status == Leased ==> m.leaseExpiresAt.Some? && m.leaseExpiresAt.value <= op.now)
  {
    hide Settle, IsClaimable;
    if fate.Settled? { SettleFacts(m, op); }
    if fate.Taken? { ClaimableFacts(m, op.now); }
  }

  // ------------------------------------------------------------------
  // Safety of leases
  // ------------------------------------------------------------------

  /** From a claim on, until the next claim: the lease stands, or its owner gave it back, or the message is done. */
  ghost predicate LeaseStands(m: Message, owner: Id, expires: Time, retried: bool) {
    Terminal(m) || retried || (m.status == Leased && m.leaseOwner == Some(owner) && m.leaseExpiresAt == Some(expires))
  }

  ghost predicate RetriedBetween(ops: seq<Op>, i: nat, j: nat, id: Id, owner: Id)
    requires j <= |ops|
  {
    exists k :: i < k < j && RetriedAt(ops, k, id, owner)
  }

  lemma ClaimsAtIsClaim(ops: seq<Op>, i: nat, id: Id)
    requires i < |ops| && ClaimsAt(ops, i, id)
    ensures ops[i].Claim?
  {
  }

  lemma {:induction false} LeaseHolds(ops: seq<Op>, i: nat, j: nat, id: Id)
    requires i < j <= |ops| && ClaimsAt(ops, i, id)
    requires forall k :: i < k < j ==> !ClaimsAt(ops, k, id)
    ensures id in At(ops, j).outbox
    ensures LeaseStands(At(ops, j).outbox[id], ops[i].owner, ops[i].now + ops[i].leaseDuration,
        RetriedBetween(ops, i, j, id, ops[i].owner))
    decreases j
  {
    hide At, ClaimsAt, AnswerAt, MemInv, MemDo, IsClaimable, Settle;
    if j == i + 1 {
      ClaimedIsStored(ops, i, id);
      var fate := StepAt(ops, i, id);
      FateFacts(fate, ops[i], id, At(ops, i).outbox[id], At(ops, i + 1).outbox[id], AnswerAt(ops, i));
    } else {
      assert ops[i].Claim? by { ClaimsAtIsClaim(ops, i, id); }
      LeaseHolds(ops, i, j - 1, id);
      var fate := StepAt(ops, j - 1, id);
      FateFacts(fate, ops[j - 1], id, At(ops, j - 1).outbox[id], At(ops, j ).outbox[id], AnswerAt(ops, j - 1));
      var before := At(ops, j - 1).outbox[id];
      if RetriedBetween(ops, i, j - 1, id, ops[i].owner) {
        var k :| i < k < j - 1 && RetriedAt(ops, k, id, ops[i].owner);
        assert RetriedAt(ops, k, id, ops[i].owner);
      } else if fate == Settled && ops[j - 1].ScheduleRetry? {
        assert RetriedAt(ops, j - 1, id, ops[i].owner);
      }
    }
  }

  /** Between two successive claims of one message, the first lease expired or its owner scheduled a retry. */
  lemma LeaseSafe(ops: seq<Op>, i: nat, j: nat, id: Id)
    requires i < j < |ops| && ClaimsAt(ops, i, id) && ClaimsAt(ops, j, id)
    requires forall k :: i < k < j ==> !ClaimsAt(ops, k, id)
    ensures ops[i].now + ops[i].leaseDuration <= ops[j].now || RetriedBetween(ops, i, j, id, ops[i].owner)
  {
    hide At, ClaimsAt, AnswerAt, MemInv, MemDo, IsClaimable, Settle;
    LeaseHolds(ops, i, j, id);
    var fate := StepAt(ops, j, id);
    FateFacts(fate, ops[j], id, At(ops, j).outbox[id], At(ops, j + 1).outbox[id], AnswerAt(ops, j));
  }

  /** Once acknowledged or dead-lettered, a message never changes and is never claimed again. */
  lemma {:induction false} TerminalForever(ops: seq<Op>, i: nat, j: nat, id: Id)
    requires i <= j <= |ops| && id in At(ops, i).outbox && Terminal(At(ops, i).outbox[id])
    ensures id in At(ops, j).outbox && At(ops, j).outbox[id] == At(ops, i).outbox[id]
    ensures j < |ops| ==> !ClaimsAt(ops, j, id)
    decreases j
  {
    hide At, ClaimsAt, AnswerAt, MemInv, MemDo, IsClaimable, Settle;
    if i < j {
      TerminalForever(ops, i, j - 1, id);
      var fate := StepAt(ops, j - 1, id);
      FateFacts(fate, ops[j - 1], id, At(ops, j - 1).outbox[id], At(ops, j ).outbox[id], AnswerAt(ops, j - 1));
    }
    if j < |ops| {
      var fate := StepAt(ops, j, id);
      FateFacts(fate, ops[j], id, At(ops, j).outbox[id], At(ops, j + 1).outbox[id], AnswerAt(ops, j));
    }
  }

  /** How many of the first `n` operations claimed `id`. */
  ghost function ClaimCount(ops: seq<Op>, n: nat, id: Id): nat
    requires n <= |ops|
  {
    if n == 0 then 0 else ClaimCount(ops, n - 1, id) + if ClaimsAt(ops, n - 1, id) then 1 else 0
  }

  /** The attempt counter is the number of claims, and what was never stored was never claimed. */
  lemma {:induction false} AttemptsAreClaims(ops: seq<Op>, n: nat, id: Id)
    requires n <= |ops|
    ensures ClaimCount(ops, n, id) == if id in At(ops, n).outbox then At(ops, n).outbox[id].attemptCount else 0
  {
    hide At, ClaimsAt, AnswerAt, MemInv, MemDo, IsClaimable, Settle;
    if n == 0 {
      NothingStoredAtFirst(ops, id);
    } else {
      AttemptsAreClaims(ops, n - 1, id);
      if id in At(ops, n - 1).outbox {
        var fate := StepAt(ops, n - 1, id);
        FateFacts(fate, ops[n - 1], id, At(ops, n - 1).outbox[id], At(ops, n ).outbox[id], AnswerAt(ops, n - 1));
      } else {
        if ClaimsAt(ops, n - 1, id) {
          ClaimedIsStored(ops, n - 1, id);
        }
        FirstStored(ops, n - 1, id);
      }
    }
  }

  lemma NothingStoredAtFirst(ops: seq<Op>, id: Id)
    ensures id !in At(ops, 0).outbox
  {
  }

  lemma FirstStored(ops: seq<Op>, i: nat, id: Id)
    requires i < |ops| && id !in At(ops, i).outbox
    ensures id in At(ops, i + 1).outbox ==> At(ops, i + 1).outbox[id].attemptCount == 0
  {
    hide At, MemInv, MemDo;
    AtNext(ops, i);
    StoredFresh(At(ops, i), ops[i], id);
  }

  lemma StoredFresh(s: MemState, op: Op, id: Id)
    requires MemInv(s) && id !in s.outbox
    ensures id in MemDo(s, op).0.outbox ==> MemDo(s, op).0.outbox[id].attemptCount == 0
  {
    hide MemInv, Sortable, Sorted, Filter, Settle, MemListAggregates, MemListEvents, MemListMessages, MemClaim;
    InvIsSortable(s);
    if op.Claim? && ValidOp(op) {
      ClaimIsExact(s, op);
    }
  }

  /** An owner displaced by another owner's claim cannot settle the message, unless it claims it again. */
  lemma {:induction false} DisplacedOwnerCannotSettle(ops: seq<Op>, i: nat, j: nat, id: Id, displaced: Id)
    requires i < j < |ops| && ClaimsAt(ops, i, id) && ops[i].owner != displaced
    requires forall k :: i < k < j && ClaimsAt(ops, k, id) ==> ops[k].owner != displaced
    requires ops[j].Acknowledge? || ops[j].ScheduleRetry? || ops[j].DeadLetter?
    requires ops[j].messageId == id && ops[j].owner == displaced
    ensures At(ops, j + 1) == At(ops, j)
  {
    hide At, ClaimsAt, AnswerAt, MemInv, MemDo, IsClaimable, Settle;
    NotLeasedByDisplaced(ops, i, j, id, displaced);
    AtNext(ops, j);
    SettleNeedsLease(At(ops, j), ops[j]);
  }

  lemma {:induction false} NotLeasedByDisplaced(ops: seq<Op>, i: nat, j: nat, id: Id, displaced: Id)
    requires i < j <= |ops| && ClaimsAt(ops, i, id) && ops[i].owner != displaced
    requires forall k :: i < k < j && ClaimsAt(ops, k, id) ==> ops[k].owner != displaced
    ensures id in At(ops, j).outbox && !LeasedBy(At(ops, j).outbox[id], displaced)
    decreases j
  {
    hide At, ClaimsAt, AnswerAt, MemInv, MemDo, IsClaimable, Settle;
    if j == i + 1 {
      ClaimedIsStored(ops, i, id);
      var fate := StepAt(ops, i, id);
      FateFacts(fate, ops[i], id, At(ops, i).outbox[id], At(ops, i + 1).outbox[id], AnswerAt(ops, i));
    } else {
      NotLeasedByDisplaced(ops, i, j - 1, id, displaced);
      var fate := StepAt(ops, j - 1, id);
      FateFacts(fate, ops[j - 1], id, At(ops, j - 1).outbox[id], At(ops, j ).outbox[id], AnswerAt(ops, j - 1));
    }
  }

  /** Settling without the lease changes nothing. */
  lemma SettleNeedsLease(s: MemState, op: Op)
    requires MemInv(s) && (op.Acknowledge? || op.ScheduleRetry? || op.DeadLetter?)
    requires op.messageId in s.outbox && !LeasedBy(s.outbox[op.messageId], op.owner)
    ensures MemDo(s, op).0 == s
  {
    hide MemInv, Sortable;
    InvIsSortable(s);
    assert s.outbox[op.messageId := s.outbox[op.messageId]] == s.outbox;
  }
}
