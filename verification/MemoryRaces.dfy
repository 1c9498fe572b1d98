/** Runs in which operations of the memory store race, and what they show of its limits
    (packages/memory/src/store.ts).
 */
module MemoryRaces {
  import opened Basics
  import opened MemoryStore
  import opened MemoryJournal
  import opened MemoryLinks
  import opened MemoryOutcomes
  import opened MemoryAuthors

  // An append up to its first write -------------------------------------------------------------

  /** Nothing in the scope is in the way of the append. */
  ghost predicate Admissible(c: Limits, b: Bucket, a: AppendInput) {
    && !NamesItself(a) && a.record.recordId !in b.entries
    && (a.key.Some? ==> a.key.value !in b.byIdempotencyKey)
    && (a.record.supersedes.Some? ==>
          && a.record.supersedes.value in b.entries
          && b.entries[a.record.supersedes.value].supersededBy.None?
          && MayDisplace(a.record, b.entries[a.record.supersedes.value].record))
    && |b.entries| < c.maxRecordsPerScope
  }

  function Reads(a: AppendInput, i: nat): seq<Step> {
    (if a.key.Some? then [Go(i)] else []) + [Go(i), Go(i), Go(i)]
  }

  function With(h: Tale, i: nat, q: Proc): Tale
    requires i < |h.system.procs|
  {
    h.(system := h.system.(procs := h.system.procs[i := q]))
  }

  lemma TellRead(c: Limits, h: Tale, i: nat)
    requires i < |h.system.procs| && !h.system.port.closed && CommandOf(h.system.procs[i]).None?
    ensures var q := h.system.procs[i];
      Tell(c, h, Go(i)) == With(h, i, AfterRead(c, BucketOf(h.system.port, ScopeOf(q)), q))
  {
    hide AfterRead, BucketOf, ScopeOf, CommandOf;
  }

  lemma WithTwice(h: Tale, i: nat, p: Proc, q: Proc)
    requires i < |h.system.procs|
    ensures With(With(h, i, p), i, q) == With(h, i, q)
  {
  }

  /** The three steps after the key has been looked up. */
  lemma ReadsFromPrior(c: Limits, h: Tale, i: nat, a: AppendInput)
    requires i < |h.system.procs| && !h.system.port.closed && h.system.procs[i] == GetPrior(a)
    requires Admissible(c, BucketOf(h.system.port, a.scope), a)
    ensures Tell(c, Tell(c, Tell(c, h, Go(i)), Go(i)), Go(i)) == With(h, i, ApplyAppend(a, None))
  {
    hide Tell, BucketOf, With;
    TellRead(c, h, i);
    var h1 := With(h, i, CheckPrecedence(a, None));
    var h2 := With(h, i, CheckCapacity(a, None));
    WithAt(h, i, CheckPrecedence(a, None));
    WithAt(h, i, CheckCapacity(a, None));
    TellRead(c, h1, i);
    WithTwice(h, i, CheckPrecedence(a, None), CheckCapacity(a, None));
    TellRead(c, h2, i);
    WithTwice(h, i, CheckCapacity(a, None), ApplyAppend(a, None));
  }

  lemma WithAt(h: Tale, i: nat, q: Proc)
    requires i < |h.system.procs|
    ensures var t := With(h, i, q);
      && t.system.port == h.system.port && |t.system.procs| == |h.system.procs| && t.system.procs[i] == q
      && t.requests == h.requests && t.writes == h.writes
      && forall k :: 0 <= k < |h.system.procs| && k != i ==> t.system.procs[k] == h.system.procs[k]
  {
  }

  lemma TellThree(c: Limits, h: Tale, x: Step, y: Step, z: Step)
    ensures TellAll(c, h, [x, y, z]) == Tell(c, Tell(c, Tell(c, h, x), y), z)
  {
    hide Tell;
    assert [x, y, z][1..] == [y, z] && [y, z][1..] == [z] && [z][1..] == [];
    TellOne(c, Tell(c, Tell(c, h, x), y), z);
  }

  lemma ReadsReachApply(c: Limits, h: Tale, i: nat, a: AppendInput)
    requires i < |h.system.procs| && !h.system.port.closed && h.system.procs[i] == StartAppend(a)
    requires Admissible(c, BucketOf(h.system.port, a.scope), a)
    ensures TellAll(c, h, Reads(a, i)) == With(h, i, ApplyAppend(a, None))
  {
    hide Tell, TellAll, BucketOf, With;
    var three := [Go(i), Go(i), Go(i)];
    if a.key.Some? {
      TellRead(c, h, i);
      WithAt(h, i, GetPrior(a));
      var h1 := With(h, i, GetPrior(a));
      TellJoin(c, h, [Go(i)], three);
      TellOne(c, h, Go(i));
      TellThree(c, h1, Go(i), Go(i), Go(i));
      ReadsFromPrior(c, h1, i, a);
      WithTwice(h, i, GetPrior(a), ApplyAppend(a, None));
    } else {
      assert Reads(a, i) == three;
      TellThree(c, h, Go(i), Go(i), Go(i));
      ReadsFromPrior(c, h, i, a);
    }
  }

  // Its first write, and what comes after ---------------------------------------------------------

  lemma TellWrite(c: Limits, h: Tale, i: nat)
    requires i < |h.system.procs| == |h.writes| && !h.system.port.closed && CommandOf(h.system.procs[i]).Some?
    requires var q := h.system.procs[i]; Verdict(BucketOf(h.system.port, ScopeOf(q)), CommandOf(q).value).Applied?
    ensures var q := h.system.procs[i];
      var t := Tell(c, h, Go(i));
      && t.system.procs == h.system.procs[i := AfterApply(q, Applied)]
      && t.system.port.closed == h.system.port.closed && t.requests == h.requests
      && t.writes == h.writes[i := h.writes[i] + 1]
      && BucketOf(t.system.port, ScopeOf(q))
         == Written(BucketOf(h.system.port, ScopeOf(q)), h.system.port.sequence + 1, CommandOf(q).value)
      && t.system.closed == h.system.closed
  {
    hide AfterApply, BucketOf, ScopeOf, CommandOf, Verdict, Written;
    WriteIffApplied(c, h.system, i);
    BucketAfter(h.system.port, ScopeOf(h.system.procs[i]), CommandOf(h.system.procs[i]).value);
  }

  lemma TellSpawn(c: Limits, h: Tale, r: Request)
    requires !h.system.closed
    ensures var t := Tell(c, h, Spawn(r));
      && t.system == h.system.(procs := h.system.procs + [Begin(r)])
      && t.requests == h.requests + [r] && t.writes == h.writes + [0]
  {
    hide Begin;
  }

  /** What a tale needs for more operations to be told. */
  predicate Open(h: Tale) {
    !h.system.closed && !h.system.port.closed && |h.requests| == |h.writes| == |h.system.procs|
  }

  function Bucket0(h: Tale, scope: Id): Bucket {
    BucketOf(h.system.port, scope)
  }

  function AppendCommand(a: AppendInput): Command {
    Command(NewEntry(a, None), None, WasAppended)
  }

  /** Two appends that have both read everything before either of them writes. */
  function BothRead(a: AppendInput, b: AppendInput, n: nat): seq<Step> {
    [Spawn(Append(a)), Spawn(Append(b))] + Reads(a, n) + Reads(b, n + 1)
  }

  lemma TellTwo(c: Limits, h: Tale, x: Step, y: Step)
    ensures TellAll(c, h, [x, y]) == Tell(c, Tell(c, h, x), y)
  {
    hide Tell;
    assert [x, y][1..] == [y];
    TellOne(c, Tell(c, h, x), y);
  }

  lemma BothHaveRead(c: Limits, h: Tale, a: AppendInput, b: AppendInput)
    requires Open(h) && Admissible(c, Bucket0(h, a.scope), a) && Admissible(c, Bucket0(h, b.scope), b)
    ensures var t := TellAll(c, h, BothRead(a, b, |h.writes|));
      && Open(t) && t.system.port == h.system.port
      && t.system.procs == h.system.procs + [ApplyAppend(a, None), ApplyAppend(b, None)]
      && t.requests == h.requests + [Append(a), Append(b)] && t.writes == h.writes + [0, 0]
  {
    hide Tell, TellAll, BucketOf, Admissible, Reads;
    var n := |h.writes|;
    var spawned := [Spawn(Append(a)), Spawn(Append(b))];
    TellSpawn(c, h, Append(a));
    var h1 := Tell(c, h, Spawn(Append(a)));
    TellSpawn(c, h1, Append(b));
    var h2 := Tell(c, h1, Spawn(Append(b)));
    TellTwo(c, h, Spawn(Append(a)), Spawn(Append(b)));
    assert BothRead(a, b, n) == spawned + (Reads(a, n) + Reads(b, n + 1));
    TellJoin(c, h, spawned, Reads(a, n) + Reads(b, n + 1));
    TellJoin(c, h2, Reads(a, n), Reads(b, n + 1));
    ReadsReachApply(c, h2, n, a);
    WithAt(h2, n, ApplyAppend(a, None));
    var h3 := With(h2, n, ApplyAppend(a, None));
    ReadsReachApply(c, h3, n + 1, b);
    WithAt(h3, n + 1, ApplyAppend(b, None));
    var t := With(h3, n + 1, ApplyAppend(b, None));
    assert t.system.procs == h.system.procs + [ApplyAppend(a, None), ApplyAppend(b, None)];
  }

  /** Then both write: neither finds out about the other. */
  lemma BothHaveWritten(c: Limits, h: Tale, a: AppendInput, b: AppendInput)
    requires Open(h) && a.scope == b.scope && a.record.recordId != b.record.recordId
    requires Admissible(c, Bucket0(h, a.scope), a) && Admissible(c, Bucket0(h, b.scope), b)
    ensures var n := |h.writes|;
      var t := TellAll(c, h, BothRead(a, b, n) + [Go(n), Go(n + 1)]);
      && Open(t)
      && t.system.procs == h.system.procs + [AfterApply(ApplyAppend(a, None), Applied),
           AfterApply(ApplyAppend(b, None), Applied)]
      && t.requests == h.requests + [Append(a), Append(b)] && t.writes == h.writes + [1, 1]
      && exists k: nat, m: nat :: Bucket0(t, a.scope)
           == Written(Written(Bucket0(h, a.scope), k, AppendCommand(a)), m, AppendCommand(b))
  {
    hide Tell, TellAll, BucketOf, Reads, BothRead, AfterApply;
    var n := |h.writes|;
    BothHaveRead(c, h, a, b);
    var h1 := TellAll(c, h, BothRead(a, b, n));
    TellJoin(c, h, BothRead(a, b, n), [Go(n), Go(n + 1)]);
    TellTwo(c, h1, Go(n), Go(n + 1));
    TellWrite(c, h1, n);
    var h2 := Tell(c, h1, Go(n));
    TellWrite(c, h2, n + 1);
    var k, m := h1.system.port.sequence + 1, h2.system.port.sequence + 1;
    var t := Tell(c, h2, Go(n + 1));
    assert Bucket0(h2, a.scope) == Written(Bucket0(h, a.scope), k, AppendCommand(a));
    assert Bucket0(t, a.scope) == Written(Written(Bucket0(h, a.scope), k, AppendCommand(a)), m, AppendCommand(b));
  }

  // One append alone ------------------------------------------------------------------------------

  function AppendAlone(a: AppendInput, n: nat): seq<Step> {
    [Spawn(Append(a))] + Reads(a, n) + [Go(n)]
  }

  lemma AppendsAlone(c: Limits, h: Tale, a: AppendInput)
    requires Open(h) && Admissible(c, Bucket0(h, a.scope), a)
    ensures var t := TellAll(c, h, AppendAlone(a, |h.writes|));
      && Open(t)
      && t.system.procs == h.system.procs + [AfterApply(ApplyAppend(a, None), Applied)]
      && t.requests == h.requests + [Append(a)] && t.writes == h.writes + [1]
      && exists k: nat :: Bucket0(t, a.scope) == Written(Bucket0(h, a.scope), k, AppendCommand(a))
  {
    hide Tell, TellAll, BucketOf, Admissible, Reads, AfterApply;
    var n := |h.writes|;
    TellSpawn(c, h, Append(a));
    var h1 := Tell(c, h, Spawn(Append(a)));
    TellOne(c, h, Spawn(Append(a)));
    TellJoin(c, h, [Spawn(Append(a))] + Reads(a, n), [Go(n)]);
    TellJoin(c, h, [Spawn(Append(a))], Reads(a, n));
    ReadsReachApply(c, h1, n, a);
    WithAt(h1, n, ApplyAppend(a, None));
    var h2 := With(h1, n, ApplyAppend(a, None));
    FreshIdIsApplied(c, Bucket0(h, a.scope), a);
    TellWrite(c, h2, n);
    TellOne(c, h2, Go(n));
    var t := Tell(c, h2, Go(n));
    assert t.system.procs == h.system.procs + [AfterApply(ApplyAppend(a, None), Applied)];
    assert Bucket0(t, a.scope) == Written(Bucket0(h, a.scope), h2.system.port.sequence + 1, AppendCommand(a));
  }

  lemma FreshIdIsApplied(c: Limits, b: Bucket, a: AppendInput)
    requires Admissible(c, b, a)
    ensures Verdict(b, AppendCommand(a)).Applied?
  {
  }

  // An append that fails and has stored its record ---------------------------------------------------

  function Plain(scope: Id, id: Id, supersedes: Option<Id>): AppendInput {
    AppendInput(scope, Record(id, OtherVariant, supersedes, None, 0, Withheld), None, false, 0)
  }

  /** An id that is neither of the two. */
  function ThirdId(x: Id, y: Id): Id {
    x + y + 1
  }

  /** The predecessor is appended; a rival and the append both read, both write; the rival marks the predecessor;
      the append finds it marked. */
  function FailingRun(a: AppendInput): seq<Step>
    requires a.record.supersedes.Some?
  {
    AppendAlone(Plain(a.scope, a.record.supersedes.value, None), 0)
    + (BothRead(Rival(a), a, 1) + [Go(1), Go(2)]) + [Go(1), Go(1), Go(2)]
  }

  lemma FirstIsAdmissible(c: Limits, a: AppendInput)
    requires c.maxRecordsPerScope >= 1 && a.record.supersedes.None?
    ensures Admissible(c, EMPTY_BUCKET, a)
  {
  }

  lemma SuccessorIsAdmissible(c: Limits, b: Bucket, first: AppendInput, k: nat, a: AppendInput)
    requires c.maxRecordsPerScope >= 2 && b == Written(EMPTY_BUCKET, k, AppendCommand(first))
    requires first.key.None? && first.record.variant.OtherVariant?
    requires a.record.supersedes == Some(first.record.recordId) && a.record.recordId != first.record.recordId
    ensures Admissible(c, b, a)
  {
    assert b.entries.Keys == {first.record.recordId};
    assert |b.entries| == |b.entries.Keys|;
  }

  /** What the rival's mark and the append's own look at the predecessor make of the store after both have written. */
  lemma MarkAndConflict(c: Limits, h: Tale, x: Id, rival: AppendInput, a: AppendInput)
    requires Open(h) && |h.writes| == 3 && rival.scope == a.scope
    requires rival.record.supersedes == Some(x) && a.record.supersedes == Some(x)
    requires h.system.procs[1] == MarkLoad(rival, NewEntry(rival, None)) && h.system.procs[2]
        == MarkLoad(a, NewEntry(a, None))
    requires var b := Bucket0(h, a.scope);
      && x in b.entries && b.entries[x].record.recordId == x && b.entries[x].supersededBy.None?
      && a.record.recordId in b.entries && a.record.recordId != x
    ensures var t := TellAll(c, h, [Go(1), Go(1), Go(2)]);
      && Open(t) && t.requests == h.requests && t.writes[2] == h.writes[2] && |t.writes| == 3
      && t.system.procs[2] == Finished(a.scope, Err(Conflict))
      && a.record.recordId in Bucket0(t, a.scope).entries
      && Bucket0(t, a.scope).entries[a.record.recordId] == Bucket0(h, a.scope).entries[a.record.recordId]
      && x in Bucket0(t, a.scope).entries
      && Bucket0(t, a.scope).entries[x].supersededBy == Some(rival.record.recordId)
  {
    hide Tell, TellAll, BucketOf;
    var b := Bucket0(h, a.scope);
    TellThree(c, h, Go(1), Go(1), Go(2));
    TellRead(c, h, 1);
    var q := MarkApply(rival, NewEntry(rival, None), b.entries[x]);
    WithAt(h, 1, q);
    var h1 := With(h, 1, q);
    TellWrite(c, h1, 1);
    var h2 := Tell(c, h1, Go(1));
    TellRead(c, h2, 2);
    WithAt(h2, 2, Finished(a.scope, Err(Conflict)));
  }

  function Rival(a: AppendInput): AppendInput
    requires a.record.supersedes.Some?
  {
    Plain(a.scope, ThirdId(a.record.supersedes.value, a.record.recordId), a.record.supersedes)
  }

  /** The predecessor is stored, and both the rival and the append have written their records. */
  lemma RivalsHaveWritten(c: Limits, a: AppendInput)
    requires a.record.supersedes.Some? && !NamesItself(a) && c.maxRecordsPerScope >= 2
    ensures var x := a.record.supersedes.value;
      var first := Plain(a.scope, x, None);
      var h := TellAll(c, OPENING, AppendAlone(first, 0) + (BothRead(Rival(a), a, 1) + [Go(1), Go(2)]));
      var entries := Bucket0(h, a.scope).entries;
      && Open(h) && h.requests == [Append(first), Append(Rival(a)), Append(a)] && h.writes == [1, 1, 1]
      && h.system.procs[1] == MarkLoad(Rival(a), NewEntry(Rival(a), None))
      && h.system.procs[2] == MarkLoad(a, NewEntry(a, None))
      && x in entries && entries[x] == NewEntry(first, None)
      && a.record.recordId in entries && entries[a.record.recordId] == NewEntry(a, None)
  {
    hide Tell, TellAll, BucketOf, BothRead, AppendAlone, Admissible, Written;
    var x := a.record.supersedes.value;
    var first, rival := Plain(a.scope, x, None), Rival(a);
    var alone, both := AppendAlone(first, 0), BothRead(rival, a, 1) + [Go(1), Go(2)];
    TellJoin(c, OPENING, alone, both);
    NothingIsThere(a.scope);
    FirstIsAdmissible(c, first);
    AppendsAlone(c, OPENING, first);
    var h1 := TellAll(c, OPENING, alone);
    var k: nat :| Bucket0(h1, a.scope) == Written(EMPTY_BUCKET, k, AppendCommand(first));
    SuccessorIsAdmissible(c, Bucket0(h1, a.scope), first, k, rival);
    SuccessorIsAdmissible(c, Bucket0(h1, a.scope), first, k, a);
    BothHaveWritten(c, h1, rival, a);
    var h := TellAll(c, h1, both);
    var m: nat, n: nat :|
      Bucket0(h, a.scope) == Written(Written(Bucket0(h1, a.scope), m, AppendCommand(rival)), n, AppendCommand(a));
    StoredByBoth(first, rival, a, k, m, n);
  }

  /** A run in which the append reports a conflict and has stored its record. */
  lemma FailingRunFails(c: Limits, a: AppendInput)
    requires a.record.supersedes.Some? && !NamesItself(a) && c.maxRecordsPerScope >= 2
    ensures var h := TaleOf(c, FailingRun(a));
      var entries := Bucket0(h, a.scope).entries;
      && Open(h) && |h.writes| == 3 && h.requests[2] == Append(a) && h.writes[2] == 1
      && h.system.procs[2] == Finished(a.scope, Err(Conflict))
      && a.record.recordId in entries && entries[a.record.recordId].record == a.record
      && a.record.supersedes.value in entries
      && entries[a.record.supersedes.value].supersededBy == Some(Rival(a).record.recordId)
  {
    hide Tell, TellAll, BucketOf, BothRead, AppendAlone;
    var first := Plain(a.scope, a.record.supersedes.value, None);
    var steps := AppendAlone(first, 0) + (BothRead(Rival(a), a, 1) + [Go(1), Go(2)]);
    RivalsHaveWritten(c, a);
    TellJoin(c, OPENING, steps, [Go(1), Go(1), Go(2)]);
    MarkAndConflict(c, TellAll(c, OPENING, steps), a.record.supersedes.value, Rival(a), a);
  }

  lemma StoredByBoth(first: AppendInput, rival: AppendInput, a: AppendInput, k: nat, m: nat, n: nat)
    requires first.record.recordId != rival.record.recordId && first.record.recordId != a.record.recordId
    ensures var b := Written(Written(Written(EMPTY_BUCKET, k, AppendCommand(first)), m, AppendCommand(rival)), n,
        AppendCommand(a));
      && first.record.recordId in b.entries && b.entries[first.record.recordId] == NewEntry(first, None)
      && a.record.recordId in b.entries && b.entries[a.record.recordId] == NewEntry(a, None)
  {
  }

  lemma NothingIsThere(scope: Id)
    ensures BucketOf(OPENING.system.port, scope) == EMPTY_BUCKET
  {
  }

  /** In some run, an append with this input reports an error and has written. */
  ghost predicate CanFailStored(c: Limits, a: AppendInput) {
    exists steps: seq<Step>, i: nat :: FailsHalfway(c, steps, i, Append(a))
  }

  /** In this run, request `i` is this one, reports an error, and has written. */
  ghost predicate FailsHalfway(c: Limits, steps: seq<Step>, i: nat, r: Request) {
    var h := TaleOf(c, steps);
    && i < |h.writes| && h.requests[i] == r && h.writes[i] >= 1
    && h.system.procs[i].Finished? && h.system.procs[i].result.Err?
  }

  // Room for a second record ------------------------------------------------------------------------

  predicate RoomKnown(c: Limits, b: Bucket, q: Proc) {
    && (q.CheckCapacity? && q.a.record.supersedes.Some? ==> q.a.record.supersedes.value in b.entries)
    && (q.ApplyAppend? && q.a.record.supersedes.Some? ==> c.maxRecordsPerScope >= 2)
  }

  predicate NamesSomebody(r: Request) {
    Appends(r) && AppendOf(r).record.supersedes.Some?
  }

  ghost predicate RoomInv(c: Limits, h: Tale) {
    && AllAccounted(h) && Inv(h.system)
    && (!h.system.port.closed ==> forall i :: 0 <= i < |h.writes| ==>
          RoomKnown(c, BucketOf(h.system.port, ScopeOf(h.system.procs[i])), h.system.procs[i]))
    && forall i :: 0 <= i < |h.writes| && h.writes[i] >= 1 && NamesSomebody(h.requests[i]) ==> c.maxRecordsPerScope >= 2
  }

  lemma ReadKnowsRoom(c: Limits, b: Bucket, q: Proc)
    requires RoomKnown(c, b, q)
    ensures RoomKnown(c, b, AfterRead(c, b, q))
  {
    if q.CheckCapacity? && q.a.record.supersedes.Some? {
      assert q.a.record.supersedes.value in b.entries.Keys;
      assert |b.entries| == |b.entries.Keys| >= 1;
    }
  }

  lemma RoomOfOthers(c: Limits, b: Bucket, t: Bucket, q: Proc)
    requires RoomKnown(c, b, q) && Extends(b, t)
    ensures RoomKnown(c, t, q)
  {
  }

  lemma ApplyKnowsRoom(c: Limits, b: Bucket, q: Proc, outcome: Outcome)
    requires CommandOf(q).Some?
    ensures RoomKnown(c, b, AfterApply(q, outcome))
  {
  }

  lemma ClosedStaysClosed(c: Limits, h: Tale, step: Step, i: nat)
    requires h.system.port.closed && i < |h.writes| && |h.writes| == |h.system.procs|
    ensures Tell(c, h, step).system.port.closed && Tell(c, h, step).writes[i] == h.writes[i]
  {
    hide GoClosed, Begin;
  }

  lemma StepKeepsRoom(c: Limits, h: Tale, step: Step)
    requires RoomInv(c, h)
    ensures RoomInv(c, Tell(c, h, step))
  {
    hide Accounted, Inv, BucketOf, ScopeOf, RoomKnown, IsWrite, Next, NamesSomebody, PortExtends;
    StepIsAccounted(c, h, step);
    StepKeepsInv(c, h.system, step);
    var t := Tell(c, h, step);
    if h.system.port.closed {
      forall i | 0 <= i < |t.writes| ensures t.writes[i] == if i < |h.writes| then h.writes[i] else 0 {
        if i < |h.writes| {
          ClosedStaysClosed(c, h, step, i);
        }
      }
      ClosedStays(c, h.system, step);
    } else {
      forall i | 0 <= i < |t.writes| && t.writes[i] >= 1 && NamesSomebody(t.requests[i])
        ensures c.maxRecordsPerScope >= 2
      {
        if h.writes[i] == 0 {
          WriteNeedsRoom(c, h, i);
        }
      }
      if !t.system.port.closed {
        forall i | 0 <= i < |t.writes|
          ensures RoomKnown(c, BucketOf(t.system.port, ScopeOf(t.system.procs[i])), t.system.procs[i])
        {
          if i < |h.writes| {
            RoomAfter(c, h.system, step, i);
          } else {
            RoomAtBegin(c, h.system, step);
          }
        }
      }
    }
  }

  lemma WriteNeedsRoom(c: Limits, h: Tale, i: nat)
    requires RoomInv(c, h) && !h.system.port.closed && i < |h.writes| && h.writes[i] == 0
    requires NamesSomebody(h.requests[i]) && IsWrite(c, h.system, Go(i))
    ensures c.maxRecordsPerScope >= 2
  {
    hide Inv, BucketOf, ScopeOf, Verdict, DoGo;
    var q := h.system.procs[i];
    assert Accounted(h.requests[i], q, 0);
    assert RoomKnown(c, BucketOf(h.system.port, ScopeOf(q)), q);
    WriteIffApplied(c, h.system, i);
    FirstWrite(h.requests[i], q);
  }

  lemma RoomAfter(c: Limits, s: System, step: Step, i: nat)
    requires Inv(s) && !s.port.closed && i < |s.procs| && !Next(c, s, step).port.closed
    requires RoomKnown(c, BucketOf(s.port, ScopeOf(s.procs[i])), s.procs[i])
    ensures var t := Next(c, s, step);
      i < |t.procs| && RoomKnown(c, BucketOf(t.port, ScopeOf(t.procs[i])), t.procs[i])
  {
    hide Inv, BucketOf, ScopeOf, RoomKnown, DoGo, Extends, LocalsOk, PortOk;
    var q := s.procs[i];
    var t := Next(c, s, step);
    if step.Go? && step.proc == i {
      GoKnowsRoom(c, s, i);
    } else if step.Abort? && step.proc == i && !q.Finished? {
      FinishedKnowsRoom(c, BucketOf(t.port, ScopeOf(t.procs[i])), t.procs[i]);
    } else {
      StepExtends(c, s, step);
      if step.Go? && step.proc < |s.procs| {
        OthersStay(c, s, step.proc);
      }
      assert t.procs[i] == q;
      RoomOfOthers(c, BucketOf(s.port, ScopeOf(q)), BucketOf(t.port, ScopeOf(q)), q);
    }
  }

  lemma GoKnowsRoom(c: Limits, s: System, i: nat)
    requires Inv(s) && !s.port.closed && i < |s.procs|
    requires RoomKnown(c, BucketOf(s.port, ScopeOf(s.procs[i])), s.procs[i])
    ensures var t := DoGo(c, s, i);
      i < |t.procs| && RoomKnown(c, BucketOf(t.port, ScopeOf(t.procs[i])), t.procs[i])
  {
    hide BucketOf, ScopeOf, RoomKnown, AfterRead, AfterApply, CommandOf, Verdict, Applying, LocalsOk, PortOk, Journaled;
    var q := s.procs[i];
    var b := BucketOf(s.port, ScopeOf(q));
    assert LocalsOk(b, q);
    if CommandOf(q).Some? {
      ApplyKnowsRoom(c, BucketOf(DoGo(c, s, i).port, ScopeOf(DoGo(c, s, i).procs[i])), q,
          Verdict(b, CommandOf(q).value));
    } else {
      BucketJournaled(s.port, ScopeOf(q));
      FiledWhenJournaled(b, s.port.sequence);
      ReadKeepsLocals(c, b, q);
      ReadKnowsRoom(c, b, q);
    }
  }

  lemma FinishedKnowsRoom(c: Limits, b: Bucket, q: Proc)
    requires q.Finished?
    ensures RoomKnown(c, b, q)
  {
  }

  lemma RoomAtBegin(c: Limits, s: System, step: Step)
    requires step.Spawn?
    ensures var t := Next(c, s, step);
      |t.procs| == |s.procs| + 1 && RoomKnown(c, BucketOf(t.port, ScopeOf(t.procs[|s.procs|])), t.procs[|s.procs|])
  {
    hide BucketOf, ScopeOf;
  }

  lemma {:induction false} RunKeepsRoom(c: Limits, h: Tale, steps: seq<Step>)
    requires RoomInv(c, h)
    ensures RoomInv(c, TellAll(c, h, steps))
    decreases |steps|
  {
    hide RoomInv, Tell;
    if steps != [] {
      StepKeepsRoom(c, h, steps[0]);
      RunKeepsRoom(c, Tell(c, h, steps[0]), steps[1..]);
    }
  }

  lemma RoomAtStart(c: Limits)
    ensures RoomInv(c, OPENING)
  {
  }

  /** Exactly when a failing append can leave its record behind: it names a predecessor other than itself, and a scope
      has room for the two of them. In every other case an append that reports an error has written nothing. */
  lemma CanFailStoredIff(c: Limits, a: AppendInput)
    ensures CanFailStored(c, a) <==> a.record.supersedes.Some? && !NamesItself(a) && c.maxRecordsPerScope >= 2
  {
    hide TellAll, RoomInv;
    if a.record.supersedes.Some? && !NamesItself(a) && c.maxRecordsPerScope >= 2 {
      FailingRunFails(c, a);
      assert FailsHalfway(c, FailingRun(a), 2, Append(a));
    }
    if CanFailStored(c, a) {
      var steps: seq<Step>, i: nat :| FailsHalfway(c, steps, i, Append(a));
      FailureNeedsPredecessor(c, steps, i, a);
    }
  }

  lemma FailureNeedsPredecessor(c: Limits, steps: seq<Step>, i: nat, a: AppendInput)
    requires FailsHalfway(c, steps, i, Append(a))
    ensures a.record.supersedes.Some? && !NamesItself(a) && c.maxRecordsPerScope >= 2
  {
    hide TellAll, Inv, RoomKnown;
    var h := TaleOf(c, steps);
    assert Accounted(h.requests[i], h.system.procs[i], h.writes[i]);
    RoomAtStart(c);
    RunKeepsRoom(c, OPENING, steps);
    assert NamesSomebody(h.requests[i]);
  }

  /** The audit of the second change of an append can fail when the first is already made. */
  lemma FailedAuditExample(c: Limits, a: AppendInput, e: Error)
    requires a.record.supersedes.Some? && !NamesItself(a) && c.maxRecordsPerScope >= 2
    ensures exists steps: seq<Step> :: (
      var h := TaleOf(c, steps);
      var t := TaleOf(c, steps + [Abort(2, e)]);
      && |h.writes| == 3 && h.system.procs[2].MarkApply? && |t.writes| == 3
      && t.system.procs[2] == Finished(a.scope, Err(e)) && t.writes[2] == 1 && t.requests[2] == Append(a))
  {
    hide Tell, TellAll, BucketOf, BothRead, AppendAlone;
    var first := Plain(a.scope, a.record.supersedes.value, None);
    var before := AppendAlone(first, 0) + (BothRead(Rival(a), a, 1) + [Go(1), Go(2)]);
    RivalsHaveWritten(c, a);
    var h := TellAll(c, OPENING, before);
    TellRead(c, h, 2);
    var q := MarkApply(a, NewEntry(a, None), Bucket0(h, a.scope).entries[a.record.supersedes.value]);
    WithAt(h, 2, q);
    TellJoin(c, OPENING, before, [Go(2)]);
    TellOne(c, h, Go(2));
    FailedAuditIff(c, before + [Go(2)], 2, e);
    TellJoin(c, OPENING, before + [Go(2)], [Abort(2, e)]);
    TellOne(c, With(h, 2, q), Abort(2, e));
    AbortTells(c, With(h, 2, q), 2, e);
  }

  lemma AbortTells(c: Limits, h: Tale, i: nat, e: Error)
    ensures Tell(c, h, Abort(i, e)).requests == h.requests
  {
  }

  // Chains made by direct appends ------------------------------------------------------------------------

  function Link(scope: Id, id: Id): AppendInput {
    Plain(scope, id, if id == 0 then None else Some(id - 1))
  }

  /** Appends records 0, 1, ..., n - 1, each naming the one before. */
  function DirectRun(scope: Id, n: nat): seq<Step> {
    if n == 0 then [] else DirectRun(scope, n - 1) + AppendAlone(Link(scope, n - 1), n - 1)
  }

  ghost predicate DirectStore(b: Bucket, scope: Id, n: nat) {
    && (forall id: Id :: id in b.entries <==> id < n)
    && (forall id: Id :: id < n ==> b.entries[id] == NewEntry(Link(scope, id), None))
    && |b.entries| == n
  }

  lemma {:induction false} DirectRunStores(c: Limits, scope: Id, n: nat)
    requires n <= c.maxRecordsPerScope
    ensures var h := TellAll(c, OPENING, DirectRun(scope, n));
      Open(h) && |h.writes| == n && DirectStore(Bucket0(h, scope), scope, n)
    ensures forall i :: 0 <= i < |DirectRun(scope, n)| ==> WithoutResurrection(DirectRun(scope, n)[i])
  {
    hide Tell, TellAll, BucketOf, Admissible, Written, DirectStore, AppendAlone, Open;
    if n == 0 {
      NothingIsThere(scope);
      assert TellAll(c, OPENING, []) == OPENING by { TellNothing(c, OPENING); }
      EmptyIsDirect(scope);
    } else {
      DirectRunStores(c, scope, n - 1);
      var h := TellAll(c, OPENING, DirectRun(scope, n - 1));
      TellJoin(c, OPENING, DirectRun(scope, n - 1), AppendAlone(Link(scope, n - 1), n - 1));
      LinkIsAdmissible(c, Bucket0(h, scope), scope, n - 1);
      AppendsAlone(c, h, Link(scope, n - 1));
      var t := TellAll(c, h, AppendAlone(Link(scope, n - 1), n - 1));
      var k: nat :| Bucket0(t, scope) == Written(Bucket0(h, scope), k, AppendCommand(Link(scope, n - 1)));
      DirectGrows(Bucket0(h, scope), scope, n - 1, k);
      AppendAloneIsPlain(Link(scope, n - 1), n - 1);
    }
  }

  lemma TellNothing(c: Limits, h: Tale)
    ensures TellAll(c, h, []) == h
  {
  }

  lemma EmptyIsDirect(scope: Id)
    ensures DirectStore(EMPTY_BUCKET, scope, 0) && Open(OPENING)
  {
  }

  lemma LinkIsAdmissible(c: Limits, b: Bucket, scope: Id, n: nat)
    requires DirectStore(b, scope, n) && n < c.maxRecordsPerScope
    ensures Admissible(c, b, Link(scope, n))
  {
  }

  lemma DirectGrows(b: Bucket, scope: Id, n: nat, k: nat)
    requires DirectStore(b, scope, n)
    ensures DirectStore(Written(b, k, AppendCommand(Link(scope, n))), scope, n + 1)
  {
    var e := NewEntry(Link(scope, n), None);
    var t := Written(b, k, AppendCommand(Link(scope, n)));
    assert t.entries == b.entries[n := e];
    hide Written, AppendCommand, NewEntry, Link;
    OneMore(b.entries, n, e);
  }

  lemma OneMore(m: map<Id, Entry>, id: Id, e: Entry)
    requires id !in m
    ensures |m[id := e]| == |m| + 1
  {
    assert m[id := e].Keys == m.Keys + {id};
  }

  lemma AppendAloneIsPlain(a: AppendInput, n: nat)
    requires !a.resurrection
    ensures forall i :: 0 <= i < |AppendAlone(a, n)| ==> WithoutResurrection(AppendAlone(a, n)[i])
  {
  }

  lemma {:induction false} DirectChain(b: Bucket, scope: Id, n: nat, id: Id)
    requires DirectStore(b, scope, n) && id < n && Linked(b)
    ensures ChainLength(b, id) == id + 1
    decreases id
  {
    hide Linked;
    if id > 0 {
      DirectChain(b, scope, n, id - 1);
      ChainStep(b, id);
    }
  }

  lemma LinkedAfter(c: Limits, steps: seq<Step>, scope: Id)
    requires forall i :: 0 <= i < |steps| ==> WithoutResurrection(steps[i])
    ensures !TaleOf(c, steps).system.port.closed ==> Linked(Bucket0(TaleOf(c, steps), scope))
  {
    hide TellAll, BucketOf, Linked, RecordsStored, LinksAuthored, SupersedesShallow, Inv, AllKnown;
    HistoryOf(c, steps);
  }

  predicate Plainly(steps: seq<Step>) {
    forall i :: 0 <= i < |steps| ==> WithoutResurrection(steps[i])
  }

  ghost predicate HasChain(c: Limits, steps: seq<Step>, scope: Id, id: Id, n: nat) {
    var b := Bucket0(TaleOf(c, steps), scope);
    && !TaleOf(c, steps).system.port.closed
    && Linked(b) && id in b.entries && ChainLength(b, id) == n
  }

  /** Direct appends are not measured: they make chains of any length a scope has room for, whatever the limit. */
  lemma DirectAppendsIgnoreLimit(c: Limits, scope: Id, n: nat)
    requires 1 <= n <= c.maxRecordsPerScope
    ensures exists steps: seq<Step> :: Plainly(steps) && HasChain(c, steps, scope, n - 1, n)
  {
    hide Tell, TellAll, BucketOf, Linked, DirectStore;
    var steps := DirectRun(scope, n);
    DirectRunStores(c, scope, n);
    LinkedAfter(c, steps, scope);
    DirectChain(Bucket0(TaleOf(c, steps), scope), scope, n, n - 1);
    InDirectStore(Bucket0(TaleOf(c, steps), scope), scope, n);
    assert Plainly(steps) && HasChain(c, steps, scope, n - 1, n);
  }

  lemma InDirectStore(b: Bucket, scope: Id, n: nat)
    requires DirectStore(b, scope, n) && n >= 1
    ensures n - 1 in b.entries
  {
  }
}
