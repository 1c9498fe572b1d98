/** Which operations of the memory store can report an error half-way, with the first of their two changes made
    (packages/memory/src/store.ts).
 */
module MemoryHalves {
  import opened Basics
  import opened MemoryStore
  import opened MemoryJournal
  import opened MemoryOutcomes
  import opened MemoryRaces

  /** In some run this request, or the same one with another expected version, reports an error and has written. */
  ghost predicate CanFailHalfway(c: Limits, r: Request) {
    exists steps: seq<Step>, i: nat, version: nat :: FailsHalfway(c, steps, i, Expecting(r, version))
  }

  function Expecting(r: Request, version: nat): Request {
    match r
    case Append(_) => r
    case Supersede(s) => Supersede(s.(expectedVersion := version))
    case Tombstone(t) => Tombstone(t.(expectedVersion := version))
    case Decide(d) => Decide(d.(expectedVersion := version))
  }

  /** What the request and the limits must be like for that. */
  predicate MayFailHalfway(c: Limits, r: Request) {
    match r
    case Append(a) => a.record.supersedes.Some? && !NamesItself(a) && c.maxRecordsPerScope >= 2
    case Supersede(s) => Handed(c, s) && !NamesItself(Replacement(s)) && c.maxRecordsPerScope >= 2
    case Tombstone(t) => t.markerId != t.recordId && c.maxRecordsPerScope >= 1
    case Decide(_) => false
  }

  /** A `supersede` can get as far as its append. */
  predicate Handed(c: Limits, s: SupersedeInput) {
    c.maxSupersessionChainDepth >= 2 && (s.isSealed ==> s.replacement.supersedes == Some(s.superseded))
  }

  // Only these -----------------------------------------------------------------------------------------

  predicate InAppend(q: Proc) {
    || q.FindKey? || q.GetPrior? || q.CheckPrecedence? || q.CheckCapacity? || q.ApplyAppend? || q.MarkLoad?
    || q.MarkApply?
  }

  predicate HalfKnown(c: Limits, r: Request, q: Proc) {
    && (InAppend(q) && r.Supersede? ==> Handed(c, r.supersede))
    && (q.MeasureDepth? && q.depth == 0 ==> q.current.Some? && q.seen == {})
    && (q.TombstoneMark? ==> q.target.record.recordId == q.t.recordId)
    && (q.ApplyAppend? ==> c.maxRecordsPerScope >= 1)
  }

  predicate HalfWritten(c: Limits, r: Request) {
    && (r.Supersede? ==> Handed(c, r.supersede))
    && (r.Tombstone? ==> r.tombstone.markerId != r.tombstone.recordId && c.maxRecordsPerScope >= 1)
  }

  ghost predicate HalfInv(c: Limits, h: Tale) {
    && RoomInv(c, h)
    && (!h.system.port.closed ==> forall scope: Id :: Roomy(c, BucketOf(h.system.port, scope)))
    && (forall i :: 0 <= i < |h.writes| ==> HalfKnown(c, h.requests[i], h.system.procs[i]))
    && (forall i :: 0 <= i < |h.writes| && h.writes[i] >= 1 ==> HalfWritten(c, h.requests[i]))
  }

  predicate Roomy(c: Limits, b: Bucket) {
    b.entries != map[] ==> c.maxRecordsPerScope >= 1
  }

  lemma ReadKnowsHalf(c: Limits, b: Bucket, r: Request, q: Proc, writes: nat)
    requires HalfKnown(c, r, q) && Accounted(r, q, writes) && Filed(b)
    ensures HalfKnown(c, r, AfterRead(c, b, q))
  {
  }

  lemma ClosedKnowsHalf(c: Limits, r: Request, q: Proc, writes: nat)
    requires HalfKnown(c, r, q) && Accounted(r, q, writes)
    ensures HalfKnown(c, r, GoClosed(c, q))
  {
    hide AfterRead;
    ReadKnowsHalf(c, EMPTY_BUCKET, r, q, writes);
  }

  lemma ApplyKnowsHalf(c: Limits, r: Request, q: Proc, outcome: Outcome)
    requires HalfKnown(c, r, q) && CommandOf(q).Some?
    ensures HalfKnown(c, r, AfterApply(q, outcome))
  {
  }

  /** The first write of a `supersede` or a `tombstone`. */
  lemma FirstHalf(c: Limits, b: Bucket, r: Request, q: Proc)
    requires HalfKnown(c, r, q) && Accounted(r, q, 0) && LocalsOk(b, q) && Roomy(c, b)
    requires CommandOf(q).Some? && Verdict(b, CommandOf(q).value).Applied?
    ensures HalfWritten(c, r)
  {
  }

  lemma WriteNeedsRecords(c: Limits, b: Bucket, sequence: nat, r: Request, q: Proc)
    requires HalfKnown(c, r, q) && LocalsOk(b, q) && Roomy(c, b) && CommandOf(q).Some?
    ensures Roomy(c, Written(b, sequence, CommandOf(q).value))
  {
  }

  lemma GoKnowsHalf(c: Limits, h: Tale, i: nat)
    requires HalfInv(c, h) && i < |h.writes|
    ensures HalfKnown(c, h.requests[i], DoGo(c, h.system, i).procs[i])
    ensures IsWrite(c, h.system, Go(i)) && h.writes[i] == 0 ==> HalfWritten(c, h.requests[i])
  {
    hide Accounted, BucketOf, ScopeOf, CommandOf, Verdict, AfterRead, AfterApply, GoClosed, Applying, LocalsOk, PortOk,
         HalfKnown, HalfWritten, RoomKnown, NamesSomebody, Roomy, Filed, Journaled;
    var q := h.system.procs[i];
    var b := BucketOf(h.system.port, ScopeOf(q));
    assert HalfKnown(c, h.requests[i], q) && Accounted(h.requests[i], q, h.writes[i]);
    WriteIffApplied(c, h.system, i);
    if h.system.port.closed {
      ClosedKnowsHalf(c, h.requests[i], q, h.writes[i]);
    } else {
      assert LocalsOk(b, q) && Roomy(c, b);
      BucketJournaled(h.system.port, ScopeOf(q));
      FiledWhenJournaled(b, h.system.port.sequence);
      if CommandOf(q).Some? {
        ApplyKnowsHalf(c, h.requests[i], q, Verdict(b, CommandOf(q).value));
        if Verdict(b, CommandOf(q).value).Applied? && h.writes[i] == 0 {
          FirstHalf(c, b, h.requests[i], q);
        }
      } else {
        ReadKnowsHalf(c, b, h.requests[i], q, h.writes[i]);
      }
    }
  }

  lemma GoKeepsRoomy(c: Limits, h: Tale, i: nat, scope: Id)
    requires HalfInv(c, h) && !h.system.port.closed && i < |h.writes| && IsWrite(c, h.system, Go(i))
    ensures Roomy(c, BucketOf(DoGo(c, h.system, i).port, scope))
  {
    hide BucketOf, ScopeOf, CommandOf, Verdict, DoGo, LocalsOk, PortOk, HalfKnown, HalfWritten, RoomKnown, Written,
         Roomy, IsWrite, Accounted;
    var q := h.system.procs[i];
    var b := BucketOf(h.system.port, ScopeOf(q));
    assert HalfKnown(c, h.requests[i], q) && LocalsOk(b, q) && Roomy(c, b);
    BucketWritten(c, h.system, i);
    WriteNeedsRecords(c, b, h.system.port.sequence + 1, h.requests[i], q);
  }

  lemma StepKeepsHalf(c: Limits, h: Tale, step: Step)
    requires HalfInv(c, h)
    ensures HalfInv(c, Tell(c, h, step))
  {
    hide BucketOf, IsWrite, Next, HalfKnown, HalfWritten, Roomy, RoomInv;
    StepKeepsRoom(c, h, step);
    assert AllAccounted(h) && AllAccounted(Tell(c, h, step)) by {
      RoomIsAccounted(c, h);
      RoomIsAccounted(c, Tell(c, h, step));
    }
    var t := Tell(c, h, step);
    forall i | 0 <= i < |t.writes| ensures HalfKnown(c, t.requests[i], t.system.procs[i]) {
      if i == |h.writes| {
        BeginKnowsHalf(c, h.system, step);
      } else if step.Go? && step.proc == i {
        GoIsNext(c, h.system, i);
        GoKnowsHalf(c, h, i);
      } else {
        OthersKnowHalf(c, h.system, step, i, h.requests[i]);
      }
    }
    forall i | 0 <= i < |t.writes| && t.writes[i] >= 1 ensures HalfWritten(c, t.requests[i]) {
      if h.writes[i] == 0 {
        GoKnowsHalf(c, h, i);
      }
    }
    if !t.system.port.closed {
      OpenBefore(c, h.system, step);
      forall scope: Id ensures Roomy(c, BucketOf(t.system.port, scope)) {
        if IsWrite(c, h.system, step) {
          WritesByProc(c, h.system, step);
          GoIsNext(c, h.system, step.proc);
          GoKeepsRoomy(c, h, step.proc, scope);
        } else {
          OnlyWritesChange(c, h.system, step);
        }
      }
    }
  }

  lemma RoomIsAccounted(c: Limits, h: Tale)
    requires RoomInv(c, h)
    ensures AllAccounted(h)
  {
  }

  lemma BeginKnowsHalf(c: Limits, s: System, step: Step)
    requires step.Spawn?
    ensures var t := Next(c, s, step);
      |t.procs| == |s.procs| + 1 && HalfKnown(c, step.request, t.procs[|s.procs|])
  {
  }

  lemma OthersKnowHalf(c: Limits, s: System, step: Step, i: nat, r: Request)
    requires i < |s.procs| && HalfKnown(c, r, s.procs[i]) && !(step.Go? && step.proc == i)
    ensures i < |Next(c, s, step).procs| && HalfKnown(c, r, Next(c, s, step).procs[i])
  {
    hide DoGo;
    if step.Go? && step.proc < |s.procs| {
      OthersStay(c, s, step.proc);
    }
  }

  lemma {:induction false} RunKeepsHalf(c: Limits, h: Tale, steps: seq<Step>)
    requires HalfInv(c, h)
    ensures HalfInv(c, TellAll(c, h, steps))
    decreases |steps|
  {
    hide HalfInv, Tell;
    if steps != [] {
      StepKeepsHalf(c, h, steps[0]);
      RunKeepsHalf(c, Tell(c, h, steps[0]), steps[1..]);
    }
  }

  lemma HalfAtStart(c: Limits)
    ensures HalfInv(c, OPENING)
  {
    RoomAtStart(c);
  }

  lemma FailureMay(c: Limits, steps: seq<Step>, i: nat, r: Request)
    requires FailsHalfway(c, steps, i, r)
    ensures MayFailHalfway(c, r)
  {
    hide TellAll, Inv, RoomKnown, HalfKnown, Roomy;
    var h := TaleOf(c, steps);
    assert Accounted(h.requests[i], h.system.procs[i], h.writes[i]);
    HalfAtStart(c);
    RunKeepsHalf(c, OPENING, steps);
    assert HalfWritten(c, h.requests[i]);
    assert r.Append? || r.Supersede? ==> NamesSomebody(h.requests[i]);
  }

  // And all of them --------------------------------------------------------------------------------------

  /** Half-way through a deletion: the marker is written, the record not yet. */
  lemma DeletionFails(c: Limits, t: TombstoneInput)
    requires t.expectedVersion == 1 && t.markerId != t.recordId && c.maxRecordsPerScope >= 1
    ensures exists steps: seq<Step> :: FailsHalfway(c, steps, 1, Tombstone(t))
  {
    hide Tell, TellAll, BucketOf, AppendAlone, Admissible;
    var x := Plain(t.scope, t.recordId, None);
    var first := AppendAlone(x, 0);
    NothingIsThere(t.scope);
    FirstIsAdmissible(c, x);
    AppendsAlone(c, OPENING, x);
    var h := TellAll(c, OPENING, first);
    var k: nat :| Bucket0(h, t.scope) == Written(EMPTY_BUCKET, k, AppendCommand(x));
    var e := Bucket0(h, t.scope).entries[t.recordId];
    var rest := [Spawn(Tombstone(t)), Go(1), Go(1), Abort(1, StoreFailure)];
    TellFour(c, h, rest[0], rest[1], rest[2], rest[3]);
    TellSpawn(c, h, Tombstone(t));
    var h1 := Tell(c, h, rest[0]);
    TellRead(c, h1, 1);
    WithAt(h1, 1, TombstoneMark(t, e));
    var h2 := With(h1, 1, TombstoneMark(t, e));
    TellWrite(c, h2, 1);
    var h3 := Tell(c, h2, Go(1));
    TellAbort(c, h3, 1, StoreFailure);
    TellJoin(c, OPENING, first, rest);
    assert FailsHalfway(c, first + rest, 1, Tombstone(t));
  }

  lemma TellFour(c: Limits, h: Tale, w: Step, x: Step, y: Step, z: Step)
    ensures TellAll(c, h, [w, x, y, z]) == Tell(c, Tell(c, Tell(c, Tell(c, h, w), x), y), z)
  {
    hide Tell;
    assert [w, x, y, z] == [w] + [x, y, z];
    TellJoin(c, h, [w], [x, y, z]);
    TellOne(c, h, w);
    TellThree(c, Tell(c, h, w), x, y, z);
  }

  lemma TellAbort(c: Limits, h: Tale, i: nat, e: Error)
    requires Open(h) && i < |h.writes| && !h.system.procs[i].Finished?
    ensures var t := Tell(c, h, Abort(i, e));
      && t.system.procs == h.system.procs[i := Failing(h.system.procs[i], e)] && t.system.port == h.system.port
      && t.requests == h.requests && t.writes == h.writes
  {
    hide Failing;
  }

  /** The steps of a `supersede` of a record without predecessor up to its append. */
  lemma MeasuresToAppend(c: Limits, h: Tale, s: SupersedeInput, e: Entry)
    requires Open(h) && |h.writes| == 2 && h.system.procs[1] == SupersedeLoad(s)
    requires Handed(c, s) && !NamesItself(Replacement(s))
    requires s.superseded in Bucket0(h, s.scope).entries && Bucket0(h, s.scope).entries[s.superseded] == e
    requires e.version == s.expectedVersion && e.tombstonedAt.None? && e.supersededBy.None?
    requires e.record.recordId == s.superseded && e.record.supersedes.None?
    ensures TellAll(c, h, [Go(1), Go(1), Go(1)]) == With(h, 1, StartAppend(Replacement(s)))
  {
    hide Tell, BucketOf, With;
    var b := Bucket0(h, s.scope);
    var q1 := MeasureDepth(s, e, 0, Some(s.superseded), {});
    var q2 := MeasureDepth(s, e, 1, None, {} + {s.superseded});
    TellThree(c, h, Go(1), Go(1), Go(1));
    TellRead(c, h, 1);
    WithAt(h, 1, q1);
    var h1 := With(h, 1, q1);
    TellRead(c, h1, 1);
    WithTwice(h, 1, q1, q2);
    WithAt(h, 1, q2);
    TellRead(c, With(h, 1, q2), 1);
    WithTwice(h, 1, q2, StartAppend(Replacement(s)));
  }

  /** Half-way through a `supersede`: the replacement is stored, its predecessor not yet marked. */
  lemma SupersessionFails(c: Limits, s: SupersedeInput)
    requires s.expectedVersion == 1 && Handed(c, s) && !NamesItself(Replacement(s)) && c.maxRecordsPerScope >= 2
    ensures exists steps: seq<Step> :: FailsHalfway(c, steps, 1, Supersede(s))
  {
    hide Tell, TellAll, BucketOf, AppendAlone, Admissible, Reads, StartAppend, Written;
    var x := Plain(s.scope, s.superseded, None);
    var a := Replacement(s);
    var first := AppendAlone(x, 0);
    NothingIsThere(s.scope);
    FirstIsAdmissible(c, x);
    AppendsAlone(c, OPENING, x);
    var h := TellAll(c, OPENING, first);
    var k: nat :| Bucket0(h, s.scope) == Written(EMPTY_BUCKET, k, AppendCommand(x));
    FirstIsStored(x, k);
    SuccessorIsAdmissible(c, Bucket0(h, s.scope), x, k, a);
    TellSpawn(c, h, Supersede(s));
    var h1 := Tell(c, h, Spawn(Supersede(s)));
    MeasuresToAppend(c, h1, s, NewEntry(x, None));
    WithAt(h1, 1, StartAppend(a));
    var h2 := With(h1, 1, StartAppend(a));
    ReadsReachApply(c, h2, 1, a);
    WithTwice(h1, 1, StartAppend(a), ApplyAppend(a, None));
    WithAt(h1, 1, ApplyAppend(a, None));
    var h3 := With(h1, 1, ApplyAppend(a, None));
    FreshIdIsApplied(c, Bucket0(h, s.scope), a);
    TellWrite(c, h3, 1);
    var h4 := Tell(c, h3, Go(1));
    TellAbort(c, h4, 1, StoreFailure);
    var steps := first + [Spawn(Supersede(s))] + [Go(1), Go(1), Go(1)] + Reads(a, 1) + [Go(1), Abort(1, StoreFailure)];
    TellJoin(c, OPENING, first + [Spawn(Supersede(s))] + [Go(1), Go(1), Go(1)] + Reads(a, 1),
             [Go(1), Abort(1, StoreFailure)]);
    TellJoin(c, OPENING, first + [Spawn(Supersede(s))] + [Go(1), Go(1), Go(1)], Reads(a, 1));
    TellJoin(c, OPENING, first + [Spawn(Supersede(s))], [Go(1), Go(1), Go(1)]);
    TellJoin(c, OPENING, first, [Spawn(Supersede(s))]);
    TellOne(c, h, Spawn(Supersede(s)));
    TellTwo(c, h3, Go(1), Abort(1, StoreFailure));
    assert FailsHalfway(c, steps, 1, Supersede(s));
  }

  lemma FirstIsStored(x: AppendInput, k: nat)
    ensures var b := Written(EMPTY_BUCKET, k, AppendCommand(x));
      x.record.recordId in b.entries && b.entries[x.record.recordId] == NewEntry(x, None)
  {
  }

  /** Exactly which requests can report an error half-way, whatever version they expect. */
  lemma CanFailHalfwayIff(c: Limits, r: Request)
    ensures CanFailHalfway(c, r) <==> MayFailHalfway(c, r)
  {
    hide TaleOf;
    if CanFailHalfway(c, r) {
      var steps: seq<Step>, i: nat, version: nat :| FailsHalfway(c, steps, i, Expecting(r, version));
      FailureMay(c, steps, i, Expecting(r, version));
    }
    if MayFailHalfway(c, r) {
      match r
      case Append(a) =>
        FailingRunFails(c, a);
        assert FailsHalfway(c, FailingRun(a), 2, Expecting(r, 0));
      case Supersede(s) =>
        SupersessionFails(c, s.(expectedVersion := 1));
        var steps :| FailsHalfway(c, steps, 1, Expecting(r, 1));
      case Tombstone(t) =>
        DeletionFails(c, t.(expectedVersion := 1));
        var steps :| FailsHalfway(c, steps, 1, Expecting(r, 1));
    }
  }
}
