/** Who made which record and link of the memory store, over every run without resurrections: what an
    operation has stored outlives the operation, and no link was made but by an append
    (packages/memory/src/store.ts).
 */
module MemoryAuthors {
  import opened Basics
  import opened MemoryStore
  import opened MemoryJournal
  import opened MemoryLinks
  import opened MemoryOutcomes

  /** The record of an append that has written is stored and names the predecessor it was meant to. */
  ghost predicate RecordsStored(h: Tale)
    requires AllAccounted(h)
  {
    forall i :: 0 <= i < |h.writes| && h.writes[i] >= 1 && Appends(h.requests[i]) ==>
      Stored(BucketOf(h.system.port, AppendOf(h.requests[i]).scope), AppendOf(h.requests[i]))
  }

  /** Request `i` appended record `id` of `scope`, naming `supersedes`. */
  predicate IsAuthor(h: Tale, i: nat, scope: Id, id: Id, supersedes: Option<Id>)
    requires |h.requests| == |h.writes|
  {
    && i < |h.writes| && h.writes[i] >= 1 && Appends(h.requests[i])
    && AppendOf(h.requests[i]).scope == scope && AppendOf(h.requests[i]).record.recordId == id
    && AppendOf(h.requests[i]).record.supersedes == supersedes
  }

  ghost predicate LinksAuthored(h: Tale)
    requires |h.requests| == |h.writes|
  {
    forall scope: Id, id: Id ::
      id in BucketOf(h.system.port, scope).entries
          && BucketOf(h.system.port, scope).entries[id].record.supersedes.Some? ==>
        exists i: nat :: IsAuthor(h, i, scope, id, BucketOf(h.system.port, scope).entries[id].record.supersedes)
  }

  // The depth limit --------------------------------------------------------------------------------

  ghost predicate NamesShallow(c: Limits, b: Bucket, a: AppendInput)
    requires Linked(b)
  {
    a.record.supersedes.Some? ==>
      a.record.supersedes.value in b.entries && ChainLength(b, a.record.supersedes.value) < c.maxSupersessionChainDepth
  }

  ghost predicate DepthKnown(c: Limits, b: Bucket, q: Proc)
    requires Linked(b)
  {
    match q
    case FindKey(a) => NamesShallow(c, b, a)
    case GetPrior(a) => NamesShallow(c, b, a)
    case CheckPrecedence(a, _) => NamesShallow(c, b, a)
    case CheckCapacity(a, _) => NamesShallow(c, b, a)
    case ApplyAppend(a, _) => NamesShallow(c, b, a)
    case MeasureDepth(s, target, _, _, _) => target.record.recordId == s.superseded
    case _ => true
  }

  lemma DepthStays(c: Limits, b: Bucket, t: Bucket, q: Proc)
    requires Linked(b) && Linked(t) && KeepsLinks(b, t) && DepthKnown(c, b, q)
    ensures DepthKnown(c, t, q)
  {
    hide Linked, ChainLength;
    if q.FindKey? || q.GetPrior? || q.CheckPrecedence? || q.CheckCapacity? || q.ApplyAppend? {
      if q.a.record.supersedes.Some? {
        ChainStays(b, t, q.a.record.supersedes.value);
      }
    }
  }

  lemma ReadKeepsDepth(c: Limits, b: Bucket, q: Proc)
    requires Linked(b) && LinksKnown(c, b, q) && DepthKnown(c, b, q) && Filed(b)
    ensures DepthKnown(c, b, AfterRead(c, b, q))
  {
    hide Linked, ChainLength;
    if q.MeasureDepth? {
      if q.current.None? || q.depth >= c.maxSupersessionChainDepth + 1 {
        MeasuredAll(c, b, q.s.superseded, q.depth, q.current, q.seen);
      }
    }
  }

  lemma ChainStep(b: Bucket, id: Id)
    requires Linked(b) && id in b.entries && b.entries[id].record.supersedes.Some?
    ensures ChainLength(b, id) == 1 + ChainLength(b, b.entries[id].record.supersedes.value)
  {
  }

  /** The chain above the replacement of a `supersede` was measured to be below the limit. */
  ghost predicate SupersedesShallow(c: Limits, h: Tale)
    requires AllAccounted(h) && AllLinked(h.system.port)
  {
    forall i :: 0 <= i < |h.writes| && h.requests[i].Supersede? ==>
      && DepthKnown(c, BucketOf(h.system.port, ScopeOf(h.system.procs[i])), h.system.procs[i])
      && (h.writes[i] >= 1 ==> ShallowLink(c, h.system.port, Replacement(h.requests[i].supersede)))
  }

  ghost predicate ShallowLink(c: Limits, p: PortState, a: AppendInput)
    requires AllLinked(p)
  {
    var b := BucketOf(p, a.scope);
    Stored(b, a) && ChainLength(b, a.record.recordId) <= c.maxSupersessionChainDepth
  }

  ghost predicate History(c: Limits, h: Tale) {
    && AllAccounted(h)
    && LinkInv(c, h.system)
    && (!h.system.port.closed ==> RecordsStored(h) && LinksAuthored(h) && SupersedesShallow(c, h))
  }

  // One step ---------------------------------------------------------------------------------------

  lemma StoredStays(b: Bucket, t: Bucket, a: AppendInput)
    requires Stored(b, a) && KeepsLinks(b, t)
    ensures Stored(t, a)
  {
    hide Birth;
  }

  lemma ShallowStays(c: Limits, p: PortState, q: PortState, a: AppendInput)
    requires AllLinked(p) && AllLinked(q) && PortKeepsLinks(p, q) && ShallowLink(c, p, a)
    ensures ShallowLink(c, q, a)
  {
    hide Birth, Linked, ChainLength, BucketOf;
    var b, t := BucketOf(p, a.scope), BucketOf(q, a.scope);
    assert Linked(b) && Linked(t) && KeepsLinks(b, t);
    StoredStays(b, t, a);
    ChainStays(b, t, a.record.recordId);
  }

  lemma AppendStores(b: Bucket, sequence: nat, q: Proc)
    requires q.ApplyAppend?
    ensures var t := Written(b, sequence, CommandOf(q).value);
      Stored(t, q.a) && t.entries[q.a.record.recordId].record == q.a.record
  {
  }

  /** What a write of step `i` leaves of an append's own record. */
  lemma WriteStores(c: Limits, h: Tale, i: nat)
    requires AllAccounted(h) && i < |h.writes| && h.writes[i] == 0 && Appends(h.requests[i])
    requires IsWrite(c, h.system, Go(i))
    ensures Stored(BucketOf(DoGo(c, h.system, i).port, AppendOf(h.requests[i]).scope), AppendOf(h.requests[i]))
  {
    hide Accounted, BucketOf, DoGo, Written, Verdict, CommandOf, Stored, IsWrite, Appends, AppendOf;
    var q := h.system.procs[i];
    assert Accounted(h.requests[i], q, 0);
    BucketWritten(c, h.system, i);
    FirstWrite(h.requests[i], q);
    AppendStores(BucketOf(h.system.port, ScopeOf(q)), h.system.port.sequence + 1, q);
  }

  lemma StepKeepsRecords(c: Limits, h: Tale, step: Step)
    requires AllAccounted(h) && RecordsStored(h) && AllAccounted(Tell(c, h, step))
    requires PortKeepsLinks(h.system.port, Next(c, h.system, step).port)
    ensures RecordsStored(Tell(c, h, step))
  {
    hide Accounted, BucketOf, Stored, KeepsLinks, IsWrite, Next, Appends, AppendOf;
    var t := Tell(c, h, step);
    forall i | 0 <= i < |t.writes| && t.writes[i] >= 1 && Appends(t.requests[i])
      ensures Stored(BucketOf(t.system.port, AppendOf(t.requests[i]).scope), AppendOf(t.requests[i]))
    {
      var a := AppendOf(t.requests[i]);
      if h.writes[i] >= 1 {
        StoredStays(BucketOf(h.system.port, a.scope), BucketOf(t.system.port, a.scope), a);
      } else {
        WriteStores(c, h, i);
        GoIsNext(c, h.system, i);
      }
    }
  }

  lemma AuthorStays(c: Limits, h: Tale, step: Step, i: nat, scope: Id, id: Id, supersedes: Option<Id>)
    requires |h.requests| == |h.writes| && IsAuthor(h, i, scope, id, supersedes)
    ensures IsAuthor(Tell(c, h, step), i, scope, id, supersedes)
  {
    hide Next, IsWrite, Appends, AppendOf;
  }

  /** A record that a step adds is the record of the append that takes the step, or has no link. */
  lemma NewRecordHasAuthor(c: Limits, h: Tale, step: Step, scope: Id, id: Id)
    requires AllAccounted(h) && !h.system.port.closed && Inv(h.system)
    requires var b := BucketOf(Next(c, h.system, step).port, scope);
      id !in BucketOf(h.system.port, scope).entries && id in b.entries && b.entries[id].record.supersedes.Some?
    ensures var b := BucketOf(Next(c, h.system, step).port, scope);
      step.Go? && IsAuthor(Tell(c, h, step), step.proc, scope, id, b.entries[id].record.supersedes)
  {
    hide Accounted, BucketOf, DoGo, Verdict, LocalsOk, PortOk;
    assert step.Go? && step.proc < |h.writes| by { OnlyGoAdds(c, h.system, step, scope, id); }
    var i := step.proc;
    var q := h.system.procs[i];
    assert IsWrite(c, h.system, step) by { OnlyWritesAdd(c, h.system, i, scope, id); }
    BucketWritten(c, h.system, i);
    var b := BucketOf(h.system.port, ScopeOf(q));
    NewIsAppend(b, h.system.port.sequence + 1, q, h.requests[i], h.writes[i], id) by {
      assert Accounted(h.requests[i], q, h.writes[i]) && LocalsOk(b, q);
    }
  }

  lemma OnlyGoAdds(c: Limits, s: System, step: Step, scope: Id, id: Id)
    requires id !in BucketOf(s.port, scope).entries && id in BucketOf(Next(c, s, step).port, scope).entries
    ensures step.Go? && step.proc < |s.procs|
  {
    hide DoGo;
  }

  lemma OnlyWritesAdd(c: Limits, s: System, i: nat, scope: Id, id: Id)
    requires i < |s.procs|
    requires id !in BucketOf(s.port, scope).entries && id in BucketOf(DoGo(c, s, i).port, scope).entries
    ensures IsWrite(c, s, Go(i))
  {
    hide DoGo;
  }

  lemma NewIsAppend(b: Bucket, sequence: nat, q: Proc, r: Request, writes: nat, id: Id)
    requires Accounted(r, q, writes) && LocalsOk(b, q) && CommandOf(q).Some? && Verdict(b, CommandOf(q).value).Applied?
    requires var t := Written(b, sequence, CommandOf(q).value);
      id !in b.entries && id in t.entries && t.entries[id].record.supersedes.Some?
    ensures var t := Written(b, sequence, CommandOf(q).value);
      && Appends(r) && AppendOf(r).scope == ScopeOf(q) && AppendOf(r).record.recordId == id
      && AppendOf(r).record.supersedes == t.entries[id].record.supersedes
  {
  }

  lemma StepKeepsAuthors(c: Limits, h: Tale, step: Step)
    requires AllAccounted(h) && LinksAuthored(h) && !h.system.port.closed && Inv(h.system)
    requires PortKeepsLinks(h.system.port, Next(c, h.system, step).port)
    ensures LinksAuthored(Tell(c, h, step))
  {
    hide Accounted, BucketOf, DoGo, IsWrite, Next, Inv, IsAuthor, Birth;
    var t := Tell(c, h, step);
    forall scope: Id, id: Id |
      id in BucketOf(t.system.port, scope).entries && BucketOf(t.system.port, scope).entries[id].record.supersedes.Some?
      ensures exists i: nat :: IsAuthor(t, i, scope, id, BucketOf(t.system.port, scope).entries[id].record.supersedes)
    {
      var b := BucketOf(h.system.port, scope);
      assert KeepsLinks(b, BucketOf(t.system.port, scope));
      if id in b.entries {
        var i: nat :| IsAuthor(h, i, scope, id, b.entries[id].record.supersedes);
        AuthorStays(c, h, step, i, scope, id, b.entries[id].record.supersedes);
      } else {
        NewRecordHasAuthor(c, h, step, scope, id);
      }
    }
  }

  // Depths ------------------------------------------------------------------------------------------

  /** A `supersede` that stores its record extends a chain that was below the limit. */
  lemma StoringKeepsShallow(c: Limits, b: Bucket, sequence: nat, q: Proc)
    requires Linked(b) && LinksKnown(c, b, q) && DepthKnown(c, b, q) && LocalsOk(b, q)
    requires q.ApplyAppend? && q.a.record.supersedes.Some? && Verdict(b, CommandOf(q).value).Applied?
    ensures var t := Written(b, sequence, CommandOf(q).value);
      Linked(t) && Stored(t, q.a) && ChainLength(t, q.a.record.recordId) <= c.maxSupersessionChainDepth
  {
    hide Linked, ChainLength, LinkSafe, Measuring;
    var t := Written(b, sequence, CommandOf(q).value);
    ApplyKeepsKnown(c, b, sequence, q);
    var x := q.a.record.supersedes.value;
    assert NamesShallow(c, b, q.a);
    ChainStays(b, t, x);
    ChainStep(t, q.a.record.recordId);
  }

  lemma DepthAfterApply(c: Limits, b: Bucket, q: Proc, outcome: Outcome)
    requires Linked(b) && CommandOf(q).Some?
    ensures DepthKnown(c, b, AfterApply(q, outcome))
  {
  }

  lemma DepthAtBegin(c: Limits, b: Bucket, r: Request, e: Error)
    requires Linked(b) && r.Supersede?
    ensures DepthKnown(c, b, Begin(r)) && DepthKnown(c, b, Failing(Begin(r), e))
  {
  }

  lemma FinishedDepth(c: Limits, b: Bucket, q: Proc)
    requires Linked(b) && q.Finished?
    ensures DepthKnown(c, b, q)
  {
  }

  /** What the step of a `supersede` knows about depths afterwards. */
  lemma GoKeepsDepth(c: Limits, s: System, i: nat)
    requires !s.port.closed && Inv(s) && AllLinked(s.port) && AllKnown(c, s) && i < |s.procs|
    requires AllLinked(DoGo(c, s, i).port)
    requires DepthKnown(c, BucketOf(s.port, ScopeOf(s.procs[i])), s.procs[i])
    ensures var q := DoGo(c, s, i).procs[i];
      DepthKnown(c, BucketOf(DoGo(c, s, i).port, ScopeOf(q)), q)
  {
    hide PortOk, Journaled, AfterRead, AfterApply, CommandOf, Verdict, ScopeOf, BucketOf, Applying, Linked, LinksKnown,
         LocalsOk, DepthKnown;
    var q := s.procs[i];
    var b := BucketOf(s.port, ScopeOf(q));
    assert Linked(b) && LinksKnown(c, b, q) && LocalsOk(b, q);
    BucketJournaled(s.port, ScopeOf(q));
    FiledWhenJournaled(b, s.port.sequence);
    if CommandOf(q).Some? {
      BucketAfter(s.port, ScopeOf(q), CommandOf(q).value);
      ApplyKeepsLocals(b, s.port.sequence, q);
      DepthAfterApply(c, BucketOf(DoGo(c, s, i).port, ScopeOf(q)), q, Verdict(b, CommandOf(q).value));
    } else {
      ReadKeepsDepth(c, b, q);
      ReadKeepsLocals(c, b, q);
    }
  }

  lemma WriteIsShallow(c: Limits, h: Tale, i: nat)
    requires AllAccounted(h) && !h.system.port.closed && LinkInv(c, h.system) && i < |h.writes|
    requires h.writes[i] == 0 && h.requests[i].Supersede? && IsWrite(c, h.system, Go(i))
    requires DepthKnown(c, BucketOf(h.system.port, ScopeOf(h.system.procs[i])), h.system.procs[i])
    requires AllLinked(DoGo(c, h.system, i).port)
    ensures ShallowLink(c, DoGo(c, h.system, i).port, Replacement(h.requests[i].supersede))
  {
    hide Accounted, BucketOf, DoGo, Written, Verdict, CommandOf, Stored, IsWrite, Linked, LinksKnown, LocalsOk,
    DepthKnown,
         ChainLength, PortOk;
    var q := h.system.procs[i];
    var b := BucketOf(h.system.port, ScopeOf(q));
    assert Accounted(h.requests[i], q, 0);
    assert LinksKnown(c, b, q) && LocalsOk(b, q) && Linked(b);
    BucketWritten(c, h.system, i);
    FirstWrite(h.requests[i], q);
    StoringKeepsShallow(c, b, h.system.port.sequence + 1, q);
  }

  lemma DepthOfOthers(c: Limits, s: System, step: Step, k: nat)
    requires !s.port.closed && AllLinked(s.port) && AllLinked(Next(c, s, step).port) && k < |s.procs|
    requires PortKeepsLinks(s.port, Next(c, s, step).port)
    requires DepthKnown(c, BucketOf(s.port, ScopeOf(s.procs[k])), s.procs[k])
    requires !(step.Go? && step.proc == k)
    ensures var t := Next(c, s, step);
      k < |t.procs| && DepthKnown(c, BucketOf(t.port, ScopeOf(t.procs[k])), t.procs[k])
  {
    hide BucketOf, ScopeOf, Linked, DepthKnown, DoGo, KeepsLinks;
    var t := Next(c, s, step);
    if step.Go? && step.proc < |s.procs| {
      OthersStay(c, s, step.proc);
    }
    if step.Abort? && step.proc == k && !s.procs[k].Finished? {
      FinishedDepth(c, BucketOf(t.port, ScopeOf(t.procs[k])), t.procs[k]);
    } else {
      assert t.procs[k] == s.procs[k];
      var scope := ScopeOf(s.procs[k]);
      assert KeepsLinks(BucketOf(s.port, scope), BucketOf(t.port, scope));
      DepthStays(c, BucketOf(s.port, scope), BucketOf(t.port, scope), s.procs[k]);
    }
  }

  lemma StepKeepsShallow(c: Limits, h: Tale, step: Step)
    requires AllAccounted(h) && AllAccounted(Tell(c, h, step)) && LinkInv(c, h.system)
    requires !h.system.port.closed && !Next(c, h.system, step).port.closed
    requires SupersedesShallow(c, h) && LinkInv(c, Next(c, h.system, step))
    requires PortKeepsLinks(h.system.port, Next(c, h.system, step).port)
    ensures SupersedesShallow(c, Tell(c, h, step))
  {
    hide Accounted, BucketOf, ScopeOf, IsWrite, Next, Inv, Linked, DepthKnown, ShallowLink, Birth, PortKeepsLinks,
    LinksKnown,
         KeepsLinks, DoGo, Replacement;
    var t := Tell(c, h, step);
    forall k | 0 <= k < |t.writes| && t.requests[k].Supersede?
      ensures DepthKnown(c, BucketOf(t.system.port, ScopeOf(t.system.procs[k])), t.system.procs[k])
      ensures t.writes[k] >= 1 ==> ShallowLink(c, t.system.port, Replacement(t.requests[k].supersede))
    {
      if k == |h.writes| {
        SpawnedDepth(c, h.system, step);
      } else {
        if step.Go? && step.proc == k {
          GoIsNext(c, h.system, k);
          GoKeepsDepth(c, h.system, k);
        } else {
          DepthOfOthers(c, h.system, step, k);
        }
        if h.writes[k] >= 1 {
          ShallowStays(c, h.system.port, t.system.port, Replacement(h.requests[k].supersede));
        } else if t.writes[k] >= 1 {
          GoIsNext(c, h.system, k);
          WriteIsShallow(c, h, k);
        }
      }
    }
  }

  lemma SpawnedDepth(c: Limits, s: System, step: Step)
    requires AllLinked(Next(c, s, step).port) && step.Spawn? && step.request.Supersede?
    ensures var t := Next(c, s, step);
      |t.procs| == |s.procs| + 1
      && DepthKnown(c, BucketOf(t.port, ScopeOf(t.procs[|s.procs|])), t.procs[|s.procs|])
  {
    hide BucketOf, ScopeOf, Linked, DepthKnown, Begin;
    var t := Next(c, s, step);
    DepthAtBegin(c, BucketOf(t.port, ScopeOf(t.procs[|s.procs|])), step.request, StoreClosed);
  }

  lemma StepKeepsHistory(c: Limits, h: Tale, step: Step)
    requires History(c, h) && WithoutResurrection(step)
    ensures History(c, Tell(c, h, step))
  {
    hide AllAccounted, LinkInv, RecordsStored, LinksAuthored, SupersedesShallow, IsWrite, Next, PortKeepsLinks;
    StepIsAccounted(c, h, step);
    StepKeepsLinks(c, h.system, step);
    if !Next(c, h.system, step).port.closed {
      InvOfOpen(c, h.system);
      StepKeepsRecords(c, h, step);
      StepKeepsAuthors(c, h, step);
      StepKeepsShallow(c, h, step);
    }
  }

  lemma InvOfOpen(c: Limits, s: System)
    requires LinkInv(c, s) && !s.port.closed
    ensures Inv(s) && AllLinked(s.port)
  {
  }

  lemma {:induction false} RunKeepsHistory(c: Limits, h: Tale, steps: seq<Step>)
    requires History(c, h) && forall i :: 0 <= i < |steps| ==> WithoutResurrection(steps[i])
    ensures History(c, TellAll(c, h, steps))
    decreases |steps|
  {
    hide History, Tell;
    if steps != [] {
      StepKeepsHistory(c, h, steps[0]);
      assert forall i :: 0 <= i < |steps| - 1 ==> steps[1..][i] == steps[i + 1];
      RunKeepsHistory(c, Tell(c, h, steps[0]), steps[1..]);
    }
  }

  lemma HistoryStarts(c: Limits)
    ensures History(c, OPENING)
  {
    StartHasLinks(c);
  }

  lemma HistoryOf(c: Limits, steps: seq<Step>)
    requires forall i :: 0 <= i < |steps| ==> WithoutResurrection(steps[i])
    ensures History(c, TaleOf(c, steps))
  {
    hide History;
    HistoryStarts(c);
    RunKeepsHistory(c, OPENING, steps);
  }

  // Whole runs -----------------------------------------------------------------------------------------

  /** An `append` that has written has its record stored, then and whatever runs afterwards, also if it reported an
      error; but an error after a write comes only from one that names a predecessor. */
  lemma FailedAppendIsStored(c: Limits, steps: seq<Step>, i: nat)
    requires forall i :: 0 <= i < |steps| ==> WithoutResurrection(steps[i])
    ensures var h := TaleOf(c, steps);
      !h.system.port.closed && i < |h.writes| && Appends(h.requests[i]) && h.writes[i] >= 1 ==>
        Stored(BucketOf(h.system.port, AppendOf(h.requests[i]).scope), AppendOf(h.requests[i]))
    ensures var h := TaleOf(c, steps);
      i < |h.writes| && Appends(h.requests[i]) && h.writes[i] >= 1
      && h.system.procs[i].Finished? && h.system.procs[i].result.Err? ==>
        AppendOf(h.requests[i]).record.supersedes.Some?
  {
    hide TellAll, LinkInv, BucketOf, Stored, LinksAuthored, SupersedesShallow;
    HistoryOf(c, steps);
    ErrorsAreIncomplete(c, steps, i);
  }

  /** However operations race, a record stored by a `supersede` has a chain within the limit. */
  lemma SupersedeKeepsLimit(c: Limits, steps: seq<Step>, i: nat)
    requires forall i :: 0 <= i < |steps| ==> WithoutResurrection(steps[i])
    ensures var h := TaleOf(c, steps);
      !h.system.port.closed && i < |h.writes| && h.requests[i].Supersede? && h.writes[i] >= 1 ==>
        var a := Replacement(h.requests[i].supersede);
        && AllLinked(h.system.port) && Stored(BucketOf(h.system.port, a.scope), a)
        && ChainLength(BucketOf(h.system.port, a.scope), a.record.recordId) <= c.maxSupersessionChainDepth
  {
    hide TellAll, BucketOf, Stored, LinksAuthored, RecordsStored, ChainLength, Linked, Inv, LinksKnown, DepthKnown;
    HistoryOf(c, steps);
  }

  /** A direct `append` of this record named a predecessor. */
  ghost predicate LinkedDirectly(h: Tale, scope: Id, id: Id)
    requires |h.requests| == |h.writes|
  {
    exists i: nat, x: Id :: i < |h.writes| && h.requests[i].Append? && IsAuthor(h, i, scope, id, Some(x))
  }

  /** No chain gets longer than the limit, or than one record, below a record that no direct append linked. */
  lemma DepthLimitHolds(c: Limits, steps: seq<Step>, scope: Id, id: Id)
    requires forall i :: 0 <= i < |steps| ==> WithoutResurrection(steps[i])
    ensures var h := TaleOf(c, steps);
      !h.system.port.closed ==>
        && AllLinked(h.system.port)
        && (LinkedDirectly(h, scope, id)
            || ChainLength(BucketOf(h.system.port, scope), id)
               <= if c.maxSupersessionChainDepth == 0 then 1 else c.maxSupersessionChainDepth)
  {
    hide TellAll, BucketOf, Stored, RecordsStored, Linked, Inv, LinksKnown, DepthKnown, Birth;
    HistoryOf(c, steps);
    var h := TaleOf(c, steps);
    if !h.system.port.closed {
      var b := BucketOf(h.system.port, scope);
      assert Linked(b);
      if id in b.entries && b.entries[id].record.supersedes.Some? {
        var i: nat :| IsAuthor(h, i, scope, id, b.entries[id].record.supersedes);
        if h.requests[i].Supersede? {
          assert ShallowLink(c, h.system.port, Replacement(h.requests[i].supersede));
        }
      }
    }
  }
}
