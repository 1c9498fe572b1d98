/** What the operations of the memory store have written when they report, under every interleaving
    (packages/memory/src/store.ts).

    A `Tale` is a run told with a list of the requests in the order they came in, and a count for each
    of how often it has written.
 */
module MemoryOutcomes {
  import opened Basics
  import opened MemoryStore
  import opened MemoryJournal

  datatype Tale = Tale(system: System, requests: seq<Request>, writes: seq<nat>)
  const OPENING := Tale(START, [], [])

  predicate IsWrite(c: Limits, s: System, step: Step) {
    step.Go? && Next(c, s, step).port != s.port
  }

  function Tell(c: Limits, h: Tale, step: Step): Tale {
    Tale(Next(c, h.system, step),
         if step.Spawn? then h.requests + [step.request] else h.requests,
         if step.Spawn? then h.writes + [0]
         else if step.Go? && step.proc < |h.writes| && IsWrite(c, h.system, step)
         then h.writes[step.proc := h.writes[step.proc] + 1]
         else h.writes)
  }

  function TellAll(c: Limits, h: Tale, steps: seq<Step>): Tale
    decreases |steps|
  {
    if steps == [] then h else TellAll(c, Tell(c, h, steps[0]), steps[1..])
  }

  lemma {:induction false} TaleOfRun(c: Limits, h: Tale, steps: seq<Step>)
    ensures TellAll(c, h, steps).system == Run(c, h.system, steps)
    decreases |steps|
  {
    hide Next;
    if steps != [] {
      TaleOfRun(c, Tell(c, h, steps[0]), steps[1..]);
    }
  }

  // What an operation may have written ---------------------------------------------------------

  /** The append that a `supersede` hands over to. */
  function Replacement(s: SupersedeInput): AppendInput {
    AppendInput(s.scope, s.replacement.(supersedes := Some(s.superseded)), None, false, s.now)
  }

  predicate Appends(r: Request) {
    r.Append? || r.Supersede?
  }

  function AppendOf(r: Request): AppendInput
    requires Appends(r)
  {
    if r.Append? then r.append else Replacement(r.supersede)
  }

  predicate IsAppendOf(r: Request, a: AppendInput) {
    Appends(r) && AppendOf(r) == a
  }

  predicate NamesItself(a: AppendInput) {
    a.record.supersedes == Some(a.record.recordId)
  }

  /** How many writes make the operation complete. */
  function FullWrites(r: Request): nat {
    match r
    case Append(a) => if a.record.supersedes.Some? then 2 else 1
    case Supersede(_) => 2
    case Tombstone(_) => 2
    case Decide(_) => 1
  }

  /** An operation that reports success has written all it should, or was a repeat of a known key; one that reports
      an error has not. Until then it has written nothing, except half-way through. */
  predicate Accounted(r: Request, q: Proc, writes: nat) {
    match q
    case MarkLoad(a, _) => IsAppendOf(r, a) && a.record.supersedes.Some? && !NamesItself(a) && writes == 1
    case MarkApply(a, _, _) => IsAppendOf(r, a) && a.record.supersedes.Some? && !NamesItself(a) && writes == 1
    case TombstoneApply(t, _) => r == Tombstone(t) && writes == 1
    case FindKey(a) => IsAppendOf(r, a) && a.key.Some? && !NamesItself(a) && writes == 0
    case GetPrior(a) => IsAppendOf(r, a) && !NamesItself(a) && writes == 0
    case CheckPrecedence(a, _) => IsAppendOf(r, a) && !NamesItself(a) && writes == 0
    case CheckCapacity(a, _) => IsAppendOf(r, a) && !NamesItself(a) && writes == 0
    case ApplyAppend(a, _) => IsAppendOf(r, a) && !NamesItself(a) && writes == 0
    case SupersedeLoad(s) => r == Supersede(s) && writes == 0
    case MeasureDepth(s, _, _, _, _) => r == Supersede(s) && writes == 0
    case TombstoneLoad(t) => r == Tombstone(t) && writes == 0
    case TombstoneMark(t, _) => r == Tombstone(t) && writes == 0
    case DecideLoad(d) => r == Decide(d) && writes == 0
    case DecideApply(d, _) => r == Decide(d) && writes == 0
    case Finished(_, result) =>
      if result.Ok? then writes == FullWrites(r) || (writes == 0 && r.Append? && r.append.key.Some?)
      else writes < FullWrites(r) && (Appends(r) && NamesItself(AppendOf(r)) ==> writes == 0)
  }

  ghost predicate AllAccounted(h: Tale) {
    && |h.requests| == |h.writes| == |h.system.procs|
    && forall i :: 0 <= i < |h.writes| ==> Accounted(h.requests[i], h.system.procs[i], h.writes[i])
  }

  lemma ReadIsAccounted(c: Limits, b: Bucket, r: Request, q: Proc, writes: nat)
    requires Accounted(r, q, writes) && CommandOf(q).None?
    ensures Accounted(r, AfterRead(c, b, q), writes)
  {
  }

  lemma ApplyIsAccounted(b: Bucket, r: Request, q: Proc, writes: nat)
    requires Accounted(r, q, writes) && CommandOf(q).Some?
    ensures var verdict := Verdict(b, CommandOf(q).value);
      Accounted(r, AfterApply(q, verdict), if verdict.Applied? then writes + 1 else writes)
  {
    hide Verdict;
  }

  lemma ClosedIsAccounted(c: Limits, r: Request, q: Proc, writes: nat)
    requires Accounted(r, q, writes)
    ensures Accounted(r, GoClosed(c, q), writes)
  {
  }

  /** A step of an operation changes the port exactly when the port accepts its command. */
  lemma WriteIffApplied(c: Limits, s: System, i: nat)
    requires i < |s.procs|
    ensures var q := s.procs[i];
      IsWrite(c, s, Go(i)) <==>
        !s.port.closed && CommandOf(q).Some? && Verdict(BucketOf(s.port, ScopeOf(q)), CommandOf(q).value).Applied?
  {
    hide Verdict, ScopeOf, CommandOf, BucketOf, Written, AfterRead, AfterApply, GoClosed;
  }

  lemma BucketWritten(c: Limits, s: System, i: nat)
    requires i < |s.procs| && IsWrite(c, s, Go(i))
    ensures var q := s.procs[i];
      && !s.port.closed && CommandOf(q).Some?
      && var b := BucketOf(s.port, ScopeOf(q));
        && Verdict(b, CommandOf(q).value).Applied?
        && BucketOf(DoGo(c, s, i).port, ScopeOf(q)) == Written(b, s.port.sequence + 1, CommandOf(q).value)
        && forall t: Id :: t != ScopeOf(q) ==> BucketOf(DoGo(c, s, i).port, t) == BucketOf(s.port, t)
  {
    hide ScopeOf, CommandOf, AfterApply, AfterRead, Written, Verdict;
    WriteIffApplied(c, s, i);
  }

  lemma GoIsNext(c: Limits, s: System, i: nat)
    requires i < |s.procs|
    ensures Next(c, s, Go(i)) == DoGo(c, s, i)
  {
  }

  lemma GoIsAccounted(c: Limits, s: System, i: nat, r: Request, writes: nat)
    requires i < |s.procs| && Accounted(r, s.procs[i], writes)
    ensures Accounted(r, DoGo(c, s, i).procs[i], if IsWrite(c, s, Go(i)) then writes + 1 else writes)
  {
    hide Accounted, CommandOf, Verdict, AfterRead, AfterApply, GoClosed, Applying, IsWrite;
    var q := s.procs[i];
    WriteIffApplied(c, s, i);
    if s.port.closed {
      ClosedIsAccounted(c, r, q, writes);
    } else if CommandOf(q).Some? {
      ApplyIsAccounted(BucketOf(s.port, ScopeOf(q)), r, q, writes);
    } else {
      ReadIsAccounted(c, BucketOf(s.port, ScopeOf(q)), r, q, writes);
    }
  }

  lemma OthersStay(c: Limits, s: System, i: nat)
    requires i < |s.procs|
    ensures var t := DoGo(c, s, i);
      |t.procs| == |s.procs| && forall k :: 0 <= k < |s.procs| && k != i ==> t.procs[k] == s.procs[k]
  {
  }

  lemma BeginIsAccounted(r: Request, e: Error)
    ensures Accounted(r, Begin(r), 0) && Accounted(r, Failing(Begin(r), e), 0)
  {
  }

  lemma AbortIsAccounted(r: Request, q: Proc, writes: nat, e: Error)
    requires Accounted(r, q, writes) && !q.Finished?
    ensures Accounted(r, Failing(q, e), writes)
  {
  }

  lemma StepIsAccounted(c: Limits, h: Tale, step: Step)
    requires AllAccounted(h)
    ensures AllAccounted(Tell(c, h, step))
  {
    hide Accounted, DoGo, IsWrite, Begin, Failing;
    match step {
      case Spawn(r) => BeginIsAccounted(r, StoreClosed);
      case Go(i) =>
        if i < |h.writes| {
          OthersStay(c, h.system, i);
          GoIsAccounted(c, h.system, i, h.requests[i], h.writes[i]);
        }
      case Abort(i, e) =>
        if i < |h.writes| && !h.system.procs[i].Finished? {
          AbortIsAccounted(h.requests[i], h.system.procs[i], h.writes[i], e);
        }
      case CloseStore =>
    }
  }

  lemma {:induction false} RunIsAccounted(c: Limits, h: Tale, steps: seq<Step>)
    requires AllAccounted(h)
    ensures AllAccounted(TellAll(c, h, steps))
    decreases |steps|
  {
    hide AllAccounted, Tell;
    if steps != [] {
      StepIsAccounted(c, h, steps[0]);
      RunIsAccounted(c, Tell(c, h, steps[0]), steps[1..]);
    }
  }

  lemma NothingIsAccounted()
    ensures AllAccounted(OPENING)
  {
  }

  /** The story of a run from the start. */
  function TaleOf(c: Limits, steps: seq<Step>): (h: Tale)
    ensures AllAccounted(h) && h.system == Run(c, START, steps)
  {
    NothingIsAccounted();
    RunIsAccounted(c, OPENING, steps);
    TaleOfRun(c, OPENING, steps);
    TellAll(c, OPENING, steps)
  }

  /** The first write of an append is the one that stores its record. */
  lemma FirstWrite(r: Request, q: Proc)
    requires Accounted(r, q, 0) && Appends(r) && CommandOf(q).Some?
    ensures q.ApplyAppend? && q.a == AppendOf(r)
  {
  }

  // What an error leaves behind ---------------------------------------------------------------

  /** In every run, an operation that ended in an error has left out at least one of its writes. In particular an
      `append` that names no predecessor, and a decision, have written nothing then. */
  lemma ErrorsAreIncomplete(c: Limits, steps: seq<Step>, i: nat)
    ensures var h := TaleOf(c, steps);
      i < |h.writes| && h.system.procs[i].Finished? && h.system.procs[i].result.Err? ==>
        h.writes[i] < FullWrites(h.requests[i])
    ensures var h := TaleOf(c, steps);
      i < |h.writes| && h.system.procs[i].Finished? && h.system.procs[i].result.Err?
      && h.requests[i].Append? && h.requests[i].append.record.supersedes.None? ==>
        h.writes[i] == 0
  {
    hide TellAll;
    var h := TaleOf(c, steps);
    assert i < |h.writes| ==> Accounted(h.requests[i], h.system.procs[i], h.writes[i]);
  }

  /** And one that ended well has made all its writes, unless it repeated a known key. */
  lemma SuccessesAreComplete(c: Limits, steps: seq<Step>, i: nat)
    ensures var h := TaleOf(c, steps);
      i < |h.writes| && h.system.procs[i].Finished? && h.system.procs[i].result.Ok? ==>
        h.writes[i] == FullWrites(h.requests[i])
            || (h.writes[i] == 0 && h.requests[i].Append? && h.requests[i].append.key.Some?)
  {
    hide TellAll;
    var h := TaleOf(c, steps);
    assert i < |h.writes| ==> Accounted(h.requests[i], h.system.procs[i], h.writes[i]);
  }

  lemma {:induction false} TellJoin(c: Limits, h: Tale, first: seq<Step>, then_: seq<Step>)
    ensures TellAll(c, h, first + then_) == TellAll(c, TellAll(c, h, first), then_)
    decreases |first|
  {
    hide Tell;
    if first == [] {
      assert first + then_ == then_;
    } else {
      TellJoin(c, Tell(c, h, first[0]), first[1..], then_);
      assert (first + then_)[1..] == first[1..] + then_;
    }
  }

  lemma TellOne(c: Limits, h: Tale, step: Step)
    ensures TellAll(c, h, [step]) == Tell(c, h, step)
  {
    hide Tell;
    assert [step][1..] == [];
  }

  /** A failing audit stops an operation before its next write. Nothing at all is written then if and only if that
      was the first: a predecessor left unmarked, or a record left alive beside its tombstone, is already half-way. */
  lemma FailedAuditIff(c: Limits, steps: seq<Step>, i: nat, e: Error)
    ensures var h := TaleOf(c, steps);
      var t := TaleOf(c, steps + [Abort(i, e)]);
      i < |h.writes| && CommandOf(h.system.procs[i]).Some? ==>
        && t.system.port == h.system.port && t.writes == h.writes
        && t.system.procs[i] == Failing(h.system.procs[i], e)
        && (t.writes[i] == 0 <==> !h.system.procs[i].MarkApply? && !h.system.procs[i].TombstoneApply?)
  {
    hide TellAll;
    var h := TaleOf(c, steps);
    TellJoin(c, OPENING, steps, [Abort(i, e)]);
    TellOne(c, h, Abort(i, e));
    assert i < |h.writes| ==> Accounted(h.requests[i], h.system.procs[i], h.writes[i]);
  }

  lemma OnlyWritesChange(c: Limits, s: System, step: Step)
    requires !IsWrite(c, s, step) && !step.CloseStore?
    ensures Next(c, s, step).port == s.port
  {
    hide DoGo, Begin;
  }

  lemma WritesByProc(c: Limits, s: System, step: Step)
    requires IsWrite(c, s, step)
    ensures step.Go? && step.proc < |s.procs|
  {
  }

  lemma OpenBefore(c: Limits, s: System, step: Step)
    requires !Next(c, s, step).port.closed
    ensures !s.port.closed && !step.CloseStore?
  {
    hide Begin, GoClosed;
  }

  // Growth -------------------------------------------------------------------------------------

  ghost predicate PortExtends(p: PortState, q: PortState) {
    forall scope: Id :: Extends(BucketOf(p, scope), BucketOf(q, scope))
  }

  /** While the port is open no step loses an entry or an event. */
  lemma StepExtends(c: Limits, s: System, step: Step)
    requires Inv(s) && !s.port.closed && !step.CloseStore?
    ensures PortExtends(s.port, Next(c, s, step).port) && !Next(c, s, step).port.closed
  {
    hide PortOk, BucketOf, LocalsOk, Journaled, AfterRead, AfterApply, CommandOf, Verdict, ScopeOf, Applying;
    if step.Go? && step.proc < |s.procs| {
      var q := s.procs[step.proc];
      if CommandOf(q).Some? {
        assert LocalsOk(BucketOf(s.port, ScopeOf(q)), q);
        CommandsAreOk(BucketOf(s.port, ScopeOf(q)), q);
        ApplyingKeepsPort(s.port, ScopeOf(q), CommandOf(q).value);
        ApplyingStaysOpen(s.port, ScopeOf(q), CommandOf(q).value);
      }
    }
  }

  lemma ApplyingStaysOpen(p: PortState, scope: Id, cmd: Command)
    ensures Applying(p, scope, cmd).closed == p.closed
  {
  }
}
