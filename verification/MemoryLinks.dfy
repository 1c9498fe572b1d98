/** Supersession links of the memory store under every interleaving without resurrections
    (packages/memory/src/store.ts). The record named by `supersedes` was always appended earlier, so
    chains end and their depth can be measured.
 */
module MemoryLinks {
  import opened Basics
  import opened MemoryStore
  import opened MemoryJournal

  /** Where in the journal a record first occurs; the number of events if it does not. */
  function Birth(events: seq<Event>, id: Id): nat {
    if events == [] then 0
    else
      var before := events[..|events| - 1];
      if Birth(before, id) < |before| then Birth(before, id)
      else if events[|before|].recordId == id then |before|
      else |events|
  }

  lemma {:induction false} BirthIsFirst(events: seq<Event>, id: Id)
    ensures Birth(events, id) <= |events|
    ensures Birth(events, id) < |events| ==> events[Birth(events, id)].recordId == id
    ensures forall i :: 0 <= i < Birth(events, id) ==> events[i].recordId != id
  {
    if events != [] {
      BirthIsFirst(events[..|events| - 1], id);
    }
  }

  lemma BirthOneMore(events: seq<Event>, e: Event, id: Id)
    ensures Birth(events + [e], id) ==
      if Birth(events, id) < |events| then Birth(events, id) else if e.recordId == id then |events| else |events| + 1
  {
    assert (events + [e])[..|events + [e]| - 1] == events;
  }

  ghost predicate Born(b: Bucket) {
    forall id: Id :: id in b.entries <==> Birth(b.events, id) < |b.events|
  }

  /** `supersededBy` is only ever set to a record that names this one. */
  ghost predicate Claimed(b: Bucket) {
    forall x: Id :: x in b.entries && b.entries[x].supersededBy.Some? ==>
      var r := b.entries[x].supersededBy.value;
      r in b.entries && b.entries[r].record.supersedes == Some(x)
  }

  ghost predicate MayDisplace(r: Record, x: Record) {
    !(r.variant.InferredCandidate? && x.variant.ExplicitPreference?)
  }

  /** Whoever names a record was appended after it, and no inferred candidate names an explicit preference. */
  ghost predicate Ordered(b: Bucket) {
    forall r: Id :: r in b.entries && b.entries[r].record.supersedes.Some? ==>
      var x := b.entries[r].record.supersedes.value;
      && x in b.entries && Birth(b.events, x) < Birth(b.events, r)
      && MayDisplace(b.entries[r].record, b.entries[x].record)
  }

  ghost predicate Linked(b: Bucket) {
    Born(b) && Claimed(b) && Ordered(b)
  }

  predicate SameRecord(e: Entry, f: Entry) {
    e.record.recordId == f.record.recordId && e.record.variant == f.record.variant && e.record.supersedes
        == f.record.supersedes
  }

  /** What a step never undoes. */
  ghost predicate KeepsLinks(b: Bucket, t: Bucket) {
    forall id: Id :: id in b.entries ==>
      && id in t.entries && SameRecord(t.entries[id], b.entries[id])
      && (b.entries[id].supersededBy.Some? ==> t.entries[id].supersededBy == b.entries[id].supersededBy)
      && Birth(t.events, id) == Birth(b.events, id)
  }

  /** A write that is safe for the links. */
  ghost predicate LinkSafe(b: Bucket, e: Entry) {
    var id := e.record.recordId;
    if id in b.entries then
      && SameRecord(e, b.entries[id])
      && (b.entries[id].supersededBy.Some? ==> e.supersededBy == b.entries[id].supersededBy)
      && (e.supersededBy.Some? ==>
           e.supersededBy.value in b.entries && b.entries[e.supersededBy.value].record.supersedes == Some(id))
    else
      && e.supersededBy.None?
      && (e.record.supersedes.Some? ==>
            e.record.supersedes.value in b.entries
                && MayDisplace(e.record, b.entries[e.record.supersedes.value].record))
  }

  lemma BirthsAfter(b: Bucket, sequence: nat, cmd: Command)
    requires Born(b)
    ensures var t := Written(b, sequence, cmd);
      && Born(t)
      && (forall id: Id :: id in b.entries ==> Birth(t.events, id) == Birth(b.events, id))
      && (cmd.entry.record.recordId !in b.entries ==> Birth(t.events, cmd.entry.record.recordId) == |b.events|)
  {
    hide Birth;
    var t := Written(b, sequence, cmd);
    forall id: Id
      ensures Birth(t.events, id) ==
        if Birth(b.events, id) < |b.events| then Birth(b.events, id)
        else if cmd.entry.record.recordId == id then |b.events| else |b.events| + 1
    {
      BirthOneMore(b.events, t.events[|b.events|], id);
    }
  }

  lemma WriteKeepsLinks(b: Bucket, sequence: nat, cmd: Command)
    requires Linked(b) && LinkSafe(b, cmd.entry)
    ensures Linked(Written(b, sequence, cmd)) && KeepsLinks(b, Written(b, sequence, cmd))
  {
    hide Birth, Born;
    var t := Written(b, sequence, cmd);
    BirthsAfter(b, sequence, cmd);
    BornBefore(b);
    WriteKeepsClaims(b, sequence, cmd);
  }

  lemma BornBefore(b: Bucket)
    requires Born(b)
    ensures forall id: Id :: id in b.entries ==> Birth(b.events, id) < |b.events|
  {
  }

  lemma WriteKeepsClaims(b: Bucket, sequence: nat, cmd: Command)
    requires Claimed(b) && LinkSafe(b, cmd.entry)
    ensures Claimed(Written(b, sequence, cmd))
  {
  }

  // What operations know about the links ------------------------------------------------

  ghost predicate NotSelf(a: AppendInput) {
    !a.resurrection && a.record.supersedes != Some(a.record.recordId)
  }

  ghost predicate Allowed(b: Bucket, a: AppendInput) {
    a.record.supersedes.Some? ==>
      a.record.supersedes.value in b.entries && MayDisplace(a.record, b.entries[a.record.supersedes.value].record)
  }

  ghost predicate Stored(b: Bucket, a: AppendInput) {
    a.record.recordId in b.entries && b.entries[a.record.recordId].record.supersedes == a.record.supersedes
  }

  /** How many records a supersession chain has, the first one included. */
  ghost function ChainLength(b: Bucket, id: Id): nat
    requires Linked(b)
    decreases Birth(b.events, id)
  {
    if id in b.entries && b.entries[id].record.supersedes.Some?
        then 1 + ChainLength(b, b.entries[id].record.supersedes.value) else 1
  }

  ghost predicate Measuring(c: Limits, b: Bucket, id: Id, depth: nat, current: Option<Id>, seen: set<Id>)
    requires Linked(b)
  {
    && id in b.entries && depth <= c.maxSupersessionChainDepth + 1
    && depth + (if current.Some? then ChainLength(b, current.value) else 0) == ChainLength(b, id)
    && (current.Some? ==>
          && current.value in b.entries
          && forall s :: s in seen ==> s in b.entries && Birth(b.events, s) > Birth(b.events, current.value))
  }

  ghost predicate LinksKnown(c: Limits, b: Bucket, q: Proc)
    requires Linked(b)
  {
    match q
    case FindKey(a) => NotSelf(a)
    case GetPrior(a) => NotSelf(a)
    case CheckPrecedence(a, prior) => NotSelf(a) && prior.None?
    case CheckCapacity(a, prior) => NotSelf(a) && prior.None? && Allowed(b, a)
    case ApplyAppend(a, prior) => NotSelf(a) && prior.None? && Allowed(b, a)
    case MarkLoad(a, _) => Stored(b, a)
    case MarkApply(a, _, _) => Stored(b, a)
    case MeasureDepth(_, target, depth, current, seen) => Measuring(c, b, target.record.recordId, depth, current, seen)
    case _ => true
  }

  lemma {:induction false} ChainStays(b: Bucket, t: Bucket, id: Id)
    requires Linked(b) && Linked(t) && KeepsLinks(b, t) && id in b.entries
    ensures ChainLength(t, id) == ChainLength(b, id)
    decreases Birth(b.events, id)
  {
    hide Birth;
    if b.entries[id].record.supersedes.Some? {
      ChainStays(b, t, b.entries[id].record.supersedes.value);
    }
  }

  lemma MeasuringStays(c: Limits, b: Bucket, t: Bucket, id: Id, depth: nat, current: Option<Id>, seen: set<Id>)
    requires Linked(b) && Linked(t) && KeepsLinks(b, t) && Measuring(c, b, id, depth, current, seen)
    ensures Measuring(c, t, id, depth, current, seen)
  {
    hide Birth, Linked, ChainLength;
    ChainStays(b, t, id);
    if current.Some? {
      ChainStays(b, t, current.value);
    }
  }

  lemma KnownStays(c: Limits, b: Bucket, t: Bucket, q: Proc)
    requires Linked(b) && Linked(t) && KeepsLinks(b, t) && LinksKnown(c, b, q)
    ensures LinksKnown(c, t, q)
  {
    hide Linked, Measuring;
    if q.MeasureDepth? {
      MeasuringStays(c, b, t, q.target.record.recordId, q.depth, q.current, q.seen);
    }
  }

  lemma CommandIsLinkSafe(c: Limits, b: Bucket, q: Proc)
    requires Linked(b) && LinksKnown(c, b, q) && LocalsOk(b, q) && CommandOf(q).Some?
    requires Verdict(b, CommandOf(q).value).Applied?
    ensures LinkSafe(b, CommandOf(q).value.entry)
  {
    hide Born, Ordered, Measuring;
    if BasedOn(q).Some? {
      AppliedMeansCurrent(b, q);
    }
  }

  lemma ApplyKeepsKnown(c: Limits, b: Bucket, sequence: nat, q: Proc)
    requires Linked(b) && LinksKnown(c, b, q) && LocalsOk(b, q) && CommandOf(q).Some?
    requires Verdict(b, CommandOf(q).value).Applied?
    ensures var t := Written(b, sequence, CommandOf(q).value);
      Linked(t) && KeepsLinks(b, t) && LinksKnown(c, t, AfterApply(q, Applied))
  {
    hide Linked, Measuring, LinkSafe, KeepsLinks;
    CommandIsLinkSafe(c, b, q);
    WriteKeepsLinks(b, sequence, CommandOf(q).value);
    var t := Written(b, sequence, CommandOf(q).value);
    if q.ApplyAppend? {
      assert Stored(t, q.a);
    }
  }

  /** One round of the depth measurement. */
  lemma MeasureOnce(c: Limits, b: Bucket, id: Id, depth: nat, x: Id, seen: set<Id>)
    requires Linked(b) && Measuring(c, b, id, depth, Some(x), seen) && depth <= c.maxSupersessionChainDepth
    ensures x !in seen && Measuring(c, b, id, depth + 1, b.entries[x].record.supersedes, seen + {x})
  {
    hide Birth;
  }

  lemma ReadKeepsKnown(c: Limits, b: Bucket, q: Proc)
    requires Linked(b) && LinksKnown(c, b, q) && Filed(b)
    ensures LinksKnown(c, b, AfterRead(c, b, q))
  {
    hide Linked, Measuring, ChainLength;
    if q.MeasureDepth? {
      var id := q.target.record.recordId;
      if q.current.Some? && q.depth <= c.maxSupersessionChainDepth {
        InMeasured(c, b, id, q.depth, q.current.value, q.seen);
        MeasureOnce(c, b, id, q.depth, q.current.value, q.seen);
      }
    } else if q.SupersedeLoad? {
      if q.s.superseded in b.entries {
        StartMeasuring(c, b, q.s.superseded);
      }
    }
  }

  lemma InMeasured(c: Limits, b: Bucket, id: Id, depth: nat, x: Id, seen: set<Id>)
    requires Linked(b) && Measuring(c, b, id, depth, Some(x), seen)
    ensures x in b.entries
  {
  }

  lemma StartMeasuring(c: Limits, b: Bucket, id: Id)
    requires Linked(b) && id in b.entries
    ensures Measuring(c, b, id, 0, Some(id), {})
  {
  }

  // The system ------------------------------------------------------------------------------

  predicate WithoutResurrection(step: Step) {
    step.Spawn? && step.request.Append? ==> !step.request.append.resurrection
  }

  ghost predicate AllLinked(p: PortState) {
    forall scope: Id :: Linked(BucketOf(p, scope))
  }

  ghost predicate AllKnown(c: Limits, s: System)
    requires AllLinked(s.port)
  {
    forall i :: 0 <= i < |s.procs| ==> LinksKnown(c, BucketOf(s.port, ScopeOf(s.procs[i])), s.procs[i])
  }

  ghost predicate LinkInv(c: Limits, s: System) {
    s.port.closed || (Inv(s) && AllLinked(s.port) && AllKnown(c, s))
  }

  ghost predicate PortKeepsLinks(p: PortState, q: PortState) {
    forall scope: Id :: KeepsLinks(BucketOf(p, scope), BucketOf(q, scope))
  }

  lemma StartHasLinks(c: Limits)
    ensures LinkInv(c, START)
  {
  }

  lemma ApplyingKeepsLinks(p: PortState, scope: Id, cmd: Command)
    requires AllLinked(p)
    requires Verdict(BucketOf(p, scope), cmd).Applied? ==> LinkSafe(BucketOf(p, scope), cmd.entry)
    ensures AllLinked(Applying(p, scope, cmd)) && PortKeepsLinks(p, Applying(p, scope, cmd))
  {
    hide Linked, LinkSafe, Verdict;
    if Verdict(BucketOf(p, scope), cmd).Applied? {
      var t := Applying(p, scope, cmd);
      WriteKeepsLinks(BucketOf(p, scope), p.sequence + 1, cmd);
      assert BucketOf(t, scope) == Written(BucketOf(p, scope), p.sequence + 1, cmd);
      assert forall other: Id :: other != scope ==> BucketOf(t, other) == BucketOf(p, other);
    }
  }

  lemma GoKeepsLinks(c: Limits, s: System, i: nat)
    requires !s.port.closed && Inv(s) && AllLinked(s.port) && AllKnown(c, s) && i < |s.procs|
    ensures var t := DoGo(c, s, i);
      AllLinked(t.port) && AllKnown(c, t) && PortKeepsLinks(s.port, t.port)
  {
    hide PortOk, Journaled, AfterRead, AfterApply, CommandOf, Verdict, ScopeOf, BucketOf, Applying, Linked,
        LinksKnown, LocalsOk, LinkSafe;
    var q := s.procs[i];
    var scope := ScopeOf(q);
    var b := BucketOf(s.port, scope);
    assert Linked(b) && LinksKnown(c, b, q) && LocalsOk(b, q);
    BucketJournaled(s.port, scope);
    FiledWhenJournaled(b, s.port.sequence);
    var t := DoGo(c, s, i);
    if CommandOf(q).Some? {
      var cmd := CommandOf(q).value;
      BucketAfter(s.port, scope, cmd);
      if Verdict(b, cmd).Applied? {
        CommandIsLinkSafe(c, b, q);
        ApplyKeepsKnown(c, b, s.port.sequence + 1, q);
        ApplyKeepsLocals(b, s.port.sequence, q);
      } else {
        FailingKnows(c, b, q, Verdict(b, cmd));
      }
      ApplyingKeepsLinks(s.port, scope, cmd);
      forall k | 0 <= k < |t.procs| && k != i ensures LinksKnown(c, BucketOf(t.port, ScopeOf(t.procs[k])), t.procs[k]) {
        KnownStays(c, BucketOf(s.port, ScopeOf(t.procs[k])), BucketOf(t.port, ScopeOf(t.procs[k])), t.procs[k]);
      }
    } else {
      ReadKeepsKnown(c, b, q);
      ReadKeepsLocals(c, b, q);
      NothingLost(s.port);
    }
  }

  lemma FailingKnows(c: Limits, b: Bucket, q: Proc, outcome: Outcome)
    requires Linked(b) && CommandOf(q).Some? && !outcome.Applied?
    ensures LinksKnown(c, b, AfterApply(q, outcome)) && ScopeOf(AfterApply(q, outcome)) == ScopeOf(q)
  {
  }

  lemma NothingLost(p: PortState)
    ensures PortKeepsLinks(p, p)
  {
  }

  lemma StepKeepsLinks(c: Limits, s: System, step: Step)
    requires LinkInv(c, s) && WithoutResurrection(step)
    ensures LinkInv(c, Next(c, s, step))
    ensures !Next(c, s, step).port.closed ==> !s.port.closed && PortKeepsLinks(s.port, Next(c, s, step).port)
  {
    hide Inv, Linked, LinksKnown, DoGo, BucketOf, PortKeepsLinks;
    if !s.port.closed {
      StepKeepsInv(c, s, step);
      NothingLost(s.port);
      match step {
        case Go(i) => if i < |s.procs| { GoKeepsLinks(c, s, i); }
        case Spawn(r) =>
          BeginKnows(c, BucketOf(s.port, ScopeOf(Begin(r))), r);
        case Abort(i, e) =>
          if i < |s.procs| {
            FinishedKnows(c, BucketOf(s.port, ScopeOf(s.procs[i])), Failing(s.procs[i], e));
          }
        case CloseStore =>
      }
    } else {
      ClosedStays(c, s, step);
    }
  }

  lemma ClosedStays(c: Limits, s: System, step: Step)
    requires s.port.closed
    ensures Next(c, s, step).port.closed
  {
  }

  lemma FinishedKnows(c: Limits, b: Bucket, q: Proc)
    requires Linked(b) && q.Finished?
    ensures LinksKnown(c, b, q)
  {
  }

  lemma BeginKnows(c: Limits, b: Bucket, r: Request)
    requires Linked(b) && (r.Append? ==> !r.append.resurrection)
    ensures LinksKnown(c, b, Begin(r)) && LinksKnown(c, b, Failing(Begin(r), StoreClosed))
    ensures ScopeOf(Failing(Begin(r), StoreClosed)) == ScopeOf(Begin(r))
  {
  }

  // Runs ----------------------------------------------------------------------------------------

  lemma KeepsLinksThrough(p: PortState, q: PortState, r: PortState)
    requires PortKeepsLinks(p, q) && PortKeepsLinks(q, r)
    ensures PortKeepsLinks(p, r)
  {
    hide Birth, BucketOf;
    forall scope: Id ensures KeepsLinks(BucketOf(p, scope), BucketOf(r, scope)) {
      assert KeepsLinks(BucketOf(p, scope), BucketOf(q, scope)) && KeepsLinks(BucketOf(q, scope), BucketOf(r, scope));
    }
  }

  lemma {:induction false} EveryRunKeepsLinks(c: Limits, s: System, steps: seq<Step>)
    requires LinkInv(c, s) && forall i :: 0 <= i < |steps| ==> WithoutResurrection(steps[i])
    ensures var t := Run(c, s, steps);
      LinkInv(c, t) && (!t.port.closed ==> !s.port.closed && PortKeepsLinks(s.port, t.port))
    decreases |steps|
  {
    hide LinkInv, Next, PortKeepsLinks;
    if steps == [] {
      NothingLost(s.port);
    } else {
      var next := Next(c, s, steps[0]);
      StepKeepsLinks(c, s, steps[0]);
      assert forall i :: 0 <= i < |steps| - 1 ==> steps[1..][i] == steps[i + 1];
      EveryRunKeepsLinks(c, next, steps[1..]);
      if !Run(c, s, steps).port.closed {
        KeepsLinksThrough(s.port, next.port, Run(c, s, steps).port);
      }
    }
  }

  /** A record is superseded by one that names it, was appended later, and may displace it. */
  lemma LinksAreSafe(c: Limits, steps: seq<Step>, scope: Id, x: Id)
    requires forall i :: 0 <= i < |steps| ==> WithoutResurrection(steps[i])
    ensures var p := Run(c, START, steps).port;
      var b := BucketOf(p, scope);
      !p.closed && x in b.entries && b.entries[x].supersededBy.Some? ==>
        var r := b.entries[x].supersededBy.value;
        && r in b.entries && b.entries[r].record.supersedes == Some(x)
        && Birth(b.events, x) < Birth(b.events, r) < |b.events|
        && !(b.entries[r].record.variant.InferredCandidate? && b.entries[x].record.variant.ExplicitPreference?)
  {
    hide Birth, Run, LinksKnown, Inv;
    StartHasLinks(c);
    EveryRunKeepsLinks(c, START, steps);
    assert AllLinked(Run(c, START, steps).port) || Run(c, START, steps).port.closed;
  }

  /** Set once: whoever superseded a record stays the one that did, whatever runs afterwards. */
  lemma SupersededOnce(c: Limits, steps: seq<Step>, later: seq<Step>, scope: Id, x: Id)
    requires forall i :: 0 <= i < |steps| ==> WithoutResurrection(steps[i])
    requires forall i :: 0 <= i < |later| ==> WithoutResurrection(later[i])
    ensures var s := Run(c, START, steps);
      var t := Run(c, s, later);
      var b := BucketOf(s.port, scope);
      !t.port.closed && x in b.entries && b.entries[x].supersededBy.Some? ==>
        && x in BucketOf(t.port, scope).entries
        && BucketOf(t.port, scope).entries[x].supersededBy == b.entries[x].supersededBy
  {
    hide Birth, Run, LinkInv, BucketOf;
    StartHasLinks(c);
    EveryRunKeepsLinks(c, START, steps);
    EveryRunKeepsLinks(c, Run(c, START, steps), later);
  }

  /** The record reached by following `supersedes` `k` times. */
  function Ancestor(b: Bucket, id: Id, k: nat): Option<Id>
    decreases k
  {
    if k == 0 then Some(id)
    else if id in b.entries && b.entries[id].record.supersedes.Some?
        then Ancestor(b, b.entries[id].record.supersedes.value, k - 1)
    else None
  }

  lemma {:induction false} AncestorsAreOlder(b: Bucket, id: Id, k: nat)
    requires Linked(b) && k >= 1 && Ancestor(b, id, k).Some?
    ensures Birth(b.events, Ancestor(b, id, k).value) < Birth(b.events, id)
    decreases k
  {
    hide Birth;
    if k > 1 {
      AncestorsAreOlder(b, b.entries[id].record.supersedes.value, k - 1);
    } else {
      assert Ancestor(b, id, 1) == Ancestor(b, b.entries[id].record.supersedes.value, 0);
    }
  }

  /** No record supersedes itself through any number of links. */
  lemma NoCycles(c: Limits, steps: seq<Step>, scope: Id, id: Id, k: nat)
    requires k >= 1 && forall i :: 0 <= i < |steps| ==> WithoutResurrection(steps[i])
    ensures var p := Run(c, START, steps).port;
      !p.closed ==> Ancestor(BucketOf(p, scope), id, k) != Some(id)
  {
    hide Birth, Run, LinksKnown, Inv, Linked, Ancestor;
    StartHasLinks(c);
    EveryRunKeepsLinks(c, START, steps);
    var p := Run(c, START, steps).port;
    if !p.closed && Ancestor(BucketOf(p, scope), id, k).Some? {
      AncestorsAreOlder(BucketOf(p, scope), id, k);
    }
  }

  function Min(a: nat, b: nat): nat {
    if a <= b then a else b
  }

  /** The depth a `supersede` has measured when its loop ends is the length of the chain, cut off just above the limit;
      the loop never meets a record twice. Other operations may have run between any two of its rounds. */
  lemma DepthIsExact(c: Limits, steps: seq<Step>, i: nat)
    requires forall i :: 0 <= i < |steps| ==> WithoutResurrection(steps[i])
    ensures var s := Run(c, START, steps);
      !s.port.closed && i < |s.procs| && s.procs[i].MeasureDepth? ==>
        var q := s.procs[i];
        var b := BucketOf(s.port, q.s.scope);
        && Linked(b)
        && (q.current.None? || q.depth >= c.maxSupersessionChainDepth + 1 ==>
              q.depth == Min(ChainLength(b, q.target.record.recordId), c.maxSupersessionChainDepth + 1))
        && (q.current.Some? ==> q.current.value !in q.seen)
  {
    hide Birth, Run, Inv, Linked, BucketOf;
    StartHasLinks(c);
    EveryRunKeepsLinks(c, START, steps);
    var s := Run(c, START, steps);
    if !s.port.closed && i < |s.procs| && s.procs[i].MeasureDepth? {
      var q := s.procs[i];
      assert LinksKnown(c, BucketOf(s.port, ScopeOf(q)), q);
    }
  }

  // The loop itself, on any store --------------------------------------------------------------

  function Predecessor(b: Bucket, id: Id): Option<Id> {
    if id in b.entries then b.entries[id].record.supersedes else None
  }

  /** How many records the walk from `current` visits, at most `most`. */
  function Visited(b: Bucket, current: Option<Id>, most: nat): nat
    decreases most
  {
    if most == 0 || current.None? then 0 else 1 + Visited(b, Predecessor(b, current.value), most - 1)
  }

  /** The walk from `id` comes back to a record within `n` links. */
  ghost predicate ComesBack(b: Bucket, id: Id, n: nat) {
    exists j: nat, k: nat :: j < k <= n && Ancestor(b, id, k).Some? && Ancestor(b, id, j) == Ancestor(b, id, k)
  }

  lemma {:induction false} AncestorStep(b: Bucket, id: Id, k: nat)
    ensures Ancestor(b, id, k + 1)
         == if Ancestor(b, id, k).None? then None else Predecessor(b, Ancestor(b, id, k).value)
    decreases k
  {
    if k > 0 && Predecessor(b, id).Some? {
      AncestorStep(b, Predecessor(b, id).value, k - 1);
    } else if k == 0 && Predecessor(b, id).Some? {
      assert Ancestor(b, Predecessor(b, id).value, 0) == Predecessor(b, id);
    }
  }

  lemma {:induction false} NoAncestorsBeyond(b: Bucket, id: Id, k: nat, n: nat)
    requires k <= n && Ancestor(b, id, k).None?
    ensures Ancestor(b, id, n).None?
    decreases n
  {
    if k < n {
      NoAncestorsBeyond(b, id, k, n - 1);
      AncestorStep(b, id, n - 1);
    }
  }

  /** `supersessionDepth` run without interruption, on any store and any record: the number of records visited, cut
      off just above the limit, or the limit if the chain comes back to a record before that. */
  method SupersessionDepth(port: InMemoryMemoryStore, c: Limits, scope: Id, recordId: Id) returns (depth: nat)
    modifies port
    ensures var b := BucketOf(old(port.Now()), scope);
      var limit := c.maxSupersessionChainDepth;
      depth == if old(port.closed) then 1
               else if ComesBack(b, recordId, limit) then limit
               else Visited(b, Some(recordId), limit + 1)
    ensures port.closed == old(port.closed)
    ensures forall t: Id :: BucketOf(port.Now(), t) == BucketOf(old(port.Now()), t)
  {
    hide Ancestor, Visited, BucketOf;
    ghost var b := BucketOf(port.Now(), scope);
    ghost var limit := c.maxSupersessionChainDepth;
    depth := 0;
    var current := Some(recordId);
    var seen: set<Id> := {};
    WalkStarts(b, recordId);
    while current.Some? && depth < c.maxSupersessionChainDepth + 1
      invariant port.closed == old(port.closed)
      invariant forall t: Id :: BucketOf(port.Now(), t) == BucketOf(old(port.Now()), t)
      invariant depth <= limit + 1
      invariant port.closed ==> depth == if current.None? then 1 else 0
      invariant port.closed ==> seen == {} || current.None?
      invariant !port.closed ==> Walked(b, recordId, depth, current, seen)
      invariant !port.closed ==>
        depth + Visited(b, current, limit + 1 - depth) == Visited(b, Some(recordId), limit + 1)
      decreases c.maxSupersessionChainDepth + 1 - depth
    {
      if current.value in seen {
        CameBack(b, recordId, depth, current.value, seen, limit);
        return c.maxSupersessionChainDepth;
      }
      ghost var before := current;
      seen := seen + {current.value};
      var got := port.Get(scope, current.value);
      current := if got.Got? && got.value.Some? then got.value.value.record.supersedes else None;
      if !port.closed {
        VisitedStep(b, before, limit + 1 - depth);
        WalkOn(b, recordId, depth, before.value, seen - {before.value});
        assert seen - {before.value} + {before.value} == seen;
      }
      depth := depth + 1;
    }
    if !port.closed {
      VisitedStep(b, current, limit + 1 - depth);
      NeverCameBack(b, recordId, depth, current, seen, limit);
    }
  }

  /** After `depth` links: where the walk is, and that it has seen each record on the way once. */
  ghost predicate Walked(b: Bucket, id: Id, depth: nat, current: Option<Id>, seen: set<Id>) {
    && current == Ancestor(b, id, depth)
    && (forall s: Id :: s in seen <==> exists j: nat :: j < depth && Ancestor(b, id, j) == Some(s))
    && (forall j: nat, k: nat :: j < k < depth ==> Ancestor(b, id, j) != Ancestor(b, id, k))
    && (forall j: nat :: j < depth ==> Ancestor(b, id, j).Some?)
  }

  lemma WalkStarts(b: Bucket, id: Id)
    ensures Walked(b, id, 0, Some(id), {})
  {
  }

  lemma WalkOn(b: Bucket, id: Id, depth: nat, x: Id, seen: set<Id>)
    requires Walked(b, id, depth, Some(x), seen) && x !in seen
    ensures Walked(b, id, depth + 1, Predecessor(b, x), seen + {x})
  {
    hide Ancestor;
    AncestorStep(b, id, depth);
  }

  lemma VisitedStep(b: Bucket, current: Option<Id>, most: nat)
    ensures Visited(b, current, most)
         == if most == 0 || current.None? then 0 else 1 + Visited(b, Predecessor(b, current.value), most - 1)
  {
  }

  lemma CameBack(b: Bucket, id: Id, depth: nat, x: Id, seen: set<Id>, limit: nat)
    requires Walked(b, id, depth, Some(x), seen) && x in seen && depth <= limit
    ensures ComesBack(b, id, limit)
  {
    hide Ancestor;
    var j: nat :| j < depth && Ancestor(b, id, j) == Some(x);
  }

  lemma NeverCameBack(b: Bucket, id: Id, depth: nat, current: Option<Id>, seen: set<Id>, limit: nat)
    requires Walked(b, id, depth, current, seen) && (current.None? || depth == limit + 1)
    ensures !ComesBack(b, id, limit)
  {
    hide Ancestor;
    forall j: nat, k: nat | j < k <= limit && Ancestor(b, id, k).Some?
      ensures Ancestor(b, id, j) != Ancestor(b, id, k)
    {
      if k >= depth {
        NoAncestorsBeyond(b, id, depth, k);
      }
    }
  }

  /** Where links are well founded, the walk never comes back and visits the whole chain. */
  lemma DepthOfLinked(b: Bucket, id: Id, limit: nat)
    requires Linked(b)
    ensures !ComesBack(b, id, limit)
    ensures Visited(b, Some(id), limit + 1) == Min(ChainLength(b, id), limit + 1)
  {
    hide Linked, Ancestor, Visited, ChainLength;
    VisitedIsMin(b, id, limit + 1);
    forall j: nat, k: nat | j < k <= limit && Ancestor(b, id, k).Some?
      ensures Ancestor(b, id, j) != Ancestor(b, id, k)
    {
      LaterIsOlder(b, id, j, k);
    }
  }

  lemma {:induction false} VisitedIsMin(b: Bucket, id: Id, most: nat)
    requires Linked(b)
    ensures Visited(b, Some(id), most) == Min(ChainLength(b, id), most)
    decreases most
  {
    hide Linked;
    if most > 0 && Predecessor(b, id).Some? {
      VisitedIsMin(b, Predecessor(b, id).value, most - 1);
    }
  }

  lemma {:induction false} LaterIsOlder(b: Bucket, id: Id, j: nat, k: nat)
    requires Linked(b) && j < k && Ancestor(b, id, k).Some?
    ensures Ancestor(b, id, j) != Ancestor(b, id, k)
    decreases j
  {
    hide Birth, Linked;
    if j == 0 {
      AncestorsAreOlder(b, id, k);
    } else {
      LaterIsOlder(b, b.entries[id].record.supersedes.value, j - 1, k - 1);
    }
  }

  lemma MeasuredAll(c: Limits, b: Bucket, id: Id, depth: nat, current: Option<Id>, seen: set<Id>)
    requires Linked(b) && Measuring(c, b, id, depth, current, seen)
    requires current.None? || depth >= c.maxSupersessionChainDepth + 1
    ensures depth == Min(ChainLength(b, id), c.maxSupersessionChainDepth + 1)
  {
  }
}
