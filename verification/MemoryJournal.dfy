/** The journal of the memory store under every interleaving, resurrections included
    (packages/memory/src/in-memory-port.ts, packages/memory/src/store.ts).
 */
module MemoryJournal {
  import opened Basics
  import opened MemoryStore

  /** The versions that the journal records for one record, in order. */
  function Versions(events: seq<Event>, id: Id): seq<nat> {
    if events == [] then []
    else
      var last := events[|events| - 1];
      Versions(events[..|events| - 1], id) + if last.recordId == id then [last.version] else []
  }

  /** 1, 2, ..., n */
  function UpTo(n: nat): seq<nat> {
    if n == 0 then [] else UpTo(n - 1) + [n]
  }

  function VersionOf(b: Bucket, id: Id): nat {
    if id in b.entries then b.entries[id].version else 0
  }

  ghost predicate Numbered(events: seq<Event>, sequence: nat) {
    && (forall i :: 0 <= i < |events| ==> 1 <= events[i].sequence <= sequence)
    && (forall i, j :: 0 <= i < j < |events| ==> events[i].sequence < events[j].sequence)
  }

  ghost predicate Filed(b: Bucket) {
    forall id: Id :: id in b.entries ==> b.entries[id].record.recordId == id && b.entries[id].version >= 1
  }

  ghost predicate Contiguous(b: Bucket) {
    forall id: Id :: Versions(b.events, id) == UpTo(VersionOf(b, id))
  }

  ghost predicate Journaled(b: Bucket, sequence: nat) {
    Numbered(b.events, sequence) && Filed(b) && Contiguous(b)
  }

  /** What was loaded is an earlier state of the entry: if the version is still the same, so is the entry. */
  ghost predicate Loaded(b: Bucket, e: Entry) {
    var id := e.record.recordId;
    id in b.entries && b.entries[id].version >= e.version && (b.entries[id].version == e.version ==> b.entries[id] == e)
  }

  /** Writes move versions forward by one and leave all other records alone. */
  ghost predicate Extends(b: Bucket, t: Bucket) {
    && b.events <= t.events
    && forall id: Id :: id in b.entries ==>
         id in t.entries && (t.entries[id] == b.entries[id] || t.entries[id].version > b.entries[id].version)
  }

  ghost predicate PriorLoaded(b: Bucket, a: AppendInput, prior: Option<Entry>) {
    prior.Some? ==>
      && Loaded(b, prior.value) && prior.value.record.recordId == a.record.recordId
      && prior.value.tombstonedAt.Some? && a.resurrection
  }

  /** What the locals of an operation have to do with the stored entries. */
  ghost predicate LocalsOk(b: Bucket, q: Proc) {
    match q
    case CheckPrecedence(a, prior) => PriorLoaded(b, a, prior)
    case CheckCapacity(a, prior) => PriorLoaded(b, a, prior)
    case ApplyAppend(a, prior) => PriorLoaded(b, a, prior)
    case MarkApply(a, _, target) => Loaded(b, target) && a.record.supersedes
        == Some(target.record.recordId) && target.supersededBy.None?
    case TombstoneMark(_, target) => Loaded(b, target)
    case TombstoneApply(_, target) => Loaded(b, target)
    case DecideApply(_, target) => Loaded(b, target)
    case _ => true
  }

  /** The version written is the one after the version expected. */
  predicate CommandOk(cmd: Command) {
    cmd.entry.version == if cmd.expected.None? then 1 else cmd.expected.value + 1
  }

  lemma LoadedStays(b: Bucket, t: Bucket, e: Entry)
    requires Loaded(b, e) && Extends(b, t)
    ensures Loaded(t, e)
  {
  }

  lemma LocalsStay(b: Bucket, t: Bucket, q: Proc)
    requires LocalsOk(b, q) && Extends(b, t)
    ensures LocalsOk(t, q)
  {
    hide Loaded, Extends;
    match q {
      case CheckPrecedence(a, prior) => if prior.Some? { LoadedStays(b, t, prior.value); }
      case CheckCapacity(a, prior) => if prior.Some? { LoadedStays(b, t, prior.value); }
      case ApplyAppend(a, prior) => if prior.Some? { LoadedStays(b, t, prior.value); }
      case MarkApply(_, _, target) => LoadedStays(b, t, target);
      case TombstoneMark(_, target) => LoadedStays(b, t, target);
      case TombstoneApply(_, target) => LoadedStays(b, t, target);
      case DecideApply(_, target) => LoadedStays(b, t, target);
      case _ =>
    }
  }

  lemma VersionsOneMore(events: seq<Event>, e: Event, id: Id)
    ensures Versions(events + [e], id) == Versions(events, id) + if e.recordId == id then [e.version] else []
  {
    assert (events + [e])[..|events + [e]| - 1] == events;
  }

  lemma WriteKeepsJournal(b: Bucket, sequence: nat, cmd: Command)
    requires Journaled(b, sequence) && Verdict(b, cmd).Applied? && CommandOk(cmd)
    ensures Journaled(Written(b, sequence + 1, cmd), sequence + 1) && Extends(b, Written(b, sequence + 1, cmd))
  {
    hide Versions, UpTo;
    var t := Written(b, sequence + 1, cmd);
    var e := t.events[|b.events|];
    var r := cmd.entry.record.recordId;
    forall id: Id ensures Versions(t.events, id) == UpTo(VersionOf(t, id)) {
      VersionsOneMore(b.events, e, id);
      if id == r {
        assert UpTo(VersionOf(b, id) + 1)
            == UpTo(VersionOf(b, id)) + [VersionOf(b, id) + 1] by { UpToStep(VersionOf(b, id)); }
      }
    }
  }

  lemma UpToStep(n: nat)
    ensures UpTo(n + 1) == UpTo(n) + [n + 1]
  {
  }

  // Steps of an operation -----------------------------------------------------------

  /** The entry that a conditional write is built from. */
  function BasedOn(q: Proc): Option<Entry> {
    match q
    case ApplyAppend(_, prior) => prior
    case MarkApply(_, _, target) => Some(target)
    case TombstoneApply(_, target) => Some(target)
    case DecideApply(_, target) => Some(target)
    case _ => None
  }

  lemma CommandsAreOk(b: Bucket, q: Proc)
    requires LocalsOk(b, q) && CommandOf(q).Some?
    ensures var cmd := CommandOf(q).value;
      && CommandOk(cmd)
      && cmd.expected.Some? == BasedOn(q).Some?
      && (BasedOn(q).Some? ==>
            cmd.expected.value == BasedOn(q).value.version && cmd.entry.record.recordId
                == BasedOn(q).value.record.recordId
            && Loaded(b, BasedOn(q).value))
  {
  }

  /** A compare on the version alone is a compare on the whole entry. */
  lemma AppliedMeansCurrent(b: Bucket, q: Proc)
    requires LocalsOk(b, q) && CommandOf(q).Some? && BasedOn(q).Some?
    ensures Verdict(b, CommandOf(q).value).Applied? ==> Lookup(b, BasedOn(q).value.record.recordId) == BasedOn(q)
  {
    CommandsAreOk(b, q);
  }

  lemma ReadKeepsLocals(c: Limits, b: Bucket, q: Proc)
    requires LocalsOk(b, q) && Filed(b)
    ensures LocalsOk(b, AfterRead(c, b, q)) && ScopeOf(AfterRead(c, b, q)) == ScopeOf(q)
  {
    hide Loaded, Filed;
    match q {
      case GetPrior(a) => StoredIsLoaded(b, a.record.recordId);
      case MarkLoad(a, _) => if a.record.supersedes.Some? { StoredIsLoaded(b, a.record.supersedes.value); }
      case TombstoneLoad(t) => StoredIsLoaded(b, t.recordId);
      case DecideLoad(d) => StoredIsLoaded(b, d.recordId);
      case _ =>
    }
  }

  lemma StoredIsLoaded(b: Bucket, id: Id)
    requires Filed(b)
    ensures id in b.entries ==> Loaded(b, b.entries[id]) && b.entries[id].record.recordId == id
  {
  }

  lemma ApplyKeepsLocals(b: Bucket, sequence: nat, q: Proc)
    requires Journaled(b, sequence) && LocalsOk(b, q) && CommandOf(q).Some?
    ensures var cmd := CommandOf(q).value;
      var t := if Verdict(b, cmd).Applied? then Written(b, sequence + 1, cmd) else b;
      LocalsOk(t, AfterApply(q, Verdict(b, cmd))) && ScopeOf(AfterApply(q, Verdict(b, cmd))) == ScopeOf(q)
  {
    hide Journaled, Versions, Loaded, Extends;
    var cmd := CommandOf(q).value;
    if Verdict(b, cmd).Applied? {
      CommandsAreOk(b, q);
      WriteKeepsJournal(b, sequence, cmd);
      if q.TombstoneMark? {
        LoadedStays(b, Written(b, sequence + 1, cmd), q.target);
      }
    }
  }

  // The system ------------------------------------------------------------------------

  ghost predicate PortOk(p: PortState) {
    && (forall scope: Id :: scope in p.scopes ==> Journaled(p.scopes[scope], p.sequence))
    && (forall s: Id, t: Id :: s in p.scopes && t in p.scopes && s != t ==>
         Apart(p.scopes[s].events, p.scopes[t].events))
  }

  /** Sequence numbers are global: no two events share one. */
  ghost predicate Apart(a: seq<Event>, b: seq<Event>) {
    forall i, j :: 0 <= i < |a| && 0 <= j < |b| ==> a[i].sequence != b[j].sequence
  }

  lemma ApartStays(a: seq<Event>, b: seq<Event>, e: Event, sequence: nat)
    requires Apart(a, b) && Apart(b, a) && Numbered(b, sequence) && e.sequence == sequence + 1
    ensures Apart(a + [e], b) && Apart(b, a + [e])
  {
  }

  ghost predicate AllLocalsOk(s: System) {
    forall i :: 0 <= i < |s.procs| ==> LocalsOk(BucketOf(s.port, ScopeOf(s.procs[i])), s.procs[i])
  }

  ghost predicate Inv(s: System) {
    s.port.closed || (PortOk(s.port) && AllLocalsOk(s))
  }

  lemma EmptyIsJournaled(sequence: nat)
    ensures Journaled(EMPTY_BUCKET, sequence)
  {
  }

  lemma LaterSequence(b: Bucket, n: nat, m: nat)
    requires Journaled(b, n) && n <= m
    ensures Journaled(b, m)
  {
  }

  lemma BucketJournaled(p: PortState, scope: Id)
    requires PortOk(p)
    ensures Journaled(BucketOf(p, scope), p.sequence)
  {
    EmptyIsJournaled(p.sequence);
  }

  lemma ApplyingKeepsPort(p: PortState, scope: Id, cmd: Command)
    requires PortOk(p) && CommandOk(cmd)
    ensures PortOk(Applying(p, scope, cmd))
    ensures forall t: Id :: Extends(BucketOf(p, t), BucketOf(Applying(p, scope, cmd), t))
  {
    hide Versions, UpTo, Contiguous, Filed, CommandOk, Written, Verdict;
    var b := BucketOf(p, scope);
    BucketJournaled(p, scope);
    if Verdict(b, cmd).Applied? {
      var q := Applying(p, scope, cmd);
      WriteKeepsJournal(b, p.sequence, cmd);
      forall t: Id | t in q.scopes ensures Journaled(q.scopes[t], q.sequence) {
        if t != scope {
          LaterSequence(p.scopes[t], p.sequence, q.sequence);
        }
      }
      SequencesStayApart(p, scope, cmd);
    }
  }

  lemma SequencesStayApart(p: PortState, scope: Id, cmd: Command)
    requires PortOk(p) && Verdict(BucketOf(p, scope), cmd).Applied?
    ensures var q := Applying(p, scope, cmd);
      forall s: Id, t: Id :: s in q.scopes && t in q.scopes && s != t ==> Apart(q.scopes[s].events, q.scopes[t].events)
  {
    hide Verdict, Contiguous, Filed, Apart, Numbered;
    var q := Applying(p, scope, cmd);
    var b := BucketOf(p, scope);
    var e := q.scopes[scope].events[|b.events|];
    forall t: Id | t in p.scopes && t != scope
      ensures Apart(q.scopes[scope].events, p.scopes[t].events) && Apart(p.scopes[t].events, q.scopes[scope].events)
    {
      assert Journaled(p.scopes[t], p.sequence);
      assert Apart(b.events, p.scopes[t].events)
          && Apart(p.scopes[t].events, b.events) by { NothingIsApart(p.scopes[t].events); }
      ApartStays(b.events, p.scopes[t].events, e, p.sequence);
    }
  }

  lemma NothingIsApart(a: seq<Event>)
    ensures Apart([], a) && Apart(a, [])
  {
  }

  lemma GoKeepsInv(c: Limits, s: System, i: nat)
    requires Inv(s) && i < |s.procs|
    ensures Inv(DoGo(c, s, i))
  {
    hide PortOk, LocalsOk, Journaled, AfterRead, AfterApply, CommandOf, CommandOk, Applying, Verdict, ScopeOf, BucketOf;
    if !s.port.closed {
      GoKeepsLocals(c, s, i);
    }
  }

  lemma GoKeepsLocals(c: Limits, s: System, i: nat)
    requires PortOk(s.port) && AllLocalsOk(s) && i < |s.procs| && !s.port.closed
    ensures PortOk(DoGo(c, s, i).port) && AllLocalsOk(DoGo(c, s, i))
  {
    hide PortOk, LocalsOk, Extends, Journaled, AfterRead, AfterApply, CommandOf, CommandOk, Verdict, ScopeOf,
        BucketOf, Applying;
    var q := s.procs[i];
    var scope := ScopeOf(q);
    var b := BucketOf(s.port, scope);
    BucketJournaled(s.port, scope);
    var t := DoGo(c, s, i);
    if CommandOf(q).Some? {
      var cmd := CommandOf(q).value;
      CommandsAreOk(b, q);
      ApplyingKeepsPort(s.port, scope, cmd);
      ApplyKeepsLocals(b, s.port.sequence, q);
      BucketAfter(s.port, scope, cmd);
      forall k | 0 <= k < |t.procs| && k != i ensures LocalsOk(BucketOf(t.port, ScopeOf(t.procs[k])), t.procs[k]) {
        LocalsStay(BucketOf(s.port, ScopeOf(t.procs[k])), BucketOf(t.port, ScopeOf(t.procs[k])), t.procs[k]);
      }
    } else {
      assert Filed(b) by { FiledWhenJournaled(b, s.port.sequence); }
      ReadKeepsLocals(c, b, q);
    }
  }

  lemma FiledWhenJournaled(b: Bucket, sequence: nat)
    requires Journaled(b, sequence)
    ensures Filed(b)
  {
  }

  lemma BucketAfter(p: PortState, scope: Id, cmd: Command)
    ensures BucketOf(Applying(p, scope, cmd), scope)
         == if Verdict(BucketOf(p, scope), cmd).Applied? then Written(BucketOf(p, scope), p.sequence + 1, cmd)
             else BucketOf(p, scope)
  {
  }

  lemma StepKeepsInv(c: Limits, s: System, step: Step)
    requires Inv(s)
    ensures Inv(Next(c, s, step))
  {
    hide PortOk, LocalsOk, Journaled, DoGo, BucketOf;
    match step {
      case Go(i) => if i < |s.procs| { GoKeepsInv(c, s, i); }
      case Spawn(r) =>
        if !s.port.closed {
          NewProcOk(s, if s.closed then Failing(Begin(r), StoreClosed) else Begin(r));
        }
      case Abort(i, e) =>
        if !s.port.closed && i < |s.procs| {
          FinishedIsOk(BucketOf(s.port, ScopeOf(s.procs[i])), Failing(s.procs[i], e));
        }
      case CloseStore =>
    }
  }

  lemma FinishedIsOk(b: Bucket, q: Proc)
    requires q.Finished? || q.FindKey? || q.GetPrior? || q.SupersedeLoad? || q.TombstoneLoad? || q.DecideLoad?
    ensures LocalsOk(b, q)
  {
  }

  lemma NewProcOk(s: System, q: Proc)
    requires AllLocalsOk(s)
    requires q.Finished? || q.FindKey? || q.GetPrior? || q.SupersedeLoad? || q.TombstoneLoad? || q.DecideLoad?
    ensures AllLocalsOk(s.(procs := s.procs + [q]))
  {
    hide LocalsOk, BucketOf;
    FinishedIsOk(BucketOf(s.port, ScopeOf(q)), q);
  }

  lemma StartHasInv()
    ensures Inv(START)
  {
  }

  lemma {:induction false} EveryRunKeepsInv(c: Limits, s: System, steps: seq<Step>)
    requires Inv(s)
    ensures Inv(Run(c, s, steps))
    decreases |steps|
  {
    hide Inv, Next;
    if steps != [] {
      StepKeepsInv(c, s, steps[0]);
      EveryRunKeepsInv(c, Next(c, s, steps[0]), steps[1..]);
    }
  }

  /** Under every interleaving, each record's journal reads 1, 2, ..., current version; sequence numbers increase
      and are never shared between scopes. */
  lemma JournalIsExact(c: Limits, steps: seq<Step>, scope: Id, id: Id)
    ensures var p := Run(c, START, steps).port;
      !p.closed ==>
        && Versions(BucketOf(p, scope).events, id) == UpTo(VersionOf(BucketOf(p, scope), id))
        && Numbered(BucketOf(p, scope).events, p.sequence)
        && forall other: Id :: other != scope ==> Apart(BucketOf(p, scope).events, BucketOf(p, other).events)
  {
    hide Versions, UpTo, Numbered, Apart, LocalsOk, Run;
    StartHasInv();
    EveryRunKeepsInv(c, START, steps);
    var p := Run(c, START, steps).port;
    if !p.closed {
      BucketJournaled(p, scope);
      forall other: Id | other != scope ensures Apart(BucketOf(p, scope).events, BucketOf(p, other).events) {
        NothingIsApart(BucketOf(p, scope).events);
        NothingIsApart(BucketOf(p, other).events);
      }
    }
  }

  /** No stale snapshot is ever written back: whatever ran in between, a conditional write that the port accepts
      replaces exactly the entry it was computed from. */
  lemma NoStaleWrite(c: Limits, steps: seq<Step>, i: nat)
    ensures var s := Run(c, START, steps);
      !s.port.closed && i < |s.procs| && CommandOf(s.procs[i]).Some? && BasedOn(s.procs[i]).Some? ==>
        var b := BucketOf(s.port, ScopeOf(s.procs[i]));
        (Verdict(b, CommandOf(s.procs[i]).value).Applied? ==>
          Lookup(b, BasedOn(s.procs[i]).value.record.recordId) == BasedOn(s.procs[i]))
  {
    hide LocalsOk, Run, PortOk, Verdict, Lookup, CommandOf, BasedOn, BucketOf;
    StartHasInv();
    EveryRunKeepsInv(c, START, steps);
    var s := Run(c, START, steps);
    if !s.port.closed && i < |s.procs| && CommandOf(s.procs[i]).Some? && BasedOn(s.procs[i]).Some? {
      AppliedMeansCurrent(BucketOf(s.port, ScopeOf(s.procs[i])), s.procs[i]);
    }
  }
}
