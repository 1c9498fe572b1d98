/** What the memory store holds, in terms of the requests that were made, under every interleaving and with
    resurrections included (packages/memory/src/store.ts).
 */
module MemoryContents {
  import opened Basics
  import opened MemoryStore
  import opened MemoryJournal
  import opened MemoryOutcomes

  // What operations have checked ---------------------------------------------------------------

  /** An entry as an append makes it, whatever its version. */
  ghost predicate IsNew(a: AppendInput, e: Entry) {
    && e.record == a.record && e.supersededBy == None && e.tombstonedAt == None && e.idempotencyKey == a.key
    && e.updatedAt == a.now
    && e.confirmation == if a.record.variant == InferredCandidate then Unconfirmed else NotApplicable
  }

  ghost predicate CheckedTarget(t: TombstoneInput, x: Entry) {
    x.record.recordId == t.recordId && x.version == t.expectedVersion && x.tombstonedAt == None
  }

  ghost predicate CheckedCandidate(d: DecideInput, x: Entry) {
    && x.record.recordId == d.recordId && x.version == d.expectedVersion && x.tombstonedAt == None
    && x.record.variant == InferredCandidate && x.confirmation == Unconfirmed
  }

  ghost predicate Checked(q: Proc) {
    match q
    case MarkLoad(a, stored) => IsNew(a, stored)
    case MarkApply(a, stored, _) => IsNew(a, stored)
    case TombstoneMark(t, target) => CheckedTarget(t, target)
    case TombstoneApply(t, target) => CheckedTarget(t, target)
    case DecideApply(d, target) => CheckedCandidate(d, target)
    case _ => true
  }

  lemma ReadKeepsChecked(c: Limits, b: Bucket, q: Proc)
    requires Filed(b) && Checked(q)
    ensures Checked(AfterRead(c, b, q))
  {
    hide StartAppend;
    StartIsChecked();
  }

  lemma StartIsChecked()
    ensures forall a :: Checked(StartAppend(a))
  {
  }

  lemma ApplyKeepsChecked(q: Proc, outcome: Outcome)
    requires Checked(q) && CommandOf(q).Some?
    ensures Checked(AfterApply(q, outcome))
  {
  }

  ghost predicate AllChecked(s: System) {
    forall i :: 0 <= i < |s.procs| ==> Checked(s.procs[i])
  }

  lemma GoKeepsChecked(c: Limits, s: System, i: nat)
    requires Inv(s) && AllChecked(s) && i < |s.procs|
    ensures AllChecked(DoGo(c, s, i))
  {
    hide Checked, LocalsOk, PortOk, Journaled, AfterRead, AfterApply, CommandOf, Verdict, ScopeOf, BucketOf, Applying,
        GoClosed;
    var q := s.procs[i];
    if s.port.closed {
      ClosedIsChecked(c, q);
    } else if CommandOf(q).Some? {
      ApplyKeepsChecked(q, Verdict(BucketOf(s.port, ScopeOf(q)), CommandOf(q).value));
    } else {
      BucketJournaled(s.port, ScopeOf(q));
      FiledWhenJournaled(BucketOf(s.port, ScopeOf(q)), s.port.sequence);
      ReadKeepsChecked(c, BucketOf(s.port, ScopeOf(q)), q);
    }
  }

  lemma ClosedIsChecked(c: Limits, q: Proc)
    requires Checked(q)
    ensures Checked(GoClosed(c, q))
  {
    hide AfterRead;
    ReadKeepsChecked(c, EMPTY_BUCKET, q);
  }

  lemma BeginIsChecked(r: Request, e: Error)
    ensures Checked(Begin(r)) && Checked(Failing(Begin(r), e))
  {
  }

  lemma StepKeepsChecked(c: Limits, s: System, step: Step)
    requires Inv(s) && AllChecked(s)
    ensures AllChecked(Next(c, s, step))
  {
    hide Checked, Inv, DoGo, Begin;
    match step {
      case Go(i) => if i < |s.procs| { GoKeepsChecked(c, s, i); }
      case Spawn(r) => BeginIsChecked(r, StoreClosed);
      case Abort(i, e) => if i < |s.procs| { FailureIsChecked(s.procs[i], e); }
      case CloseStore =>
    }
  }

  lemma FailureIsChecked(q: Proc, e: Error)
    ensures Checked(Failing(q, e))
  {
  }

  lemma {:induction false} RunKeepsChecked(c: Limits, s: System, steps: seq<Step>)
    requires Inv(s) && AllChecked(s)
    ensures Inv(Run(c, s, steps)) && AllChecked(Run(c, s, steps))
    decreases |steps|
  {
    hide Inv, Next, AllChecked;
    if steps != [] {
      StepKeepsInv(c, s, steps[0]);
      StepKeepsChecked(c, s, steps[0]);
      RunKeepsChecked(c, Next(c, s, steps[0]), steps[1..]);
    }
  }

  /** Every reachable system. */
  lemma TaleIsChecked(c: Limits, steps: seq<Step>)
    ensures Inv(TaleOf(c, steps).system) && AllChecked(TaleOf(c, steps).system)
  {
    hide TellAll;
    StartHasInv();
    RunKeepsChecked(c, START, steps);
  }

  // What a write stores ----------------------------------------------------------------------------

  /** The record that a request writes, first and second. */
  function Subject(r: Request, first: bool): Option<Id> {
    match r
    case Append(a) => if first then Some(a.record.recordId) else a.record.supersedes
    case Supersede(s) => Some(if first then s.replacement.recordId else s.superseded)
    case Tombstone(t) => Some(if first then t.markerId else t.recordId)
    case Decide(d) => Some(d.recordId)
  }

  function ScopeOfRequest(r: Request): Id {
    match r
    case Append(a) => a.scope
    case Supersede(s) => s.scope
    case Tombstone(t) => t.scope
    case Decide(d) => d.scope
  }

  /** A new record: over nothing, or by resurrection over a tombstone. */
  ghost predicate Stores(a: AppendInput, before: Option<Entry>, e: Entry) {
    && IsNew(a, e)
    && (before.Some? ==> before.value.tombstonedAt.Some? && a.resurrection && e.version == before.value.version + 1)
    && (before.None? ==> e.version == 1)
  }

  /** The request's first or second write, over what was stored before. */
  ghost predicate IsRightWrite(r: Request, first: bool, before: Option<Entry>, e: Entry, kind: EventKind) {
    match r
    case Append(a) =>
      if first then Stores(a, before, e) && kind == WasAppended
      else
        && before.Some? && before.value.supersededBy == None && kind == WasSuperseded
        && e == before.value.(version := before.value.version + 1, supersededBy := Some(a.record.recordId),
                              updatedAt := a.now)
    case Supersede(s) =>
      if first
      then
        && Stores(AppendInput(s.scope, s.replacement.(supersedes := Some(s.superseded)), None, false, s.now), before, e)
        && kind == WasAppended
      else
        && before.Some? && before.value.supersededBy == None && kind == WasSuperseded
        && e == before.value.(version := before.value.version + 1, supersededBy := Some(s.replacement.recordId),
                              updatedAt := s.now)
    case Tombstone(t) =>
      && kind == WasTombstoned
      && if first
         then
           && before == None
           && e == Entry(Record(t.markerId, TombstoneMarker, None, Some(t.recordId), t.markerFingerprint, Withheld), 1,
                         NotApplicable, None, None, None, t.now)
         else
           && before.Some? && before.value.version == t.expectedVersion && before.value.tombstonedAt == None
           && e == before.value.(record := before.value.record.(body := Withheld), version := t.expectedVersion + 1,
                                 tombstonedAt := Some(t.now), updatedAt := t.now)
    case Decide(d) =>
      && before.Some? && before.value.version == d.expectedVersion && before.value.tombstonedAt == None
      && before.value.record.variant == InferredCandidate && before.value.confirmation == Unconfirmed
      && kind == (if d.confirm then WasConfirmed else WasRejected)
      && e == before.value.(version := d.expectedVersion + 1, confirmation := if d.confirm then Confirmed else Rejected,
                            updatedAt := d.now)
  }

  /** The bucket after one entry has gone in, with its key and its journal event. */
  ghost predicate Adds(b: Bucket, after: Bucket, id: Id, e: Entry, kind: EventKind, sequence: nat) {
    && after.entries == b.entries[id := e]
    && after.byIdempotencyKey
       == (if e.idempotencyKey.Some? then b.byIdempotencyKey[e.idempotencyKey.value := id] else b.byIdempotencyKey)
    && after.events == b.events + [Event(sequence, id, kind, e.updatedAt, e.record.fingerprint, e.version)]
  }

  lemma RightCommand(b: Bucket, q: Proc, r: Request, writes: nat)
    requires Accounted(r, q, writes) && Checked(q) && LocalsOk(b, q)
    requires CommandOf(q).Some? && Verdict(b, CommandOf(q).value).Applied?
    ensures var cmd := CommandOf(q).value;
      var id := cmd.entry.record.recordId;
      && ScopeOf(q) == ScopeOfRequest(r) && Subject(r, writes == 0) == Some(id)
      && IsRightWrite(r, writes == 0, Lookup(b, id), cmd.entry, cmd.kind)
  {
    if BasedOn(q).Some? {
      AppliedMeansCurrent(b, q);
    }
  }

  /** From `p` to `u` exactly this write of the request has gone in. */
  ghost predicate HasWritten(r: Request, first: bool, p: PortState, u: PortState) {
    && Subject(r, first).Some?
    && var scope, id := ScopeOfRequest(r), Subject(r, first).value;
      && (exists e, kind ::
            && IsRightWrite(r, first, Lookup(BucketOf(p, scope), id), e, kind)
            && Adds(BucketOf(p, scope), BucketOf(u, scope), id, e, kind, p.sequence + 1))
      && forall other: Id :: other != scope ==> BucketOf(u, other) == BucketOf(p, other)
  }

  lemma WriteAdds(b: Bucket, sequence: nat, cmd: Command)
    ensures Adds(b, Written(b, sequence, cmd), cmd.entry.record.recordId, cmd.entry, cmd.kind, sequence)
  {
  }

  /** Whatever runs besides: a step that writes, writes what its request asks for, over what it asked to replace. */
  lemma WritesAreExact(c: Limits, steps: seq<Step>, i: nat)
    ensures var h := TaleOf(c, steps);
      i < |h.writes| && IsWrite(c, h.system, Go(i)) ==>
        HasWritten(h.requests[i], h.writes[i] == 0, h.system.port, Next(c, h.system, Go(i)).port)
  {
    hide TellAll, Accounted, Checked, LocalsOk, CommandOf, Verdict, Written, IsRightWrite, Adds, PortOk, ScopeOf;
    hide Subject, ScopeOfRequest, IsWrite, Lookup;
    TaleIsChecked(c, steps);
    var h := TaleOf(c, steps);
    if i < |h.writes| && IsWrite(c, h.system, Go(i)) {
      var q, r := h.system.procs[i], h.requests[i];
      assert Accounted(r, q, h.writes[i]);
      BucketWritten(c, h.system, i);
      var b, cmd := BucketOf(h.system.port, ScopeOf(q)), CommandOf(q).value;
      RightCommand(b, q, r, h.writes[i]);
      WriteAdds(b, h.system.port.sequence + 1, cmd);
      GoIsNext(c, h.system, i);
    }
  }

  lemma TaleNext(c: Limits, steps: seq<Step>, step: Step)
    ensures TaleOf(c, steps + [step]) == Tell(c, TaleOf(c, steps), step)
  {
    hide Tell;
    TellJoin(c, OPENING, steps, [step]);
    TellOne(c, TaleOf(c, steps), step);
  }

  /** A step changes the port by one write of one request, or closes it, or not at all. */
  lemma StepEffect(c: Limits, steps: seq<Step>, step: Step)
    ensures var h, t := TaleOf(c, steps), TaleOf(c, steps + [step]);
      && (IsWrite(c, h.system, step) ==>
            && step.Go? && step.proc < |h.writes|
            && HasWritten(h.requests[step.proc], h.writes[step.proc] == 0, h.system.port, t.system.port))
      && (!IsWrite(c, h.system, step) && !step.CloseStore? ==> t.system.port == h.system.port)
      && (step.CloseStore? ==> t.system.port.closed)
      && (h.system.port.closed ==> t.system.port.closed)
  {
    hide TellAll, HasWritten, IsWrite, DoGo;
    TaleNext(c, steps, step);
    var h := TaleOf(c, steps);
    if IsWrite(c, h.system, step) {
      WritesByProc(c, h.system, step);
      WritesAreExact(c, steps, step.proc);
    } else if !step.CloseStore? {
      OnlyWritesChange(c, h.system, step);
    }
    StaysClosed(c, h.system, step);
  }

  lemma StaysClosed(c: Limits, s: System, step: Step)
    ensures s.port.closed ==> Next(c, s, step).port.closed
    ensures step.CloseStore? ==> Next(c, s, step).port.closed
  {
    hide Begin, GoClosed, AfterApply, AfterRead;
  }

  // Deleted texts ------------------------------------------------------------------------------------

  ghost predicate NoDeletedText(p: PortState) {
    forall scope: Id, id: Id ::
      id in BucketOf(p, scope).entries && BucketOf(p, scope).entries[id].tombstonedAt.Some? ==>
        BucketOf(p, scope).entries[id].record.body == Withheld
  }

  lemma RightWriteIsTidy(r: Request, first: bool, before: Option<Entry>, e: Entry, kind: EventKind)
    requires IsRightWrite(r, first, before, e, kind)
    requires before.Some? && before.value.tombstonedAt.Some? ==> before.value.record.body == Withheld
    ensures e.tombstonedAt.Some? ==> e.record.body == Withheld
  {
  }

  lemma WrittenIsTidy(r: Request, first: bool, p: PortState, u: PortState)
    requires HasWritten(r, first, p, u) && NoDeletedText(p)
    ensures NoDeletedText(u)
  {
    hide IsRightWrite, BucketOf, Subject;
    var scope, id := ScopeOfRequest(r), Subject(r, first).value;
    var e, kind :| IsRightWrite(r, first, Lookup(BucketOf(p, scope), id), e, kind)
      && Adds(BucketOf(p, scope), BucketOf(u, scope), id, e, kind, p.sequence + 1);
    RightWriteIsTidy(r, first, Lookup(BucketOf(p, scope), id), e, kind);
  }

  /** In every run, a tombstoned entry has no text left. */
  lemma {:induction false} DeletedIsWithheld(c: Limits, steps: seq<Step>)
    ensures !TaleOf(c, steps).system.port.closed ==> NoDeletedText(TaleOf(c, steps).system.port)
    decreases |steps|
  {
    hide TaleOf, HasWritten, IsWrite, NoDeletedText;
    if steps == [] {
      NothingToDelete(c);
    } else {
      var first, step := steps[..|steps| - 1], steps[|steps| - 1];
      DeletedIsWithheld(c, first);
      StepEffect(c, first, step);
      assert first + [step] == steps;
      var h, t := TaleOf(c, first), TaleOf(c, steps);
      if !t.system.port.closed && IsWrite(c, h.system, step) {
        WrittenIsTidy(h.requests[step.proc], h.writes[step.proc] == 0, h.system.port, t.system.port);
      }
    }
  }

  lemma NothingToDelete(c: Limits)
    ensures TaleOf(c, []) == OPENING && NoDeletedText(START.port)
  {
  }

  // Which record is stored ---------------------------------------------------------------------------

  /** The record that a write puts under its id, if it brings one. */
  function Brings(r: Request, first: bool): Option<Record> {
    if !first then None
    else match r
      case Append(a) => Some(a.record)
      case Supersede(s) => Some(s.replacement.(supersedes := Some(s.superseded)))
      case Tombstone(t) =>
        Some(Record(t.markerId, TombstoneMarker, None, Some(t.recordId), t.markerFingerprint, Withheld))
      case Decide(_) => None
  }

  /** The record last brought to this id. */
  ghost function LastBrought(c: Limits, steps: seq<Step>, scope: Id, id: Id): Option<Record>
    decreases |steps|
  {
    if steps == [] then None
    else
      var first, step := steps[..|steps| - 1], steps[|steps| - 1];
      var h := TaleOf(c, first);
      if IsWrite(c, h.system, step) && step.proc < |h.writes| && ScopeOfRequest(h.requests[step.proc]) == scope
         && Subject(h.requests[step.proc], h.writes[step.proc] == 0) == Some(id)
         && Brings(h.requests[step.proc], h.writes[step.proc] == 0).Some?
      then Brings(h.requests[step.proc], h.writes[step.proc] == 0)
      else LastBrought(c, first, scope, id)
  }

  /** What is stored of a record: all of it, or all but its text once it is deleted. */
  ghost predicate HoldsRecord(b: Bucket, id: Id, r: Option<Record>) {
    && (r.Some? <==> id in b.entries)
    && (r.Some? ==>
          b.entries[id].record == if b.entries[id].tombstonedAt.Some? then r.value.(body := Withheld) else r.value)
  }

  lemma RightWriteHolds(r: Request, first: bool, before: Option<Entry>, e: Entry, kind: EventKind,
      brought: Option<Record>)
    requires IsRightWrite(r, first, before, e, kind)
    requires brought.Some? <==> before.Some?
    requires brought.Some? ==>
      before.value.record == if before.value.tombstonedAt.Some? then brought.value.(body := Withheld) else brought.value
    ensures var now := if Brings(r, first).Some? then Brings(r, first) else brought;
      now.Some? && e.record == if e.tombstonedAt.Some? then now.value.(body := Withheld) else now.value
  {
  }

  lemma WrittenHolds(r: Request, first: bool, p: PortState, u: PortState, scope: Id, id: Id, brought: Option<Record>)
    requires HasWritten(r, first, p, u) && HoldsRecord(BucketOf(p, scope), id, brought)
    ensures HoldsRecord(BucketOf(u, scope), id,
                        if ScopeOfRequest(r) == scope && Subject(r, first) == Some(id) && Brings(r, first).Some?
                        then Brings(r, first) else brought)
  {
    hide IsRightWrite, BucketOf, Subject, Brings;
    var at, x := ScopeOfRequest(r), Subject(r, first).value;
    var e, kind :| IsRightWrite(r, first, Lookup(BucketOf(p, at), x), e, kind)
      && Adds(BucketOf(p, at), BucketOf(u, at), x, e, kind, p.sequence + 1);
    if at == scope && x == id {
      RightWriteHolds(r, first, Lookup(BucketOf(p, at), x), e, kind, brought);
    }
  }

  /** In every run, an id is in the store exactly if a write has brought a record to it, and the store holds the record
      last brought, without its text if it has been deleted since. */
  lemma {:induction false} StoreHoldsLastBrought(c: Limits, steps: seq<Step>, scope: Id, id: Id)
    ensures !TaleOf(c, steps).system.port.closed ==>
      HoldsRecord(BucketOf(TaleOf(c, steps).system.port, scope), id, LastBrought(c, steps, scope, id))
    decreases |steps|
  {
    hide TaleOf, HasWritten, IsWrite, HoldsRecord, Brings, BucketOf;
    if steps == [] {
      NothingIsHeld(c, scope, id);
    } else {
      var first, step := steps[..|steps| - 1], steps[|steps| - 1];
      StoreHoldsLastBrought(c, first, scope, id);
      StepEffect(c, first, step);
      assert first + [step] == steps;
      var h, t := TaleOf(c, first), TaleOf(c, steps);
      if !t.system.port.closed && IsWrite(c, h.system, step) {
        WrittenHolds(h.requests[step.proc], h.writes[step.proc] == 0, h.system.port, t.system.port, scope, id,
                     LastBrought(c, first, scope, id));
      }
    }
  }

  lemma NothingIsHeld(c: Limits, scope: Id, id: Id)
    ensures TaleOf(c, []) == OPENING && HoldsRecord(BucketOf(START.port, scope), id, None)
  {
  }

  // What a success means ------------------------------------------------------------------------------

  function EntryAt(h: Tale, scope: Id, id: Id): Option<Entry> {
    Lookup(BucketOf(h.system.port, scope), id)
  }

  /** Operation `i` reports success at this step. */
  ghost predicate Succeeds(h: Tale, t: Tale, i: nat) {
    && i < |h.system.procs| && i < |t.system.procs| && i < |h.requests|
    && !h.system.procs[i].Finished? && t.system.procs[i].Finished? && t.system.procs[i].result.Ok?
  }

  /** A step that ends an operation well is the last write it had to make, or finds its key in use for the same
      record. */
  lemma SuccessIsWrite(c: Limits, s: System, i: nat, r: Request, writes: nat)
    requires i < |s.procs| && Accounted(r, s.procs[i], writes) && Checked(s.procs[i])
    requires !s.procs[i].Finished? && DoGo(c, s, i).procs[i].Finished? && DoGo(c, s, i).procs[i].result.Ok?
    ensures var q, entry := s.procs[i], DoGo(c, s, i).procs[i].result.entry;
      && !s.port.closed
      && (if CommandOf(q).Some?
          then
            && IsWrite(c, s, Go(i)) && writes + 1 == FullWrites(r)
            && entry == if q.MarkApply? then q.stored else CommandOf(q).value.entry
          else
            && r.Append? && r.append.key.Some? && writes == 0
            && var b := BucketOf(s.port, r.append.scope);
              && r.append.key.value in b.byIdempotencyKey && b.byIdempotencyKey[r.append.key.value] in b.entries
              && entry == b.entries[b.byIdempotencyKey[r.append.key.value]]
              && entry.record.fingerprint == r.append.record.fingerprint)
  {
    hide BucketOf, Written, Verdict, Applying;
    WriteIffApplied(c, s, i);
    ClosedNeverSucceeds(c, s.procs[i]);
  }

  lemma ClosedNeverSucceeds(c: Limits, q: Proc)
    requires !q.Finished?
    ensures GoClosed(c, q).Finished? ==> GoClosed(c, q).result.Err?
  {
  }

  /** This step has marked the predecessor as superseded, which nobody had. */
  ghost predicate Marked(h: Tale, t: Tale, scope: Id, predecessor: Id, successor: Id) {
    && EntryAt(h, scope, predecessor).Some? && EntryAt(h, scope, predecessor).value.supersededBy == None
    && EntryAt(t, scope, predecessor).Some? && EntryAt(t, scope, predecessor).value.supersededBy == Some(successor)
  }

  /** What an operation has done when it reports success. */
  ghost predicate Done(r: Request, h: Tale, t: Tale, entry: Entry) {
    match r
    case Append(a) =>
      || (&& IsNew(a, entry)
          && if a.record.supersedes == None then EntryAt(t, a.scope, a.record.recordId) == Some(entry)
             else Marked(h, t, a.scope, a.record.supersedes.value, a.record.recordId))
      || (&& a.key.Some? && entry.record.fingerprint == a.record.fingerprint
          && t.system.port == h.system.port
          && exists id :: EntryAt(h, a.scope, id) == Some(entry))
    case Supersede(s) =>
      && IsNew(AppendInput(s.scope, s.replacement.(supersedes := Some(s.superseded)), None, false, s.now), entry)
      && Marked(h, t, s.scope, s.superseded, s.replacement.recordId)
    case Tombstone(t_) =>
      && EntryAt(t, t_.scope, t_.recordId) == Some(entry) && entry.record.recordId == t_.recordId
      && entry.tombstonedAt == Some(t_.now) && entry.record.body == Withheld
      && entry.version == t_.expectedVersion + 1 && entry.updatedAt == t_.now
    case Decide(d) =>
      && EntryAt(t, d.scope, d.recordId) == Some(entry) && entry.record.recordId == d.recordId
      && entry.confirmation == (if d.confirm then Confirmed else Rejected)
      && entry.record.variant == InferredCandidate && entry.tombstonedAt == None
      && entry.version == d.expectedVersion + 1 && entry.updatedAt == d.now
  }

  lemma GoIsTold(c: Limits, h: Tale, i: nat)
    requires i < |h.system.procs|
    ensures Tell(c, h, Go(i)).system == DoGo(c, h.system, i)
  {
    hide DoGo;
  }

  lemma WrittenEntry(q: Proc, r: Request, writes: nat, b: Bucket)
    requires Accounted(r, q, writes) && Checked(q) && LocalsOk(b, q) && CommandOf(q).Some?
    requires Verdict(b, CommandOf(q).value).Applied? && writes + 1 == FullWrites(r)
    ensures var e := CommandOf(q).value.entry;
      match r
      case Append(a) => if q.MarkApply? then IsNew(a, q.stored) else IsNew(a, e) && a.record.supersedes == None
      case Supersede(s) =>
        && q.MarkApply?
        && IsNew(AppendInput(s.scope, s.replacement.(supersedes := Some(s.superseded)), None, false, s.now), q.stored)
      case Tombstone(t) =>
        && q.TombstoneApply? && e.record.recordId == t.recordId && e.tombstonedAt == Some(t.now)
        && e.record.body == Withheld && e.version == t.expectedVersion + 1 && e.updatedAt == t.now
      case Decide(d) =>
        && q.DecideApply? && e.record.recordId == d.recordId
        && e.confirmation == (if d.confirm then Confirmed else Rejected)
        && e.record.variant == InferredCandidate && e.tombstonedAt == None
        && e.version == d.expectedVersion + 1 && e.updatedAt == d.now
  {
  }

  /** In every run, with whatever else running, an operation that reports success has done just what it was asked. */
  lemma SuccessIsDone(c: Limits, steps: seq<Step>, i: nat)
    ensures var h, t := TaleOf(c, steps), TaleOf(c, steps + [Go(i)]);
      Succeeds(h, t, i) ==> Done(h.requests[i], h, t, t.system.procs[i].result.entry)
  {
    hide TellAll, Accounted, Checked, LocalsOk, CommandOf, Verdict, Written, PortOk, ScopeOf, DoGo, FullWrites, IsNew;
    hide Lookup, BucketOf;
    TaleIsChecked(c, steps);
    TaleNext(c, steps, Go(i));
    var h, t := TaleOf(c, steps), TaleOf(c, steps + [Go(i)]);
    if Succeeds(h, t, i) {
      var q, r := h.system.procs[i], h.requests[i];
      GoIsTold(c, h, i);
      assert Accounted(r, q, h.writes[i]);
      SuccessIsWrite(c, h.system, i, r, h.writes[i]);
      SuccessDoes(c, h, t, i);
    }
  }

  lemma SuccessDoes(c: Limits, h: Tale, t: Tale, i: nat)
    requires AllAccounted(h) && Inv(h.system) && AllChecked(h.system) && i < |h.writes|
    requires t == Tell(c, h, Go(i)) && Succeeds(h, t, i)
    ensures Done(h.requests[i], h, t, t.system.procs[i].result.entry)
  {
    hide Checked, LocalsOk, Verdict, Written, PortOk, DoGo, CommandOf, ScopeOf;
    hide Lookup, BucketOf, Tell, IsWrite;
    var q, r := h.system.procs[i], h.requests[i];
    GoIsTold(c, h, i);
    SuccessIsWrite(c, h.system, i, r, h.writes[i]);
    if CommandOf(q).Some? {
      BucketWritten(c, h.system, i);
      var b, e := BucketOf(h.system.port, ScopeOf(q)), CommandOf(q).value.entry;
      WrittenEntry(q, r, h.writes[i], b);
      RightCommand(b, q, r, h.writes[i]);
      LookupWritten(b, h.system.port.sequence + 1, CommandOf(q).value);
    } else {
      RepeatChangesNothing(c, h.system, i);
      LookupIs(h, r.append.scope, r.append.key.value);
    }
  }

  lemma LookupWritten(b: Bucket, sequence: nat, cmd: Command)
    ensures Lookup(Written(b, sequence, cmd), cmd.entry.record.recordId) == Some(cmd.entry)
  {
  }

  lemma RepeatChangesNothing(c: Limits, s: System, i: nat)
    requires i < |s.procs| && CommandOf(s.procs[i]).None?
    ensures DoGo(c, s, i).port == s.port
  {
    hide AfterRead, GoClosed;
  }

  lemma LookupIs(h: Tale, scope: Id, key: Id)
    ensures var b := BucketOf(h.system.port, scope);
      key in b.byIdempotencyKey && b.byIdempotencyKey[key] in b.entries ==>
        EntryAt(h, scope, b.byIdempotencyKey[key]) == Some(b.entries[b.byIdempotencyKey[key]])
  {
  }

  // Markers ------------------------------------------------------------------------------------------------

  /** Request `j` has written this record under this id. */
  ghost predicate HasBrought(h: Tale, j: nat, scope: Id, id: Id, r: Record) {
    && j < |h.writes| && j < |h.requests| && h.writes[j] >= 1 && ScopeOfRequest(h.requests[j]) == scope
    && Subject(h.requests[j], true) == Some(id) && Brings(h.requests[j], true) == Some(r)
  }

  lemma BroughtStays(c: Limits, h: Tale, step: Step, j: nat, scope: Id, id: Id, r: Record)
    requires AllAccounted(h) && HasBrought(h, j, scope, id, r)
    ensures HasBrought(Tell(c, h, step), j, scope, id, r)
  {
    hide Next, IsWrite, Subject, Brings, ScopeOfRequest, Accounted;
  }

  /** The record last brought to an id was brought by some request, and one that has written has brought its record. */
  lemma {:induction false} BroughtByRequest(c: Limits, steps: seq<Step>, scope: Id, id: Id)
    ensures var h, last := TaleOf(c, steps), LastBrought(c, steps, scope, id);
      && (last.Some? ==> exists j: nat :: HasBrought(h, j, scope, id, last.value))
      && (forall j: nat, r: Record :: HasBrought(h, j, scope, id, r) ==> last.Some?)
    decreases |steps|
  {
    hide TaleOf, IsWrite, Brings, Subject, ScopeOfRequest;
    if steps == [] {
      NothingIsHeld(c, scope, id);
    } else {
      var first, step := steps[..|steps| - 1], steps[|steps| - 1];
      BroughtByRequest(c, first, scope, id);
      assert first + [step] == steps;
      TaleNext(c, first, step);
      StepBrings(c, first, step, scope, id);
    }
  }

  lemma StepBrings(c: Limits, first: seq<Step>, step: Step, scope: Id, id: Id)
    requires var h, last := TaleOf(c, first), LastBrought(c, first, scope, id);
      && (last.Some? ==> exists j: nat :: HasBrought(h, j, scope, id, last.value))
      && (forall j: nat, r: Record :: HasBrought(h, j, scope, id, r) ==> last.Some?)
    ensures var t, last := Tell(c, TaleOf(c, first), step), LastBrought(c, first + [step], scope, id);
      && (last.Some? ==> exists j: nat :: HasBrought(t, j, scope, id, last.value))
      && (forall j: nat, r: Record :: HasBrought(t, j, scope, id, r) ==> last.Some?)
  {
    hide TellAll, IsWrite, Brings, Subject, ScopeOfRequest, Next, Accounted;
    var h, t := TaleOf(c, first), Tell(c, TaleOf(c, first), step);
    var before, last := LastBrought(c, first, scope, id), LastBrought(c, first + [step], scope, id);
    assert (first + [step])[..|first|] == first;
    BringsFirst();
    if IsWrite(c, h.system, step) {
      WriteIsGo(c, h.system, step);
    }
    if last != before {
      assert HasBrought(t, step.proc, scope, id, last.value);
    } else if before.Some? {
      var j: nat :| HasBrought(h, j, scope, id, before.value);
      BroughtStays(c, h, step, j, scope, id, before.value);
    }
    forall j: nat, r: Record | HasBrought(t, j, scope, id, r) ensures last.Some? {
      if j < |h.writes| && h.writes[j] >= 1 {
        assert HasBrought(h, j, scope, id, r);
      }
    }
  }

  lemma BringsFirst()
    ensures forall r: Request, first: bool :: Brings(r, first).Some? ==> first
  {
  }

  lemma WriteIsGo(c: Limits, s: System, step: Step)
    requires IsWrite(c, s, step)
    ensures step.Go? && step.proc < |s.procs|
  {
    WritesByProc(c, s, step);
  }

  /** When a deletion reports success its marker is stored, with the record last brought to the marker's id; that is the
      marker naming the deleted record, unless something else has been written under that id. */
  lemma MarkerIsStored(c: Limits, steps: seq<Step>, i: nat)
    ensures var h, t := TaleOf(c, steps), TaleOf(c, steps + [Go(i)]);
      Succeeds(h, t, i) && h.requests[i].Tombstone? ==>
        var d := h.requests[i].tombstone;
        var last := LastBrought(c, steps + [Go(i)], d.scope, d.markerId);
        && EntryAt(t, d.scope, d.markerId).Some? && last.Some?
        && EntryAt(t, d.scope, d.markerId).value.record.tombstoneOf == last.value.tombstoneOf
        && ((forall j: nat, r: Record :: HasBrought(t, j, d.scope, d.markerId, r) ==> j == i) ==>
              EntryAt(t, d.scope, d.markerId).value.record.tombstoneOf == Some(d.recordId))
  {
    hide TellAll, Accounted, Checked, DoGo, BucketOf, LastBrought, Inv, AllChecked;
    TaleIsChecked(c, steps);
    TaleNext(c, steps, Go(i));
    var h, t := TaleOf(c, steps), TaleOf(c, steps + [Go(i)]);
    if Succeeds(h, t, i) && h.requests[i].Tombstone? {
      var d := h.requests[i].tombstone;
      GoIsTold(c, h, i);
      assert AllAccounted(h) && Accounted(h.requests[i], h.system.procs[i], h.writes[i]);
      CheckedAt(h.system, i);
      SuccessIsWrite(c, h.system, i, h.requests[i], h.writes[i]);
      var marker := Record(d.markerId, TombstoneMarker, None, Some(d.recordId), d.markerFingerprint, Withheld);
      assert HasBrought(t, i, d.scope, d.markerId, marker);
      BroughtByRequest(c, steps + [Go(i)], d.scope, d.markerId);
      OpenAfterSuccess(c, h.system, i);
      StoreHoldsLastBrought(c, steps + [Go(i)], d.scope, d.markerId);
    }
  }

  lemma CheckedAt(s: System, i: nat)
    requires AllChecked(s) && i < |s.procs|
    ensures Checked(s.procs[i])
  {
  }

  lemma OpenAfterSuccess(c: Limits, s: System, i: nat)
    requires i < |s.procs| && !s.port.closed
    ensures !DoGo(c, s, i).port.closed
  {
    hide AfterApply, AfterRead, Verdict;
  }

  // Deletions last -----------------------------------------------------------------------------------------

  /** No request asks for this record to be resurrected. */
  ghost predicate NobodyResurrects(h: Tale, scope: Id, id: Id) {
    forall j :: 0 <= j < |h.requests| && Resurrects(h.requests[j], scope) ==>
      h.requests[j].append.record.recordId != id
  }

  predicate Resurrects(r: Request, scope: Id) {
    r.Append? && r.append.resurrection && r.append.scope == scope
  }

  ghost predicate IsDeleted(h: Tale, scope: Id, id: Id, at: Time, r: Record) {
    && EntryAt(h, scope, id).Some? && EntryAt(h, scope, id).value.tombstonedAt == Some(at)
    && EntryAt(h, scope, id).value.record == r && r.body == Withheld
  }

  lemma RightWriteKeepsDeleted(r: Request, first: bool, before: Option<Entry>, e: Entry, kind: EventKind)
    requires IsRightWrite(r, first, before, e, kind) && before.Some? && before.value.tombstonedAt.Some?
    requires r.Append? && first ==> !r.append.resurrection
    ensures e.tombstonedAt == before.value.tombstonedAt && e.record == before.value.record
  {
  }

  lemma WrittenKeepsDeleted(r: Request, first: bool, h: Tale, t: Tale, scope: Id, id: Id, at: Time, record: Record)
    requires HasWritten(r, first, h.system.port, t.system.port) && IsDeleted(h, scope, id, at, record)
    requires r.Append? && r.append.resurrection && r.append.scope == scope ==> r.append.record.recordId != id
    ensures IsDeleted(t, scope, id, at, record)
  {
    hide IsRightWrite, BucketOf;
    var p, u := h.system.port, t.system.port;
    var where, x := ScopeOfRequest(r), Subject(r, first).value;
    var e, kind :| IsRightWrite(r, first, Lookup(BucketOf(p, where), x), e, kind)
      && Adds(BucketOf(p, where), BucketOf(u, where), x, e, kind, p.sequence + 1);
    if where == scope && x == id {
      RightWriteKeepsDeleted(r, first, Lookup(BucketOf(p, where), x), e, kind);
    }
  }

  lemma RequestsStay(c: Limits, h: Tale, step: Step)
    ensures h.requests <= Tell(c, h, step).requests
  {
    hide Next;
  }

  /** A deleted record stays deleted, and without its text, until a request resurrects it. */
  lemma {:induction false} DeletedStaysDeleted(c: Limits, steps: seq<Step>, later: seq<Step>, scope: Id, id: Id,
      at: Time, r: Record)
    requires IsDeleted(TaleOf(c, steps), scope, id, at, r) && !TaleOf(c, steps + later).system.port.closed
    requires NobodyResurrects(TaleOf(c, steps + later), scope, id)
    ensures IsDeleted(TaleOf(c, steps + later), scope, id, at, r)
    decreases |later|
  {
    hide TaleOf, HasWritten, IsWrite, IsDeleted;
    if later == [] {
      assert steps + later == steps;
    } else {
      var before, step := steps + later[..|later| - 1], later[|later| - 1];
      assert before + [step] == steps + later;
      StepEffect(c, before, step);
      TaleNext(c, before, step);
      RequestsStay(c, TaleOf(c, before), step);
      var h, t := TaleOf(c, before), TaleOf(c, steps + later);
      assert NobodyResurrects(h, scope, id) by {
        assert forall j :: 0 <= j < |h.requests| ==> h.requests[j] == t.requests[j];
      }
      DeletedStaysDeleted(c, steps, later[..|later| - 1], scope, id, at, r);
      if IsWrite(c, h.system, step) {
        WrittenKeepsDeleted(h.requests[step.proc], h.writes[step.proc] == 0, h, t, scope, id, at, r);
      } else {
        SamePort(h, t, scope, id, at, r);
      }
    }
  }

  lemma SamePort(h: Tale, t: Tale, scope: Id, id: Id, at: Time, r: Record)
    requires t.system.port == h.system.port && IsDeleted(h, scope, id, at, r)
    ensures IsDeleted(t, scope, id, at, r)
  {
  }
}
