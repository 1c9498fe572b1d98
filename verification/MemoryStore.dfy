/** The memory store over its compare-and-set port
    (packages/memory/src/store.ts, packages/memory/src/in-memory-port.ts).

    A store operation is a small program whose steps are separated by awaits; it keeps what it loaded
    in local variables while other operations run. `Proc` is such a program with its locals.
 */
module MemoryStore {
  import opened Basics

  type Id = nat
  type Time = int

  datatype Variant = ExplicitPreference | InferredCandidate | TombstoneMarker | OtherVariant
  datatype Body = Text(text: string) | Withheld
  datatype Record = Record(
    recordId: Id, variant: Variant, supersedes: Option<Id>, tombstoneOf: Option<Id>, fingerprint: nat, body: Body)

  datatype Confirmation = Unconfirmed | Confirmed | Rejected | NotApplicable
  datatype Entry = Entry(
    record: Record, version: nat, confirmation: Confirmation, supersededBy: Option<Id>,
    tombstonedAt: Option<Time>, idempotencyKey: Option<Id>, updatedAt: Time)

  datatype EventKind = WasAppended | WasConfirmed | WasRejected | WasSuperseded | WasTombstoned
  datatype Event = Event(sequence: nat, recordId: Id, kind: EventKind, occurredAt: Time, fingerprint: nat, version: nat)

  // The port ----------------------------------------------------------------

  datatype Bucket = Bucket(entries: map<Id, Entry>, byIdempotencyKey: map<Id, Id>, events: seq<Event>)
  const EMPTY_BUCKET := Bucket(map[], map[], [])

  datatype Command = Command(entry: Entry, expected: Option<nat>, kind: EventKind)
  datatype Outcome = Applied | AlreadyExists | Missing | VersionConflict

  function Lookup(b: Bucket, id: Id): Option<Entry> {
    if id in b.entries then Some(b.entries[id]) else None
  }

  function Verdict(b: Bucket, cmd: Command): Outcome {
    var id := cmd.entry.record.recordId;
    if cmd.expected.None? then (if id in b.entries then AlreadyExists else Applied)
    else if id !in b.entries then Missing
    else if b.entries[id].version != cmd.expected.value then VersionConflict
    else Applied
  }

  function Written(b: Bucket, sequence: nat, cmd: Command): Bucket {
    var e := cmd.entry;
    Bucket(b.entries[e.record.recordId := e],
           if e.idempotencyKey.Some? then b.byIdempotencyKey[e.idempotencyKey.value := e.record.recordId]
               else b.byIdempotencyKey,
           b.events + [Event(sequence, e.record.recordId, cmd.kind, e.updatedAt, e.record.fingerprint, e.version)])
  }

  /** Everything a port holds. */
  datatype PortState = PortState(scopes: map<Id, Bucket>, sequence: nat, closed: bool)
  const EMPTY_PORT := PortState(map[], 0, false)

  function BucketOf(p: PortState, scope: Id): Bucket {
    if scope in p.scopes then p.scopes[scope] else EMPTY_BUCKET
  }

  function Applying(p: PortState, scope: Id, cmd: Command): PortState {
    if Verdict(BucketOf(p, scope), cmd).Applied?
    then PortState(p.scopes[scope := Written(BucketOf(p, scope), p.sequence + 1, cmd)], p.sequence + 1, p.closed)
    else p
  }

  datatype PortResult<+T> = Got(value: T) | StoreIsClosed

  class InMemoryMemoryStore {
    var scopes: map<Id, Bucket>
    var sequence: nat
    var closed: bool

    function Now(): PortState
      reads this
    {
      PortState(scopes, sequence, closed)
    }

    constructor ()
      ensures Now() == EMPTY_PORT
    {
      scopes, sequence, closed := map[], 0, false;
    }

    /** Reading a scope files an empty bucket for it. */
    method BucketAt(scope: Id) returns (b: Bucket)
      modifies this`scopes
      ensures b == BucketOf(old(Now()), scope)
      ensures forall s: Id :: BucketOf(Now(), s) == BucketOf(old(Now()), s)
      ensures scopes == old(scopes)[scope := b]
    {
      if scope !in scopes {
        scopes := scopes[scope := EMPTY_BUCKET];
      }
      b := scopes[scope];
    }

    method Get(scope: Id, id: Id) returns (r: PortResult<Option<Entry>>)
      modifies this`scopes
      ensures r == if old(closed) then StoreIsClosed else Got(Lookup(BucketOf(old(Now()), scope), id))
      ensures forall s: Id :: BucketOf(Now(), s) == BucketOf(old(Now()), s)
    {
      if closed {
        return StoreIsClosed;
      }
      var b := BucketAt(scope);
      return Got(if id in b.entries then Some(b.entries[id]) else None);
    }

    method FindByIdempotencyKey(scope: Id, key: Id) returns (r: PortResult<Option<Entry>>)
      modifies this`scopes
      ensures r == if old(closed) then StoreIsClosed else
        var b := BucketOf(old(Now()), scope);
        Got(if key in b.byIdempotencyKey then Lookup(b, b.byIdempotencyKey[key]) else None)
      ensures forall s: Id :: BucketOf(Now(), s) == BucketOf(old(Now()), s)
    {
      if closed {
        return StoreIsClosed;
      }
      var b := BucketAt(scope);
      if key !in b.byIdempotencyKey {
        return Got(None);
      }
      var id := b.byIdempotencyKey[key];
      return Got(if id in b.entries then Some(b.entries[id]) else None);
    }

    /** Compare and set: the entry and its journal event go in together, or nothing does. */
    method Apply(scope: Id, cmd: Command) returns (r: PortResult<Outcome>)
      modifies this
      ensures old(closed) ==> r == StoreIsClosed && Now() == old(Now())
      ensures !old(closed) ==>
        && r == Got(Verdict(BucketOf(old(Now()), scope), cmd))
        && sequence == Applying(old(Now()), scope, cmd).sequence && !closed
        && forall s: Id :: BucketOf(Now(), s) == BucketOf(Applying(old(Now()), scope, cmd), s)
    {
      if closed {
        return StoreIsClosed;
      }
      var b := BucketAt(scope);
      var id := cmd.entry.record.recordId;
      if cmd.expected.None? {
        if id in b.entries {
          return Got(AlreadyExists);
        }
      } else if id !in b.entries {
        return Got(Missing);
      } else if b.entries[id].version != cmd.expected.value {
        return Got(VersionConflict);
      }
      sequence := sequence + 1;
      var index := b.byIdempotencyKey;
      if cmd.entry.idempotencyKey.Some? {
        index := index[cmd.entry.idempotencyKey.value := id];
      }
      var event := Event(sequence, id, cmd.kind, cmd.entry.updatedAt, cmd.entry.record.fingerprint, cmd.entry.version);
      scopes := scopes[scope := Bucket(b.entries[id := cmd.entry], index, b.events + [event])];
      return Got(Applied);
    }

    method Close()
      modifies this
      ensures Now() == PortState(map[], old(sequence), true)
    {
      closed := true;
      scopes := map[];
    }
  }

  // Store operations --------------------------------------------------------------

  datatype Error =
    | InvalidRecord | Tombstoned | Conflict | NotFound | PrecedenceViolation
    | LimitExceeded | IdempotencyConflict | StoreFailure | StoreClosed | Refused

  datatype Result = Ok(entry: Entry) | Err(error: Error)

  datatype Limits = Limits(maxSupersessionChainDepth: nat, maxRecordsPerScope: nat)

  datatype AppendInput = AppendInput(scope: Id, record: Record, key: Option<Id>, resurrection: bool, now: Time)
  datatype SupersedeInput = SupersedeInput(
    scope: Id, superseded: Id, expectedVersion: nat, replacement: Record, isSealed: bool, now: Time)
  datatype TombstoneInput = TombstoneInput(
    scope: Id, recordId: Id, expectedVersion: nat, markerId: Id, markerFingerprint: nat, now: Time)
  datatype DecideInput = DecideInput(scope: Id, recordId: Id, expectedVersion: nat, confirm: bool, now: Time)

  datatype Request =
    | Append(append: AppendInput)
    | Supersede(supersede: SupersedeInput)
    | Tombstone(tombstone: TombstoneInput)
    | Decide(decide: DecideInput)

  /** Where an operation stands: what it will do at its next step, and what it has loaded so far. */
  datatype Proc =
    | FindKey(a: AppendInput)
    | GetPrior(a: AppendInput)
    | CheckPrecedence(a: AppendInput, prior: Option<Entry>)
    | CheckCapacity(a: AppendInput, prior: Option<Entry>)
    | ApplyAppend(a: AppendInput, prior: Option<Entry>)
    | MarkLoad(a: AppendInput, stored: Entry)
    | MarkApply(a: AppendInput, stored: Entry, target: Entry)
    | SupersedeLoad(s: SupersedeInput)
    | MeasureDepth(s: SupersedeInput, target: Entry, depth: nat, current: Option<Id>, seen: set<Id>)
    | TombstoneLoad(t: TombstoneInput)
    | TombstoneMark(t: TombstoneInput, target: Entry)
    | TombstoneApply(t: TombstoneInput, target: Entry)
    | DecideLoad(d: DecideInput)
    | DecideApply(d: DecideInput, target: Entry)
    | Finished(scope: Id, result: Result)

  function ScopeOf(q: Proc): Id {
    match q
    case FindKey(a) => a.scope
    case GetPrior(a) => a.scope
    case CheckPrecedence(a, _) => a.scope
    case CheckCapacity(a, _) => a.scope
    case ApplyAppend(a, _) => a.scope
    case MarkLoad(a, _) => a.scope
    case MarkApply(a, _, _) => a.scope
    case SupersedeLoad(s) => s.scope
    case MeasureDepth(s, _, _, _, _) => s.scope
    case TombstoneLoad(t) => t.scope
    case TombstoneMark(t, _) => t.scope
    case TombstoneApply(t, _) => t.scope
    case DecideLoad(d) => d.scope
    case DecideApply(d, _) => d.scope
    case Finished(scope, _) => scope
  }

  function Failing(q: Proc, e: Error): Proc {
    Finished(ScopeOf(q), Err(e))
  }

  function StartAppend(a: AppendInput): Proc {
    if a.record.supersedes == Some(a.record.recordId) then Finished(a.scope, Err(InvalidRecord))
    else if a.key.Some? then FindKey(a)
    else GetPrior(a)
  }

  function Begin(r: Request): Proc {
    match r
    case Append(a) => StartAppend(a)
    case Supersede(s) => SupersedeLoad(s)
    case Tombstone(t) => TombstoneLoad(t)
    case Decide(d) => DecideLoad(d)
  }

  function NewEntry(a: AppendInput, prior: Option<Entry>): Entry {
    Entry(a.record, if prior.None? then 1 else prior.value.version + 1,
          if a.record.variant.InferredCandidate? then Unconfirmed else NotApplicable,
          None, None, a.key, a.now)
  }

  function MarkerOf(t: TombstoneInput): Entry {
    Entry(Record(t.markerId, TombstoneMarker, None, Some(t.recordId), t.markerFingerprint, Withheld),
          1, NotApplicable, None, None, None, t.now)
  }

  /** What an operation at a writing step asks the port to apply. */
  function CommandOf(q: Proc): Option<Command> {
    match q
    case ApplyAppend(a, prior) =>
      Some(Command(NewEntry(a, prior), if prior.None? then None else Some(prior.value.version), WasAppended))
    case MarkApply(a, _, target) =>
      Some(Command(target.(version := target.version + 1, supersededBy := Some(a.record.recordId), updatedAt := a.now),
                   Some(target.version), WasSuperseded))
    case TombstoneMark(t, _) => Some(Command(MarkerOf(t), None, WasTombstoned))
    case TombstoneApply(t, target) =>
      Some(Command(target.(record := target.record.(body := Withheld), version := target.version + 1,
                           tombstonedAt := Some(t.now), updatedAt := t.now),
                   Some(target.version), WasTombstoned))
    case DecideApply(d, target) =>
      Some(Command(target.(version := target.version + 1, confirmation := if d.confirm then Confirmed else Rejected,
          updatedAt := d.now),
                   Some(target.version), if d.confirm then WasConfirmed else WasRejected))
    case _ => None
  }

  function AfterApply(q: Proc, outcome: Outcome): Proc
    requires CommandOf(q).Some?
  {
    if !outcome.Applied? then Failing(q, Conflict)
    else
      var stored := CommandOf(q).value.entry;
      match q
      case ApplyAppend(a, _) => if a.record.supersedes.Some? then MarkLoad(a, stored) else Finished(a.scope, Ok(stored))
      case MarkApply(a, appended, _) => Finished(a.scope, Ok(appended))
      case TombstoneMark(t, target) => TombstoneApply(t, target)
      case _ => Finished(ScopeOf(q), Ok(stored))
  }

  /** The end of the depth measurement of `supersede`, and its hand-over to `append`. */
  function Measured(c: Limits, s: SupersedeInput, depth: nat): Proc {
    if depth >= c.maxSupersessionChainDepth then Finished(s.scope, Err(LimitExceeded))
    else if s.isSealed && s.replacement.supersedes != Some(s.superseded) then Finished(s.scope, Err(InvalidRecord))
    else StartAppend(AppendInput(s.scope, s.replacement.(supersedes := Some(s.superseded)), None, false, s.now))
  }

  /** A reading step. */
  function AfterRead(c: Limits, b: Bucket, q: Proc): Proc {
    match q
    case FindKey(a) =>
      if a.key.Some? && a.key.value in b.byIdempotencyKey && b.byIdempotencyKey[a.key.value] in b.entries then
        var existing := b.entries[b.byIdempotencyKey[a.key.value]];
        if existing.record.fingerprint == a.record.fingerprint then Finished(a.scope, Ok(existing))
        else Failing(q, IdempotencyConflict)
      else GetPrior(a)
    case GetPrior(a) =>
      var prior := Lookup(b, a.record.recordId);
      if prior.Some? && prior.value.tombstonedAt.Some? && !a.resurrection then Failing(q, Tombstoned)
      else if prior.Some? && prior.value.tombstonedAt.None? then Failing(q, Conflict)
      else CheckPrecedence(a, prior)
    case CheckPrecedence(a, prior) =>
      if a.record.supersedes.None? then CheckCapacity(a, prior)
      else if a.record.supersedes.value !in b.entries then Failing(q, NotFound)
      else
        var x := b.entries[a.record.supersedes.value];
        if x.supersededBy.Some? then Failing(q, Conflict)
        else if a.record.variant.InferredCandidate? && x.record.variant.ExplicitPreference?
            then Failing(q, PrecedenceViolation)
        else CheckCapacity(a, prior)
    case CheckCapacity(a, prior) =>
      if |b.entries| >= c.maxRecordsPerScope then Failing(q, LimitExceeded) else ApplyAppend(a, prior)
    case MarkLoad(a, stored) =>
      if a.record.supersedes.None? || a.record.supersedes.value !in b.entries then Failing(q, NotFound)
      else if b.entries[a.record.supersedes.value].supersededBy.Some? then Failing(q, Conflict)
      else MarkApply(a, stored, b.entries[a.record.supersedes.value])
    case SupersedeLoad(s) =>
      if s.superseded !in b.entries then Failing(q, NotFound)
      else
        var target := b.entries[s.superseded];
        if target.version != s.expectedVersion then Failing(q, Conflict)
        else if target.tombstonedAt.Some? then Failing(q, Tombstoned)
        else if target.supersededBy.Some? then Failing(q, Conflict)
        else MeasureDepth(s, target, 0, Some(target.record.recordId), {})
    case MeasureDepth(s, target, depth, current, seen) =>
      if current.None? || depth >= c.maxSupersessionChainDepth + 1 then Measured(c, s, depth)
      else if current.value in seen then Measured(c, s, c.maxSupersessionChainDepth)
      else
        var entry := Lookup(b, current.value);
        MeasureDepth(s, target, depth + 1, if entry.None? then None else entry.value.record.supersedes,
            seen + {current.value})
    case TombstoneLoad(t) =>
      if t.recordId !in b.entries then Failing(q, NotFound)
      else if b.entries[t.recordId].version != t.expectedVersion then Failing(q, Conflict)
      else if b.entries[t.recordId].tombstonedAt.Some? then Failing(q, Tombstoned)
      else TombstoneMark(t, b.entries[t.recordId])
    case DecideLoad(d) =>
      if d.recordId !in b.entries then Failing(q, NotFound)
      else
        var entry := b.entries[d.recordId];
        if !entry.record.variant.InferredCandidate? then Failing(q, PrecedenceViolation)
        else if entry.tombstonedAt.Some? then Failing(q, Tombstoned)
        else if entry.version != d.expectedVersion then Failing(q, Conflict)
        else if !entry.confirmation.Unconfirmed? then Failing(q, Conflict)
        else DecideApply(d, entry)
    case _ => q
  }

  // Interleaved operations ----------------------------------------------------------

  datatype System = System(port: PortState, procs: seq<Proc>, closed: bool)
  const START := System(EMPTY_PORT, [], false)

  datatype Step =
    | Spawn(request: Request)
    | Go(proc: nat)
    | Abort(proc: nat, error: Error)
    | CloseStore

  /** A closed port throws; only the depth measurement takes that for the end of the chain. */
  function GoClosed(c: Limits, q: Proc): Proc {
    match q
    case MeasureDepth(s, target, _, _, _) => AfterRead(c, EMPTY_BUCKET, q)
    case Finished(_, _) => q
    case _ => Failing(q, StoreFailure)
  }

  function DoGo(c: Limits, s: System, i: nat): System
    requires i < |s.procs|
  {
    var q := s.procs[i];
    var scope := ScopeOf(q);
    var b := BucketOf(s.port, scope);
    if s.port.closed then s.(procs := s.procs[i := GoClosed(c, q)])
    else if CommandOf(q).Some? then
      s.(port := Applying(s.port, scope, CommandOf(q).value),
         procs := s.procs[i := AfterApply(q, Verdict(b, CommandOf(q).value))])
    else s.(procs := s.procs[i := AfterRead(c, b, q)])
  }

  /** One step. A step of a missing or finished operation changes nothing; any operation may be cut short anywhere
      (a denied authorization, a failed audit, an abandoned promise). */
  function Next(c: Limits, s: System, step: Step): System {
    match step
    case Spawn(r) => s.(procs := s.procs + [if s.closed then Failing(Begin(r), StoreClosed) else Begin(r)])
    case Go(i) => if i < |s.procs| then DoGo(c, s, i) else s
    case Abort(i, e) =>
      if i < |s.procs| && !s.procs[i].Finished? then s.(procs := s.procs[i := Failing(s.procs[i], e)]) else s
    case CloseStore => System(PortState(map[], s.port.sequence, true), s.procs, true)
  }

  function Run(c: Limits, s: System, steps: seq<Step>): System
    decreases |steps|
  {
    if steps == [] then s else Run(c, Next(c, s, steps[0]), steps[1..])
  }
}
