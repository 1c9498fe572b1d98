/** What each operation of the memory store answers when nothing runs beside it: every success and every error
    (packages/memory/src/store.ts).
 */
module MemoryAlone {
  import opened Basics
  import opened MemoryStore
  import opened MemoryJournal
  import opened MemoryLinks
  import opened MemoryOutcomes
  import opened MemoryContents

  /** One operation and the bucket it works on. */
  datatype Solo = Solo(bucket: Bucket, sequence: nat, proc: Proc)

  function SoloStep(c: Limits, s: Solo): Solo {
    if CommandOf(s.proc).Some? then
      var cmd := CommandOf(s.proc).value;
      var verdict := Verdict(s.bucket, cmd);
      if verdict.Applied? then Solo(Written(s.bucket, s.sequence + 1, cmd), s.sequence + 1, AfterApply(s.proc, verdict))
      else s.(proc := AfterApply(s.proc, verdict))
    else s.(proc := AfterRead(c, s.bucket, s.proc))
  }

  function SoloRun(c: Limits, s: Solo, k: nat): Solo
    decreases k
  {
    if k == 0 then s else SoloRun(c, SoloStep(c, s), k - 1)
  }

  function Turns(i: nat, k: nat): seq<Step> {
    if k == 0 then [] else [Go(i)] + Turns(i, k - 1)
  }

  lemma ScopeStays(c: Limits, b: Bucket, q: Proc, outcome: Outcome)
    ensures ScopeOf(AfterRead(c, b, q)) == ScopeOf(q)
    ensures CommandOf(q).Some? ==> ScopeOf(AfterApply(q, outcome)) == ScopeOf(q)
  {
  }

  /** Running on in a tale, with no step of another operation in between, is running alone. */
  lemma {:induction false} TurnsAreSolo(c: Limits, h: Tale, i: nat, k: nat)
    requires i < |h.system.procs| && !h.system.port.closed
    ensures var q := h.system.procs[i];
      var s := SoloRun(c, Solo(BucketOf(h.system.port, ScopeOf(q)), h.system.port.sequence, q), k);
      var t := TellAll(c, h, Turns(i, k));
      && t.system.procs == h.system.procs[i := s.proc] && !t.system.port.closed
      && BucketOf(t.system.port, ScopeOf(q)) == s.bucket && t.system.port.sequence == s.sequence
      && forall other: Id :: other != ScopeOf(q) ==> BucketOf(t.system.port, other) == BucketOf(h.system.port, other)
    decreases k
  {
    hide Tell, SoloStep, BucketOf, ScopeOf;
    if k > 0 {
      var q := h.system.procs[i];
      var s := Solo(BucketOf(h.system.port, ScopeOf(q)), h.system.port.sequence, q);
      var t := Tell(c, h, Go(i));
      TurnIsSolo(c, h, i);
      assert Turns(i, k)[0] == Go(i) && Turns(i, k)[1..] == Turns(i, k - 1);
      TurnsAreSolo(c, t, i, k - 1);
      assert h.system.procs[i := t.system.procs[i]][i := SoloRun(c, s, k).proc]
          == h.system.procs[i := SoloRun(c, s, k).proc];
    }
  }

  lemma TurnIsSolo(c: Limits, h: Tale, i: nat)
    requires i < |h.system.procs| && !h.system.port.closed
    ensures var q := h.system.procs[i];
      var s := SoloStep(c, Solo(BucketOf(h.system.port, ScopeOf(q)), h.system.port.sequence, q));
      var t := Tell(c, h, Go(i));
      && t.system.procs == h.system.procs[i := s.proc] && !t.system.port.closed && ScopeOf(s.proc) == ScopeOf(q)
      && BucketOf(t.system.port, ScopeOf(q)) == s.bucket && t.system.port.sequence == s.sequence
      && forall other: Id :: other != ScopeOf(q) ==> BucketOf(t.system.port, other) == BucketOf(h.system.port, other)
  {
    hide ScopeOf, AfterApply, AfterRead, CommandOf, Verdict, Written;
    var q := h.system.procs[i];
    var b := BucketOf(h.system.port, ScopeOf(q));
    GoIsTold(c, h, i);
    if CommandOf(q).Some? {
      ScopeStays(c, b, q, Verdict(b, CommandOf(q).value));
      BucketAfter(h.system.port, ScopeOf(q), CommandOf(q).value);
    } else {
      ScopeStays(c, b, q, Applied);
    }
  }

  lemma {:induction false} FinishedRests(c: Limits, s: Solo, k: nat)
    requires s.proc.Finished?
    ensures SoloRun(c, s, k) == s
  {
    if k > 0 {
      FinishedRests(c, s, k - 1);
    }
  }

  lemma {:induction false} SoloSplit(c: Limits, s: Solo, j: nat, k: nat)
    ensures SoloRun(c, s, j + k) == SoloRun(c, SoloRun(c, s, j), k)
    decreases j
  {
    hide SoloStep;
    if j > 0 {
      SoloSplit(c, SoloStep(c, s), j - 1, k);
    }
  }

  /** One step after which the rest of the turns change nothing more. */
  lemma SoloNext(c: Limits, s: Solo, k: nat)
    requires k > 0
    ensures SoloRun(c, s, k) == SoloRun(c, SoloStep(c, s), k - 1)
    ensures SoloStep(c, s).proc.Finished? ==> SoloRun(c, s, k) == SoloStep(c, s)
  {
    hide SoloStep;
    if SoloStep(c, s).proc.Finished? {
      FinishedRests(c, SoloStep(c, s), k - 1);
    }
  }

  lemma SoloDone(c: Limits, s: Solo)
    ensures SoloRun(c, s, 0) == s
  {
  }

  // Deciding ---------------------------------------------------------------------------------------

  function DecideAnswer(b: Bucket, d: DecideInput): Result {
    if d.recordId !in b.entries then Err(NotFound)
    else
      var x := b.entries[d.recordId];
      if x.record.variant != InferredCandidate then Err(PrecedenceViolation)
      else if x.tombstonedAt != None then Err(Error.Tombstoned)
      else if x.version != d.expectedVersion || x.confirmation != Unconfirmed then Err(Conflict)
      else Ok(x.(version := x.version + 1, confirmation := if d.confirm then Confirmed else Rejected,
                 updatedAt := d.now))
  }

  /** The entries with this one stored, if the answer is a success. */
  function Storing(b: Bucket, id: Id, answer: Result): map<Id, Entry> {
    match answer case Ok(e) => b.entries[id := e] case Err(_) => b.entries
  }

  lemma DecideReads(c: Limits, b: Bucket, sequence: nat, d: DecideInput)
    ensures SoloStep(c, Solo(b, sequence, DecideLoad(d))) == Solo(b, sequence,
      if DecideAnswer(b, d).Ok? then DecideApply(d, b.entries[d.recordId]) else Finished(d.scope, DecideAnswer(b, d)))
  {
  }

  lemma DecideWrites(c: Limits, b: Bucket, sequence: nat, d: DecideInput)
    requires Filed(b) && DecideAnswer(b, d).Ok?
    ensures var s := SoloStep(c, Solo(b, sequence, DecideApply(d, b.entries[d.recordId])));
      && s.proc == Finished(d.scope, DecideAnswer(b, d))
      && s.bucket.entries == b.entries[d.recordId := DecideAnswer(b, d).entry]
  {
    hide AfterRead;
  }

  lemma DecideAlone(c: Limits, b: Bucket, sequence: nat, d: DecideInput)
    requires Filed(b)
    ensures var s := SoloRun(c, Solo(b, sequence, Begin(Decide(d))), 2);
      s.proc == Finished(d.scope, DecideAnswer(b, d)) && s.bucket.entries == Storing(b, d.recordId, DecideAnswer(b, d))
  {
    hide SoloRun, SoloStep, DecideAnswer, Filed;
    var s0 := Solo(b, sequence, DecideLoad(d));
    SoloNext(c, s0, 2);
    DecideReads(c, b, sequence, d);
    if DecideAnswer(b, d).Ok? {
      SoloNext(c, SoloStep(c, s0), 1);
      DecideWrites(c, b, sequence, d);
    }
  }

  // Deleting ---------------------------------------------------------------------------------------

  function MarkerEntry(t: TombstoneInput): Entry {
    Entry(Record(t.markerId, TombstoneMarker, None, Some(t.recordId), t.markerFingerprint, Withheld), 1, NotApplicable,
          None, None, None, t.now)
  }

  function TombstoneAnswer(b: Bucket, t: TombstoneInput): Result {
    if t.recordId !in b.entries then Err(NotFound)
    else
      var x := b.entries[t.recordId];
      if x.version != t.expectedVersion then Err(Conflict)
      else if x.tombstonedAt != None then Err(Error.Tombstoned)
      else if t.markerId in b.entries then Err(Conflict)
      else Ok(x.(record := x.record.(body := Withheld), version := x.version + 1, tombstonedAt := Some(t.now),
                 updatedAt := t.now))
  }

  lemma TombstoneReads(c: Limits, b: Bucket, sequence: nat, t: TombstoneInput)
    ensures var s := SoloStep(c, Solo(b, sequence, TombstoneLoad(t)));
      && s.bucket == b && s.sequence == sequence
      && (if TombstoneAnswer(b, t).Ok? || (s.proc.TombstoneMark? && t.markerId in b.entries)
          then t.recordId in b.entries && s.proc == TombstoneMark(t, b.entries[t.recordId])
               && b.entries[t.recordId].version == t.expectedVersion && b.entries[t.recordId].tombstonedAt == None
          else s.proc == Finished(t.scope, TombstoneAnswer(b, t)))
  {
  }

  lemma TombstoneMarks(c: Limits, b: Bucket, sequence: nat, t: TombstoneInput, x: Entry)
    ensures var s := SoloStep(c, Solo(b, sequence, TombstoneMark(t, x)));
      if t.markerId in b.entries then s == Solo(b, sequence, Finished(t.scope, Err(Conflict)))
      else s.proc == TombstoneApply(t, x) && s.bucket.entries == b.entries[t.markerId := MarkerEntry(t)]
  {
    hide AfterRead;
  }

  lemma TombstoneWrites(c: Limits, b: Bucket, sequence: nat, t: TombstoneInput, x: Entry)
    requires x.record.recordId == t.recordId && t.recordId in b.entries && b.entries[t.recordId] == x
    ensures var s := SoloStep(c, Solo(b, sequence, TombstoneApply(t, x)));
      var e := x.(record := x.record.(body := Withheld), version := x.version + 1, tombstonedAt := Some(t.now),
                  updatedAt := t.now);
      s.proc == Finished(t.scope, Ok(e)) && s.bucket.entries == b.entries[t.recordId := e]
  {
    hide AfterRead;
  }

  lemma TombstoneAlone(c: Limits, b: Bucket, sequence: nat, t: TombstoneInput)
    requires Filed(b)
    ensures var s := SoloRun(c, Solo(b, sequence, Begin(Tombstone(t))), 3);
      && s.proc == Finished(t.scope, TombstoneAnswer(b, t))
      && s.bucket.entries == match TombstoneAnswer(b, t)
           case Ok(e) => b.entries[t.markerId := MarkerEntry(t)][t.recordId := e]
           case Err(_) => b.entries
  {
    hide SoloRun, SoloStep, MarkerEntry;
    var s0 := Solo(b, sequence, TombstoneLoad(t));
    SoloNext(c, s0, 3);
    TombstoneReads(c, b, sequence, t);
    var s1 := SoloStep(c, s0);
    if s1.proc.TombstoneMark? {
      var x := b.entries[t.recordId];
      SoloNext(c, s1, 2);
      TombstoneMarks(c, b, sequence, t, x);
      var s2 := SoloStep(c, s1);
      if t.markerId !in b.entries {
        SoloNext(c, s2, 1);
        TombstoneWrites(c, s2.bucket, s2.sequence, t, x);
      }
    }
  }

  // Appending --------------------------------------------------------------------------------------

  /** The stored record that the key stands for. */
  function Keyed(b: Bucket, a: AppendInput): Option<Entry> {
    if a.key.Some? && a.key.value in b.byIdempotencyKey && b.byIdempotencyKey[a.key.value] in b.entries
    then Some(b.entries[b.byIdempotencyKey[a.key.value]]) else None
  }

  function PredecessorError(b: Bucket, a: AppendInput): Option<Error> {
    if a.record.supersedes.None? then None
    else if a.record.supersedes.value !in b.entries then Some(NotFound)
    else
      var x := b.entries[a.record.supersedes.value];
      if x.supersededBy.Some? then Some(Conflict)
      else if a.record.variant == InferredCandidate && x.record.variant == ExplicitPreference
      then Some(PrecedenceViolation) else None
  }

  function NewAnswer(c: Limits, b: Bucket, a: AppendInput): Result {
    var prior := Lookup(b, a.record.recordId);
    if prior.Some? && prior.value.tombstonedAt.Some? && !a.resurrection then Err(Error.Tombstoned)
    else if prior.Some? && prior.value.tombstonedAt.None? then Err(Conflict)
    else if PredecessorError(b, a).Some? then Err(PredecessorError(b, a).value)
    else if |b.entries| >= c.maxRecordsPerScope then Err(LimitExceeded)
    else Ok(Entry(a.record, if prior.None? then 1 else prior.value.version + 1,
                  if a.record.variant == InferredCandidate then Unconfirmed else NotApplicable, None, None, a.key,
                  a.now))
  }

  function AppendAnswer(c: Limits, b: Bucket, a: AppendInput): Result {
    if a.record.supersedes == Some(a.record.recordId) then Err(InvalidRecord)
    else match Keyed(b, a)
      case Some(e) => if e.record.fingerprint == a.record.fingerprint then Ok(e) else Err(IdempotencyConflict)
      case None => NewAnswer(c, b, a)
  }

  /** The entries after an append that stored its record. */
  function Appended(b: Bucket, a: AppendInput, e: Entry): map<Id, Entry> {
    var entries := b.entries[a.record.recordId := e];
    if a.record.supersedes.Some? && a.record.supersedes.value in b.entries then
      var x := b.entries[a.record.supersedes.value];
      entries[a.record.supersedes.value :=
                x.(version := x.version + 1, supersededBy := Some(a.record.recordId), updatedAt := a.now)]
    else entries
  }

  function AppendLeaves(c: Limits, b: Bucket, a: AppendInput): map<Id, Entry> {
    if a.record.supersedes != Some(a.record.recordId) && Keyed(b, a).None? && NewAnswer(c, b, a).Ok?
    then Appended(b, a, NewAnswer(c, b, a).entry) else b.entries
  }

  /** From the look-up of the prior record on. */
  lemma NewAppendAlone(c: Limits, b: Bucket, sequence: nat, a: AppendInput)
    requires Filed(b) && a.record.supersedes != Some(a.record.recordId)
    ensures var s := SoloRun(c, Solo(b, sequence, GetPrior(a)), 6);
      && s.proc == Finished(a.scope, NewAnswer(c, b, a))
      && s.bucket.entries == match NewAnswer(c, b, a) case Ok(e) => Appended(b, a, e) case Err(_) => b.entries
  {
    hide SoloRun, Written, CommandOf, Verdict, AfterApply;
    var s0 := Solo(b, sequence, GetPrior(a));
    var prior := Lookup(b, a.record.recordId);
    SoloNext(c, s0, 6);
    ReadsOnly(c, s0);
    if SoloStep(c, s0).proc.CheckPrecedence? {
      var s1 := Solo(b, sequence, CheckPrecedence(a, prior));
      SoloNext(c, s1, 5);
      ReadsOnly(c, s1);
      if SoloStep(c, s1).proc.CheckCapacity? {
        var s2 := Solo(b, sequence, CheckCapacity(a, prior));
        SoloNext(c, s2, 4);
        ReadsOnly(c, s2);
        if SoloStep(c, s2).proc.ApplyAppend? {
          WritesAlone(c, b, sequence, a, prior);
        }
      }
    }
  }

  lemma ReadsOnly(c: Limits, s: Solo)
    requires s.proc.GetPrior? || s.proc.CheckPrecedence? || s.proc.CheckCapacity? || s.proc.FindKey? || s.proc.MarkLoad?
    ensures SoloStep(c, s) == s.(proc := AfterRead(c, s.bucket, s.proc))
  {
  }

  /** The writes of an append that has passed its checks. */
  lemma WritesAlone(c: Limits, b: Bucket, sequence: nat, a: AppendInput, prior: Option<Entry>)
    requires Filed(b) && a.record.supersedes != Some(a.record.recordId) && prior == Lookup(b, a.record.recordId)
    requires a.record.supersedes.Some? ==>
      a.record.supersedes.value in b.entries && b.entries[a.record.supersedes.value].supersededBy.None?
    ensures var s := SoloRun(c, Solo(b, sequence, ApplyAppend(a, prior)), 3);
      var e := NewEntry(a, prior);
      s.proc == Finished(a.scope, Ok(e)) && s.bucket.entries == Appended(b, a, e)
  {
    hide SoloRun;
    var s0, e := Solo(b, sequence, ApplyAppend(a, prior)), NewEntry(a, prior);
    SoloNext(c, s0, 3);
    var s1 := SoloStep(c, s0);
    assert s1.bucket.entries == b.entries[a.record.recordId := e];
    if a.record.supersedes.Some? {
      SoloNext(c, s1, 2);
      var s2 := SoloStep(c, s1);
      SoloNext(c, s2, 1);
      SoloDone(c, SoloStep(c, s2));
    }
  }

  lemma AppendAlone(c: Limits, b: Bucket, sequence: nat, a: AppendInput)
    requires Filed(b)
    ensures var s := SoloRun(c, Solo(b, sequence, Begin(Append(a))), 7);
      s.proc == Finished(a.scope, AppendAnswer(c, b, a)) && s.bucket.entries == AppendLeaves(c, b, a)
  {
    hide SoloRun, NewAnswer, Appended;
    var s0 := Solo(b, sequence, Begin(Append(a)));
    if a.record.supersedes == Some(a.record.recordId) {
      FinishedRests(c, s0, 7);
    } else {
      NewAppendAlone(c, b, sequence, a);
      if a.key.Some? {
        SoloNext(c, s0, 7);
        ReadsOnly(c, s0);
      } else {
        SoloSplit(c, s0, 6, 1);
        FinishedRests(c, SoloRun(c, s0, 6), 1);
      }
    }
  }

  // Superseding ------------------------------------------------------------------------------------

  /** What the walk along the chain of predecessors counts. */
  ghost function ChainDepth(c: Limits, b: Bucket, id: Id): nat {
    if ComesBack(b, id, c.maxSupersessionChainDepth) then c.maxSupersessionChainDepth
    else Visited(b, Some(id), c.maxSupersessionChainDepth + 1)
  }

  lemma {:induction false} MeasuresAlone(c: Limits, b: Bucket, sequence: nat, s: SupersedeInput, target: Entry,
      depth: nat, current: Option<Id>, seen: set<Id>) returns (k: nat)
    requires Walked(b, s.superseded, depth, current, seen) && depth <= c.maxSupersessionChainDepth + 1
    requires depth + Visited(b, current, c.maxSupersessionChainDepth + 1 - depth)
          == Visited(b, Some(s.superseded), c.maxSupersessionChainDepth + 1)
    ensures k <= c.maxSupersessionChainDepth + 2 - depth
    ensures SoloRun(c, Solo(b, sequence, MeasureDepth(s, target, depth, current, seen)), k)
         == Solo(b, sequence, Measured(c, s, ChainDepth(c, b, s.superseded)))
    decreases c.maxSupersessionChainDepth + 1 - depth
  {
    hide SoloRun, Walked, ComesBack, Visited, Measured;
    var limit := c.maxSupersessionChainDepth;
    var s0 := Solo(b, sequence, MeasureDepth(s, target, depth, current, seen));
    SoloNext(c, s0, 1);
    SoloDone(c, SoloStep(c, s0));
    k := 1;
    VisitedStep(b, current, limit + 1 - depth);
    if current.None? || depth >= limit + 1 {
      NeverCameBack(b, s.superseded, depth, current, seen, limit);
    } else if current.value in seen {
      CameBack(b, s.superseded, depth, current.value, seen, limit);
    } else {
      WalkOn(b, s.superseded, depth, current.value, seen);
      var next := MeasureDepth(s, target, depth + 1, Predecessor(b, current.value), seen + {current.value});
      var more := MeasuresAlone(c, b, sequence, s, target, depth + 1, Predecessor(b, current.value),
                                seen + {current.value});
      SoloSplit(c, s0, 1, more);
      assert SoloStep(c, s0) == Solo(b, sequence, next);
      k := 1 + more;
    }
  }

  function FilledIn(s: SupersedeInput): AppendInput {
    AppendInput(s.scope, s.replacement.(supersedes := Some(s.superseded)), None, false, s.now)
  }

  /** Why a replacement is not even tried. */
  ghost function SupersedeRefusal(c: Limits, b: Bucket, s: SupersedeInput): Option<Error> {
    if s.superseded !in b.entries then Some(NotFound)
    else
      var x := b.entries[s.superseded];
      if x.version != s.expectedVersion then Some(Conflict)
      else if x.tombstonedAt.Some? then Some(Error.Tombstoned)
      else if x.supersededBy.Some? then Some(Conflict)
      else if ChainDepth(c, b, s.superseded) >= c.maxSupersessionChainDepth then Some(LimitExceeded)
      else if s.isSealed && s.replacement.supersedes != Some(s.superseded) then Some(InvalidRecord)
      else None
  }

  ghost function SupersedeAnswer(c: Limits, b: Bucket, s: SupersedeInput): Result {
    match SupersedeRefusal(c, b, s)
    case Some(e) => Err(e)
    case None => AppendAnswer(c, b, FilledIn(s))
  }

  lemma RefusedEarly(c: Limits, b: Bucket, sequence: nat, s: SupersedeInput, k: nat)
    requires k > 0 && Filed(b)
    ensures var s1 := SoloStep(c, Solo(b, sequence, SupersedeLoad(s)));
      s1.bucket == b && s1.sequence == sequence
      && if s.superseded in b.entries && b.entries[s.superseded].version == s.expectedVersion
            && b.entries[s.superseded].tombstonedAt.None? && b.entries[s.superseded].supersededBy.None?
         then s1.proc == MeasureDepth(s, b.entries[s.superseded], 0, Some(s.superseded), {})
         else SupersedeRefusal(c, b, s).Some? && s1.proc == Finished(s.scope, Err(SupersedeRefusal(c, b, s).value))
  {
  }

  lemma MeasuredGoesOn(c: Limits, b: Bucket, sequence: nat, s: SupersedeInput, depth: nat)
    requires Filed(b)
    ensures var s1 := SoloRun(c, Solo(b, sequence, Measured(c, s, depth)), 7);
      if depth >= c.maxSupersessionChainDepth then s1 == Solo(b, sequence, Finished(s.scope, Err(LimitExceeded)))
      else if s.isSealed && s.replacement.supersedes != Some(s.superseded)
          then s1 == Solo(b, sequence, Finished(s.scope, Err(InvalidRecord)))
      else
        && s1.proc == Finished(s.scope, AppendAnswer(c, b, FilledIn(s)))
        && s1.bucket.entries == AppendLeaves(c, b, FilledIn(s))
  {
    hide SoloRun, AppendAnswer, AppendLeaves;
    AppendAlone(c, b, sequence, FilledIn(s));
    var s0 := Solo(b, sequence, Measured(c, s, depth));
    if s0.proc.Finished? {
      FinishedRests(c, s0, 7);
    }
  }

  lemma SupersedeAlone(c: Limits, b: Bucket, sequence: nat, s: SupersedeInput)
    requires Filed(b)
    ensures var end := SoloRun(c, Solo(b, sequence, Begin(Supersede(s))), c.maxSupersessionChainDepth + 10);
      && end.proc == Finished(s.scope, SupersedeAnswer(c, b, s))
      && end.bucket.entries == if SupersedeRefusal(c, b, s).Some? then b.entries else AppendLeaves(c, b, FilledIn(s))
  {
    hide SoloRun, AppendAnswer, AppendLeaves, Measured, Walked, Visited, ComesBack;
    var limit := c.maxSupersessionChainDepth;
    var s0 := Solo(b, sequence, SupersedeLoad(s));
    RefusedEarly(c, b, sequence, s, 1);
    SoloNext(c, s0, limit + 10);
    var s1 := SoloStep(c, s0);
    if s1.proc.MeasureDepth? {
      WalkStarts(b, s.superseded);
      var k := MeasuresAlone(c, b, sequence, s, s1.proc.target, 0, Some(s.superseded), {});
      SoloSplit(c, s1, k, limit + 9 - k);
      var s2 := SoloRun(c, s1, k);
      MeasuredGoesOn(c, b, sequence, s, ChainDepth(c, b, s.superseded));
      SoloSplit(c, s2, 7, limit + 2 - k);
      FinishedRests(c, SoloRun(c, s2, 7), limit + 2 - k);
    }
  }

  // All requests -----------------------------------------------------------------------------------

  function Needed(c: Limits, r: Request): nat {
    match r
    case Append(_) => 7
    case Supersede(_) => c.maxSupersessionChainDepth + 10
    case Tombstone(_) => 3
    case Decide(_) => 2
  }

  ghost function AnswerOf(c: Limits, b: Bucket, r: Request): Result {
    match r
    case Append(a) => AppendAnswer(c, b, a)
    case Supersede(s) => SupersedeAnswer(c, b, s)
    case Tombstone(t) => TombstoneAnswer(b, t)
    case Decide(d) => DecideAnswer(b, d)
  }

  ghost function LeavesOf(c: Limits, b: Bucket, r: Request): map<Id, Entry> {
    match r
    case Append(a) => AppendLeaves(c, b, a)
    case Supersede(s) => if SupersedeRefusal(c, b, s).Some? then b.entries else AppendLeaves(c, b, FilledIn(s))
    case Tombstone(t) => (
      match TombstoneAnswer(b, t)
      case Ok(e) => b.entries[t.markerId := MarkerEntry(t)][t.recordId := e]
      case Err(_) => b.entries)
    case Decide(d) => Storing(b, d.recordId, DecideAnswer(b, d))
  }

  /** In every run: an operation that is then started and runs to its end without another in between gives this answer
      and leaves these entries in its scope, and every other scope as it was. */
  lemma AloneIsExact(c: Limits, steps: seq<Step>, r: Request)
    requires var h := TaleOf(c, steps); !h.system.closed && !h.system.port.closed
    ensures var h := TaleOf(c, steps);
      var n, scope := |h.system.procs|, ScopeOfRequest(r);
      var t := TaleOf(c, steps + [Spawn(r)] + Turns(n, Needed(c, r)));
      && n < |t.system.procs|
      && t.system.procs[n] == Finished(scope, AnswerOf(c, BucketOf(h.system.port, scope), r))
      && BucketOf(t.system.port, scope).entries == LeavesOf(c, BucketOf(h.system.port, scope), r)
      && forall other: Id :: other != scope ==> BucketOf(t.system.port, other) == BucketOf(h.system.port, other)
  {
    hide TellAll, AnswerOf, LeavesOf, BucketOf, SoloRun, PortOk, LocalsOk, Turns;
    var h := TaleOf(c, steps);
    var n, scope := |h.system.procs|, ScopeOfRequest(r);
    var turns := Turns(n, Needed(c, r));
    TellJoin(c, OPENING, steps + [Spawn(r)], turns);
    TaleNext(c, steps, Spawn(r));
    var h1 := TaleOf(c, steps + [Spawn(r)]);
    SpawnedIs(c, h, r);
    TaleIsChecked(c, steps);
    BucketJournaled(h.system.port, scope);
    FiledWhenJournaled(BucketOf(h.system.port, scope), h.system.port.sequence);
    TurnsAreSolo(c, h1, n, Needed(c, r));
    RequestAlone(c, BucketOf(h.system.port, scope), h.system.port.sequence, r);
  }

  lemma SpawnedIs(c: Limits, h: Tale, r: Request)
    requires !h.system.closed
    ensures Tell(c, h, Spawn(r)).system == h.system.(procs := h.system.procs + [Begin(r)])
    ensures ScopeOf(Begin(r)) == ScopeOfRequest(r)
  {
  }

  lemma RequestAlone(c: Limits, b: Bucket, sequence: nat, r: Request)
    requires Filed(b)
    ensures var s := SoloRun(c, Solo(b, sequence, Begin(r)), Needed(c, r));
      s.proc == Finished(ScopeOfRequest(r), AnswerOf(c, b, r)) && s.bucket.entries == LeavesOf(c, b, r)
  {
    hide SoloRun, AppendAnswer, AppendLeaves, SupersedeAnswer, SupersedeRefusal, TombstoneAnswer, DecideAnswer, Filed;
    match r
    case Append(a) => AppendAlone(c, b, sequence, a);
    case Supersede(s) => SupersedeAlone(c, b, sequence, s);
    case Tombstone(t) => TombstoneAlone(c, b, sequence, t);
    case Decide(d) => DecideAlone(c, b, sequence, d);
  }

  // What goes wrong otherwise --------------------------------------------------------------------------

  /** A write that the port refuses, because another operation came between, ends its operation with a conflict. */
  lemma RefusedWriteConflicts(c: Limits, steps: seq<Step>, i: nat)
    ensures var h, t := TaleOf(c, steps), TaleOf(c, steps + [Go(i)]);
      i < |h.system.procs| && !h.system.port.closed && CommandOf(h.system.procs[i]).Some?
      && !IsWrite(c, h.system, Go(i)) ==>
        && i < |t.system.procs| && t.system.procs[i] == Finished(ScopeOf(h.system.procs[i]), Err(Conflict))
        && t.system.port == h.system.port
  {
    hide TellAll, Verdict, Written, Applying, IsWrite, CommandOf, ScopeOf, BucketOf;
    TaleNext(c, steps, Go(i));
    var h := TaleOf(c, steps);
    if i < |h.system.procs| && !h.system.port.closed && CommandOf(h.system.procs[i]).Some?
       && !IsWrite(c, h.system, Go(i))
    {
      WriteIffApplied(c, h.system, i);
      GoIsTold(c, h, i);
      OnlyWritesChange(c, h.system, Go(i));
    }
  }

  /** Once the store is closed every new operation is refused, and every one under way fails at its next step, except
      that measuring takes the failure for the end of the chain; nothing is stored any more. */
  lemma ClosedIsExact(c: Limits, steps: seq<Step>, r: Request, i: nat)
    ensures var h, t := TaleOf(c, steps), TaleOf(c, steps + [Go(i)]);
      h.system.closed ==>
        && h.system.port.closed && h.system.port.scopes == map[]
        && TaleOf(c, steps + [Spawn(r)]).system.procs
           == h.system.procs + [Finished(ScopeOfRequest(r), Err(StoreClosed))]
        && (i < |h.system.procs| && !h.system.procs[i].Finished? && !h.system.procs[i].MeasureDepth? ==>
              i < |t.system.procs| && t.system.procs[i] == Finished(ScopeOf(h.system.procs[i]), Err(StoreFailure)))
  {
    hide TellAll, ScopeOf, AfterRead, AfterApply;
    ClosedPort(c, steps);
    TaleNext(c, steps, Spawn(r));
    TaleNext(c, steps, Go(i));
    SpawnScope(r);
  }

  lemma SpawnScope(r: Request)
    ensures ScopeOf(Begin(r)) == ScopeOfRequest(r)
  {
  }

  lemma {:induction false} ClosedPort(c: Limits, steps: seq<Step>)
    ensures var s := TaleOf(c, steps).system; s.closed ==> s.port.closed && s.port.scopes == map[]
    decreases |steps|
  {
    hide TellAll, DoGo, Begin;
    if steps == [] {
      NothingToDelete(c);
    } else {
      var first, step := steps[..|steps| - 1], steps[|steps| - 1];
      ClosedPort(c, first);
      TaleNext(c, first, step);
      assert first + [step] == steps;
      ClosedPortStays(c, TaleOf(c, first).system, step);
    }
  }

  lemma ClosedPortStays(c: Limits, s: System, step: Step)
    requires s.closed ==> s.port.closed && s.port.scopes == map[]
    ensures var t := Next(c, s, step); t.closed ==> t.port.closed && t.port.scopes == map[]
  {
    hide Begin, GoClosed, AfterRead, AfterApply, Applying, CommandOf;
  }
}
