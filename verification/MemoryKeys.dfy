/** Idempotency keys of the memory store under every interleaving, resurrections included
    (packages/memory/src/store.ts, packages/memory/src/in-memory-port.ts).
 */
module MemoryKeys {
  import opened Basics
  import opened MemoryStore
  import opened MemoryJournal
  import opened MemoryOutcomes
  import opened MemoryRaces

  /** Request `i` appended record `id` of `scope` under `key`, with this fingerprint. */
  predicate IsKeyAuthor(h: Tale, i: nat, scope: Id, key: Id, id: Id, fingerprint: nat)
    requires |h.requests| == |h.writes|
  {
    && HasWrittenKey(h, i, scope, key)
    && h.requests[i].append.record.recordId == id && h.requests[i].append.record.fingerprint == fingerprint
  }

  ghost predicate HasKeyAuthor(h: Tale, scope: Id, key: Id, id: Id, fingerprint: nat)
    requires |h.requests| == |h.writes|
  {
    exists i: nat :: IsKeyAuthor(h, i, scope, key, id, fingerprint)
  }

  /** An entry that carries a key holds a record that was appended under this key. */
  ghost predicate KeysOwned(h: Tale, scope: Id)
    requires |h.requests| == |h.writes|
  {
    var b := BucketOf(h.system.port, scope);
    forall id: Id :: id in b.entries && b.entries[id].idempotencyKey.Some? ==>
      HasKeyAuthor(h, scope, b.entries[id].idempotencyKey.value, id, b.entries[id].record.fingerprint)
  }

  predicate HasWrittenKey(h: Tale, i: nat, scope: Id, key: Id)
    requires |h.requests| == |h.writes|
  {
    && i < |h.writes| && h.writes[i] >= 1 && h.requests[i].Append?
    && h.requests[i].append.scope == scope && h.requests[i].append.key == Some(key)
  }

  /** The key of an append that has written is in the index. */
  ghost predicate KeysIndexed(h: Tale)
    requires |h.requests| == |h.writes|
  {
    forall i: nat, scope: Id, key: Id :: HasWrittenKey(h, i, scope, key) ==>
      key in BucketOf(h.system.port, scope).byIdempotencyKey
  }

  ghost predicate KeyInv(h: Tale) {
    && AllAccounted(h) && Inv(h.system)
    && (!h.system.port.closed ==> KeysIndexed(h) && forall scope: Id :: KeysOwned(h, scope))
  }

  // One write ------------------------------------------------------------------------------------

  /** An entry is written with the key and the record of the append that writes it, or with those it had. */
  lemma KeyOfWritten(b: Bucket, q: Proc, r: Request, writes: nat)
    requires Accounted(r, q, writes) && LocalsOk(b, q) && CommandOf(q).Some? && Verdict(b, CommandOf(q).value).Applied?
    ensures var e := CommandOf(q).value.entry;
      e.idempotencyKey.Some? ==>
        || (q.ApplyAppend? && WritesKey(r, ScopeOf(q), e))
        || (e.record.recordId in b.entries && SameKey(b.entries[e.record.recordId], e))
    ensures var e := CommandOf(q).value.entry;
      !q.ApplyAppend? && e.record.recordId in b.entries ==>
        b.entries[e.record.recordId].record.fingerprint == e.record.fingerprint
  {
    if BasedOn(q).Some? && !q.ApplyAppend? {
      AppliedMeansCurrent(b, q);
    }
  }

  predicate SameKey(before: Entry, e: Entry) {
    before.idempotencyKey == e.idempotencyKey && before.record.fingerprint == e.record.fingerprint
  }

  /** The request is to append this entry under its key. */
  predicate WritesKey(r: Request, scope: Id, e: Entry) {
    r.Append? && r.append.key == e.idempotencyKey && r.append.scope == scope
    && r.append.record.recordId == e.record.recordId && r.append.record.fingerprint == e.record.fingerprint
  }

  lemma KeyAuthorStays(c: Limits, h: Tale, step: Step, scope: Id, key: Id, id: Id, fingerprint: nat)
    requires |h.requests| == |h.writes| && HasKeyAuthor(h, scope, key, id, fingerprint)
    ensures HasKeyAuthor(Tell(c, h, step), scope, key, id, fingerprint)
  {
    hide Next, IsWrite;
    var i: nat :| IsKeyAuthor(h, i, scope, key, id, fingerprint);
    assert IsKeyAuthor(Tell(c, h, step), i, scope, key, id, fingerprint);
  }

  lemma AuthorsStay(c: Limits, h: Tale, step: Step, scope: Id)
    requires |h.requests| == |h.writes|
    ensures forall key: Id, id: Id, f: nat | HasKeyAuthor(h, scope, key, id, f) ::
      HasKeyAuthor(Tell(c, h, step), scope, key, id, f)
  {
    hide Next, IsWrite, HasKeyAuthor;
    forall key: Id, id: Id, f: nat | HasKeyAuthor(h, scope, key, id, f)
      ensures HasKeyAuthor(Tell(c, h, step), scope, key, id, f)
    {
      KeyAuthorStays(c, h, step, scope, key, id, f);
    }
  }

  /** What step `i` writes under a key has an author. */
  lemma WrittenHasAuthor(c: Limits, h: Tale, i: nat)
    requires AllAccounted(h) && Inv(h.system) && i < |h.writes| && IsWrite(c, h.system, Go(i))
    requires CommandOf(h.system.procs[i]).Some? && KeysOwned(h, ScopeOf(h.system.procs[i]))
    ensures var q := h.system.procs[i];
      var e := CommandOf(q).value.entry;
      e.idempotencyKey.Some? ==>
        HasKeyAuthor(Tell(c, h, Go(i)), ScopeOf(q), e.idempotencyKey.value, e.record.recordId, e.record.fingerprint)
  {
    hide Accounted, BucketOf, ScopeOf, DoGo, Verdict, LocalsOk, PortOk, CommandOf, HasKeyAuthor, Next, IsWrite, SameKey;
    var q := h.system.procs[i];
    var scope := ScopeOf(q);
    var b := BucketOf(h.system.port, scope);
    BucketWritten(c, h.system, i);
    assert Accounted(h.requests[i], q, h.writes[i]) && LocalsOk(b, q);
    KeyOfWritten(b, q, h.requests[i], h.writes[i]);
    var e := CommandOf(q).value.entry;
    AuthorsStay(c, h, Go(i), scope);
    if e.idempotencyKey.Some? {
      if WritesKey(h.requests[i], scope, e) {
        KeyAuthorIs(Tell(c, h, Go(i)), i, scope, e.idempotencyKey.value, e.record.recordId, e.record.fingerprint);
      } else {
        OldKeyHasAuthor(h, scope, e);
      }
    }
  }

  lemma OldKeyHasAuthor(h: Tale, scope: Id, e: Entry)
    requires |h.requests| == |h.writes| && KeysOwned(h, scope) && e.idempotencyKey.Some?
    requires var b := BucketOf(h.system.port, scope);
      e.record.recordId in b.entries && SameKey(b.entries[e.record.recordId], e)
    ensures HasKeyAuthor(h, scope, e.idempotencyKey.value, e.record.recordId, e.record.fingerprint)
  {
    hide HasKeyAuthor;
  }

  lemma KeyAuthorIs(h: Tale, i: nat, scope: Id, key: Id, id: Id, fingerprint: nat)
    requires |h.requests| == |h.writes| && IsKeyAuthor(h, i, scope, key, id, fingerprint)
    ensures HasKeyAuthor(h, scope, key, id, fingerprint)
  {
  }

  lemma WriteKeepsOwned(c: Limits, h: Tale, i: nat)
    requires KeyInv(h) && !h.system.port.closed && i < |h.writes| && IsWrite(c, h.system, Go(i))
    ensures KeysOwned(Tell(c, h, Go(i)), ScopeOf(h.system.procs[i]))
  {
    hide Accounted, BucketOf, ScopeOf, DoGo, Verdict, Inv, CommandOf, HasKeyAuthor, KeysIndexed, IsWrite;
    var scope := ScopeOf(h.system.procs[i]);
    assert KeysOwned(h, scope);
    GoIsNext(c, h.system, i);
    BucketWritten(c, h.system, i);
    WrittenHasAuthor(c, h, i);
    AuthorsStay(c, h, Go(i), scope);
  }

  lemma OwnedStays(c: Limits, h: Tale, step: Step, scope: Id)
    requires |h.requests| == |h.writes| && KeysOwned(h, scope)
    requires BucketOf(Next(c, h.system, step).port, scope) == BucketOf(h.system.port, scope)
    ensures KeysOwned(Tell(c, h, step), scope)
  {
    hide Next, IsWrite, BucketOf, HasKeyAuthor;
    AuthorsStay(c, h, step, scope);
  }

  /** A key once in the index stays there, and a write puts its own in. */
  lemma StepKeepsIndexed(c: Limits, h: Tale, step: Step)
    requires AllAccounted(h) && KeysIndexed(h) && !h.system.port.closed && !step.CloseStore?
    ensures KeysIndexed(Tell(c, h, step))
  {
    hide Accounted, BucketOf, Next, IsWrite, Written;
    var t := Tell(c, h, step);
    forall i: nat, scope: Id, key: Id | HasWrittenKey(t, i, scope, key)
      ensures key in BucketOf(t.system.port, scope).byIdempotencyKey
    {
      if i < |h.writes| && h.writes[i] >= 1 {
        assert HasWrittenKey(h, i, scope, key);
        IndexGrows(c, h.system, step, scope, key);
      } else {
        WriteIndexes(c, h, i);
        GoIsNext(c, h.system, i);
      }
    }
  }

  lemma IndexGrows(c: Limits, s: System, step: Step, scope: Id, key: Id)
    requires !step.CloseStore? && key in BucketOf(s.port, scope).byIdempotencyKey
    ensures key in BucketOf(Next(c, s, step).port, scope).byIdempotencyKey
  {
    hide BucketOf, Next, IsWrite, DoGo;
    if IsWrite(c, s, step) {
      WritesByProc(c, s, step);
      GoIsNext(c, s, step.proc);
      BucketWritten(c, s, step.proc);
    } else {
      OnlyWritesChange(c, s, step);
    }
  }

  lemma WriteIndexes(c: Limits, h: Tale, i: nat)
    requires AllAccounted(h) && i < |h.writes| && h.writes[i] == 0 && IsWrite(c, h.system, Go(i))
    requires h.requests[i].Append? && h.requests[i].append.key.Some?
    ensures var a := h.requests[i].append;
      a.key.value in BucketOf(DoGo(c, h.system, i).port, a.scope).byIdempotencyKey
  {
    hide Accounted, BucketOf, DoGo, Verdict, IsWrite;
    var q := h.system.procs[i];
    assert Accounted(h.requests[i], q, 0);
    BucketWritten(c, h.system, i);
    FirstWrite(h.requests[i], q);
  }

  lemma StepKeepsKeys(c: Limits, h: Tale, step: Step)
    requires KeyInv(h)
    ensures KeyInv(Tell(c, h, step))
  {
    hide Accounted, Inv, BucketOf, ScopeOf, IsWrite, Next, KeysOwned, KeysIndexed;
    StepIsAccounted(c, h, step);
    StepKeepsInv(c, h.system, step);
    var t := Tell(c, h, step);
    if !t.system.port.closed {
      OpenBefore(c, h.system, step);
      StepKeepsIndexed(c, h, step);
      forall scope: Id ensures KeysOwned(t, scope) {
        StepKeepsOwned(c, h, step, scope);
      }
    }
  }

  lemma StepKeepsOwned(c: Limits, h: Tale, step: Step, scope: Id)
    requires KeyInv(h) && !h.system.port.closed && !step.CloseStore?
    ensures KeysOwned(Tell(c, h, step), scope)
  {
    hide Accounted, Inv, BucketOf, ScopeOf, IsWrite, Next, KeysOwned, KeysIndexed;
    if IsWrite(c, h.system, step) {
      WritesByProc(c, h.system, step);
      if scope == ScopeOf(h.system.procs[step.proc]) {
        WriteKeepsOwned(c, h, step.proc);
      } else {
        BucketWritten(c, h.system, step.proc);
        GoIsNext(c, h.system, step.proc);
        OwnedStays(c, h, step, scope);
      }
    } else {
      OnlyWritesChange(c, h.system, step);
      OwnedStays(c, h, step, scope);
    }
  }

  lemma {:induction false} RunKeepsKeys(c: Limits, h: Tale, steps: seq<Step>)
    requires KeyInv(h)
    ensures KeyInv(TellAll(c, h, steps))
    decreases |steps|
  {
    hide KeyInv, Tell;
    if steps != [] {
      StepKeepsKeys(c, h, steps[0]);
      RunKeepsKeys(c, Tell(c, h, steps[0]), steps[1..]);
    }
  }

  lemma KeysAtStart()
    ensures KeyInv(OPENING)
  {
  }

  // Whole runs --------------------------------------------------------------------------------------

  /** What a run has done under one key: the record last written under it, and the fingerprint of the append that has
      since replaced this record under another key or none, if one has. */
  datatype KeyStory = Unused | Held(id: Id, fingerprint: nat, replacedBy: Option<nat>)

  function Watch(c: Limits, h: Tale, step: Step, scope: Id, key: Id, w: KeyStory): KeyStory {
    if step.Go? && step.proc < |h.system.procs| && IsWrite(c, h.system, step)
       && ScopeOf(h.system.procs[step.proc]) == scope && CommandOf(h.system.procs[step.proc]).Some?
    then
      var q := h.system.procs[step.proc];
      var e := CommandOf(q).value.entry;
      if e.idempotencyKey == Some(key) then Held(e.record.recordId, e.record.fingerprint, None)
      else if w.Held? && q.ApplyAppend? && e.record.recordId == w.id then w.(replacedBy := Some(e.record.fingerprint))
      else w
    else w
  }

  function WatchAll(c: Limits, h: Tale, steps: seq<Step>, scope: Id, key: Id, w: KeyStory): KeyStory
    decreases |steps|
  {
    if steps == [] then w
    else WatchAll(c, Tell(c, h, steps[0]), steps[1..], scope, key, Watch(c, h, steps[0], scope, key, w))
  }

  function StoryOf(c: Limits, steps: seq<Step>, scope: Id, key: Id): KeyStory {
    WatchAll(c, OPENING, steps, scope, key, Unused)
  }

  /** The index names the record held; its fingerprint is the one written under the key unless it was replaced. */
  ghost predicate StoryTold(h: Tale, scope: Id, key: Id, w: KeyStory)
    requires |h.requests| == |h.writes|
  {
    var b := BucketOf(h.system.port, scope);
    if w.Unused? then key !in b.byIdempotencyKey
    else
      && key in b.byIdempotencyKey && b.byIdempotencyKey[key] == w.id && w.id in b.entries
      && b.entries[w.id].record.fingerprint == (if w.replacedBy.Some? then w.replacedBy.value else w.fingerprint)
      && HasKeyAuthor(h, scope, key, w.id, w.fingerprint)
      && (w.replacedBy.Some? ==> WasResurrected(h, scope, w.id, w.replacedBy.value))
  }

  /** Request `i` resurrected record `id` of `scope` with this fingerprint. */
  predicate Resurrects(h: Tale, i: nat, scope: Id, id: Id, fingerprint: nat)
    requires |h.requests| == |h.writes|
  {
    && i < |h.writes| && h.writes[i] >= 1 && Appends(h.requests[i])
    && var a := AppendOf(h.requests[i]);
      a.scope == scope && a.record.recordId == id && a.record.fingerprint == fingerprint && a.resurrection
  }

  ghost predicate WasResurrected(h: Tale, scope: Id, id: Id, fingerprint: nat)
    requires |h.requests| == |h.writes|
  {
    exists i: nat :: Resurrects(h, i, scope, id, fingerprint)
  }

  lemma ResurrectionStays(c: Limits, h: Tale, step: Step, scope: Id, id: Id, fingerprint: nat)
    requires |h.requests| == |h.writes| && WasResurrected(h, scope, id, fingerprint)
    ensures WasResurrected(Tell(c, h, step), scope, id, fingerprint)
  {
    hide Next, IsWrite, Appends, AppendOf;
    var i: nat :| Resurrects(h, i, scope, id, fingerprint);
    assert Resurrects(Tell(c, h, step), i, scope, id, fingerprint);
  }

  /** An append can replace a stored record only as a resurrection. */
  lemma ReplacingResurrects(c: Limits, h: Tale, i: nat)
    requires AllAccounted(h) && Inv(h.system) && i < |h.writes| && IsWrite(c, h.system, Go(i))
    requires h.system.procs[i].ApplyAppend?
    requires var q := h.system.procs[i];
      q.a.record.recordId in BucketOf(h.system.port, ScopeOf(q)).entries
    ensures var a := h.system.procs[i].a;
      WasResurrected(Tell(c, h, Go(i)), a.scope, a.record.recordId, a.record.fingerprint)
  {
    hide Accounted, BucketOf, DoGo, LocalsOk, PortOk, Next, IsWrite;
    var q := h.system.procs[i];
    BucketWritten(c, h.system, i);
    assert Accounted(h.requests[i], q, h.writes[i]) && LocalsOk(BucketOf(h.system.port, ScopeOf(q)), q);
    PriorOfReplaced(BucketOf(h.system.port, ScopeOf(q)), q, h.requests[i], h.writes[i]);
    assert Resurrects(Tell(c, h, Go(i)), i, q.a.scope, q.a.record.recordId, q.a.record.fingerprint);
  }

  lemma PriorOfReplaced(b: Bucket, q: Proc, r: Request, writes: nat)
    requires Accounted(r, q, writes) && LocalsOk(b, q) && q.ApplyAppend? && q.a.record.recordId in b.entries
    requires Verdict(b, CommandOf(q).value).Applied?
    ensures q.a.resurrection && IsAppendOf(r, q.a)
  {
  }

  lemma WriteTells(c: Limits, h: Tale, i: nat, key: Id, w: KeyStory)
    requires KeyInv(h) && !h.system.port.closed && i < |h.writes| && IsWrite(c, h.system, Go(i))
    requires StoryTold(h, ScopeOf(h.system.procs[i]), key, w)
    ensures var scope := ScopeOf(h.system.procs[i]);
      StoryTold(Tell(c, h, Go(i)), scope, key, Watch(c, h, Go(i), scope, key, w))
  {
    hide Accounted, BucketOf, ScopeOf, DoGo, Verdict, LocalsOk, PortOk, CommandOf, HasKeyAuthor, KeysIndexed, KeysOwned,
         IsWrite, WritesKey, WasResurrected;
    var q := h.system.procs[i];
    var scope := ScopeOf(q);
    var b := BucketOf(h.system.port, scope);
    GoIsNext(c, h.system, i);
    BucketWritten(c, h.system, i);
    assert Accounted(h.requests[i], q, h.writes[i]) && LocalsOk(b, q) && KeysOwned(h, scope);
    KeyOfWritten(b, q, h.requests[i], h.writes[i]);
    WrittenHasAuthor(c, h, i);
    AuthorsStay(c, h, Go(i), scope);
    if w.Held? && w.replacedBy.Some? {
      ResurrectionStays(c, h, Go(i), scope, w.id, w.replacedBy.value);
    }
    if w.Held? && q.ApplyAppend? {
      AppendScope(q);
      if q.a.record.recordId == w.id {
        ReplacingResurrects(c, h, i);
      }
    }
  }

  lemma AppendScope(q: Proc)
    requires q.ApplyAppend?
    ensures ScopeOf(q) == q.a.scope && CommandOf(q).Some?
    ensures var e := CommandOf(q).value.entry;
      e.record == q.a.record && e.idempotencyKey == q.a.key
  {
  }

  lemma StoryStays(c: Limits, h: Tale, step: Step, scope: Id, key: Id, w: KeyStory)
    requires |h.requests| == |h.writes| && StoryTold(h, scope, key, w)
    requires BucketOf(Next(c, h.system, step).port, scope) == BucketOf(h.system.port, scope)
    ensures StoryTold(Tell(c, h, step), scope, key, w)
  {
    hide Next, IsWrite, BucketOf, HasKeyAuthor, WasResurrected;
    AuthorsStay(c, h, step, scope);
    if w.Held? && w.replacedBy.Some? {
      ResurrectionStays(c, h, step, scope, w.id, w.replacedBy.value);
    }
  }

  lemma StepTells(c: Limits, h: Tale, step: Step, scope: Id, key: Id, w: KeyStory)
    requires KeyInv(h) && !h.system.port.closed && !step.CloseStore? && StoryTold(h, scope, key, w)
    ensures StoryTold(Tell(c, h, step), scope, key, Watch(c, h, step, scope, key, w))
  {
    hide Accounted, Inv, BucketOf, ScopeOf, IsWrite, Next, KeysOwned, KeysIndexed, StoryTold, CommandOf;
    if IsWrite(c, h.system, step) {
      WritesByProc(c, h.system, step);
      if scope == ScopeOf(h.system.procs[step.proc]) {
        WriteTells(c, h, step.proc, key, w);
      } else {
        BucketWritten(c, h.system, step.proc);
        GoIsNext(c, h.system, step.proc);
        StoryStays(c, h, step, scope, key, w);
      }
    } else {
      OnlyWritesChange(c, h.system, step);
      StoryStays(c, h, step, scope, key, w);
    }
  }

  lemma {:induction false} RunTells(c: Limits, h: Tale, steps: seq<Step>, scope: Id, key: Id, w: KeyStory)
    requires KeyInv(h) && (!h.system.port.closed ==> StoryTold(h, scope, key, w))
    ensures KeyInv(TellAll(c, h, steps))
    ensures var t := TellAll(c, h, steps);
      !t.system.port.closed ==> StoryTold(t, scope, key, WatchAll(c, h, steps, scope, key, w))
    decreases |steps|
  {
    hide KeyInv, Tell, StoryTold, Watch;
    if steps != [] {
      StepKeepsKeys(c, h, steps[0]);
      TellIsNext(c, h, steps[0]);
      if !Tell(c, h, steps[0]).system.port.closed {
        OpenBefore(c, h.system, steps[0]);
        StepTells(c, h, steps[0], scope, key, w);
      }
      RunTells(c, Tell(c, h, steps[0]), steps[1..], scope, key, Watch(c, h, steps[0], scope, key, w));
    }
  }

  lemma TellIsNext(c: Limits, h: Tale, step: Step)
    ensures Tell(c, h, step).system == Next(c, h.system, step)
  {
  }

  lemma StoryIsTold(c: Limits, steps: seq<Step>, scope: Id, key: Id)
    ensures KeyInv(TaleOf(c, steps))
    ensures var h := TaleOf(c, steps);
      !h.system.port.closed ==> StoryTold(h, scope, key, StoryOf(c, steps, scope, key))
  {
    hide TellAll, KeyInv, WatchAll;
    KeysAtStart();
    assert StoryTold(OPENING, scope, key, Unused);
    RunTells(c, OPENING, steps, scope, key, Unused);
  }

  // What a lookup answers -----------------------------------------------------------------------------

  /** The answer to an append that looks up its key. */
  function Answer(c: Limits, b: Bucket, a: AppendInput): Proc {
    AfterRead(c, b, FindKey(a))
  }

  /** What the store promises for a key that holds a record: appends of the same record get the stored one back, and
      appends of any other record a conflict. */
  ghost predicate PromiseKept(c: Limits, b: Bucket, scope: Id, key: Id, fingerprint: nat) {
    forall a: AppendInput :: a.scope == scope && a.key == Some(key) ==>
      if a.record.fingerprint == fingerprint
      then
        && Answer(c, b, a).Finished? && Answer(c, b, a).result.Ok?
        && Answer(c, b, a).result.entry.record.fingerprint == fingerprint
      else Answer(c, b, a) == Finished(scope, Err(IdempotencyConflict))
  }

  /** In every run: an unused key is looked up in vain. For a key that was written under, the promise is kept for the
      record last written under it, which an append under this key appended, if and only if this record has not
      since been resurrected, under another key or none, with another fingerprint. */
  lemma KeyPromiseIff(c: Limits, steps: seq<Step>, scope: Id, key: Id)
    ensures var h := TaleOf(c, steps);
      var w := StoryOf(c, steps, scope, key);
      var b := BucketOf(h.system.port, scope);
      !h.system.port.closed ==>
        && (w.Unused? ==>
              forall a: AppendInput :: a.scope == scope && a.key == Some(key) ==> Answer(c, b, a) == GetPrior(a))
        && (w.Held? ==>
              && HasKeyAuthor(h, scope, key, w.id, w.fingerprint)
              && (w.replacedBy.Some? ==> WasResurrected(h, scope, w.id, w.replacedBy.value))
              && (PromiseKept(c, b, scope, key, w.fingerprint) <==>
                    w.replacedBy.None? || w.replacedBy.value == w.fingerprint))
  {
    hide TellAll, WatchAll, BucketOf, KeyInv, HasKeyAuthor, PromiseKept, WasResurrected;
    StoryIsTold(c, steps, scope, key);
    var h := TaleOf(c, steps);
    var w := StoryOf(c, steps, scope, key);
    var b := BucketOf(h.system.port, scope);
    if !h.system.port.closed && w.Held? {
      KeptIff(c, b, scope, key, w.id, w.fingerprint);
    }
  }

  lemma KeptIff(c: Limits, b: Bucket, scope: Id, key: Id, id: Id, fingerprint: nat)
    requires key in b.byIdempotencyKey && b.byIdempotencyKey[key] == id && id in b.entries
    ensures PromiseKept(c, b, scope, key, fingerprint) <==> b.entries[id].record.fingerprint == fingerprint
  {
    var r := Record(0, OtherVariant, None, None, fingerprint, Withheld);
    var a := AppendInput(scope, r, Some(key), false, 0);
    assert PromiseKept(c, b, scope, key, fingerprint) ==>
      Answer(c, b, a).Finished? && Answer(c, b, a).result.Ok?;
  }

  /** Where only one append has written under the key, the record last written is the one it appended. */
  lemma SoleAuthor(c: Limits, steps: seq<Step>, scope: Id, key: Id, j: nat)
    ensures var h := TaleOf(c, steps);
      var w := StoryOf(c, steps, scope, key);
      !h.system.port.closed && HasWrittenKey(h, j, scope, key)
      && (forall i: nat :: HasWrittenKey(h, i, scope, key) ==> i == j) ==>
        && w.Held? && w.id == h.requests[j].append.record.recordId
        && w.fingerprint == h.requests[j].append.record.fingerprint
  {
    hide TellAll, WatchAll, BucketOf, HasWrittenKey, KeysOwned;
    StoryIsTold(c, steps, scope, key);
    var h := TaleOf(c, steps);
    if !h.system.port.closed && HasWrittenKey(h, j, scope, key) {
      assert key in BucketOf(h.system.port, scope).byIdempotencyKey;
    }
  }

  /** Once an append under a key has written, an append that then looks up the key is answered on the spot. */
  lemma KeyIsAnswered(c: Limits, steps: seq<Step>, i: nat, j: nat)
    ensures var h := TaleOf(c, steps);
      var t := Tell(c, h, Go(i));
      i < |h.writes| && !h.system.port.closed && h.system.procs[i].FindKey?
      && h.system.procs[i].a.key.Some?
      && HasWrittenKey(h, j, h.system.procs[i].a.scope, h.system.procs[i].a.key.value) ==>
        var a := h.system.procs[i].a;
        var w := StoryOf(c, steps, a.scope, a.key.value);
        var b := BucketOf(h.system.port, a.scope);
        && t.system.port == h.system.port && w.Held? && w.id in b.entries
        && t.system.procs[i] == Finished(a.scope,
             if a.record.fingerprint == (if w.replacedBy.Some? then w.replacedBy.value else w.fingerprint)
             then Ok(b.entries[w.id]) else Err(IdempotencyConflict))
  {
    hide TellAll, WatchAll, Inv, HasKeyAuthor, BucketOf, HasWrittenKey, KeysOwned;
    var h := TaleOf(c, steps);
    if i < |h.writes| && !h.system.port.closed && h.system.procs[i].FindKey? && h.system.procs[i].a.key.Some?
       && HasWrittenKey(h, j, h.system.procs[i].a.scope, h.system.procs[i].a.key.value)
    {
      var a := h.system.procs[i].a;
      StoryIsTold(c, steps, a.scope, a.key.value);
      assert a.key.value in BucketOf(h.system.port, a.scope).byIdempotencyKey;
      assert StoryTold(h, a.scope, a.key.value, StoryOf(c, steps, a.scope, a.key.value));
    }
  }

  lemma {:induction false} FinishedWritesNoMore(c: Limits, h: Tale, steps: seq<Step>, i: nat)
    requires |h.writes| == |h.system.procs| && i < |h.writes| && h.system.procs[i].Finished?
    ensures i < |TellAll(c, h, steps).writes| && TellAll(c, h, steps).writes[i] == h.writes[i]
    decreases |steps|
  {
    hide Tell;
    if steps != [] {
      FinishedStays(c, h, steps[0], i);
      FinishedWritesNoMore(c, Tell(c, h, steps[0]), steps[1..], i);
    }
  }

  lemma FinishedStays(c: Limits, h: Tale, step: Step, i: nat)
    requires |h.writes| == |h.system.procs| && i < |h.writes| && h.system.procs[i].Finished?
    ensures var t := Tell(c, h, step);
      && |t.writes| == |t.system.procs| && i < |t.writes|
      && t.system.procs[i] == h.system.procs[i] && t.writes[i] == h.writes[i]
  {
    if step.Go? && step.proc < |h.system.procs| {
      OthersStay(c, h.system, step.proc);
      WriteIffApplied(c, h.system, step.proc);
    }
  }

  /** So of two appends under one key the one that looks it up after the other has written never writes: both can
      write only if each looks before the other has. */
  lemma LateKeyNeverWrites(c: Limits, before: seq<Step>, after: seq<Step>, i: nat, j: nat)
    ensures var h := TaleOf(c, before);
      var t := TaleOf(c, before + [Go(i)] + after);
      i < |h.writes| && !h.system.port.closed && h.system.procs[i].FindKey?
      && h.system.procs[i].a.key.Some?
           && HasWrittenKey(h, j, h.system.procs[i].a.scope, h.system.procs[i].a.key.value) ==>
        i < |t.writes| && t.writes[i] == 0
  {
    hide TellAll, Inv, HasKeyAuthor, BucketOf, HasWrittenKey, WatchAll;
    var h := TaleOf(c, before);
    TellJoin(c, OPENING, before + [Go(i)], after);
    TellJoin(c, OPENING, before, [Go(i)]);
    TellOne(c, h, Go(i));
    if i < |h.writes| && !h.system.port.closed && h.system.procs[i].FindKey?
       && h.system.procs[i].a.key.Some? && HasWrittenKey(h, j, h.system.procs[i].a.scope, h.system.procs[i].a.key.value)
    {
      KeyIsAnswered(c, before, i, j);
      assert Accounted(h.requests[i], h.system.procs[i], h.writes[i]);
      LookupWritesNothing(c, h, i);
      FinishedWritesNoMore(c, Tell(c, h, Go(i)), after, i);
    }
  }

  lemma LookupWritesNothing(c: Limits, h: Tale, i: nat)
    requires |h.writes| == |h.system.procs| && i < |h.writes| && h.system.procs[i].FindKey?
    ensures Tell(c, h, Go(i)).writes == h.writes && |Tell(c, h, Go(i)).system.procs| == |h.system.procs|
  {
    WriteIffApplied(c, h.system, i);
  }

  /** And then they can: the second overwrites the key of the first, whatever the two records are. */
  lemma SharedKeyRun(c: Limits, a: AppendInput, b: AppendInput)
    requires a.scope == b.scope && a.key == b.key && a.key.Some? && a.record.recordId != b.record.recordId
    requires a.record.supersedes.None? && b.record.supersedes.None? && c.maxRecordsPerScope >= 1
    ensures var h := TaleOf(c, BothRead(a, b, 0) + [Go(0), Go(1)]);
      var store := Bucket0(h, a.scope);
      && h.requests == [Append(a), Append(b)] && h.writes == [1, 1]
      && h.system.procs == [Finished(a.scope, Ok(NewEntry(a, None))), Finished(b.scope, Ok(NewEntry(b, None)))]
      && a.record.recordId in store.entries && store.entries[a.record.recordId].record == a.record
      && b.record.recordId in store.entries && store.entries[b.record.recordId].record == b.record
      && a.key.value in store.byIdempotencyKey && store.byIdempotencyKey[a.key.value] == b.record.recordId
  {
    hide TellAll, Tell, BucketOf, BothRead, Admissible;
    NothingIsThere(a.scope);
    FirstIsAdmissible(c, a);
    FirstIsAdmissible(c, b);
    BothHaveWritten(c, OPENING, a, b);
    var h := TellAll(c, OPENING, BothRead(a, b, 0) + [Go(0), Go(1)]);
    var k: nat, m: nat :| Bucket0(h, a.scope)
        == Written(Written(EMPTY_BUCKET, k, AppendCommand(a)), m, AppendCommand(b));
  }
}
