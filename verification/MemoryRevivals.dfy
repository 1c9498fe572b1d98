/** A run of the memory store without any race in which a resurrection takes a record away from its
    idempotency key (packages/memory/src/store.ts, packages/memory/src/in-memory-port.ts).
 */
module MemoryRevivals {
  import opened Basics
  import opened MemoryStore
  import opened MemoryOutcomes
  import opened MemoryRaces

  function MarkerCommand(t: TombstoneInput): Command {
    Command(MarkerOf(t), None, WasTombstoned)
  }

  function TombstoneCommand(t: TombstoneInput, e: Entry): Command {
    CommandOf(TombstoneApply(t, e)).value
  }

  function Deletion(t: TombstoneInput, n: nat): seq<Step> {
    [Spawn(Tombstone(t))] + [Go(n), Go(n), Go(n)]
  }

  /** A live record of this version is stored and the marker's id is free. */
  predicate Deletable(b: Bucket, t: TombstoneInput) {
    && t.recordId in b.entries && b.entries[t.recordId].version == t.expectedVersion
    && b.entries[t.recordId].tombstonedAt.None? && b.entries[t.recordId].record.recordId == t.recordId
    && t.markerId !in b.entries
  }

  lemma DeletesAlone(c: Limits, h: Tale, t: TombstoneInput)
    requires Open(h) && Deletable(Bucket0(h, t.scope), t)
    ensures var b := Bucket0(h, t.scope);
      var u := TellAll(c, h, Deletion(t, |h.writes|));
      && Open(u) && |u.writes| == |h.writes| + 1 && u.requests == h.requests + [Tombstone(t)]
      && u.system.procs[..|h.writes|] == h.system.procs
      && exists k: nat, m: nat ::
        Bucket0(u, t.scope) == Written(Written(b, k, MarkerCommand(t)), m, TombstoneCommand(t, b.entries[t.recordId]))
  {
    hide Tell, TellAll, BucketOf;
    var n := |h.writes|;
    var b := Bucket0(h, t.scope);
    var e := b.entries[t.recordId];
    TellJoin(c, h, [Spawn(Tombstone(t))], [Go(n), Go(n), Go(n)]);
    TellOne(c, h, Spawn(Tombstone(t)));
    TellSpawn(c, h, Tombstone(t));
    var h1 := Tell(c, h, Spawn(Tombstone(t)));
    TellThree(c, h1, Go(n), Go(n), Go(n));
    TellRead(c, h1, n);
    WithAt(h1, n, TombstoneMark(t, e));
    var h2 := With(h1, n, TombstoneMark(t, e));
    TellWrite(c, h2, n);
    var h3 := Tell(c, h2, Go(n));
    TellWrite(c, h3, n);
    var u := Tell(c, h3, Go(n));
    var k, m := h2.system.port.sequence + 1, h3.system.port.sequence + 1;
    assert Bucket0(u, t.scope) == Written(Written(b, k, MarkerCommand(t)), m, TombstoneCommand(t, e));
  }

  // A resurrection alone -----------------------------------------------------------------------------

  function RevivalCommand(a: AppendInput, prior: Entry): Command {
    CommandOf(ApplyAppend(a, Some(prior))).value
  }

  ghost predicate Revivable(c: Limits, b: Bucket, a: AppendInput) {
    && a.record.supersedes.None? && a.resurrection
    && a.record.recordId in b.entries && b.entries[a.record.recordId].tombstonedAt.Some?
    && (a.key.Some? ==> a.key.value !in b.byIdempotencyKey)
    && |b.entries| < c.maxRecordsPerScope
  }

  lemma ReadsReachRevival(c: Limits, h: Tale, i: nat, a: AppendInput)
    requires i < |h.system.procs| && !h.system.port.closed && h.system.procs[i] == StartAppend(a)
    requires Revivable(c, BucketOf(h.system.port, a.scope), a)
    ensures TellAll(c, h, Reads(a, i))
         == With(h, i, ApplyAppend(a, Some(BucketOf(h.system.port, a.scope).entries[a.record.recordId])))
  {
    hide Tell, TellAll, BucketOf, With;
    var three := [Go(i), Go(i), Go(i)];
    if a.key.Some? {
      TellRead(c, h, i);
      WithAt(h, i, GetPrior(a));
      var h1 := With(h, i, GetPrior(a));
      TellJoin(c, h, [Go(i)], three);
      TellOne(c, h, Go(i));
      TellThree(c, h1, Go(i), Go(i), Go(i));
      RevivalFromPrior(c, h1, i, a);
      var prior := BucketOf(h.system.port, a.scope).entries[a.record.recordId];
      WithTwice(h, i, GetPrior(a), ApplyAppend(a, Some(prior)));
    } else {
      assert Reads(a, i) == three;
      TellThree(c, h, Go(i), Go(i), Go(i));
      RevivalFromPrior(c, h, i, a);
    }
  }

  lemma RevivalFromPrior(c: Limits, h: Tale, i: nat, a: AppendInput)
    requires i < |h.system.procs| && !h.system.port.closed && h.system.procs[i] == GetPrior(a)
    requires Revivable(c, BucketOf(h.system.port, a.scope), a)
    ensures Tell(c, Tell(c, Tell(c, h, Go(i)), Go(i)), Go(i))
         == With(h, i, ApplyAppend(a, Some(BucketOf(h.system.port, a.scope).entries[a.record.recordId])))
  {
    hide Tell, BucketOf, With;
    var prior := Some(BucketOf(h.system.port, a.scope).entries[a.record.recordId]);
    TellRead(c, h, i);
    var h1 := With(h, i, CheckPrecedence(a, prior));
    var h2 := With(h, i, CheckCapacity(a, prior));
    WithAt(h, i, CheckPrecedence(a, prior));
    WithAt(h, i, CheckCapacity(a, prior));
    TellRead(c, h1, i);
    WithTwice(h, i, CheckPrecedence(a, prior), CheckCapacity(a, prior));
    TellRead(c, h2, i);
    WithTwice(h, i, CheckCapacity(a, prior), ApplyAppend(a, prior));
  }

  lemma RevivesAlone(c: Limits, h: Tale, a: AppendInput)
    requires Open(h) && Revivable(c, Bucket0(h, a.scope), a)
    requires Bucket0(h, a.scope).entries[a.record.recordId].record.recordId == a.record.recordId
    ensures var b := Bucket0(h, a.scope);
      var t := TellAll(c, h, AppendAlone(a, |h.writes|));
      && Open(t) && |t.writes| == |h.writes| + 1 && t.requests == h.requests + [Append(a)]
      && t.system.procs[..|h.writes|] == h.system.procs
      && exists k: nat :: Bucket0(t, a.scope) == Written(b, k, RevivalCommand(a, b.entries[a.record.recordId]))
  {
    hide Tell, TellAll, BucketOf, Reads, AfterApply;
    var n := |h.writes|;
    var b := Bucket0(h, a.scope);
    TellSpawn(c, h, Append(a));
    var h1 := Tell(c, h, Spawn(Append(a)));
    TellOne(c, h, Spawn(Append(a)));
    TellJoin(c, h, [Spawn(Append(a))] + Reads(a, n), [Go(n)]);
    TellJoin(c, h, [Spawn(Append(a))], Reads(a, n));
    ReadsReachRevival(c, h1, n, a);
    var q := ApplyAppend(a, Some(b.entries[a.record.recordId]));
    WithAt(h1, n, q);
    var h2 := With(h1, n, q);
    TellWrite(c, h2, n);
    TellOne(c, h2, Go(n));
    assert Bucket0(Tell(c, h2, Go(n)), a.scope)
        == Written(b, h2.system.port.sequence + 1, RevivalCommand(a, b.entries[a.record.recordId]));
  }

  // The run --------------------------------------------------------------------------------------------

  function DeletionOf(a: AppendInput, marker: Id): TombstoneInput {
    TombstoneInput(a.scope, a.record.recordId, 1, marker, 0, 0)
  }

  /** One after the other: `a` is appended under its key, deleted, and resurrected by `b`; then the append of `a` is
      repeated, and `x` is appended under the key of `a`. */
  function RevivalRun(a: AppendInput, marker: Id, b: AppendInput, x: AppendInput): seq<Step> {
    AppendAlone(a, 0) + Deletion(DeletionOf(a, marker), 1) + AppendAlone(b, 2)
    + [Spawn(Append(a)), Go(3)] + [Spawn(Append(x)), Go(4)]
  }

  lemma Lookup(c: Limits, h: Tale, a: AppendInput)
    requires Open(h) && a.key.Some? && !NamesItself(a)
    requires var b := Bucket0(h, a.scope);
      a.key.value in b.byIdempotencyKey && b.byIdempotencyKey[a.key.value] in b.entries
    ensures var b := Bucket0(h, a.scope);
      var e := b.entries[b.byIdempotencyKey[a.key.value]];
      var t := TellAll(c, h, [Spawn(Append(a)), Go(|h.writes|)]);
      && Open(t) && t.system.port == h.system.port
      && t.system.procs == h.system.procs + [Finished(a.scope,
           if e.record.fingerprint == a.record.fingerprint then Ok(e) else Err(IdempotencyConflict))]
      && t.requests == h.requests + [Append(a)]
  {
    hide Tell, TellAll, BucketOf;
    var n := |h.writes|;
    TellTwo(c, h, Spawn(Append(a)), Go(n));
    TellSpawn(c, h, Append(a));
    TellRead(c, Tell(c, h, Spawn(Append(a))), n);
    WithAt(Tell(c, h, Spawn(Append(a))), n, AfterRead(c, Bucket0(h, a.scope), FindKey(a)));
  }

  ghost predicate Reviving(c: Limits, a: AppendInput, marker: Id, b: AppendInput) {
    && a.key.Some? && a.record.supersedes.None? && marker != a.record.recordId && c.maxRecordsPerScope >= 3
    && b.scope == a.scope && b.record.recordId == a.record.recordId && b.record.supersedes.None? && b.resurrection
    && b.key != a.key
  }

  /** The scope after the append, after the deletion, and after the resurrection. */
  lemma RevivedBucket(c: Limits, a: AppendInput, marker: Id, b: AppendInput, i: nat, j: nat, k: nat, m: nat)
    requires Reviving(c, a, marker, b)
    ensures var t := DeletionOf(a, marker);
      var r := a.record.recordId;
      var first := Written(EMPTY_BUCKET, i, AppendCommand(a));
      && Deletable(first, t)
      && var deleted := Written(Written(first, j, MarkerCommand(t)), k, TombstoneCommand(t, first.entries[r]));
        && Revivable(c, deleted, b) && deleted.entries[r].record.recordId == r
        && var revived := Written(deleted, m, RevivalCommand(b, deleted.entries[r]));
          && r in revived.entries && revived.entries[r].record == b.record && revived.entries[r].idempotencyKey == b.key
          && a.key.value in revived.byIdempotencyKey && revived.byIdempotencyKey[a.key.value] == r
  {
    var t := DeletionOf(a, marker);
    var first := Written(EMPTY_BUCKET, i, AppendCommand(a));
    var deleted := Written(Written(first, j, MarkerCommand(t)), k,
                           TombstoneCommand(t, first.entries[a.record.recordId]));
    assert deleted.entries.Keys == {a.record.recordId, marker};
    assert |deleted.entries| == |deleted.entries.Keys|;
  }

  lemma RunRevives(c: Limits, a: AppendInput, marker: Id, b: AppendInput)
    requires Reviving(c, a, marker, b)
    ensures var h := TellAll(c, OPENING, AppendAlone(a, 0) + Deletion(DeletionOf(a, marker), 1) + AppendAlone(b, 2));
      var store := Bucket0(h, a.scope);
      var r := a.record.recordId;
      && Open(h) && h.requests == [Append(a), Tombstone(DeletionOf(a, marker)), Append(b)]
      && r in store.entries && store.entries[r].record == b.record && store.entries[r].idempotencyKey == b.key
      && a.key.value in store.byIdempotencyKey && store.byIdempotencyKey[a.key.value] == r
  {
    hide Tell, TellAll, BucketOf, AppendAlone, Deletion, Admissible, Written, Revivable, Deletable;
    var t := DeletionOf(a, marker);
    var first, deletion, revival := AppendAlone(a, 0), Deletion(t, 1), AppendAlone(b, 2);
    TellJoin(c, OPENING, first + deletion, revival);
    TellJoin(c, OPENING, first, deletion);
    NothingIsThere(a.scope);
    FirstIsAdmissible(c, a);
    AppendsAlone(c, OPENING, a);
    var h1 := TellAll(c, OPENING, first);
    var i: nat :| Bucket0(h1, a.scope) == Written(EMPTY_BUCKET, i, AppendCommand(a));
    RevivedBucket(c, a, marker, b, i, 0, 0, 0);
    DeletesAlone(c, h1, t);
    var h2 := TellAll(c, h1, deletion);
    var j: nat, k: nat :| Bucket0(h2, a.scope)
        == Written(Written(Bucket0(h1, a.scope), j, MarkerCommand(t)), k,
             TombstoneCommand(t, Bucket0(h1, a.scope).entries[a.record.recordId]));
    RevivedBucket(c, a, marker, b, i, j, k, 0);
    RevivesAlone(c, h2, b);
    var h3 := TellAll(c, h2, revival);
    var m: nat :| Bucket0(h3, a.scope)
        == Written(Bucket0(h2, a.scope), m, RevivalCommand(b, Bucket0(h2, a.scope).entries[a.record.recordId]));
    RevivedBucket(c, a, marker, b, i, j, k, m);
  }

  /** With no two operations overlapping: the append that was made is refused when repeated, and another record is
      acknowledged under its key, with an entry that carries the other key. */
  lemma RevivalBreaksPromise(c: Limits, a: AppendInput, marker: Id, b: AppendInput, x: AppendInput)
    requires Reviving(c, a, marker, b) && a.record.fingerprint != b.record.fingerprint
    requires x.scope == a.scope && x.key == a.key && !NamesItself(x) && x.record.fingerprint == b.record.fingerprint
    ensures var h := TaleOf(c, RevivalRun(a, marker, b, x));
      && |h.system.procs| == 5 && h.requests[3] == Append(a) && h.requests[4] == Append(x)
      && h.system.procs[3] == Finished(a.scope, Err(IdempotencyConflict))
      && h.system.procs[4].Finished? && h.system.procs[4].result.Ok?
      && h.system.procs[4].result.entry.record == b.record && h.system.procs[4].result.entry.idempotencyKey == b.key
  {
    hide Tell, TellAll, BucketOf, AppendAlone, Deletion;
    var before := AppendAlone(a, 0) + Deletion(DeletionOf(a, marker), 1) + AppendAlone(b, 2);
    RunRevives(c, a, marker, b);
    var h := TellAll(c, OPENING, before);
    TellJoin(c, OPENING, before + [Spawn(Append(a)), Go(3)], [Spawn(Append(x)), Go(4)]);
    TellJoin(c, OPENING, before, [Spawn(Append(a)), Go(3)]);
    Lookup(c, h, a);
    var h1 := TellAll(c, h, [Spawn(Append(a)), Go(3)]);
    Lookup(c, h1, x);
  }
}
