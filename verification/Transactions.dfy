/** Concurrent `transact` calls on one adapter: the FIFO mutex, the gate of each transaction and the
    gate of the adapter (packages/persistence/src/mutex.ts, packages/persistence/src/adapter-support.ts,
    packages/persistence-memory/src/memory-adapter.ts).

    An `await` is a step boundary: between two steps of one call any other call may take steps.
 */
module Transactions {
  import opened Basics
  import opened Outbox
  import opened MemoryModel
  import opened Work

  // The mutex ---------------------------------------------------------------

  /** A promise that only its own call resolves. */
  class Deferred {
    var resolved: bool

    constructor (resolved: bool)
      ensures this.resolved == resolved
    {
      this.resolved := resolved;
    }
  }

  class AsyncMutex {
    var tail: Deferred
    /** The promises of all `run` calls so far, in submission order, after the one resolved from the start. */
    ghost var line: seq<Deferred>

    ghost predicate Valid()
      reads this
    {
      && line != [] && tail == line[|line| - 1]
      && forall i, j :: 0 <= i < j < |line| ==> line[i] != line[j]
    }

    constructor ()
      ensures Valid() && |line| == 1 && line[0].resolved && fresh(line[0])
    {
      tail := new Deferred(true);
      line := [tail];
    }

    /** The synchronous part of `run`: what the call will await, and the promise it releases when it ends. */
    method Submit() returns (previous: Deferred, own: Deferred)
      requires Valid()
      modifies this
      ensures Valid() && line == old(line) + [own] && fresh(own) && !own.resolved
      ensures previous == old(line)[|old(line)| - 1]
    {
      previous := tail;
      own := new Deferred(false);
      tail := own;
      line := line + [own];
    }
  }

  // Calls in flight -----------------------------------------------------------

  datatype Ending = Committed | RolledBack | Refused | Closed

  /** A call waits, holds the mutex with an open transaction, has ended, or has released the mutex too. */
  datatype Phase = Waiting | Running | Ended(ending: Ending) | Released(ending: Ending)

  datatype Call = Call(
    previous: Option<nat>, closes: bool, phase: Phase, gateActive: bool,
    snapshot: MemState, ops: seq<Op>, answers: seq<Answer>)

  datatype System = System(db: MemState, calls: seq<Call>, tail: Option<nat>, closed: bool)

  datatype Step =
    | Submit(closes: bool)
    | Start(call: nat)
    | Perform(call: nat, op: Op)
    | Commit(call: nat)
    | Throw(call: nat)
    | Release(call: nat)

  const IDLE := System(EMPTY_MEM, [], None, false)

  predicate MayStart(s: System, i: nat) {
    && i < |s.calls| && s.calls[i].phase.Waiting?
    && (s.calls[i].previous.None?
        || (s.calls[i].previous.value < |s.calls| && s.calls[s.calls[i].previous.value].phase.Released?))
  }

  ghost predicate Sound(s: System) {
    MemInv(s.db) && forall i :: 0 <= i < |s.calls| ==> MemInv(s.calls[i].snapshot)
  }

  /** A context exists once its transaction has started; whoever holds it may keep using it. */
  predicate HasContext(c: Call) {
    c.phase.Running? || ((c.phase.Ended? || c.phase.Released?)
        && (c.phase.ending.Committed? || c.phase.ending.RolledBack?))
  }

  function DoSubmit(s: System, closes: bool): System {
    var c := Call(s.tail, closes, Waiting, false, EMPTY_MEM, [], []);
    s.(calls := s.calls + [c], tail := Some(|s.calls|))
  }

  function DoStart(s: System, i: nat): System
    requires MayStart(s, i)
  {
    var c := s.calls[i];
    if c.closes then s.(closed := true, calls := s.calls[i := c.(phase := Ended(Closed))])
    else if s.closed then s.(calls := s.calls[i := c.(phase := Ended(Refused))])
    else s.(calls := s.calls[i := c.(phase := Running, gateActive := true, snapshot := s.db)])
  }

  /** Performing an operation on a context; `.1` is what the caller is told. */
  function DoPerform(s: System, i: nat, op: Op): (System, Answer)
    requires i < |s.calls| && MemInv(s.db)
  {
    var c := s.calls[i];
    if !c.gateActive then (s, Failed(TransactionCompleted))
    else
      var (db, answer) := MemDo(s.db, op);
      (s.(db := db, calls := s.calls[i := c.(ops := c.ops + [op], answers := c.answers + [answer])]), answer)
  }

  function DoEnd(s: System, i: nat, commit: bool): System
    requires i < |s.calls|
  {
    var c := s.calls[i];
    System(if commit then s.db else c.snapshot,
           s.calls[i := c.(gateActive := false, phase := Ended(if commit then Committed else RolledBack))],
           s.tail, s.closed)
  }

  /** One step of some call; a step that is not possible changes nothing. */
  function Next(s: System, step: Step): System
    requires Sound(s)
  {
    match step
    case Submit(closes) => DoSubmit(s, closes)
    case Start(i) => if MayStart(s, i) then DoStart(s, i) else s
    case Perform(i, op) => if i < |s.calls| && HasContext(s.calls[i]) then DoPerform(s, i, op).0 else s
    case Commit(i) => if i < |s.calls| && s.calls[i].phase.Running? then DoEnd(s, i, true) else s
    case Throw(i) => if i < |s.calls| && s.calls[i].phase.Running? then DoEnd(s, i, false) else s
    case Release(i) =>
      if i < |s.calls| && s.calls[i].phase.Ended?
      then s.(calls := s.calls[i := s.calls[i].(phase := Released(s.calls[i].phase.ending))])
      else s
  }

  // What a serial run of the committed transactions gives -----------------------

  predicate HasCommitted(c: Call) {
    (c.phase.Ended? || c.phase.Released?) && c.phase.ending.Committed?
  }

  /** The first `n` calls one after the other, those that did not commit left out. */
  function Serial(calls: seq<Call>, n: nat): (r: MemState)
    requires n <= |calls|
    ensures MemInv(r)
  {
    if n == 0 then
      MemEmptyHasInv();
      EMPTY_MEM
    else if HasCommitted(calls[n - 1]) then Replay(Serial(calls, n - 1), calls[n - 1].ops)
    else Serial(calls, n - 1)
  }

  /** The answers that operations get when run alone from `s`. */
  function AnswersAlone(s: MemState, ops: seq<Op>): seq<Answer>
    requires MemInv(s)
  {
    if ops == [] then []
    else AnswersAlone(s, ops[..|ops| - 1]) + [MemDo(Replay(s, ops[..|ops| - 1]), ops[|ops| - 1]).1]
  }

  // The invariant of every interleaving -------------------------------------------

  /** Each call awaits the one submitted just before it. */
  ghost predicate Chained(s: System) {
    && s.tail == (if s.calls == [] then None else Some(|s.calls| - 1))
    && forall i :: 0 <= i < |s.calls| ==> s.calls[i].previous == if i == 0 then None else Some(i - 1)
  }

  /** Nobody starts before everyone submitted earlier has released the mutex. */
  ghost predicate InOrder(calls: seq<Call>) {
    forall i, j :: 0 <= j < i < |calls| && !calls[i].phase.Waiting? ==> calls[j].phase.Released?
  }

  /** A context is usable exactly while its transaction runs. */
  ghost predicate Gated(calls: seq<Call>) {
    forall i :: 0 <= i < |calls| ==> (calls[i].gateActive <==> calls[i].phase.Running?)
  }

  /** Each transaction saw what its predecessors committed, and got the answers it would have got alone. */
  ghost predicate SawSerial(calls: seq<Call>) {
    forall i :: 0 <= i < |calls| && HasContext(calls[i]) ==>
      && calls[i].snapshot == Serial(calls, i)
      && calls[i].answers == AnswersAlone(Serial(calls, i), calls[i].ops)
  }

  /** The committed transactions in submission order, and on top of them what the running one did. */
  ghost predicate DbIsSerial(s: System) {
    && (forall i :: 0 <= i < |s.calls| && s.calls[i].phase.Running? ==>
         s.db == Replay(Serial(s.calls, i), s.calls[i].ops))
    && ((forall i :: 0 <= i < |s.calls| ==> !s.calls[i].phase.Running?) ==> s.db == Serial(s.calls, |s.calls|))
  }

  /** Closing is a call like any other: transactions before it run, transactions after it are refused. */
  ghost predicate ClosedInTurn(s: System) {
    && (s.closed <==> exists i :: 0 <= i < |s.calls| && s.calls[i].closes && !s.calls[i].phase.Waiting?)
    && (forall i, j :: 0 <= j < i < |s.calls| && s.calls[j].closes ==> !HasContext(s.calls[i]))
    && (forall i :: 0 <= i < |s.calls| && s.calls[i].closes ==> !HasContext(s.calls[i]))
  }

  /** Before it starts, a call has done nothing. */
  ghost predicate WaitingIsBlank(calls: seq<Call>) {
    forall i :: 0 <= i < |calls| && calls[i].phase.Waiting? ==> calls[i].ops == [] && calls[i].answers == []
  }

  ghost predicate Inv(s: System) {
    Sound(s) && WaitingIsBlank(s.calls) && Chained(s) && InOrder(s.calls) && Gated(s.calls) && SawSerial(s.calls)
        && DbIsSerial(s) && ClosedInTurn(s)
  }

  // Replays depend on the calls before only ------------------------------------------

  lemma {:induction false} SerialSame(a: seq<Call>, b: seq<Call>, n: nat)
    requires n <= |a| && n <= |b|
    requires forall i :: 0 <= i < n ==>
        HasCommitted(a[i]) == HasCommitted(b[i]) && (HasCommitted(a[i]) ==> a[i].ops == b[i].ops)
    ensures Serial(a, n) == Serial(b, n)
  {
    hide Replay, MemInv;
    if n > 0 {
      SerialSame(a, b, n - 1);
    }
  }

  lemma {:induction false} SerialSkips(calls: seq<Call>, i: nat, n: nat)
    requires i <= n <= |calls|
    requires forall j :: i <= j < n ==> !HasCommitted(calls[j])
    ensures Serial(calls, n) == Serial(calls, i)
    decreases n
  {
    hide Replay, MemInv;
    if i < n {
      SerialSkips(calls, i, n - 1);
    }
  }

  /** Every call before the `i`-th has released the mutex and every call after it waits. */
  ghost predicate Front(calls: seq<Call>, i: nat) {
    && i < |calls|
    && (forall k :: 0 <= k < i ==> calls[k].phase.Released?)
    && (forall k :: i < k < |calls| ==> calls[k].phase.Waiting?)
  }

  lemma StartedIsFront(calls: seq<Call>, i: nat)
    requires InOrder(calls) && i < |calls| && (calls[i].phase.Running? || calls[i].phase.Ended?)
    ensures Front(calls, i)
  {
  }

  lemma StartableIsFront(s: System, i: nat)
    requires Chained(s) && InOrder(s.calls) && MayStart(s, i)
    ensures Front(s.calls, i)
  {
  }

  ghost predicate SeesSerial(calls: seq<Call>, i: nat, c: Call)
    requires i <= |calls|
  {
    HasContext(c) ==> c.snapshot == Serial(calls, i) && c.answers == AnswersAlone(Serial(calls, i), c.ops)
  }

  /** A step of the call at the front concerns nobody else. */
  lemma FrontStep(calls: seq<Call>, i: nat, c: Call)
    requires Front(calls, i) && SawSerial(calls) && Gated(calls)
    requires SeesSerial(calls, i, c) && (c.gateActive <==> c.phase.Running?)
    ensures var after := calls[i := c];
      Front(after, i) && InOrder(after) && SawSerial(after) && Gated(after) && Serial(after, i) == Serial(calls, i)
  {
    hide Replay, AnswersAlone, Serial, MemInv;
    var after := calls[i := c];
    forall k | 0 <= k <= i ensures Serial(after, k) == Serial(calls, k) {
      SerialSame(after, calls, k);
    }
  }

  /** What the database must hold when the call at the front has got to `calls[i]`. */
  ghost predicate FrontDb(db: MemState, calls: seq<Call>, i: nat)
    requires i < |calls|
  {
    db == if calls[i].phase.Running? || HasCommitted(calls[i]) then Replay(Serial(calls, i), calls[i].ops)
        else Serial(calls, i)
  }

  lemma SerialPastFront(calls: seq<Call>, i: nat)
    requires Front(calls, i)
    ensures Serial(calls, |calls|) == if HasCommitted(calls[i]) then Replay(Serial(calls, i), calls[i].ops)
        else Serial(calls, i)
  {
    SerialSkips(calls, i + 1, |calls|);
  }

  lemma FrontDbIsSerial(s: System, i: nat)
    requires Front(s.calls, i)
    ensures FrontDb(s.db, s.calls, i) <==> DbIsSerial(s)
  {
    hide Serial, Replay, MemInv;
    SerialPastFront(s.calls, i);
    assert s.calls[i].phase.Running? ==> !HasCommitted(s.calls[i]);
  }

  lemma Advance(s: System, t: System, i: nat, c: Call)
    requires Inv(s) && Front(s.calls, i)
    requires t.calls == s.calls[i := c] && t.tail == s.tail && c.previous == s.calls[i].previous
    requires SeesSerial(s.calls, i, c) && (c.gateActive <==> c.phase.Running?)
    requires !c.phase.Waiting? && MemInv(t.db) && MemInv(c.snapshot) && FrontDb(t.db, t.calls, i) && ClosedInTurn(t)
    ensures Inv(t)
  {
    hide Serial, Replay, MemInv, AnswersAlone, FrontDb, ClosedInTurn, SawSerial, InOrder, Gated, DbIsSerial,
        HasContext, SeesSerial;
    FrontStep(s.calls, i, c);
    FrontDbIsSerial(t, i);
    assert Chained(t);
  }

  // What closing must keep ------------------------------------------------------

  /** A step that starts nobody and gives nobody a context. */
  lemma ClosedStays(s: System, t: System, i: nat, c: Call)
    requires ClosedInTurn(s) && i < |s.calls| && !s.calls[i].phase.Waiting? && !c.phase.Waiting?
    requires t.calls == s.calls[i := c] && t.closed == s.closed
    requires c.closes == s.calls[i].closes && HasContext(c) == HasContext(s.calls[i])
    ensures ClosedInTurn(t)
  {
    hide HasContext;
    assert forall k :: 0 <= k < |s.calls| ==>
        t.calls[k].closes == s.calls[k].closes && t.calls[k].phase.Waiting? == s.calls[k].phase.Waiting?;
    assert forall k :: 0 <= k < |s.calls| ==> HasContext(t.calls[k]) == HasContext(s.calls[k]);
  }

  lemma ClosedAtStart(s: System, i: nat)
    requires ClosedInTurn(s) && Front(s.calls, i) && MayStart(s, i)
    ensures ClosedInTurn(DoStart(s, i))
  {
    var t := DoStart(s, i);
    forall k, j | 0 <= j < k < |t.calls| && t.calls[j].closes ensures !HasContext(t.calls[k]) {
      if k == i {
        assert s.calls[j].closes && !s.calls[j].phase.Waiting?;
      } else {
        assert s.calls[j].closes && t.calls[k] == s.calls[k];
      }
    }
    ClosedFlagAtStart(s, i);
  }

  lemma ClosedFlagAtStart(s: System, i: nat)
    requires ClosedInTurn(s) && MayStart(s, i)
    ensures var t := DoStart(s, i);
      t.closed <==> exists k :: 0 <= k < |t.calls| && t.calls[k].closes && !t.calls[k].phase.Waiting?
  {
    var t := DoStart(s, i);
    assert t.calls[i].closes == s.calls[i].closes && !t.calls[i].phase.Waiting?;
    if s.closed {
      var k :| 0 <= k < |s.calls| && s.calls[k].closes && !s.calls[k].phase.Waiting?;
      assert t.calls[k].closes && !t.calls[k].phase.Waiting?;
    }
    if k :| 0 <= k < |t.calls| && t.calls[k].closes && !t.calls[k].phase.Waiting? {
      assert k != i ==> s.calls[k] == t.calls[k];
    }
  }

  // Every kind of step keeps the invariant -----------------------------------------

  lemma StartKeepsInv(s: System, i: nat)
    requires Inv(s) && MayStart(s, i)
    ensures Inv(DoStart(s, i))
  {
    hide Serial, MemInv, SawSerial, InOrder, DbIsSerial, ClosedInTurn;
    StartableIsFront(s, i);
    FrontDbIsSerial(s, i);
    var t := DoStart(s, i);
    var c := t.calls[i];
    ReplayNothing(Serial(s.calls, i));
    assert AnswersAlone(Serial(s.calls, i), []) == [];
    SerialSame(t.calls, s.calls, i);
    ClosedAtStart(s, i);
    Advance(s, t, i, c);
  }

  lemma OneMoreAlone(start: MemState, ops: seq<Op>, op: Op)
    requires MemInv(start)
    ensures Replay(start, ops + [op]) == MemDo(Replay(start, ops), op).0
    ensures AnswersAlone(start, ops + [op]) == AnswersAlone(start, ops) + [MemDo(Replay(start, ops), op).1]
  {
    hide MemDo, MemInv;
    assert (ops + [op])[..|ops + [op]| - 1] == ops;
  }

  lemma PerformKeepsInv(s: System, i: nat, op: Op)
    requires Inv(s) && i < |s.calls| && s.calls[i].gateActive
    ensures Inv(DoPerform(s, i, op).0)
  {
    hide Serial, Replay, AnswersAlone, MemDo, MemInv, InOrder, ClosedInTurn;
    StartedIsFront(s.calls, i) by { assert s.calls[i].phase.Running?; }
    FrontDbIsSerial(s, i);
    OneMoreAlone(Serial(s.calls, i), s.calls[i].ops, op);
    var t := DoPerform(s, i, op).0;
    SerialSame(t.calls, s.calls, i);
    ClosedStays(s, t, i, t.calls[i]);
    Advance(s, t, i, t.calls[i]);
  }

  lemma EndKeepsInv(s: System, i: nat, commit: bool)
    requires Inv(s) && i < |s.calls| && s.calls[i].phase.Running?
    ensures Inv(DoEnd(s, i, commit))
  {
    hide Serial, Replay, AnswersAlone, MemInv, InOrder, ClosedInTurn;
    StartedIsFront(s.calls, i);
    FrontDbIsSerial(s, i);
    var t := DoEnd(s, i, commit);
    SerialSame(t.calls, s.calls, i);
    ClosedStays(s, t, i, t.calls[i]);
    Advance(s, t, i, t.calls[i]);
  }

  lemma ReleaseKeepsInv(s: System, i: nat)
    requires Inv(s) && i < |s.calls| && s.calls[i].phase.Ended?
    ensures Inv(Next(s, Release(i)))
  {
    hide Serial, Replay, AnswersAlone, MemInv, InOrder, ClosedInTurn;
    StartedIsFront(s.calls, i);
    FrontDbIsSerial(s, i);
    var t := Next(s, Release(i));
    SerialSame(t.calls, s.calls, i);
    ClosedStays(s, t, i, t.calls[i]);
    Advance(s, t, i, t.calls[i]);
  }

  lemma SubmitKeepsInv(s: System, closes: bool)
    requires Inv(s)
    ensures Inv(DoSubmit(s, closes))
  {
    hide Serial, Replay, AnswersAlone, MemInv;
    var t := DoSubmit(s, closes);
    var n := |s.calls|;
    forall k | 0 <= k <= n ensures Serial(t.calls, k) == Serial(s.calls, k) {
      SerialSame(t.calls, s.calls, k);
    }
    SerialSkips(t.calls, n, n + 1);
    SubmitKeepsClosed(s, closes);
    MemEmptyHasInv();
    assert DbIsSerial(t) by {
      assert forall k :: 0 <= k < n ==> t.calls[k] == s.calls[k];
    }
  }

  lemma SubmitKeepsClosed(s: System, closes: bool)
    requires ClosedInTurn(s)
    ensures ClosedInTurn(DoSubmit(s, closes))
  {
    var t := DoSubmit(s, closes);
    assert forall k :: 0 <= k < |s.calls| ==> t.calls[k] == s.calls[k];
    if s.closed {
      var k :| 0 <= k < |s.calls| && s.calls[k].closes && !s.calls[k].phase.Waiting?;
      assert t.calls[k].closes && !t.calls[k].phase.Waiting?;
    }
  }

  lemma StepKeepsInv(s: System, step: Step)
    requires Inv(s)
    ensures Inv(Next(s, step))
  {
    hide Inv, DoSubmit, DoStart, DoPerform, DoEnd, MayStart, HasContext;
    match step {
      case Submit(closes) => SubmitKeepsInv(s, closes);
      case Start(i) => if MayStart(s, i) { StartKeepsInv(s, i); }
      case Perform(i, op) =>
        if i < |s.calls| && HasContext(s.calls[i]) {
          if s.calls[i].gateActive {
            PerformKeepsInv(s, i, op);
          } else {
            DeadContextDoesNothing(s, i, op);
          }
        }
      case Commit(i) => if i < |s.calls| && s.calls[i].phase.Running? { EndKeepsInv(s, i, true); }
      case Throw(i) => if i < |s.calls| && s.calls[i].phase.Running? { EndKeepsInv(s, i, false); }
      case Release(i) => if i < |s.calls| && s.calls[i].phase.Ended? { ReleaseKeepsInv(s, i); }
    }
  }

  lemma DeadContextDoesNothing(s: System, i: nat, op: Op)
    requires Inv(s) && i < |s.calls| && !s.calls[i].gateActive
    ensures DoPerform(s, i, op) == (s, Failed(TransactionCompleted))
  {
  }

  // What each step does ------------------------------------------------------------------

  /** No call but the `i`-th is touched, and that one is now `c`. */
  ghost predicate OnlyCall(s: System, t: System, i: nat, c: Call) {
    i < |s.calls| && t.calls == s.calls[i := c] && t.tail == s.tail
  }

  /** Each step in its own terms, in every reachable state. */
  lemma StepIsExact(s: System, step: Step)
    requires Inv(s)
    ensures var t := Next(s, step);
      match step
      case Submit(closes) =>
        && t.db == s.db && t.closed == s.closed && t.calls[..|s.calls|] == s.calls && |t.calls| == |s.calls| + 1
        && t.calls[|s.calls|].phase == Waiting && t.calls[|s.calls|].closes == closes
      case Start(i) =>
        if i >= |s.calls| || s.calls[i].phase != Waiting || (i > 0 && !s.calls[i - 1].phase.Released?) then t == s
        else if s.calls[i].closes
            then t.closed && t.db == s.db && OnlyCall(s, t, i, s.calls[i].(phase := Ended(Closed)))
        else if s.closed
            then t.closed && t.db == s.db && OnlyCall(s, t, i, s.calls[i].(phase := Ended(Refused)))
        else
          && !t.closed && t.db == s.db
          && OnlyCall(s, t, i, s.calls[i].(phase := Running, gateActive := true, snapshot := s.db))
      case Perform(i, op) =>
        if i >= |s.calls| || s.calls[i].phase != Running then t == s
        else
          && t.db == MemDo(s.db, op).0 && t.closed == s.closed
          && OnlyCall(s, t, i, s.calls[i].(ops := s.calls[i].ops + [op],
                                           answers := s.calls[i].answers + [MemDo(s.db, op).1]))
          && DoPerform(s, i, op).1 == MemDo(s.db, op).1
      case Commit(i) =>
        if i >= |s.calls| || s.calls[i].phase != Running then t == s
        else
          && t.db == s.db && t.closed == s.closed
          && OnlyCall(s, t, i, s.calls[i].(gateActive := false, phase := Ended(Committed)))
      case Throw(i) =>
        if i >= |s.calls| || s.calls[i].phase != Running then t == s
        else
          && t.db == s.calls[i].snapshot && t.closed == s.closed
          && OnlyCall(s, t, i, s.calls[i].(gateActive := false, phase := Ended(RolledBack)))
      case Release(i) =>
        if i >= |s.calls| || !s.calls[i].phase.Ended? then t == s
        else
          && t.db == s.db && t.closed == s.closed
          && OnlyCall(s, t, i, s.calls[i].(phase := Released(s.calls[i].phase.ending)))
  {
    hide Serial, Replay, AnswersAlone, MemInv, MemDo, SawSerial, DbIsSerial, ClosedInTurn, InOrder;
  }

  // Runs ---------------------------------------------------------------------------

  function Run(s: System, steps: seq<Step>): (t: System)
    requires Inv(s)
    ensures Inv(t)
    decreases |steps|
  {
    if steps == [] then s
    else
      StepKeepsInv(s, steps[0]);
      Run(Next(s, steps[0]), steps[1..])
  }

  lemma IdleHasInv()
    ensures Inv(IDLE)
  {
    MemEmptyHasInv();
  }

  /** Whatever the interleaving: bodies run one at a time in submission order; when none runs, the database is a
      serial run of exactly the committed ones; and each saw, and was told,
          what it would have been alone in that order. */
  lemma Serializable(steps: seq<Step>)
    ensures Inv(IDLE)
    ensures var s := Run(IDLE, steps);
      && (forall i, j ::
            0 <= i < |s.calls| && 0 <= j < |s.calls| && s.calls[i].phase.Running? && s.calls[j].phase.Running? ==>
                i == j)
      && (forall i, j :: 0 <= j < i < |s.calls| && !s.calls[i].phase.Waiting? ==> s.calls[j].phase.Released?)
      && ((forall i :: 0 <= i < |s.calls| ==> !s.calls[i].phase.Running?) ==> s.db == Serial(s.calls, |s.calls|))
      && (forall i :: 0 <= i < |s.calls| && HasContext(s.calls[i]) ==>
            s.calls[i].snapshot == Serial(s.calls, i) && s.calls[i].answers
                == AnswersAlone(Serial(s.calls, i), s.calls[i].ops))
  {
    hide Serial, Replay, AnswersAlone, MemInv, Run, HasContext;
    IdleHasInv();
  }

  /** A completed context cannot write: using it changes nothing and says so. */
  lemma CompletedContextIsDead(steps: seq<Step>, i: nat, op: Op)
    ensures Inv(IDLE)
    ensures var s := Run(IDLE, steps);
      (i < |s.calls| && HasContext(s.calls[i]) && !s.calls[i].phase.Running?)
        ==> DoPerform(s, i, op) == (s, Failed(TransactionCompleted))
  {
    hide Serial, Replay, AnswersAlone, MemInv, Run, HasContext, MemDo;
    IdleHasInv();
    var s := Run(IDLE, steps);
    if i < |s.calls| && HasContext(s.calls[i]) && !s.calls[i].phase.Running? {
      DeadContextDoesNothing(s, i, op);
    }
  }

  /** Closing takes its turn: no transaction submitted after a `close` ever gets a context. */
  lemma NothingAfterClose(steps: seq<Step>, i: nat, j: nat)
    ensures Inv(IDLE)
    ensures var s := Run(IDLE, steps);
      j < i < |s.calls| && s.calls[j].closes ==> !HasContext(s.calls[i])
  {
    hide Serial, Replay, AnswersAlone, MemInv, Run, HasContext;
    IdleHasInv();
  }

  /** No deadlock: the earliest call that has not released the mutex can always take its next step. */
  lemma SomebodyCanMove(steps: seq<Step>, i: nat)
    ensures Inv(IDLE)
    ensures var s := Run(IDLE, steps);
      (i < |s.calls| && !s.calls[i].phase.Released? && (forall j :: 0 <= j < i ==> s.calls[j].phase.Released?))
        ==> MayStart(s, i) || s.calls[i].phase.Running? || s.calls[i].phase.Ended?
  {
    hide Serial, Replay, AnswersAlone, MemInv, Run;
    IdleHasInv();
    var s := Run(IDLE, steps);
    assert Chained(s);
  }
}
