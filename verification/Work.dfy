/** Transactions: a work body runs operations on a store and then commits or throws
    (`transact` in packages/persistence-memory/src/memory-adapter.ts and
    packages/persistence-sqlite/src/sqlite-adapter.ts).
 */
module Work {
  import opened Outbox
  import opened MemoryModel
  import opened SqlModel
  import opened AdapterRefinement

  datatype Action = Do(op: Op) | Return | Throw

  /** A work body: what it does next depends on every answer so far. It does at most `most` operations. */
  datatype Body = Body(next: seq<Answer> -> Action, most: nat)

  function ActionOf(w: Body, answers: seq<Answer>): Action {
    if |answers| >= w.most && w.next(answers).Do? then Return else w.next(answers)
  }

  datatype Outcome = Outcome(committed: bool, answers: seq<Answer>)

  /** One operation with its input validation, which comes before anything else. */
  function MemDo(s: MemState, op: Op): (r: (MemState, Answer))
    requires MemInv(s)
    ensures MemInv(r.0)
  {
    if !ValidOp(op) then (s, Failed(Validation))
    else
      InvIsSortable(s);
      MemStepKeepsInv(s, op);
      MemStep(s, op)
  }

  function SqlDo(t: SqlState, op: Op): (r: (SqlState, Answer))
    requires TablesOk(t)
    ensures TablesOk(r.0)
  {
    if !ValidOp(op) then (t, Failed(Validation))
    else
      SqlStepKeepsTables(t, op);
      SqlStep(t, op)
  }

  function MemWork(s: MemState, w: Body, answers: seq<Answer>): (r: (MemState, Outcome))
    requires MemInv(s)
    ensures MemInv(r.0)
    decreases w.most - |answers|
  {
    match ActionOf(w, answers)
    case Return => (s, Outcome(true, answers))
    case Throw => (s, Outcome(false, answers))
    case Do(op) =>
      var (next, answer) := MemDo(s, op);
      MemWork(next, w, answers + [answer])
  }

  function SqlWork(t: SqlState, w: Body, answers: seq<Answer>): (r: (SqlState, Outcome))
    requires TablesOk(t)
    ensures TablesOk(r.0)
    decreases w.most - |answers|
  {
    match ActionOf(w, answers)
    case Return => (t, Outcome(true, answers))
    case Throw => (t, Outcome(false, answers))
    case Do(op) =>
      var (next, answer) := SqlDo(t, op);
      SqlWork(next, w, answers + [answer])
  }

  /** All or nothing: a thrown work leaves the state of before. */
  function MemTransact(s: MemState, w: Body): (r: (MemState, Outcome))
    requires MemInv(s)
    ensures MemInv(r.0)
  {
    var (next, outcome) := MemWork(s, w, []);
    (if outcome.committed then next else s, outcome)
  }

  function SqlTransact(t: SqlState, w: Body): (r: (SqlState, Outcome))
    requires TablesOk(t)
    ensures TablesOk(r.0)
  {
    var (next, outcome) := SqlWork(t, w, []);
    (if outcome.committed then next else t, outcome)
  }

  function MemRun(s: MemState, works: seq<Body>): (r: (MemState, seq<Outcome>))
    requires MemInv(s)
    ensures MemInv(r.0)
    decreases |works|
  {
    if works == [] then (s, [])
    else
      var (next, first) := MemTransact(s, works[0]);
      var (last, rest) := MemRun(next, works[1..]);
      (last, [first] + rest)
  }

  function SqlRun(t: SqlState, works: seq<Body>): (r: (SqlState, seq<Outcome>))
    requires TablesOk(t)
    ensures TablesOk(r.0)
    decreases |works|
  {
    if works == [] then (t, [])
    else
      var (next, first) := SqlTransact(t, works[0]);
      var (last, rest) := SqlRun(next, works[1..]);
      (last, [first] + rest)
  }

  lemma DoRefines(m: MemState, t: SqlState, op: Op)
    requires Related(m, t)
    ensures TablesOk(t)
    ensures SqlDo(t, op).1 == MemDo(m, op).1 && Related(MemDo(m, op).0, SqlDo(t, op).0)
  {
    hide MemStep, SqlStep, Sortable, TablesOk, AggregatesRelated, OutboxNumbered, KeysIndexed, EventsNumbered,
        AggregatesFiled;
    RelatedTablesOk(m, t);
    if ValidOp(op) {
      StepRefines(m, t, op);
    }
  }

  lemma {:induction false} WorkRefines(m: MemState, t: SqlState, w: Body, answers: seq<Answer>)
    requires Related(m, t)
    ensures TablesOk(t)
    ensures SqlWork(t, w, answers).1 == MemWork(m, w, answers).1
    ensures Related(MemWork(m, w, answers).0, SqlWork(t, w, answers).0)
    decreases w.most - |answers|
  {
    hide MemDo, SqlDo, TablesOk, AggregatesRelated, OutboxNumbered, KeysIndexed, EventsNumbered, AggregatesFiled;
    RelatedTablesOk(m, t);
    if ActionOf(w, answers).Do? {
      var op := ActionOf(w, answers).op;
      DoRefines(m, t, op);
      WorkRefines(MemDo(m, op).0, SqlDo(t, op).0, w, answers + [MemDo(m, op).1]);
    }
  }

  /** Observational equivalence over whole runs, commits and rollbacks alike. */
  lemma {:induction false} RunRefines(m: MemState, t: SqlState, works: seq<Body>)
    requires Related(m, t)
    ensures TablesOk(t)
    ensures SqlRun(t, works).1 == MemRun(m, works).1
    ensures Related(MemRun(m, works).0, SqlRun(t, works).0)
    decreases |works|
  {
    hide MemWork, SqlWork, TablesOk, AggregatesRelated, OutboxNumbered, KeysIndexed, EventsNumbered, AggregatesFiled;
    RelatedTablesOk(m, t);
    if works != [] {
      WorkRefines(m, t, works[0], []);
      RunRefines(MemTransact(m, works[0]).0, SqlTransact(t, works[0]).0, works[1..]);
    }
  }

  /** Started empty, the two adapters cannot be told apart. */
  lemma AdaptersAgree(works: seq<Body>)
    ensures MemInv(EMPTY_MEM) && TablesOk(EMPTY_SQL) && MemRun(EMPTY_MEM, works).1 == SqlRun(EMPTY_SQL, works).1
  {
    EmptyRelated();
    RunRefines(EMPTY_MEM, EMPTY_SQL, works);
  }

  // A run of transactions is a replay of the committed operations ---------

  function Replay(s: MemState, ops: seq<Op>): (r: MemState)
    requires MemInv(s)
    ensures MemInv(r)
  {
    if ops == [] then s else MemDo(Replay(s, ops[..|ops| - 1]), ops[|ops| - 1]).0
  }

  lemma {:induction false} ReplayJoin(s: MemState, a: seq<Op>, b: seq<Op>)
    requires MemInv(s)
    ensures Replay(s, a + b) == Replay(Replay(s, a), b)
    decreases |b|
  {
    hide MemDo, MemInv;
    if b == [] {
      assert a + b == a;
    } else {
      ReplayJoin(s, a, b[..|b| - 1]);
      assert (a + b)[..|a + b| - 1] == a + b[..|b| - 1];
    }
  }

  /** The operations a work body performs. */
  function Performed(s: MemState, w: Body, answers: seq<Answer>): seq<Op>
    requires MemInv(s)
    decreases w.most - |answers|
  {
    match ActionOf(w, answers)
    case Do(op) => [op] + Performed(MemDo(s, op).0, w, answers + [MemDo(s, op).1])
    case _ => []
  }

  lemma {:induction false} WorkIsReplay(s: MemState, w: Body, answers: seq<Answer>)
    requires MemInv(s)
    ensures MemWork(s, w, answers).0 == Replay(s, Performed(s, w, answers))
    decreases w.most - |answers|
  {
    hide MemDo, MemInv;
    if ActionOf(w, answers).Do? {
      var op := ActionOf(w, answers).op;
      var (next, answer) := MemDo(s, op);
      WorkIsReplay(next, w, answers + [answer]);
      ReplayJoin(s, [op], Performed(next, w, answers + [answer]));
      assert [op][..0] == [];
    }
  }

  /** The operations of the works that commit, in order. */
  function CommittedOps(s: MemState, works: seq<Body>): seq<Op>
    requires MemInv(s)
    decreases |works|
  {
    if works == [] then []
    else
      (if MemTransact(s, works[0]).1.committed then Performed(s, works[0], []) else [])
      + CommittedOps(MemTransact(s, works[0]).0, works[1..])
  }

  /** All or nothing: what remains of a run is exactly its committed operations. */
  lemma {:induction false} RunIsReplay(s: MemState, works: seq<Body>)
    requires MemInv(s)
    ensures MemRun(s, works).0 == Replay(s, CommittedOps(s, works))
    decreases |works|
  {
    hide MemDo, MemInv, MemWork, Performed, Replay;
    if works == [] {
      assert Replay(s, []) == s by { ReplayNothing(s); }
    } else {
      var (next, outcome) := MemTransact(s, works[0]);
      RunIsReplay(next, works[1..]);
      WorkIsReplay(s, works[0], []);
      ReplayNothing(s);
      ReplayJoin(s, if outcome.committed then Performed(s, works[0], []) else [], CommittedOps(next, works[1..]));
    }
  }

  lemma ReplayNothing(s: MemState)
    requires MemInv(s)
    ensures Replay(s, []) == s
  {
  }
}
