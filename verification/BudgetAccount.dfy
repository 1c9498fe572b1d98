/** The reservation ledger of a budget account (packages/domain/src/budget-account.ts, budget.ts).

    Commands are functions from a state to a new state or an error. The lemmas speak of every
    sequence of commands applied to a freshly created account, an erring command leaving the
    state as it was.
 */
module BudgetAccount {
  import opened Basics

  datatype Result<+T> = Ok(value: T) | Err(error: Error)
  datatype Error =
    | Validation | ConcurrencyConflict | InvariantViolation | BudgetExceeded

  const MAX_SAFE_INTEGER: nat := 9007199254740991
  const MAX_RESERVATIONS_PER_ACCOUNT: nat := 10_000

  type Currency = string
  type Time = int

  datatype Money = Money(currency: Currency, amountMicros: nat)
  datatype TokenUsage = TokenUsage(inputTokens: nat, outputTokens: nat, cachedInputTokens: nat, reasoningTokens: nat)
  datatype Usage = Usage(tokens: TokenUsage, cost: Option<Money>, durationMs: nat)

  datatype TokenBudget =
    TokenBudget(maxTotalTokens: nat, maxInputTokens: Option<nat>, maxOutputTokens: Option<nat>,
        softMaxTotalTokens: Option<nat>)
  datatype MonetaryBudget = MonetaryBudget(limit: Money, softLimit: Option<Money>)
  datatype TimeBudget = TimeBudget(maxDurationMs: nat, softMaxDurationMs: Option<nat>)
  datatype Budget = Budget(tokens: Option<TokenBudget>, money: Option<MonetaryBudget>, time: Option<TimeBudget>)

  datatype Status = Held | Committed | Released | Cancelled
  datatype Reservation =
    Reservation(id: string, status: Status, estimate: Usage, actual: Option<Usage>, createdAt: Time,
        settledAt: Option<Time>)
  datatype Account = Account(budget: Budget, open: bool, version: nat, reservations: seq<Reservation>)

  datatype Dimension = InputTokens | OutputTokens | TotalTokens | MoneyMicros | Duration
  datatype Breach = Breach(dimension: Dimension, hard: bool, limit: nat, attempted: nat)
  datatype Decision = Decision(allowed: bool, breaches: seq<Breach>)

  // ------------------------------------------------------------------
  // Checked arithmetic
  // ------------------------------------------------------------------

  function CheckedAdd(a: nat, b: nat): Result<nat> {
    if a + b > MAX_SAFE_INTEGER then Err(InvariantViolation) else Ok(a + b)
  }

  function AddMoney(a: Money, b: Money): Result<Money> {
    if a.currency != b.currency then Err(InvariantViolation)
    else if a.amountMicros + b.amountMicros > MAX_SAFE_INTEGER then Err(InvariantViolation)
    else Ok(Money(a.currency, a.amountMicros + b.amountMicros))
  }

  function AddTokens(a: TokenUsage, b: TokenUsage): Result<TokenUsage> {
    match (CheckedAdd(a.inputTokens, b.inputTokens), CheckedAdd(a.outputTokens, b.outputTokens),
           CheckedAdd(a.cachedInputTokens, b.cachedInputTokens), CheckedAdd(a.reasoningTokens, b.reasoningTokens))
    case (Ok(i), Ok(o), Ok(c), Ok(r)) => Ok(TokenUsage(i, o, c, r))
    case _ => Err(InvariantViolation)
  }

  function AddUsage(a: Usage, b: Usage): Result<Usage> {
    var cost: Result<Option<Money>> :=
      if a.cost.None? then Ok(b.cost)
      else if b.cost.None? then Ok(a.cost)
      else match AddMoney(a.cost.value, b.cost.value) case Ok(m) => Ok(Some(m)) case Err(e) => Err(e);
    match (cost, CheckedAdd(a.durationMs, b.durationMs), AddTokens(a.tokens, b.tokens))
    case (Ok(c), Ok(d), Ok(t)) => Ok(Usage(t, c, d))
    case _ => Err(InvariantViolation)
  }

  function TotalTokensOf(u: TokenUsage): Result<nat> {
    match (CheckedAdd(u.inputTokens, u.cachedInputTokens), CheckedAdd(u.outputTokens, u.reasoningTokens))
    case (Ok(i), Ok(o)) => CheckedAdd(i, o)
    case _ => Err(InvariantViolation)
  }

  const ZERO_USAGE := Usage(TokenUsage(0, 0, 0, 0), None, 0)

  /** What a usage amounts to in one limited dimension; a missing cost counts as zero. */
  function Amount(d: Dimension, u: Usage): nat {
    match d
    case InputTokens => u.tokens.inputTokens + u.tokens.cachedInputTokens
    case OutputTokens => u.tokens.outputTokens + u.tokens.reasoningTokens
    case TotalTokens =>
      u.tokens.inputTokens + u.tokens.cachedInputTokens + u.tokens.outputTokens + u.tokens.reasoningTokens
    case MoneyMicros => if u.cost.None? then 0 else u.cost.value.amountMicros
    case Duration => u.durationMs
  }

  /** The hard limit a budget sets in one dimension. */
  function HardLimit(b: Budget, d: Dimension): Option<nat> {
    match d
    case InputTokens => if b.tokens.None? then None else b.tokens.value.maxInputTokens
    case OutputTokens => if b.tokens.None? then None else b.tokens.value.maxOutputTokens
    case TotalTokens => if b.tokens.None? then None else Some(b.tokens.value.maxTotalTokens)
    case MoneyMicros => if b.money.None? then None else Some(b.money.value.limit.amountMicros)
    case Duration => if b.time.None? then None else Some(b.time.value.maxDurationMs)
  }

  // ------------------------------------------------------------------
  // Totals and admission
  // ------------------------------------------------------------------

  function Prefix(rs: seq<Reservation>): seq<Reservation>
    requires rs != []
  {
    rs[..|rs| - 1]
  }

  function Final(rs: seq<Reservation>): Reservation
    requires rs != []
  {
    rs[|rs| - 1]
  }

  function ReservedTotals(rs: seq<Reservation>): Result<Usage> {
    if rs == [] then Ok(ZERO_USAGE)
    else match ReservedTotals(Prefix(rs))
      case Err(e) => Err(e)
      case Ok(sum) => if Final(rs).status == Held then AddUsage(sum, Final(rs).estimate) else Ok(sum)
  }

  function CommittedTotals(rs: seq<Reservation>): Result<Usage> {
    if rs == [] then Ok(ZERO_USAGE)
    else match CommittedTotals(Prefix(rs))
      case Err(e) => Err(e)
      case Ok(sum) =>
        if Final(rs).status == Committed
        then AddUsage(sum, if Final(rs).actual.None? then ZERO_USAGE else Final(rs).actual.value)
        else Ok(sum)
  }

  function Over(d: Dimension, hard: bool, limit: nat, attempted: nat): seq<Breach> {
    if attempted > limit then [Breach(d, hard, limit, attempted)] else []
  }

  function OverIf(d: Dimension, hard: bool, limit: Option<nat>, attempted: nat): seq<Breach> {
    if limit.None? then [] else Over(d, hard, limit.value, attempted)
  }

  function TokenBreaches(t: TokenBudget, u: Usage, total: nat): seq<Breach> {
    OverIf(InputTokens, true, t.maxInputTokens, u.tokens.inputTokens + u.tokens.cachedInputTokens)
    + OverIf(OutputTokens, true, t.maxOutputTokens, u.tokens.outputTokens + u.tokens.reasoningTokens)
    + Over(TotalTokens, true, t.maxTotalTokens, total)
    + OverIf(TotalTokens, false, t.softMaxTotalTokens, total)
  }

  function MoneyBreaches(m: MonetaryBudget, cost: Option<Money>): seq<Breach> {
    if cost.None? then []
    else
      Over(MoneyMicros, true, m.limit.amountMicros, cost.value.amountMicros)
      + (if m.softLimit.None? then []
          else Over(MoneyMicros, false, m.softLimit.value.amountMicros, cost.value.amountMicros))
  }

  function TimeBreaches(t: TimeBudget, durationMs: nat): seq<Breach> {
    Over(Duration, true, t.maxDurationMs, durationMs) + OverIf(Duration, false, t.softMaxDurationMs, durationMs)
  }

  function CollectBreaches(b: Budget, u: Usage): Result<seq<Breach>> {
    if b.tokens.Some? && TotalTokensOf(u.tokens).Err? then Err(InvariantViolation)
    else Ok((if b.tokens.None? then [] else TokenBreaches(b.tokens.value, u, TotalTokensOf(u.tokens).value))
            + (if b.money.None? then [] else MoneyBreaches(b.money.value, u.cost))
            + (if b.time.None? then [] else TimeBreaches(b.time.value, u.durationMs)))
  }

  predicate CurrencyMatches(b: Budget, u: Usage) {
    b.money.Some? && u.cost.Some? ==> u.cost.value.currency == b.money.value.limit.currency
  }

  predicate AllSoft(breaches: seq<Breach>) {
    forall i :: 0 <= i < |breaches| ==> !breaches[i].hard
  }

  function EvaluateReservation(a: Account, estimate: Usage): Result<Decision> {
    if !CurrencyMatches(a.budget, estimate) then Err(Validation)
    else match (ReservedTotals(a.reservations), CommittedTotals(a.reservations))
      case (Ok(held), Ok(committed)) => (
        match AddUsage(held, committed)
        case Err(e) => Err(e)
        case Ok(used) => (
          match AddUsage(used, estimate)
          case Err(e) => Err(e)
          case Ok(prospective) => (
            match CollectBreaches(a.budget, prospective)
            case Err(e) => Err(e)
            case Ok(breaches) => Ok(Decision(AllSoft(breaches), breaches)))))
      case _ => Err(InvariantViolation)
  }

  // ------------------------------------------------------------------
  // Commands
  // ------------------------------------------------------------------

  datatype Command =
    | Reserve(id: string, estimate: Usage, requestedAt: Time, expectedVersion: Option<nat>)
    | Commit(id: string, actual: Usage, settledAt: Time, expectedVersion: Option<nat>)
    | Release(id: string, settledAt: Time, expectedVersion: Option<nat>)
    | Cancel(id: string, settledAt: Time, expectedVersion: Option<nat>)
    | CancelAccount(cancelledAt: Time, expectedVersion: Option<nat>)

  function CreateBudgetAccount(b: Budget): Account {
    Account(b, true, 0, [])
  }

  predicate VersionOk(a: Account, expected: Option<nat>) {
    expected.None? || expected.value == a.version
  }

  /** The first reservation with this id. */
  function FindReservation(rs: seq<Reservation>, id: string): (r: Option<Reservation>)
    ensures r.Some? ==> r.value.id == id && r.value in rs
    ensures r.None? <==> forall i :: 0 <= i < |rs| ==> rs[i].id != id
  {
    if rs == [] then None
    else if rs[0].id == id then Some(rs[0])
    else FindReservation(rs[1..], id)
  }

  function WithReservation(a: Account, next: Reservation): Account {
    a.(version := a.version + 1,
       reservations := seq(|a.reservations|, i requires 0 <= i < |a.reservations| =>
         if a.reservations[i].id == next.id then next else a.reservations[i]))
  }

  function ReserveBudget(a: Account, id: string, estimate: Usage, requestedAt: Time,
      expected: Option<nat>): Result<Account> {
    if !VersionOk(a, expected) then Err(ConcurrencyConflict)
    else
      var existing := FindReservation(a.reservations, id);
      if existing.Some? then
        if existing.value.status == Held && existing.value.estimate == estimate && existing.value.createdAt
            == requestedAt
        then Ok(a) else Err(InvariantViolation)
      else if !a.open then Err(InvariantViolation)
      else if |a.reservations| >= MAX_RESERVATIONS_PER_ACCOUNT then Err(InvariantViolation)
      else match EvaluateReservation(a, estimate)
        case Err(e) => Err(e)
        case Ok(decision) =>
          if !decision.allowed then Err(BudgetExceeded)
          else Ok(a.(version := a.version + 1,
                     reservations := a.reservations + [Reservation(id, Held, estimate, None, requestedAt, None)]))
  }

  function CommitReservation(a: Account, id: string, actual: Usage, settledAt: Time,
      expected: Option<nat>): Result<Account> {
    if !CurrencyMatches(a.budget, actual) then Err(Validation)
    else if !VersionOk(a, expected) then Err(ConcurrencyConflict)
    else
      var existing := FindReservation(a.reservations, id);
      if existing.None? then Err(InvariantViolation)
      else if existing.value.status == Committed then
        if existing.value.actual == Some(actual) && existing.value.settledAt == Some(settledAt) then Ok(a)
            else Err(InvariantViolation)
      else if existing.value.status != Held then Err(InvariantViolation)
      else Ok(WithReservation(a,
          existing.value.(status := Committed, actual := Some(actual), settledAt := Some(settledAt))))
  }

  function SettleWithoutUsage(a: Account, id: string, settledAt: Time, expected: Option<nat>,
      terminal: Status): Result<Account>
    requires terminal == Released || terminal == Cancelled
  {
    if !VersionOk(a, expected) then Err(ConcurrencyConflict)
    else
      var existing := FindReservation(a.reservations, id);
      if existing.None? then Err(InvariantViolation)
      else if existing.value.status == terminal then
        if existing.value.settledAt == Some(settledAt) then Ok(a) else Err(InvariantViolation)
      else if existing.value.status != Held then Err(InvariantViolation)
      else Ok(WithReservation(a, existing.value.(status := terminal, settledAt := Some(settledAt))))
  }

  function CancelHold(r: Reservation, at: Time): Reservation {
    if r.status == Held then r.(status := Cancelled, settledAt := Some(at)) else r
  }

  function CancelBudgetAccount(a: Account, at: Time, expected: Option<nat>): Result<Account> {
    if !VersionOk(a, expected) then Err(ConcurrencyConflict)
    else if !a.open then Ok(a)
    else Ok(a.(open := false, version := a.version + 1,
               reservations := seq(|a.reservations|,
                   i requires 0 <= i < |a.reservations| => CancelHold(a.reservations[i], at))))
  }

  function Execute(a: Account, c: Command): Result<Account> {
    match c
    case Reserve(id, estimate, at, v) => ReserveBudget(a, id, estimate, at, v)
    case Commit(id, actual, at, v) => CommitReservation(a, id, actual, at, v)
    case Release(id, at, v) => SettleWithoutUsage(a, id, at, v, Released)
    case Cancel(id, at, v) => SettleWithoutUsage(a, id, at, v, Cancelled)
    case CancelAccount(at, v) => CancelBudgetAccount(a, at, v)
  }

  function Step(a: Account, c: Command): Account {
    match Execute(a, c) case Ok(next) => next case Err(_) => a
  }

  function Run(a: Account, commands: seq<Command>): Account {
    if commands == [] then a else Step(Run(a, commands[..|commands| - 1]), commands[|commands| - 1])
  }

  // ------------------------------------------------------------------
  // Consistency of every reachable state
  // ------------------------------------------------------------------

  /** The rules by which the parser accepts one stored reservation. */
  predicate ConsistentReservation(b: Budget, r: Reservation) {
    && (r.status == Held ==> r.actual.None? && r.settledAt.None?)
    && (r.status != Held ==> r.settledAt.Some?)
    && (r.status == Committed ==> r.actual.Some?)
    && (r.status == Released || r.status == Cancelled ==> r.actual.None?)
    && CurrencyMatches(b, r.estimate)
    && (r.actual.Some? ==> CurrencyMatches(b, r.actual.value))
  }

  ghost predicate ParserAccepts(a: Account) {
    && |a.reservations| <= MAX_RESERVATIONS_PER_ACCOUNT
    && (forall i :: 0 <= i < |a.reservations| ==> ConsistentReservation(a.budget, a.reservations[i]))
    && (forall i, j :: 0 <= i < j < |a.reservations| ==> a.reservations[i].id != a.reservations[j].id)
  }

  ghost predicate NoHoldsOnceCancelled(a: Account) {
    !a.open ==> forall i :: 0 <= i < |a.reservations| ==> a.reservations[i].status != Held
  }

  ghost predicate Reachable(a: Account) {
    ParserAccepts(a) && NoHoldsOnceCancelled(a)
  }

  /** Replacing by id is replacing at one index. */
  lemma WithReservationAt(a: Account, next: Reservation) returns (i: nat)
    requires ParserAccepts(a) && FindReservation(a.reservations, next.id).Some?
    ensures i < |a.reservations| && a.reservations[i] == FindReservation(a.reservations, next.id).value
    ensures WithReservation(a, next) == a.(version := a.version + 1, reservations := a.reservations[i := next])
  {
    var found := FindReservation(a.reservations, next.id).value;
    i :| 0 <= i < |a.reservations| && a.reservations[i] == found;
    assert WithReservation(a, next).reservations == a.reservations[i := next];
  }

  /** An effective command changes the account in one of three ways. */
  datatype Change =
    | Appended(r: Reservation)
    | Settled(index: nat, r: Reservation)
    | Closed(at: Time)

  ghost predicate IsChange(a: Account, ch: Change, b: Account) {
    && b.budget == a.budget && b.version == a.version + 1
    && match ch
       case Appended(r) =>
         && a.open && b.open && b.reservations == a.reservations + [r]
         && r.status == Held && ConsistentReservation(a.budget, r)
         && |a.reservations| < MAX_RESERVATIONS_PER_ACCOUNT
         && forall i :: 0 <= i < |a.reservations| ==> a.reservations[i].id != r.id
       case Settled(i, r) =>
         && b.open == a.open && i < |a.reservations| && b.reservations == a.reservations[i := r]
         && a.reservations[i].status == Held && r.status != Held && ConsistentReservation(a.budget, r)
         && r.id == a.reservations[i].id && r.estimate == a.reservations[i].estimate && r.createdAt
              == a.reservations[i].createdAt
       case Closed(at) =>
         && a.open && !b.open && |b.reservations| == |a.reservations|
         && forall i :: 0 <= i < |a.reservations| ==> b.reservations[i] == CancelHold(a.reservations[i], at)
  }

  /** A command either errs, acknowledges without effect, or makes exactly one such change. */
  lemma EffectOf(a: Account, c: Command) returns (ch: Change)
    requires ParserAccepts(a)
    ensures Execute(a, c).Ok? && Execute(a, c).value != a ==> IsChange(a, ch, Execute(a, c).value)
  {
    hide EvaluateReservation, ParserAccepts, FindReservation, WithReservation, IsChange;
    ch := Closed(0);
    match c
    case Reserve(id, estimate, at, v) =>
      ch := Appended(Reservation(id, Held, estimate, None, at, None));
      AppendEffect(a, id, estimate, at, v);
    case Commit(id, actual, at, v) =>
      if FindReservation(a.reservations, id).Some? && CurrencyMatches(a.budget, actual) {
        ch := SettleEffect(a, id, Committed, Some(actual), at);
      }
    case Release(id, at, v) =>
      if FindReservation(a.reservations, id).Some? {
        ch := SettleEffect(a, id, Released, None, at);
      }
    case Cancel(id, at, v) =>
      if FindReservation(a.reservations, id).Some? {
        ch := SettleEffect(a, id, Cancelled, None, at);
      }
    case CancelAccount(at, v) =>
      ch := Closed(at);
      CloseEffect(a, at, v);
  }

  lemma AppendEffect(a: Account, id: string, estimate: Usage, at: Time, v: Option<nat>)
    requires ParserAccepts(a)
    ensures var r := ReserveBudget(a, id, estimate, at, v);
      r.Ok? && r.value != a ==> IsChange(a, Appended(Reservation(id, Held, estimate, None, at, None)), r.value)
  {
    hide EvaluateReservation;
    EvaluatedCurrencyMatches(a, estimate);
  }

  lemma CloseEffect(a: Account, at: Time, v: Option<nat>)
    ensures var r := CancelBudgetAccount(a, at, v);
      r.Ok? && r.value != a ==> IsChange(a, Closed(at), r.value)
  {
  }

  /** Settling a held reservation changes that one reservation, to a consistent one. */
  lemma SettleEffect(a: Account, id: string, terminal: Status, actual: Option<Usage>, at: Time) returns (ch: Change)
    requires ParserAccepts(a) && FindReservation(a.reservations, id).Some?
    requires terminal != Held && (terminal == Committed <==> actual.Some?)
        && (actual.Some? ==> CurrencyMatches(a.budget, actual.value))
    ensures var held := FindReservation(a.reservations, id).value;
      var next := held.(status := terminal, actual := actual, settledAt := Some(at));
      held.status == Held ==>
        held.actual.None? && IsChange(a, ch, WithReservation(a, next))
  {
    var held := FindReservation(a.reservations, id).value;
    var next := held.(status := terminal, actual := actual, settledAt := Some(at));
    var i := WithReservationAt(a, next);
    ch := Settled(i, next);
    hide FindReservation, WithReservation;
    assert ConsistentReservation(a.budget, a.reservations[i]);
  }

  lemma EvaluatedCurrencyMatches(a: Account, estimate: Usage)
    ensures EvaluateReservation(a, estimate).Ok? ==> CurrencyMatches(a.budget, estimate)
  {
    hide CollectBreaches, AddUsage, ReservedTotals, CommittedTotals;
  }

  lemma ChangeKeepsReachable(a: Account, ch: Change, b: Account)
    requires Reachable(a) && IsChange(a, ch, b)
    ensures Reachable(b)
  {
    if ch.Closed? {
      forall i, j | 0 <= i < j < |b.reservations| ensures b.reservations[i].id != b.reservations[j].id {
        assert a.reservations[i].id != a.reservations[j].id;
      }
    }
  }

  /** Every reachable state is one the parser accepts, with unique ids and no hold on a cancelled account. */
  lemma {:induction false} EveryRunIsConsistent(b: Budget, commands: seq<Command>)
    ensures Reachable(Run(CreateBudgetAccount(b), commands))
  {
    if commands != [] {
      var a := Run(CreateBudgetAccount(b), commands[..|commands| - 1]);
      EveryRunIsConsistent(b, commands[..|commands| - 1]);
      StepKeepsReachable(a, commands[|commands| - 1]);
    }
  }

  lemma StepKeepsReachable(a: Account, c: Command)
    requires Reachable(a)
    ensures Reachable(Step(a, c))
  {
    hide Execute, IsChange;
    var ch := EffectOf(a, c);
    if Execute(a, c).Ok? && Execute(a, c).value != a {
      ChangeKeepsReachable(a, ch, Execute(a, c).value);
    }
  }

  // ------------------------------------------------------------------
  // Lifecycle
  // ------------------------------------------------------------------

  /** Later states extend earlier ones: same ids in place, settled reservations untouched. */
  ghost predicate Extends(a: Account, b: Account) {
    && a.budget == b.budget && a.version <= b.version && (b.open ==> a.open)
    && |a.reservations| <= |b.reservations|
    && forall i :: 0 <= i < |a.reservations| ==>
         && b.reservations[i].id == a.reservations[i].id
         && b.reservations[i].estimate == a.reservations[i].estimate
         && (a.reservations[i].status != Held ==> b.reservations[i] == a.reservations[i])
  }

  lemma StepExtends(a: Account, c: Command)
    requires ParserAccepts(a)
    ensures Extends(a, Step(a, c))
    ensures Step(a, c) == a || Step(a, c).version == a.version + 1
  {
    hide Execute;
    var ch := EffectOf(a, c);
  }

  /** Whatever commands follow, settled reservations never change again. */
  lemma {:induction false} SettledForever(a: Account, commands: seq<Command>)
    requires Reachable(a)
    ensures Reachable(Run(a, commands)) && Extends(a, Run(a, commands))
  {
    hide Step, ParserAccepts, NoHoldsOnceCancelled;
    if commands != [] {
      var b := Run(a, commands[..|commands| - 1]);
      SettledForever(a, commands[..|commands| - 1]);
      StepKeepsReachable(b, commands[|commands| - 1]);
      StepExtends(b, commands[|commands| - 1]);
    }
  }

  /** Once one writer with expected version `v` takes effect, no later command with that version does. */
  lemma OneWriterPerVersion(a: Account, first: Command, between: seq<Command>, second: Command)
    requires Reachable(a) && first.expectedVersion == Some(a.version) && second.expectedVersion == first.expectedVersion
    requires Step(a, first) != a
    ensures var b := Run(Step(a, first), between); Execute(b, second).Err? && Step(b, second) == b
  {
    var b := Run(Step(a, first), between);
    StepExtends(a, first);
    StepKeepsReachable(a, first);
    SettledForever(Step(a, first), between);
    hide Reachable, Run, EvaluateReservation, FindReservation;
    assert b.version > a.version;
  }

  /** Nothing changes a cancelled account any more. */
  lemma {:induction false} CancelledIsFinal(a: Account, commands: seq<Command>)
    requires Reachable(a) && !a.open
    ensures Run(a, commands) == a
  {
    hide Execute, Reachable;
    if commands != [] {
      CancelledIsFinal(a, commands[..|commands| - 1]);
      CancelledIgnores(a, commands[|commands| - 1]);
    }
  }

  lemma CancelledIgnores(a: Account, c: Command)
    requires Reachable(a) && !a.open
    ensures Step(a, c) == a
  {
    hide Execute;
    var ch := EffectOf(a, c);
  }

  /** After cancellation a commit is acknowledged only as a replay of an earlier commit. */
  lemma CommitOnCancelledAccount(a: Account, id: string, actual: Usage, at: Time, expected: Option<nat>)
    requires Reachable(a) && !a.open
    ensures Execute(a, Commit(id, actual, at, expected)).Ok? <==>
            CurrencyMatches(a.budget, actual) && VersionOk(a, expected)
            && exists i :: 0 <= i < |a.reservations| && a.reservations[i].id == id && a.reservations[i].status
                 == Committed
                           && a.reservations[i].actual == Some(actual) && a.reservations[i].settledAt == Some(at)
  {
    var found := FindReservation(a.reservations, id);
    if found.Some? {
      var i :| 0 <= i < |a.reservations| && a.reservations[i] == found.value;
      assert forall j :: 0 <= j < |a.reservations| && a.reservations[j].id == id ==> j == i;
    }
  }

  /** In particular, work still held when the account is cancelled can no longer be accounted for. */
  lemma HeldAtCancellationIsLost(
    a: Account, cancelledAt: Time, expected: Option<nat>, i: nat, actual: Usage, at: Time, commitExpected: Option<nat>)
    requires Reachable(a) && a.open && i < |a.reservations| && a.reservations[i].status == Held
    requires Execute(a, CancelAccount(cancelledAt, expected)).Ok?
    ensures var b := Step(a, CancelAccount(cancelledAt, expected));
      Execute(b, Commit(a.reservations[i].id, actual, at, commitExpected)).Err?
  {
    var b := Step(a, CancelAccount(cancelledAt, expected));
    StepKeepsReachable(a, CancelAccount(cancelledAt, expected));
    CommitOnCancelledAccount(b, a.reservations[i].id, actual, at, commitExpected);
    assert b.reservations[i].id == a.reservations[i].id && b.reservations[i].status == Cancelled;
    assert forall j :: 0 <= j < |b.reservations| && b.reservations[j].id == a.reservations[i].id ==> j == i;
  }

  // ------------------------------------------------------------------
  // Bounded overshoot
  // ------------------------------------------------------------------

  datatype Measure = HeldEstimates | CommittedActuals | Overshoot

  function ActualOf(r: Reservation): Usage {
    if r.actual.None? then ZERO_USAGE else r.actual.value
  }

  function Weight(m: Measure, d: Dimension, r: Reservation): nat {
    match m
    case HeldEstimates => if r.status == Held then Amount(d, r.estimate) else 0
    case CommittedActuals => if r.status == Committed then Amount(d, ActualOf(r)) else 0
    case Overshoot =>
      if r.status == Committed && Amount(d, ActualOf(r)) > Amount(d, r.estimate)
      then Amount(d, ActualOf(r)) - Amount(d, r.estimate) else 0
  }

  function Sum(m: Measure, d: Dimension, rs: seq<Reservation>): nat {
    if rs == [] then 0 else Sum(m, d, Prefix(rs)) + Weight(m, d, Final(rs))
  }

  lemma AddUsageAdds(d: Dimension, a: Usage, b: Usage)
    ensures AddUsage(a, b).Ok? ==> Amount(d, AddUsage(a, b).value) == Amount(d, a) + Amount(d, b)
  {
  }

  lemma {:induction false} TotalsAreSums(d: Dimension, rs: seq<Reservation>)
    ensures ReservedTotals(rs).Ok? ==> Amount(d, ReservedTotals(rs).value) == Sum(HeldEstimates, d, rs)
    ensures CommittedTotals(rs).Ok? ==> Amount(d, CommittedTotals(rs).value) == Sum(CommittedActuals, d, rs)
  {
    hide AddUsage, Amount;
    if rs == [] {
      ZeroAmount(d);
    } else {
      TotalsAreSums(d, Prefix(rs));
      if ReservedTotals(Prefix(rs)).Ok? {
        AddUsageAdds(d, ReservedTotals(Prefix(rs)).value, Final(rs).estimate);
      }
      if CommittedTotals(Prefix(rs)).Ok? {
        AddUsageAdds(d, CommittedTotals(Prefix(rs)).value, ActualOf(Final(rs)));
      }
    }
  }

  lemma ZeroAmount(d: Dimension)
    ensures Amount(d, ZERO_USAGE) == 0
  {
  }

  lemma BreachesNameEveryExcess(b: Budget, u: Usage)
    ensures CollectBreaches(b, u).Ok? ==>
      (AllSoft(CollectBreaches(b, u).value) <==>
       forall d :: HardLimit(b, d).Some? ==> Amount(d, u) <= HardLimit(b, d).value)
  {
    if CollectBreaches(b, u).Ok? {
      var tokens := if b.tokens.None? then [] else TokenBreaches(b.tokens.value, u, TotalTokensOf(u.tokens).value);
      var money := if b.money.None? then [] else MoneyBreaches(b.money.value, u.cost);
      var time := if b.time.None? then [] else TimeBreaches(b.time.value, u.durationMs);
      AllSoftJoin(tokens, money);
      AllSoftJoin(tokens + money, time);
      TokenBreachesNameExcess(b, u);
      OtherBreachesNameExcess(b, u);
      hide TokenBreaches, MoneyBreaches, TimeBreaches;
      assert AllSoft(CollectBreaches(b, u).value) <==> AllSoft(tokens) && AllSoft(money) && AllSoft(time);
      assert forall d: Dimension ::
        d.InputTokens? || d.OutputTokens? || d.TotalTokens? || d.MoneyMicros? || d.Duration?;
    }
  }

  lemma AllSoftJoin(a: seq<Breach>, b: seq<Breach>)
    ensures AllSoft(a + b) <==> AllSoft(a) && AllSoft(b)
  {
    assert forall i :: 0 <= i < |a| ==> (a + b)[i] == a[i];
    assert forall i :: 0 <= i < |b| ==> (a + b)[|a| + i] == b[i];
  }

  lemma OverIsSoft(d: Dimension, hard: bool, limit: nat, attempted: nat)
    ensures AllSoft(Over(d, hard, limit, attempted)) <==> !hard || attempted <= limit
  {
    if attempted > limit {
      assert Over(d, hard, limit, attempted)[0].hard == hard;
    }
  }

  lemma OverIfIsSoft(d: Dimension, hard: bool, limit: Option<nat>, attempted: nat)
    ensures AllSoft(OverIf(d, hard, limit, attempted)) <==> !hard || limit.None? || attempted <= limit.value
  {
    if limit.Some? {
      OverIsSoft(d, hard, limit.value, attempted);
    }
  }

  lemma TokenBreachesNameExcess(b: Budget, u: Usage)
    requires b.tokens.Some? ==> TotalTokensOf(u.tokens).Ok?
    ensures b.tokens.Some? ==>
      (AllSoft(TokenBreaches(b.tokens.value, u, TotalTokensOf(u.tokens).value)) <==>
       && (HardLimit(b, InputTokens).Some? ==> Amount(InputTokens, u) <= HardLimit(b, InputTokens).value)
       && (HardLimit(b, OutputTokens).Some? ==> Amount(OutputTokens, u) <= HardLimit(b, OutputTokens).value)
       && Amount(TotalTokens, u) <= HardLimit(b, TotalTokens).value)
  {
    if b.tokens.Some? {
      var t := b.tokens.value;
      var total := TotalTokensOf(u.tokens).value;
      var input := OverIf(InputTokens, true, t.maxInputTokens, u.tokens.inputTokens + u.tokens.cachedInputTokens);
      var output := OverIf(OutputTokens, true, t.maxOutputTokens, u.tokens.outputTokens + u.tokens.reasoningTokens);
      var hard := Over(TotalTokens, true, t.maxTotalTokens, total);
      var soft := OverIf(TotalTokens, false, t.softMaxTotalTokens, total);
      OverIfIsSoft(InputTokens, true, t.maxInputTokens, u.tokens.inputTokens + u.tokens.cachedInputTokens);
      OverIfIsSoft(OutputTokens, true, t.maxOutputTokens, u.tokens.outputTokens + u.tokens.reasoningTokens);
      OverIsSoft(TotalTokens, true, t.maxTotalTokens, total);
      OverIfIsSoft(TotalTokens, false, t.softMaxTotalTokens, total);
      AllSoftJoin(input, output);
      AllSoftJoin(input + output, hard);
      AllSoftJoin(input + output + hard, soft);
    }
  }

  lemma OtherBreachesNameExcess(b: Budget, u: Usage)
    ensures b.money.Some? ==>
      (AllSoft(MoneyBreaches(b.money.value, u.cost)) <==> Amount(MoneyMicros, u) <= HardLimit(b, MoneyMicros).value)
    ensures b.time.Some? ==>
      (AllSoft(TimeBreaches(b.time.value, u.durationMs)) <==> Amount(Duration, u) <= HardLimit(b, Duration).value)
  {
    if b.money.Some? && u.cost.Some? {
      var m := b.money.value;
      var soft := if m.softLimit.None? then []
          else Over(MoneyMicros, false, m.softLimit.value.amountMicros, u.cost.value.amountMicros);
      OverIsSoft(MoneyMicros, true, m.limit.amountMicros, u.cost.value.amountMicros);
      if m.softLimit.Some? {
        OverIsSoft(MoneyMicros, false, m.softLimit.value.amountMicros, u.cost.value.amountMicros);
      }
      AllSoftJoin(Over(MoneyMicros, true, m.limit.amountMicros, u.cost.value.amountMicros), soft);
    }
    if b.time.Some? {
      OverIsSoft(Duration, true, b.time.value.maxDurationMs, u.durationMs);
      OverIfIsSoft(Duration, false, b.time.value.softMaxDurationMs, u.durationMs);
      AllSoftJoin(Over(Duration, true, b.time.value.maxDurationMs, u.durationMs),
                  OverIf(Duration, false, b.time.value.softMaxDurationMs, u.durationMs));
    }
  }

  /** Admission is exact: allowed if and only if no hard limit is exceeded by holds, commits and the estimate. */
  lemma AdmissionIsExact(a: Account, estimate: Usage)
    ensures EvaluateReservation(a, estimate).Ok? ==>
      (EvaluateReservation(a, estimate).value.allowed <==>
       forall d :: HardLimit(a.budget, d).Some? ==>
         Sum(HeldEstimates, d, a.reservations) + Sum(CommittedActuals, d, a.reservations) + Amount(d, estimate)
         <= HardLimit(a.budget, d).value)
  {
    hide AddUsage, Amount, CollectBreaches, HardLimit, ReservedTotals, CommittedTotals, Sum, AllSoft;
    if EvaluateReservation(a, estimate).Ok? {
      var held := ReservedTotals(a.reservations).value;
      var committed := CommittedTotals(a.reservations).value;
      var used := AddUsage(held, committed).value;
      var prospective := AddUsage(used, estimate).value;
      forall d ensures Amount(d, prospective) ==
        Sum(HeldEstimates, d, a.reservations) + Sum(CommittedActuals, d, a.reservations) + Amount(d, estimate)
      {
        TotalsAreSums(d, a.reservations);
        AddUsageAdds(d, held, committed);
        AddUsageAdds(d, used, estimate);
      }
      BreachesNameEveryExcess(a.budget, prospective);
    }
  }

  lemma {:induction false} SumUpdate(m: Measure, d: Dimension, rs: seq<Reservation>, i: nat, r: Reservation)
    requires i < |rs|
    ensures Sum(m, d, rs[i := r]) + Weight(m, d, rs[i]) == Sum(m, d, rs) + Weight(m, d, r)
  {
    hide Weight;
    if i == |rs| - 1 {
      assert Prefix(rs[i := r]) == Prefix(rs);
    } else {
      SumUpdate(m, d, Prefix(rs), i, r);
      assert Prefix(rs[i := r]) == Prefix(rs)[i := r];
    }
  }

  lemma {:induction false} SumAfterClosing(m: Measure, d: Dimension, rs: seq<Reservation>, ss: seq<Reservation>,
      at: Time)
    requires |rs| == |ss| && forall i :: 0 <= i < |rs| ==> ss[i] == CancelHold(rs[i], at)
    ensures Sum(m, d, ss) == if m.HeldEstimates? then 0 else Sum(m, d, rs)
  {
    if rs != [] {
      SumAfterClosing(m, d, Prefix(rs), Prefix(ss), at);
    }
  }

  /** In every limited dimension usage stays within the limit plus what commits added over their estimates. */
  ghost predicate WithinLimits(a: Account) {
    forall d :: HardLimit(a.budget, d).Some? ==>
      Sum(HeldEstimates, d, a.reservations) + Sum(CommittedActuals, d, a.reservations)
      <= HardLimit(a.budget, d).value + Sum(Overshoot, d, a.reservations)
  }

  lemma ChangeKeepsLimits(a: Account, c: Command, ch: Change, b: Account)
    requires WithinLimits(a) && Execute(a, c) == Ok(b) && IsChange(a, ch, b)
    ensures WithinLimits(b)
  {
    forall d | HardLimit(a.budget, d).Some?
      ensures Sum(HeldEstimates, d, b.reservations) + Sum(CommittedActuals, d, b.reservations)
           <= HardLimit(a.budget, d).value + Sum(Overshoot, d, b.reservations)
    {
      match ch
      case Appended(r) =>
        ReserveWasAdmitted(a, c, b, r);
        AdmissionIsExact(a, r.estimate);
        SumAppend(d, a.reservations, r);
      case Settled(i, r) =>
        hide Execute, Sum, Amount, HardLimit;
        SumUpdate(HeldEstimates, d, a.reservations, i, r);
        SumUpdate(CommittedActuals, d, a.reservations, i, r);
        SumUpdate(Overshoot, d, a.reservations, i, r);
      case Closed(at) =>
        hide Execute, Sum;
        SumAfterClosing(HeldEstimates, d, a.reservations, b.reservations, at);
        SumAfterClosing(CommittedActuals, d, a.reservations, b.reservations, at);
        SumAfterClosing(Overshoot, d, a.reservations, b.reservations, at);
    }
  }

  lemma SumAppend(d: Dimension, rs: seq<Reservation>, r: Reservation)
    requires r.status == Held
    ensures Sum(HeldEstimates, d, rs + [r]) == Sum(HeldEstimates, d, rs) + Amount(d, r.estimate)
    ensures Sum(CommittedActuals, d, rs + [r]) == Sum(CommittedActuals, d, rs)
    ensures Sum(Overshoot, d, rs + [r]) == Sum(Overshoot, d, rs)
  {
    assert Prefix(rs + [r]) == rs;
  }

  lemma ReserveWasAdmitted(a: Account, c: Command, b: Account, r: Reservation)
    requires Execute(a, c) == Ok(b) && b.reservations == a.reservations + [r]
    ensures EvaluateReservation(a, r.estimate).Ok? && EvaluateReservation(a, r.estimate).value.allowed
  {
    hide EvaluateReservation, FindReservation;
    assert |b.reservations| == |a.reservations| + 1 && b.reservations[|a.reservations|] == r;
  }

  /** Bounded overshoot over every run from a fresh account. */
  lemma {:induction false} EveryRunStaysWithinLimits(b: Budget, commands: seq<Command>)
    ensures WithinLimits(Run(CreateBudgetAccount(b), commands))
  {
    hide WithinLimits, Execute, IsChange;
    if commands == [] {
      FreshWithinLimits(b);
    } else {
      var a := Run(CreateBudgetAccount(b), commands[..|commands| - 1]);
      var c := commands[|commands| - 1];
      EveryRunStaysWithinLimits(b, commands[..|commands| - 1]);
      EveryRunIsConsistent(b, commands[..|commands| - 1]);
      var ch := EffectOf(a, c);
      if Execute(a, c).Ok? && Execute(a, c).value != a {
        ChangeKeepsLimits(a, c, ch, Execute(a, c).value);
      }
    }
  }

  lemma FreshWithinLimits(b: Budget)
    ensures WithinLimits(CreateBudgetAccount(b))
  {
  }

  lemma {:induction false} NoOvershoot(d: Dimension, rs: seq<Reservation>)
    requires forall i :: 0 <= i < |rs| && rs[i].status == Committed ==>
        Amount(d, ActualOf(rs[i])) <= Amount(d, rs[i].estimate)
    ensures Sum(Overshoot, d, rs) == 0
  {
    if rs != [] {
      NoOvershoot(d, Prefix(rs));
    }
  }

  /** If actuals never exceed their estimates, no hard limit is ever breached. */
  lemma NoBreachWithoutOvershoot(b: Budget, commands: seq<Command>, d: Dimension)
    requires HardLimit(b, d).Some?
    requires var rs := Run(CreateBudgetAccount(b), commands).reservations;
      forall i :: 0 <= i < |rs| && rs[i].status == Committed ==> Amount(d, ActualOf(rs[i])) <= Amount(d, rs[i].estimate)
    ensures var rs := Run(CreateBudgetAccount(b), commands).reservations;
      Sum(HeldEstimates, d, rs) + Sum(CommittedActuals, d, rs) <= HardLimit(b, d).value
  {
    hide Step, HardLimit, Amount, Sum;
    EveryRunStaysWithinLimits(b, commands);
    BudgetIsFixed(b, commands);
    NoOvershoot(d, Run(CreateBudgetAccount(b), commands).reservations);
  }

  lemma BudgetIsFixed(b: Budget, commands: seq<Command>)
    ensures Run(CreateBudgetAccount(b), commands).budget == b
  {
    SettledForever(CreateBudgetAccount(b), commands);
  }
}
