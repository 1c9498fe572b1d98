/** What each command of the reservation ledger does, in terms of its own arguments, and what a run has
    recorded of the usage that was reported to it (packages/domain/src/budget-account.ts).
 */
module BudgetCommands {
  import opened Basics
  import opened BudgetAccount

  ghost predicate StandsAt(a: Account, i: nat, id: string) {
    i < |a.reservations| && a.reservations[i].id == id
  }

  ghost predicate Unknown(a: Account, id: string) {
    forall i: nat :: !StandsAt(a, i, id)
  }

  ghost predicate Expects(a: Account, v: Option<nat>) {
    v == None || v == Some(a.version)
  }

  ghost predicate PaidInBudget(b: Budget, u: Usage) {
    b.money == None || u.cost == None || u.cost.value.currency == b.money.value.limit.currency
  }

  function Put(a: Account, i: nat, r: Reservation): Account
    requires i < |a.reservations|
  {
    a.(version := a.version + 1, reservations := a.reservations[i := r])
  }

  lemma FoundAt(a: Account, id: string) returns (i: nat)
    requires ParserAccepts(a)
    ensures FindReservation(a.reservations, id).None? ==> Unknown(a, id)
    ensures FindReservation(a.reservations, id).Some? ==>
      StandsAt(a, i, id) && FindReservation(a.reservations, id).value == a.reservations[i]
      && forall j: nat :: StandsAt(a, j, id) ==> j == i
  {
    i := 0;
    var found := FindReservation(a.reservations, id);
    if found.Some? {
      i :| 0 <= i < |a.reservations| && a.reservations[i] == found.value;
    }
  }

  lemma PutAt(a: Account, i: nat, next: Reservation)
    requires ParserAccepts(a) && StandsAt(a, i, next.id)
    ensures WithReservation(a, next) == Put(a, i, next)
  {
    assert WithReservation(a, next).reservations == a.reservations[i := next];
  }

  // Settling ---------------------------------------------------------------------------------

  ghost predicate CommittedAs(r: Reservation, actual: Usage, at: Time) {
    r.status == Committed && r.actual == Some(actual) && r.settledAt == Some(at)
  }

  /** A commit succeeds on a hold, which it turns into the usage that was reported, and as a repeat of itself. */
  lemma CommitIsExact(a: Account, id: string, actual: Usage, at: Time, v: Option<nat>)
    requires ParserAccepts(a)
    ensures var r := Execute(a, Commit(id, actual, at, v));
      && (r.Ok? <==>
            && PaidInBudget(a.budget, actual) && Expects(a, v)
            && exists i: nat :: StandsAt(a, i, id)
                 && (a.reservations[i].status == Held || CommittedAs(a.reservations[i], actual, at)))
      && (r.Err? ==>
            && (r.error == Validation <==> !PaidInBudget(a.budget, actual))
            && (r.error == ConcurrencyConflict <==> PaidInBudget(a.budget, actual) && !Expects(a, v))
            && r.error in {Validation, ConcurrencyConflict, InvariantViolation})
      && forall i: nat :: r.Ok? && StandsAt(a, i, id) ==>
           var held := a.reservations[i];
           r.value == if held.status != Held then a
             else Put(a, i, Reservation(id, Committed, held.estimate, Some(actual), held.createdAt, Some(at)))
  {
    hide FindReservation, WithReservation, ParserAccepts;
    var i := FoundAt(a, id);
    if FindReservation(a.reservations, id).Some? {
      var held := a.reservations[i];
      PutAt(a, i, held.(status := Committed, actual := Some(actual), settledAt := Some(at)));
    }
  }

  /** Releasing and cancelling succeed on a hold, which they end without usage, and as a repeat of themselves. */
  lemma SettleIsExact(a: Account, c: Command, id: string, at: Time, v: Option<nat>)
    requires ParserAccepts(a) && (c == Release(id, at, v) || c == Cancel(id, at, v))
    ensures var r := Execute(a, c);
      var terminal := if c.Release? then Released else Cancelled;
      && (r.Ok? <==>
            && Expects(a, v)
            && exists i: nat :: StandsAt(a, i, id)
                 && (a.reservations[i].status == Held
                     || (a.reservations[i].status == terminal && a.reservations[i].settledAt == Some(at))))
      && (r.Err? ==> r.error == if !Expects(a, v) then ConcurrencyConflict else InvariantViolation)
      && forall i: nat :: r.Ok? && StandsAt(a, i, id) ==>
           var held := a.reservations[i];
           r.value == if held.status != Held then a
             else Put(a, i, Reservation(id, terminal, held.estimate, None, held.createdAt, Some(at)))
  {
    hide FindReservation, WithReservation;
    var terminal := if c.Release? then Released else Cancelled;
    var i := FoundAt(a, id);
    if FindReservation(a.reservations, id).Some? {
      var held := a.reservations[i];
      assert ConsistentReservation(a.budget, held);
      PutAt(a, i, held.(status := terminal, settledAt := Some(at)));
    }
  }

  /** Cancelling the account ends every hold and nothing else; a second time it changes nothing. */
  lemma CancelAccountIsExact(a: Account, at: Time, v: Option<nat>)
    requires ParserAccepts(a)
    ensures var r := Execute(a, CancelAccount(at, v));
      && (r.Ok? <==> Expects(a, v)) && (r.Err? ==> r.error == ConcurrencyConflict)
      && (r.Ok? && !a.open ==> r.value == a)
      && (r.Ok? && a.open ==>
            && !r.value.open && r.value.version == a.version + 1 && r.value.budget == a.budget
            && |r.value.reservations| == |a.reservations|
            && forall i :: 0 <= i < |a.reservations| ==>
                 var old_ := a.reservations[i];
                 r.value.reservations[i] == if old_.status != Held then old_
                   else Reservation(old_.id, Cancelled, old_.estimate, None, old_.createdAt, Some(at)))
  {
    assert forall i :: 0 <= i < |a.reservations| ==> ConsistentReservation(a.budget, a.reservations[i]);
  }

  // Totals --------------------------------------------------------------------------------------

  /** 2^53 - 1 */
  const LARGEST_SAFE: nat := 0x1F_FFFF_FFFF_FFFF

  /** One counter of a usage. */
  datatype Part = Input | Output | Cached | Reasoning | Micros | Millis

  function Size(p: Part, u: Usage): nat {
    match p
    case Input => u.tokens.inputTokens
    case Output => u.tokens.outputTokens
    case Cached => u.tokens.cachedInputTokens
    case Reasoning => u.tokens.reasoningTokens
    case Micros => if u.cost.None? then 0 else u.cost.value.amountMicros
    case Millis => u.durationMs
  }

  ghost predicate PaidIn(u: Usage, c: Currency) {
    u.cost.Some? && u.cost.value.currency == c
  }

  /** What the parser of usages lets through: every counter is a safe integer. */
  ghost predicate Safe(u: Usage) {
    forall p: Part :: Size(p, u) <= LARGEST_SAFE
  }

  /** Adding succeeds if and only if no counter gets too large and the costs are in one currency. */
  lemma AddUsageIff(a: Usage, b: Usage)
    requires Safe(a) && Safe(b)
    ensures AddUsage(a, b).Ok? <==>
      && (forall p: Part :: Size(p, a) + Size(p, b) <= LARGEST_SAFE)
      && (a.cost.Some? && b.cost.Some? ==> a.cost.value.currency == b.cost.value.currency)
    ensures AddUsage(a, b).Ok? ==>
      && (forall p: Part :: Size(p, AddUsage(a, b).value) == Size(p, a) + Size(p, b))
      && (forall c: Currency :: PaidIn(AddUsage(a, b).value, c) <==> PaidIn(a, c) || PaidIn(b, c))
  {
    assert Size(Input, a) + Size(Input, b) <= LARGEST_SAFE <==>
      CheckedAdd(a.tokens.inputTokens, b.tokens.inputTokens).Ok?;
    assert Size(Output, a) + Size(Output, b) <= LARGEST_SAFE <==>
      CheckedAdd(a.tokens.outputTokens, b.tokens.outputTokens).Ok?;
    assert Size(Cached, a) + Size(Cached, b) <= LARGEST_SAFE <==>
      CheckedAdd(a.tokens.cachedInputTokens, b.tokens.cachedInputTokens).Ok?;
    assert Size(Reasoning, a) + Size(Reasoning, b) <= LARGEST_SAFE <==>
      CheckedAdd(a.tokens.reasoningTokens, b.tokens.reasoningTokens).Ok?;
    assert Size(Millis, a) + Size(Millis, b) <= LARGEST_SAFE <==> CheckedAdd(a.durationMs, b.durationMs).Ok?;
    assert Size(Micros, a) <= LARGEST_SAFE && Size(Micros, b) <= LARGEST_SAFE;
  }

  // Sums over reservations ------------------------------------------------------------------------

  datatype Side = Holds | Commits

  /** What a reservation counts for on one side. */
  function CountedFor(side: Side, r: Reservation): Option<Usage> {
    match side
    case Holds => if r.status == Held then Some(r.estimate) else None
    case Commits => if r.status == Committed then Some(if r.actual.None? then ZERO_USAGE else r.actual.value) else None
  }

  function Totals(side: Side, rs: seq<Reservation>): Result<Usage> {
    if side.Holds? then ReservedTotals(rs) else CommittedTotals(rs)
  }

  function SizeSum(p: Part, side: Side, rs: seq<Reservation>): nat {
    if rs == [] then 0
    else
      var counted := CountedFor(side, rs[|rs| - 1]);
      SizeSum(p, side, rs[..|rs| - 1]) + if counted.None? then 0 else Size(p, counted.value)
  }

  ghost predicate SomePaidIn(side: Side, rs: seq<Reservation>, c: Currency) {
    exists i :: 0 <= i < |rs| && CountedFor(side, rs[i]).Some? && PaidIn(CountedFor(side, rs[i]).value, c)
  }

  ghost predicate AllSafe(rs: seq<Reservation>) {
    forall i :: 0 <= i < |rs| ==> Safe(rs[i].estimate) && (rs[i].actual.Some? ==> Safe(rs[i].actual.value))
  }

  ghost predicate OneCurrency(side: Side, rs: seq<Reservation>) {
    forall c, d :: SomePaidIn(side, rs, c) && SomePaidIn(side, rs, d) ==> c == d
  }

  lemma PaidAfter(side: Side, rs: seq<Reservation>, c: Currency)
    requires rs != []
    ensures var last := CountedFor(side, Final(rs));
      SomePaidIn(side, rs, c) <==> SomePaidIn(side, Prefix(rs), c) || (last.Some? && PaidIn(last.value, c))
  {
    assert forall i :: 0 <= i < |rs| - 1 ==> Prefix(rs)[i] == rs[i];
  }

  lemma TotalsStep(side: Side, rs: seq<Reservation>)
    requires rs != []
    ensures Totals(side, rs) ==
      match Totals(side, Prefix(rs))
      case Err(e) => Err(e)
      case Ok(sum) => if CountedFor(side, Final(rs)).None? then Ok(sum)
          else AddUsage(sum, CountedFor(side, Final(rs)).value)
  {
    hide AddUsage;
  }

  lemma CountedIsSafe(side: Side, r: Reservation)
    requires Safe(r.estimate) && (r.actual.Some? ==> Safe(r.actual.value))
    ensures CountedFor(side, r).Some? ==> Safe(CountedFor(side, r).value)
  {
  }

  ghost predicate SumsFit(side: Side, rs: seq<Reservation>) {
    forall p: Part :: SizeSum(p, side, rs) <= LARGEST_SAFE
  }

  ghost predicate SumsUp(side: Side, rs: seq<Reservation>, u: Usage) {
    && (forall p: Part :: Size(p, u) == SizeSum(p, side, rs))
    && (forall c: Currency :: PaidIn(u, c) <==> SomePaidIn(side, rs, c))
  }

  /** The totals exist if and only if no counter gets too large and all costs are in one currency. */
  lemma {:induction false} TotalsIff(side: Side, rs: seq<Reservation>)
    requires AllSafe(rs)
    ensures Totals(side, rs).Ok? <==> SumsFit(side, rs) && OneCurrency(side, rs)
    ensures Totals(side, rs).Ok? ==> SumsUp(side, rs, Totals(side, rs).value)
  {
    hide AddUsage, Totals, Safe, PaidIn, SumsFit, OneCurrency, SumsUp, CountedFor;
    if rs == [] {
      NothingTotals(side);
    } else {
      TotalsIff(side, Prefix(rs));
      TotalsStep(side, rs);
      CountedIsSafe(side, Final(rs));
      if CountedFor(side, Final(rs)).None? {
        SkippedStep(side, rs);
      } else {
        CountedStep(side, rs);
      }
    }
  }

  lemma SkippedStep(side: Side, rs: seq<Reservation>)
    requires rs != [] && CountedFor(side, Final(rs)).None?
    ensures SumsFit(side, rs) <==> SumsFit(side, Prefix(rs))
    ensures OneCurrency(side, rs) <==> OneCurrency(side, Prefix(rs))
    ensures forall u :: SumsUp(side, rs, u) <==> SumsUp(side, Prefix(rs), u)
  {
    hide CountedFor, SomePaidIn, PaidIn, Size;
    forall c: Currency ensures SomePaidIn(side, rs, c) <==> SomePaidIn(side, Prefix(rs), c) {
      PaidAfter(side, rs, c);
    }
    forall p: Part ensures SizeSum(p, side, rs) == SizeSum(p, side, Prefix(rs)) {
    }
  }

  lemma CountedStep(side: Side, rs: seq<Reservation>)
    requires rs != [] && CountedFor(side, Final(rs)).Some? && Safe(CountedFor(side, Final(rs)).value)
    ensures SumsFit(side, rs) ==> SumsFit(side, Prefix(rs))
    ensures OneCurrency(side, rs) ==> OneCurrency(side, Prefix(rs))
    ensures var last := CountedFor(side, Final(rs)).value;
      forall sum: Usage :: SumsFit(side, Prefix(rs)) && SumsUp(side, Prefix(rs), sum) ==>
        && (AddUsage(sum, last).Ok? <==> SumsFit(side, rs) && OneCurrency(side, rs))
        && (AddUsage(sum, last).Ok? ==> SumsUp(side, rs, AddUsage(sum, last).value))
  {
    hide AddUsage, CountedFor, PaidIn, SomePaidIn, Size;
    var last := CountedFor(side, Final(rs)).value;
    forall c: Currency
      ensures SomePaidIn(side, rs, c) <==> SomePaidIn(side, Prefix(rs), c) || PaidIn(last, c)
    {
      PaidAfter(side, rs, c);
    }
    forall p: Part ensures SizeSum(p, side, rs) == SizeSum(p, side, Prefix(rs)) + Size(p, last) {
    }
    forall sum: Usage | SumsFit(side, Prefix(rs)) && SumsUp(side, Prefix(rs), sum)
      ensures AddUsage(sum, last).Ok? <==> SumsFit(side, rs) && OneCurrency(side, rs)
      ensures AddUsage(sum, last).Ok? ==> SumsUp(side, rs, AddUsage(sum, last).value)
    {
      forall p: Part ensures Size(p, sum) <= LARGEST_SAFE {
        assert SizeSum(p, side, Prefix(rs)) <= LARGEST_SAFE;
      }
      AddUsageIff(sum, last);
      OneOfBoth(sum, last);
    }
  }

  lemma OneOfBoth(a: Usage, b: Usage)
    ensures (a.cost.Some? && b.cost.Some? ==> a.cost.value.currency == b.cost.value.currency) <==>
      forall c, d :: (PaidIn(a, c) || PaidIn(b, c)) && (PaidIn(a, d) || PaidIn(b, d)) ==> c == d
  {
    if a.cost.Some? && b.cost.Some? {
      assert PaidIn(a, a.cost.value.currency) && PaidIn(b, b.cost.value.currency);
    }
  }

  lemma NothingTotals(side: Side)
    ensures Totals(side, []) == Ok(ZERO_USAGE) && SumsUp(side, [], ZERO_USAGE)
    ensures SumsFit(side, []) && OneCurrency(side, [])
  {
  }

  // Admission ---------------------------------------------------------------------------------------

  /** Holds, commits and the estimate together. */
  function After(p: Part, a: Account, estimate: Usage): nat {
    SizeSum(p, Holds, a.reservations) + SizeSum(p, Commits, a.reservations) + Size(p, estimate)
  }

  ghost predicate Pays(a: Account, estimate: Usage, c: Currency) {
    SomePaidIn(Holds, a.reservations, c) || SomePaidIn(Commits, a.reservations, c) || PaidIn(estimate, c)
  }

  /** No counter leaves the safe integers, and all costs are in one currency. */
  ghost predicate Summable(a: Account, estimate: Usage) {
    && (forall p: Part :: After(p, a, estimate) <= LARGEST_SAFE)
    && (forall c, d :: Pays(a, estimate, c) && Pays(a, estimate, d) ==> c == d)
    && (a.budget.tokens.Some? ==>
          After(Input, a, estimate) + After(Cached, a, estimate) + After(Output, a, estimate)
          + After(Reasoning, a, estimate) <= LARGEST_SAFE)
  }

  /** The breach says that one of the budget's seven limits is exceeded, and by what. */
  ghost predicate IsExcess(b: Budget, input: nat, output: nat, micros: nat, millis: nat, x: Breach) {
    && x.attempted > x.limit
    && match x.dimension
       case InputTokens =>
         x.attempted == input && x.hard && b.tokens.Some? && b.tokens.value.maxInputTokens == Some(x.limit)
       case OutputTokens =>
         x.attempted == output && x.hard && b.tokens.Some? && b.tokens.value.maxOutputTokens == Some(x.limit)
       case TotalTokens =>
         && x.attempted == input + output && b.tokens.Some?
         && (if x.hard then b.tokens.value.maxTotalTokens == x.limit
             else b.tokens.value.softMaxTotalTokens == Some(x.limit))
       case MoneyMicros =>
         && x.attempted == micros && b.money.Some?
         && (if x.hard then b.money.value.limit.amountMicros == x.limit
             else b.money.value.softLimit.Some? && b.money.value.softLimit.value.amountMicros == x.limit)
       case Duration =>
         && x.attempted == millis && b.time.Some?
         && (if x.hard then b.time.value.maxDurationMs == x.limit
             else b.time.value.softMaxDurationMs == Some(x.limit))
  }

  lemma OverHas(d: Dimension, hard: bool, limit: nat, attempted: nat, x: Breach)
    ensures x in Over(d, hard, limit, attempted) <==> attempted > limit && x == Breach(d, hard, limit, attempted)
  {
  }

  lemma OverIfHas(d: Dimension, hard: bool, limit: Option<nat>, attempted: nat, x: Breach)
    ensures x in OverIf(d, hard, limit, attempted) <==>
      limit.Some? && attempted > limit.value && x == Breach(d, hard, limit.value, attempted)
  {
  }

  lemma TokenBreachesHave(b: Budget, t: TokenBudget, u: Usage, total: nat, micros: nat, millis: nat, x: Breach)
    requires b.tokens == Some(t) && total == u.tokens.inputTokens + u.tokens.cachedInputTokens
                                             + (u.tokens.outputTokens + u.tokens.reasoningTokens)
    ensures x in TokenBreaches(t, u, total) <==>
      && (x.dimension == InputTokens || x.dimension == OutputTokens || x.dimension == TotalTokens)
      && IsExcess(b, u.tokens.inputTokens + u.tokens.cachedInputTokens,
                  u.tokens.outputTokens + u.tokens.reasoningTokens, micros, millis, x)
  {
    hide Over, OverIf;
    OverIfHas(InputTokens, true, t.maxInputTokens, u.tokens.inputTokens + u.tokens.cachedInputTokens, x);
    OverIfHas(OutputTokens, true, t.maxOutputTokens, u.tokens.outputTokens + u.tokens.reasoningTokens, x);
    OverHas(TotalTokens, true, t.maxTotalTokens, total, x);
    OverIfHas(TotalTokens, false, t.softMaxTotalTokens, total, x);
  }

  lemma OtherBreachesHave(b: Budget, u: Usage, input: nat, output: nat, x: Breach)
    ensures b.money.Some? ==>
      (x in MoneyBreaches(b.money.value, u.cost) <==>
       x.dimension == MoneyMicros && IsExcess(b, input, output, Size(Micros, u), Size(Millis, u), x))
    ensures b.time.Some? ==>
      (x in TimeBreaches(b.time.value, u.durationMs) <==>
       x.dimension == Duration && IsExcess(b, input, output, Size(Micros, u), Size(Millis, u), x))
  {
    hide Over, OverIf;
    if b.money.Some? && u.cost.Some? {
      var m := b.money.value;
      OverHas(MoneyMicros, true, m.limit.amountMicros, u.cost.value.amountMicros, x);
      if m.softLimit.Some? {
        OverHas(MoneyMicros, false, m.softLimit.value.amountMicros, u.cost.value.amountMicros, x);
      }
    }
    if b.time.Some? {
      OverHas(Duration, true, b.time.value.maxDurationMs, u.durationMs, x);
      OverIfHas(Duration, false, b.time.value.softMaxDurationMs, u.durationMs, x);
    }
  }

  lemma BreachesAreExact(b: Budget, u: Usage, x: Breach)
    ensures CollectBreaches(b, u).Ok? <==>
      (b.tokens.Some? ==> Size(Input, u) + Size(Cached, u) + Size(Output, u) + Size(Reasoning, u) <= LARGEST_SAFE)
    ensures CollectBreaches(b, u).Ok? ==>
      (x in CollectBreaches(b, u).value <==>
       IsExcess(b, Size(Input, u) + Size(Cached, u), Size(Output, u) + Size(Reasoning, u), Size(Micros, u),
                Size(Millis, u), x))
  {
    hide TokenBreaches, MoneyBreaches, TimeBreaches;
    if CollectBreaches(b, u).Ok? {
      if b.tokens.Some? {
        TokenBreachesHave(b, b.tokens.value, u, TotalTokensOf(u.tokens).value, Size(Micros, u), Size(Millis, u), x);
      }
      OtherBreachesHave(b, u, Size(Input, u) + Size(Cached, u), Size(Output, u) + Size(Reasoning, u), x);
    }
  }

  /** The sum that an estimate is judged by. */
  function Prospective(a: Account, estimate: Usage): Result<Usage> {
    match (Totals(Holds, a.reservations), Totals(Commits, a.reservations))
    case (Ok(held), Ok(committed)) => (
      match AddUsage(held, committed)
      case Err(e) => Err(e)
      case Ok(used) => AddUsage(used, estimate))
    case _ => Err(InvariantViolation)
  }

  ghost predicate Sums(a: Account, estimate: Usage) {
    && (forall p: Part :: After(p, a, estimate) <= LARGEST_SAFE)
    && (forall c, d :: Pays(a, estimate, c) && Pays(a, estimate, d) ==> c == d)
  }

  lemma AddingFails(a: Usage, b: Usage)
    ensures AddUsage(a, b).Err? ==> AddUsage(a, b).error == InvariantViolation
  {
  }

  lemma EvaluationSteps(a: Account, estimate: Usage)
    ensures var total := Prospective(a, estimate);
      EvaluateReservation(a, estimate) ==
        if !CurrencyMatches(a.budget, estimate) then Err(Validation)
        else if total.Err? then Err(InvariantViolation)
        else if CollectBreaches(a.budget, total.value).Err? then Err(InvariantViolation)
        else
          var breaches := CollectBreaches(a.budget, total.value).value;
          Ok(Decision(AllSoft(breaches), breaches))
  {
    hide AddUsage, TokenBreaches, MoneyBreaches, TimeBreaches, AllSoft, TotalTokensOf, ReservedTotals, CommittedTotals;
    if ReservedTotals(a.reservations).Ok? && CommittedTotals(a.reservations).Ok? {
      AddingFails(ReservedTotals(a.reservations).value, CommittedTotals(a.reservations).value);
      var used := AddUsage(ReservedTotals(a.reservations).value, CommittedTotals(a.reservations).value);
      if used.Ok? {
        AddingFails(used.value, estimate);
      }
    }
  }

  lemma SafeTotals(side: Side, rs: seq<Reservation>, u: Usage)
    requires SumsFit(side, rs) && SumsUp(side, rs, u)
    ensures Safe(u)
  {
    forall p: Part ensures Size(p, u) <= LARGEST_SAFE {
      assert SizeSum(p, side, rs) <= LARGEST_SAFE;
    }
  }

  lemma ProspectiveIff(a: Account, estimate: Usage)
    requires AllSafe(a.reservations) && Safe(estimate)
    ensures var total := Prospective(a, estimate);
      && (total.Ok? <==> Sums(a, estimate))
      && (total.Ok? ==> forall p: Part :: Size(p, total.value) == After(p, a, estimate))
  {
    hide AddUsage, Totals, SizeSum, SomePaidIn, Size, PaidIn;
    var rs := a.reservations;
    TotalsIff(Holds, rs);
    TotalsIff(Commits, rs);
    SumsBound(a, estimate);
    if Totals(Holds, rs).Ok? && Totals(Commits, rs).Ok? {
      var held, committed := Totals(Holds, rs).value, Totals(Commits, rs).value;
      SafeTotals(Holds, rs, held);
      SafeTotals(Commits, rs, committed);
      AddUsageIff(held, committed);
      OneOfBoth(held, committed);
      forall c: Currency ensures PaidIn(held, c) || PaidIn(committed, c) ==> Pays(a, estimate, c) {
      }
      forall p: Part ensures Size(p, held) + Size(p, committed) + Size(p, estimate) == After(p, a, estimate) {
      }
      var used := AddUsage(held, committed);
      if used.Ok? {
        forall p: Part ensures Size(p, used.value) <= LARGEST_SAFE {
          assert Size(p, held) + Size(p, committed) <= LARGEST_SAFE;
        }
        LastStep(a, used.value, estimate);
      }
    }
  }

  lemma LastStep(a: Account, used: Usage, estimate: Usage)
    requires Safe(used) && Safe(estimate)
    requires forall p: Part :: Size(p, used) + Size(p, estimate) == After(p, a, estimate)
    requires forall c: Currency :: Pays(a, estimate, c) <==> PaidIn(used, c) || PaidIn(estimate, c)
    ensures AddUsage(used, estimate).Ok? <==> Sums(a, estimate)
    ensures AddUsage(used, estimate).Ok? ==>
      forall p: Part :: Size(p, AddUsage(used, estimate).value) == After(p, a, estimate)
  {
    hide AddUsage, Size, After, Pays, PaidIn;
    AddUsageIff(used, estimate);
    OneOfBoth(used, estimate);
    if AddUsage(used, estimate).Ok? {
      forall p: Part ensures After(p, a, estimate) <= LARGEST_SAFE {
        assert Size(p, used) + Size(p, estimate) <= LARGEST_SAFE;
      }
    }
  }

  lemma SumsBound(a: Account, estimate: Usage)
    ensures Sums(a, estimate) ==>
      && (forall side: Side :: SumsFit(side, a.reservations) && OneCurrency(side, a.reservations))
      && forall p: Part :: SizeSum(p, Holds, a.reservations) + SizeSum(p, Commits, a.reservations) <= LARGEST_SAFE
  {
    hide SizeSum, SomePaidIn, Size, PaidIn;
    if Sums(a, estimate) {
      forall p: Part
        ensures SizeSum(p, Holds, a.reservations) + SizeSum(p, Commits, a.reservations) <= LARGEST_SAFE
      {
        assert After(p, a, estimate) <= LARGEST_SAFE;
      }
      forall side: Side, p: Part ensures SizeSum(p, side, a.reservations) <= LARGEST_SAFE {
        assert side == Holds || side == Commits;
      }
      forall side: Side, c, d | SomePaidIn(side, a.reservations, c) && SomePaidIn(side, a.reservations, d)
        ensures c == d
      {
        assert side == Holds || side == Commits;
        assert Pays(a, estimate, c) && Pays(a, estimate, d);
      }
    }
  }

  /** A reservation can be evaluated exactly when it can be added up; then the breaches are exactly the exceeded
      limits, and it is allowed exactly when none of them is hard. */
  lemma EvaluationIsExact(a: Account, estimate: Usage)
    requires AllSafe(a.reservations) && Safe(estimate)
    ensures var r := EvaluateReservation(a, estimate);
      && (r.Ok? <==> PaidInBudget(a.budget, estimate) && Summable(a, estimate))
      && (r.Err? ==> r.error == if PaidInBudget(a.budget, estimate) then InvariantViolation else Validation)
      && (r.Ok? ==>
            && (r.value.allowed <==> forall x :: x in r.value.breaches ==> !x.hard)
            && forall x :: x in r.value.breaches <==>
                 IsExcess(a.budget, After(Input, a, estimate) + After(Cached, a, estimate),
                          After(Output, a, estimate) + After(Reasoning, a, estimate), After(Micros, a, estimate),
                          After(Millis, a, estimate), x))
  {
    hide EvaluateReservation, CollectBreaches, Prospective, After, Sums, Size, IsExcess, AllSafe, Safe, Pays;
    EvaluationSteps(a, estimate);
    ProspectiveIff(a, estimate);
    assert Summable(a, estimate) ==> Sums(a, estimate) by { SummableSums(a, estimate); }
    SummableSums(a, estimate);
    var total := Prospective(a, estimate);
    if total.Ok? {
      forall x
        ensures CollectBreaches(a.budget, total.value).Ok? ==>
          (x in CollectBreaches(a.budget, total.value).value <==>
           IsExcess(a.budget, After(Input, a, estimate) + After(Cached, a, estimate),
                    After(Output, a, estimate) + After(Reasoning, a, estimate), After(Micros, a, estimate),
                    After(Millis, a, estimate), x))
      {
        BreachesAreExact(a.budget, total.value, x);
      }
      BreachesAreExact(a.budget, total.value, Breach(Duration, true, 0, 0));
    }
  }

  lemma SummableSums(a: Account, estimate: Usage)
    ensures Summable(a, estimate) <==>
      && Sums(a, estimate)
      && (a.budget.tokens.Some? ==>
            After(Input, a, estimate) + After(Cached, a, estimate) + After(Output, a, estimate)
            + After(Reasoning, a, estimate) <= LARGEST_SAFE)
  {
    hide After, Pays;
  }

  // Reserving -----------------------------------------------------------------------------------------

  /** No hard limit is exceeded by the holds, the commits and the estimate together. */
  ghost predicate WithinHardLimits(a: Account, estimate: Usage) {
    var input := After(Input, a, estimate) + After(Cached, a, estimate);
    var output := After(Output, a, estimate) + After(Reasoning, a, estimate);
    var b := a.budget;
    && (b.tokens.Some? ==>
          && input + output <= b.tokens.value.maxTotalTokens
          && (b.tokens.value.maxInputTokens.Some? ==> input <= b.tokens.value.maxInputTokens.value)
          && (b.tokens.value.maxOutputTokens.Some? ==> output <= b.tokens.value.maxOutputTokens.value))
    && (b.money.Some? ==> After(Micros, a, estimate) <= b.money.value.limit.amountMicros)
    && (b.time.Some? ==> After(Millis, a, estimate) <= b.time.value.maxDurationMs)
  }

  lemma NoHardExcessIff(b: Budget, input: nat, output: nat, micros: nat, millis: nat)
    ensures (forall x :: IsExcess(b, input, output, micros, millis, x) ==> !x.hard) <==>
      && (b.tokens.Some? ==>
            && input + output <= b.tokens.value.maxTotalTokens
            && (b.tokens.value.maxInputTokens.Some? ==> input <= b.tokens.value.maxInputTokens.value)
            && (b.tokens.value.maxOutputTokens.Some? ==> output <= b.tokens.value.maxOutputTokens.value))
      && (b.money.Some? ==> micros <= b.money.value.limit.amountMicros)
      && (b.time.Some? ==> millis <= b.time.value.maxDurationMs)
  {
    HardExcesses(b, input, output, micros, millis);
  }

  lemma HardExcesses(b: Budget, input: nat, output: nat, micros: nat, millis: nat)
    ensures b.tokens.Some? && input + output > b.tokens.value.maxTotalTokens ==>
      IsExcess(b, input, output, micros, millis,
               Breach(TotalTokens, true, b.tokens.value.maxTotalTokens, input + output))
    ensures b.tokens.Some? && b.tokens.value.maxInputTokens.Some? && input > b.tokens.value.maxInputTokens.value ==>
      IsExcess(b, input, output, micros, millis,
               Breach(InputTokens, true, b.tokens.value.maxInputTokens.value, input))
    ensures b.tokens.Some? && b.tokens.value.maxOutputTokens.Some? && output > b.tokens.value.maxOutputTokens.value ==>
      IsExcess(b, input, output, micros, millis,
               Breach(OutputTokens, true, b.tokens.value.maxOutputTokens.value, output))
    ensures b.money.Some? && micros > b.money.value.limit.amountMicros ==>
      IsExcess(b, input, output, micros, millis, Breach(MoneyMicros, true, b.money.value.limit.amountMicros, micros))
    ensures b.time.Some? && millis > b.time.value.maxDurationMs ==>
      IsExcess(b, input, output, micros, millis, Breach(Duration, true, b.time.value.maxDurationMs, millis))
  {
  }

  lemma AllowedIff(a: Account, estimate: Usage)
    requires AllSafe(a.reservations) && Safe(estimate)
    ensures var r := EvaluateReservation(a, estimate);
      r.Ok? ==> (r.value.allowed <==> WithinHardLimits(a, estimate))
  {
    hide EvaluateReservation, IsExcess, After, AllSafe, Safe, Summable, PaidInBudget;
    EvaluationIsExact(a, estimate);
    NoHardExcessIff(a.budget, After(Input, a, estimate) + After(Cached, a, estimate),
                    After(Output, a, estimate) + After(Reasoning, a, estimate), After(Micros, a, estimate),
                    After(Millis, a, estimate));
  }

  /** The account still takes a new reservation with this estimate. */
  ghost predicate Admits(a: Account, estimate: Usage) {
    && a.open && |a.reservations| < 10_000
    && PaidInBudget(a.budget, estimate) && Summable(a, estimate) && WithinHardLimits(a, estimate)
  }

  /** A reservation succeeds as a new hold that fits, and as a repeat of one that is still held. */
  lemma ReserveIsExact(a: Account, id: string, estimate: Usage, at: Time, v: Option<nat>)
    requires ParserAccepts(a) && AllSafe(a.reservations) && Safe(estimate)
    ensures var r := Execute(a, Reserve(id, estimate, at, v));
      && (r.Ok? <==>
            && Expects(a, v)
            && ((exists i: nat :: StandsAt(a, i, id) && a.reservations[i].status == Held
                   && a.reservations[i].estimate == estimate && a.reservations[i].createdAt == at)
                || (Unknown(a, id) && Admits(a, estimate))))
      && (r.Ok? && !Unknown(a, id) ==> r.value == a)
      && (r.Ok? && Unknown(a, id) ==>
            r.value == a.(version := a.version + 1,
                          reservations := a.reservations + [Reservation(id, Held, estimate, None, at, None)]))
      && (r.Err? ==>
            && (r.error == ConcurrencyConflict <==> !Expects(a, v))
            && (r.error == Validation <==>
                  && Expects(a, v) && Unknown(a, id) && a.open && |a.reservations| < 10_000
                  && !PaidInBudget(a.budget, estimate))
            && (r.error == BudgetExceeded <==>
                  && Expects(a, v) && Unknown(a, id) && a.open && |a.reservations| < 10_000
                  && PaidInBudget(a.budget, estimate) && Summable(a, estimate) && !WithinHardLimits(a, estimate)))
  {
    hide EvaluateReservation, FindReservation, ParserAccepts, AllSafe, Safe, Summable, PaidInBudget, WithinHardLimits;
    var i := FoundAt(a, id);
    EvaluationIsExact(a, estimate);
    AllowedIff(a, estimate);
  }

  // What a run has recorded ---------------------------------------------------------------------------

  /** The command took effect: it was not refused and not a repeat. */
  predicate TookEffect(a: Account, c: Command) {
    Step(a, c) != a
  }

  function EstimateFor(a: Account, id: string): Usage {
    var found := FindReservation(a.reservations, id);
    if found.None? then ZERO_USAGE else found.value.estimate
  }

  /** The usage that commits have reported in one dimension. */
  function Reported(d: Dimension, b: Budget, commands: seq<Command>): nat {
    if commands == [] then 0
    else
      var a, c := Run(CreateBudgetAccount(b), commands[..|commands| - 1]), commands[|commands| - 1];
      Reported(d, b, commands[..|commands| - 1]) + if c.Commit? && TookEffect(a, c) then Amount(d, c.actual) else 0
  }

  /** By how much those reports exceeded what had been reserved for them. */
  function Exceeding(d: Dimension, b: Budget, commands: seq<Command>): nat {
    if commands == [] then 0
    else
      var a, c := Run(CreateBudgetAccount(b), commands[..|commands| - 1]), commands[|commands| - 1];
      Exceeding(d, b, commands[..|commands| - 1])
      + if c.Commit? && TookEffect(a, c) && Amount(d, c.actual) > Amount(d, EstimateFor(a, c.id))
        then Amount(d, c.actual) - Amount(d, EstimateFor(a, c.id)) else 0
  }

  lemma CommitRecords(d: Dimension, a: Account, c: Command)
    requires ParserAccepts(a) && c.Commit? && TookEffect(a, c)
    ensures var rs, ss := a.reservations, Step(a, c).reservations;
      && Sum(CommittedActuals, d, ss) == Sum(CommittedActuals, d, rs) + Amount(d, c.actual)
      && Sum(Overshoot, d, ss) == Sum(Overshoot, d, rs)
           + if Amount(d, c.actual) > Amount(d, EstimateFor(a, c.id))
             then Amount(d, c.actual) - Amount(d, EstimateFor(a, c.id)) else 0
  {
    hide Execute, ParserAccepts, FindReservation, Sum, Amount;
    var i := FoundAt(a, c.id);
    CommitIsExact(a, c.id, c.actual, c.settledAt, c.expectedVersion);
    var held := a.reservations[i];
    var r := Reservation(c.id, Committed, held.estimate, Some(c.actual), held.createdAt, Some(c.settledAt));
    SumUpdate(CommittedActuals, d, a.reservations, i, r);
    SumUpdate(Overshoot, d, a.reservations, i, r);
  }

  lemma OthersRecordNothing(d: Dimension, a: Account, c: Command)
    requires ParserAccepts(a) && !c.Commit?
    ensures Sum(CommittedActuals, d, Step(a, c).reservations) == Sum(CommittedActuals, d, a.reservations)
    ensures Sum(Overshoot, d, Step(a, c).reservations) == Sum(Overshoot, d, a.reservations)
  {
    hide Execute, Sum, Amount, ParserAccepts;
    var ch := EffectOf(a, c);
    if TookEffect(a, c) {
      var b := Step(a, c);
      match ch
      case Appended(r) => SumAppend(d, a.reservations, r);
      case Settled(i, r) =>
        SumUpdate(CommittedActuals, d, a.reservations, i, r);
        SumUpdate(Overshoot, d, a.reservations, i, r);
        NotCommitted(a, c, i);
      case Closed(at) =>
        SumAfterClosing(CommittedActuals, d, a.reservations, b.reservations, at);
        SumAfterClosing(Overshoot, d, a.reservations, b.reservations, at);
    }
  }

  lemma NotCommitted(a: Account, c: Command, i: nat)
    requires ParserAccepts(a) && !c.Commit? && i < |a.reservations| == |Step(a, c).reservations|
    requires a.reservations[i].status == Held
    ensures Step(a, c).reservations[i].status != Committed
  {
    hide EvaluateReservation, FindReservation;
  }

  /** What an account holds as committed is what the effective commits reported. */
  lemma {:induction false} RunRecordsReports(d: Dimension, b: Budget, commands: seq<Command>)
    ensures var rs := Run(CreateBudgetAccount(b), commands).reservations;
      Sum(CommittedActuals, d, rs) == Reported(d, b, commands) && Sum(Overshoot, d, rs) == Exceeding(d, b, commands)
  {
    hide Step, Amount, ParserAccepts, TookEffect, EstimateFor;
    if commands != [] {
      var a, c := Run(CreateBudgetAccount(b), commands[..|commands| - 1]), commands[|commands| - 1];
      RunRecordsReports(d, b, commands[..|commands| - 1]);
      EveryRunIsConsistent(b, commands[..|commands| - 1]);
      if !c.Commit? {
        OthersRecordNothing(d, a, c);
      } else if TookEffect(a, c) {
        CommitRecords(d, a, c);
      } else {
        NoEffect(a, c);
      }
    }
  }

  lemma NoEffect(a: Account, c: Command)
    requires !TookEffect(a, c)
    ensures Step(a, c) == a
  {
  }

  /** In every run, holds plus reported usage exceed a hard limit by no more than reports exceeded their estimates. */
  lemma EveryRunStaysWithinReports(d: Dimension, b: Budget, commands: seq<Command>)
    ensures HardLimit(b, d).Some? ==>
      Sum(HeldEstimates, d, Run(CreateBudgetAccount(b), commands).reservations) + Reported(d, b, commands)
      <= HardLimit(b, d).value + Exceeding(d, b, commands)
  {
    hide Run, Amount, Sum, HardLimit;
    EveryRunStaysWithinLimits(b, commands);
    BudgetIsFixed(b, commands);
    RunRecordsReports(d, b, commands);
  }

  // Where reservations come from ------------------------------------------------------------------------

  function Before(b: Budget, commands: seq<Command>, n: nat): Account
    requires n <= |commands|
  {
    Run(CreateBudgetAccount(b), commands[..n])
  }

  /** Command `n` took effect and asked for just this. */
  ghost predicate Asked(b: Budget, commands: seq<Command>, n: nat, r: Reservation) {
    && n < |commands| && TookEffect(Before(b, commands, n), commands[n])
    && match commands[n]
       case Reserve(id, estimate, at, _) => id == r.id && estimate == r.estimate && at == r.createdAt
       case _ => false
  }

  ghost predicate Ended(b: Budget, commands: seq<Command>, n: nat, r: Reservation) {
    && n < |commands| && TookEffect(Before(b, commands, n), commands[n])
    && match commands[n]
       case Reserve(_, _, _, _) => false
       case Commit(id, actual, at, _) =>
         id == r.id && r.status == Committed && r.actual == Some(actual) && r.settledAt == Some(at)
       case Release(id, at, _) => id == r.id && r.status == Released && r.actual == None && r.settledAt == Some(at)
       case Cancel(id, at, _) => id == r.id && r.status == Cancelled && r.actual == None && r.settledAt == Some(at)
       case CancelAccount(at, _) => r.status == Cancelled && r.actual == None && r.settledAt == Some(at)
  }

  /** A reservation was asked for, and ended as it was told to; a hold has not been ended. */
  ghost predicate Told(b: Budget, commands: seq<Command>, r: Reservation) {
    && (exists n: nat :: Asked(b, commands, n, r))
    && (if r.status == Held then r.actual == None && r.settledAt == None
        else exists n: nat :: Ended(b, commands, n, r))
  }

  lemma ToldLater(b: Budget, commands: seq<Command>, r: Reservation)
    requires commands != [] && Told(b, commands[..|commands| - 1], r)
    ensures Told(b, commands, r)
  {
    hide TookEffect, Run;
    var first := commands[..|commands| - 1];
    forall n: nat | n < |first| ensures Before(b, first, n) == Before(b, commands, n) {
      assert first[..n] == commands[..n];
    }
    var n: nat :| Asked(b, first, n, r);
    assert Asked(b, commands, n, r);
    if r.status != Held {
      var m: nat :| Ended(b, first, m, r);
      assert Ended(b, commands, m, r);
    }
  }

  /** What a command leaves behind is what was there, or what it asked for, or an end that it asked for. */
  lemma StepTells(a: Account, c: Command, r: Reservation)
    requires ParserAccepts(a) && r in Step(a, c).reservations && r !in a.reservations
    ensures TookEffect(a, c)
    ensures match c
      case Reserve(id, estimate, at, _) => r == Reservation(id, Held, estimate, None, at, None)
      case Commit(id, actual, at, _) =>
        exists h :: h in a.reservations && h.id == id
          && r == Reservation(id, Committed, h.estimate, Some(actual), h.createdAt, Some(at))
      case Release(id, at, _) =>
        exists h :: h in a.reservations && h.id == id
          && r == Reservation(id, Released, h.estimate, None, h.createdAt, Some(at))
      case Cancel(id, at, _) =>
        exists h :: h in a.reservations && h.id == id
          && r == Reservation(id, Cancelled, h.estimate, None, h.createdAt, Some(at))
      case CancelAccount(at, _) =>
        exists h :: h in a.reservations && r == Reservation(h.id, Cancelled, h.estimate, None, h.createdAt, Some(at))
  {
    hide Execute, ParserAccepts, FindReservation;
    match c
    case Reserve(id, estimate, at, v) => AppendEffect(a, id, estimate, at, v); ReserveAdds(a, c, r);
    case Commit(id, actual, at, v) => CommitIsExact(a, id, actual, at, v);
    case Release(id, at, v) => SettleIsExact(a, c, id, at, v);
    case Cancel(id, at, v) => SettleIsExact(a, c, id, at, v);
    case CancelAccount(at, v) => CancelAccountIsExact(a, at, v);
  }

  lemma ReserveAdds(a: Account, c: Command, r: Reservation)
    requires c.Reserve? && r in Step(a, c).reservations && r !in a.reservations
    ensures r == Reservation(c.id, Held, c.estimate, None, c.requestedAt, None)
  {
    hide EvaluateReservation, FindReservation;
  }

  /** In every run, each reservation is as commands that took effect asked for it. */
  lemma {:induction false} ReservationsAreTold(b: Budget, commands: seq<Command>)
    ensures forall r :: r in Run(CreateBudgetAccount(b), commands).reservations ==> Told(b, commands, r)
  {
    hide Step, ParserAccepts, TookEffect, Told;
    if commands != [] {
      var first, c := commands[..|commands| - 1], commands[|commands| - 1];
      var a := Run(CreateBudgetAccount(b), first);
      ReservationsAreTold(b, first);
      EveryRunIsConsistent(b, first);
      forall r | r in Step(a, c).reservations ensures Told(b, commands, r) {
        if r in a.reservations {
          ToldLater(b, commands, r);
        } else {
          NewIsTold(b, commands, r);
        }
      }
    }
  }

  lemma NewIsTold(b: Budget, commands: seq<Command>, r: Reservation)
    requires commands != []
    requires var a := Run(CreateBudgetAccount(b), commands[..|commands| - 1]);
      && ParserAccepts(a) && (forall h :: h in a.reservations ==> Told(b, commands[..|commands| - 1], h))
      && r in Step(a, commands[|commands| - 1]).reservations && r !in a.reservations
    ensures Told(b, commands, r)
  {
    hide Step, ParserAccepts, TookEffect, Run;
    var n := |commands| - 1;
    var a, c := Run(CreateBudgetAccount(b), commands[..n]), commands[n];
    StepTells(a, c, r);
    if c.Reserve? {
      assert Asked(b, commands, n, r);
    } else {
      var h :| h in a.reservations && h.id == r.id && h.estimate == r.estimate && h.createdAt == r.createdAt;
      ToldLater(b, commands, h);
      var m: nat :| Asked(b, commands, m, h);
      assert Asked(b, commands, m, r);
      assert Ended(b, commands, n, r);
    }
  }

  /** Commands with parsed usages leave parsed usages. */
  lemma RunIsSafe(b: Budget, commands: seq<Command>)
    requires forall c :: c in commands ==> (c.Reserve? ==> Safe(c.estimate)) && (c.Commit? ==> Safe(c.actual))
    ensures AllSafe(Run(CreateBudgetAccount(b), commands).reservations)
  {
    hide Run, Safe, ParserAccepts, TookEffect;
    var a := Run(CreateBudgetAccount(b), commands);
    ReservationsAreTold(b, commands);
    EveryRunIsConsistent(b, commands);
    forall i | 0 <= i < |a.reservations|
      ensures Safe(a.reservations[i].estimate)
      ensures a.reservations[i].actual.Some? ==> Safe(a.reservations[i].actual.value)
    {
      var r := a.reservations[i];
      assert r in a.reservations;
      var n: nat :| Asked(b, commands, n, r);
      assert commands[n] in commands;
      if r.status != Held {
        var m: nat :| Ended(b, commands, m, r);
        assert commands[m] in commands;
      }
    }
  }
}
