/** What the reservation pass guarantees, and what truncation can do to an item
    (packages/context/src/select.ts, packages/context/src/model.ts, packages/context/src/estimator.ts).
 */
module SelectionGuarantees {
  import opened Utf8
  import opened Ordering
  import opened Selection
  import opened SelectionSafety

  // The reservation pass ------------------------------------------------------------------

  function SpentUpTo(m: map<Category, nat>, n: nat): nat
    requires n <= |CATEGORIES|
  {
    if n == 0 then 0 else SpentUpTo(m, n - 1) + At(m, CATEGORIES[n - 1])
  }

  /** No category has taken more than was reserved for it. */
  ghost predicate WithinReservations(b: Budget, s: BudgetState)
    requires Complete(b)
  {
    && s.bytes == SpentUpTo(s.bytesByCategory, |CATEGORIES|)
    && forall c: Category :: At(s.bytesByCategory, c) <= b.categories[c].reservedBytes
  }

  lemma {:induction false} SpentAfter(m: map<Category, nat>, c: Category, bytes: nat, n: nat)
    requires n <= |CATEGORIES|
    ensures SpentUpTo(m[c := At(m, c) + bytes], n) == SpentUpTo(m, n) + if CategoryPriority(c) < n then bytes else 0
  {
    if n > 0 {
      SpentAfter(m, c, bytes, n - 1);
      assert CATEGORIES[CategoryPriority(c)] == c;
      assert CategoryPriority(CATEGORIES[n - 1]) == n - 1;
    }
  }

  /** What is left of all reservations is at least what is left of any one. */
  lemma {:induction false} SlackOfOne(b: Budget, m: map<Category, nat>, c: Category, n: nat)
    requires Complete(b) && n <= |CATEGORIES|
    requires forall k: Category :: At(m, k) <= b.categories[k].reservedBytes
    ensures SpentUpTo(m, n) <= ReservedUpTo(b, n)
    ensures CategoryPriority(c) < n ==>
      ReservedUpTo(b, n) - SpentUpTo(m, n) >= b.categories[c].reservedBytes - At(m, c)
  {
    if n > 0 {
      SlackOfOne(b, m, c, n - 1);
      assert CATEGORIES[CategoryPriority(c)] == c;
    }
  }

  lemma {:induction false} ReservedPassStaysWithin(b: Budget, est: Estimator, entries: seq<Prepared>, n: nat)
    requires Complete(b) && AllPrepared(entries) && n <= |entries|
    ensures WithinReservations(b, ReservedPass(b, est, entries[..n]).state)
  {
    hide Admit, PreparedOk, ReservedPass, Complete, SpentUpTo;
    PassStep(b, est, entries, n);
    if n == 0 {
      NothingIsReserved(b);
    } else {
      ReservedPassStaysWithin(b, est, entries, n - 1);
      var f := ReservedPass(b, est, entries[..n - 1]);
      var e := entries[n - 1];
      AdmissionIsSound(b, est, f.state, |f.accepted|, e, Reserved);
      var (outcome, after) := Admit(b, est, f.state, |f.accepted|, e, Reserved);
      if outcome.Admitted? {
        SpentAfter(f.state.bytesByCategory, e.candidate.category, outcome.item.byteContribution, |CATEGORIES|);
      }
    }
  }

  lemma NothingIsReserved(b: Budget)
    requires Complete(b)
    ensures WithinReservations(b, NOTHING_SPENT)
  {
    assert SpentUpTo(ZeroByCategory(), 5) == 0;
  }

  /** While reservations are filled, an entry that fits what is reserved for its category always has room in the
      category and in the whole budget; it can only be turned away for its own size, its source, a count or units. */
  lemma ReservationGuarantee(b: Budget, est: Estimator, entries: seq<Prepared>, n: nat, e: Prepared)
    requires BudgetOk(b) && AllPrepared(entries) && n <= |entries|
    ensures var f := ReservedPass(b, est, entries[..n]);
      e.byteLength <= ReservationLeft(b, f.state, e.candidate.category) ==>
        && At(f.state.bytesByCategory,
             e.candidate.category) + e.byteLength <= b.categories[e.candidate.category].maxBytes
        && f.state.bytes + e.byteLength <= b.maxTotalBytes
        && var (outcome, _) := Admit(b, est, f.state, |f.accepted|, e, Reserved);
          outcome.Refused? ==>
            || outcome.reason == BudgetItemsExhausted
            || (outcome.reason == CategoryAllocationFull
                && At(f.state.itemsByCategory, e.candidate.category) >= b.categories[e.candidate.category].maxItems)
            || (outcome.reason == ItemTooLarge && b.maxItemBytes < e.byteLength)
            || (outcome.reason == PerSourceCap
                && b.maxBytesPerSourceKind - At(f.state.bytesBySourceKind, e.candidate.sourceKind) < e.byteLength)
            || outcome.reason == BudgetUnitsExhausted
  {
    hide Admit, PreparedOk, ReservedPass, SpentUpTo, ReservedUpTo;
    ReservedPassStaysWithin(b, est, entries, n);
    var f := ReservedPass(b, est, entries[..n]);
    SlackOfOne(b, f.state.bytesByCategory, e.candidate.category, |CATEGORIES|);
    assert CategoryPriority(e.candidate.category) < |CATEGORIES|;
    if e.byteLength <= ReservationLeft(b, f.state, e.candidate.category) {
      RoomyRefusals(b, est, f.state, |f.accepted|, e);
    }
  }

  lemma RoomyRefusals(b: Budget, est: Estimator, s: BudgetState, accepted: nat, e: Prepared)
    requires Complete(b)
    requires At(s.bytesByCategory, e.candidate.category) + e.byteLength <= b.categories[e.candidate.category].maxBytes
    requires s.bytes + e.byteLength <= b.maxTotalBytes
    ensures var (outcome, _) := Admit(b, est, s, accepted, e, Reserved);
      outcome.Refused? ==>
        || outcome.reason == BudgetItemsExhausted
        || (outcome.reason == CategoryAllocationFull
             && At(s.itemsByCategory, e.candidate.category) >= b.categories[e.candidate.category].maxItems)
        || (outcome.reason == ItemTooLarge && b.maxItemBytes < e.byteLength)
        || (outcome.reason == PerSourceCap
             && b.maxBytesPerSourceKind - At(s.bytesBySourceKind, e.candidate.sourceKind) < e.byteLength)
        || outcome.reason == BudgetUnitsExhausted
  {
    hide Tightest, TruncateToBytes, Charge, Complete;
    var limits := LimitsFor(b, s, e.candidate);
    TightestIsLeast(e.byteLength, limits, 4);
  }

  // Units --------------------------------------------------------------------------------------

  /** With the shipped estimator a body cut to the units that are left fits them, so such a cut is refused only for
      being too short. */
  lemma UnitsCutFits(b: Budget, units: nat, p: Portion)
    requires p.Portion? && p.byteLength == ByteLength(p.body) && BYTE_ORDER_MARK !in p.body
    requires units <= b.maxTotalUnits && units + CeilingOfThird(p.byteLength) > b.maxTotalUnits && b.allowTruncation
    ensures var byUnits := 3 * (b.maxTotalUnits - units);
      var cut := TruncateToBytes(p.body, byUnits);
      && units + CeilingOfThird(ByteLength(cut.text)) <= b.maxTotalUnits
      && WithinUnits(b, ConservativeEstimator(), units, p)
         == (if byUnits < b.minItemBytes || cut.byteLength < b.minItemBytes then Nothing(BudgetUnitsExhausted)
             else Portion(cut.text, cut.byteLength, true))
      && byUnits <= cut.byteLength + 3
  {
    hide TruncateToBytes, ByteLength;
    CutOk(p.body, 3 * (b.maxTotalUnits - units));
  }

  // How short an item can get --------------------------------------------------------------------

  /** A truncated item has at least `minItemBytes - 3` bytes. */
  lemma TruncatedItemIsLong(b: Budget, est: Estimator, s: BudgetState, accepted: nat, e: Prepared, phase: Phase)
    requires Complete(b) && PreparedOk(e)
    ensures var (outcome, _) := Admit(b, est, s, accepted, e, phase);
      outcome.Admitted? && outcome.item.truncated ==> outcome.item.byteContribution + 3 >= b.minItemBytes
  {
    hide WithinBytes, WithinUnits, Tightest, ByteLength, Charge, Complete;
    var allowed := Tightest(e.byteLength, LimitsFor(b, s, e.candidate), 4);
    WithinBytesOk(b, e, allowed);
    var p := WithinBytes(b, e, allowed);
    if p.Portion? {
      WithinUnitsOk(b, est, s.units, e.body, p);
    }
  }

  lemma CutIsEmptyIff(body: string, maxBytes: nat)
    requires body != "" && BYTE_ORDER_MARK !in body && maxBytes < ByteLength(body)
    ensures TruncateToBytes(body, maxBytes).text == "" <==> maxBytes < |EncodeScalar(body[0])|
  {
    hide EncodeScalar, Decode, Cut;
    var w := |EncodeScalar(body[0])|;
    CutOk(body, maxBytes);
    CutIsLargestBoundary(body, maxBytes);
    var r := TruncateToBytes(body, maxBytes);
    ScalarShape(body[0]);
    if r.text != "" {
      assert r.text[0] == body[0];
      assert ByteLength(r.text) >= w;
    } else {
      assert ByteLength(r.text) == 0;
      FirstBoundary(body);
    }
  }

  lemma FirstBoundary(body: string)
    requires body != ""
    ensures Boundary(body, |EncodeScalar(body[0])|)
  {
    hide EncodeScalar;
    var one := body[..1];
    assert one[0] == body[0] && one[1..] == "";
    assert Encode(one) == EncodeScalar(body[0]) + [];
    assert ByteLength(body[..1]) == |EncodeScalar(body[0])|;
  }

  /** An admitted item is empty exactly when its first character needs more bytes than the tightest cap allows. */
  lemma EmptyItemIff(b: Budget, est: Estimator, s: BudgetState, accepted: nat, e: Prepared, phase: Phase)
    requires BudgetOk(b) && PreparedOk(e)
    ensures var (outcome, _) := Admit(b, est, s, accepted, e, phase);
      outcome.Admitted? ==>
        (outcome.item.body == "" <==>
          Tightest(e.byteLength, LimitsFor(b, s, e.candidate), 4).bytes < |EncodeScalar(e.body[0])|)
  {
    hide WithinUnits, Tightest, TruncateToBytes, ByteLength, Charge, EncodeScalar;
    var limits := LimitsFor(b, s, e.candidate);
    var allowed := Tightest(e.byteLength, limits, 4);
    TightestIsLeast(e.byteLength, limits, 4);
    WithinBytesOk(b, e, allowed);
    var p := WithinBytes(b, e, allowed);
    if p.Portion? {
      WithinUnitsOk(b, est, s.units, e.body, p);
      PortionIsEmptyIff(b, e, allowed);
      NonemptyIsLong(p);
      NonemptyIsLong(WithinUnits(b, est, s.units, p));
    }
  }

  lemma NonemptyIsLong(q: Portion)
    ensures q.Portion? && q.byteLength == ByteLength(q.body) && q.byteLength >= 1 ==> q.body != ""
  {
  }

  lemma PortionIsEmptyIff(b: Budget, e: Prepared, allowed: Limit)
    requires PreparedOk(e) && allowed.bytes <= e.byteLength
    ensures var p := WithinBytes(b, e, allowed);
      p.Portion? ==> (p.body == "" <==> allowed.bytes < |EncodeScalar(e.body[0])|)
  {
    hide TruncateToBytes, EncodeScalar;
    FirstFits(e.body);
    if 0 <= allowed.bytes < e.byteLength {
      CutIsEmptyIff(e.body, allowed.bytes);
    }
  }

  lemma FirstFits(body: string)
    requires body != ""
    ensures |EncodeScalar(body[0])| <= ByteLength(body)
  {
  }

  /** So with `minItemBytes` of at least four no item is ever empty. */
  lemma NoEmptyItems(b: Budget, est: Estimator, s: BudgetState, accepted: nat, e: Prepared, phase: Phase)
    requires BudgetOk(b) && b.minItemBytes >= 4 && PreparedOk(e)
    ensures var (outcome, _) := Admit(b, est, s, accepted, e, phase);
      outcome.Admitted? ==> outcome.item.body != ""
  {
    hide Admit, ReservedUpTo, Tightest, EncodeScalar;
    ShortLimitRefuses(b, est, s, accepted, e, phase);
    EmptyItemIff(b, est, s, accepted, e, phase);
    ScalarShape(e.body[0]);
  }

  lemma ShortLimitRefuses(b: Budget, est: Estimator, s: BudgetState, accepted: nat, e: Prepared, phase: Phase)
    requires Complete(b) && PreparedOk(e)
    ensures var (outcome, _) := Admit(b, est, s, accepted, e, phase);
      var allowed := Tightest(e.byteLength, LimitsFor(b, s, e.candidate), 4);
      outcome.Admitted? && allowed.bytes < |EncodeScalar(e.body[0])| ==> allowed.bytes >= b.minItemBytes
  {
    hide WithinUnits, Tightest, TruncateToBytes, Charge, EncodeScalar, Encode;
    FirstFits(e.body);
  }

  // The same for whole plans ---------------------------------------------------------------------

  predicate NoneEmpty(items: seq<Item>) {
    forall i :: 0 <= i < |items| ==> items[i].body != ""
  }

  lemma {:induction false} ReservedPassHasNoneEmpty(b: Budget, est: Estimator, entries: seq<Prepared>, n: nat)
    requires BudgetOk(b) && b.minItemBytes >= 4 && AllPrepared(entries) && n <= |entries|
    ensures NoneEmpty(ReservedPass(b, est, entries[..n]).accepted)
  {
    hide Admit, PreparedOk, ReservedPass, BudgetOk;
    assert Complete(b) by { OkIsComplete(b); }
    PassStep(b, est, entries, n);
    if n > 0 {
      ReservedPassHasNoneEmpty(b, est, entries, n - 1);
      var f := ReservedPass(b, est, entries[..n - 1]);
      NoEmptyItems(b, est, f.state, |f.accepted|, entries[n - 1], Reserved);
    }
  }

  lemma OkIsComplete(b: Budget)
    requires BudgetOk(b)
    ensures Complete(b)
  {
  }

  lemma {:induction false} GeneralPassHasNoneEmpty(b: Budget, est: Estimator, start: Filling, todo: seq<Prepared>,
      n: nat)
    requires BudgetOk(b) && b.minItemBytes >= 4 && AllPrepared(todo) && n <= |todo| && NoneEmpty(start.accepted)
    ensures NoneEmpty(GeneralPass(b, est, start, todo[..n]).accepted)
  {
    hide Admit, PreparedOk, GeneralPass, BudgetOk;
    assert Complete(b) by { OkIsComplete(b); }
    GeneralStep(b, est, start, todo, n);
    if n > 0 {
      GeneralPassHasNoneEmpty(b, est, start, todo, n - 1);
      var f := GeneralPass(b, est, start, todo[..n - 1]);
      NoEmptyItems(b, est, f.state, |f.accepted|, todo[n - 1], General);
    }
  }

  lemma FillHasNoneEmpty(cfg: Configuration, est: Estimator, entries: seq<Prepared>)
    requires BudgetOk(cfg.budget) && cfg.budget.minItemBytes >= 4 && AllPrepared(entries)
    ensures NoneEmpty(Fill(cfg, est, entries).accepted)
  {
    hide NoneEmpty, ReservedPass, GeneralPass, PreparedOk, Ledger, Capped, FromEntries;
    var b := cfg.budget;
    ReservedPassHasNoneEmpty(b, est, entries, |entries|);
    ReservedPassOk(b, est, entries, |entries|);
    assert entries[..|entries|] == entries;
    var first := ReservedPass(b, est, entries);
    GeneralPassHasNoneEmpty(b, est, first, first.remaining, |first.remaining|);
    assert first.remaining[..|first.remaining|] == first.remaining;
  }

  /** No item of any plan is empty when `minItemBytes` is at least four. */
  lemma PlanHasNoEmptyItems(
    cfg: Configuration, est: Estimator, denied: set<nat>, prior: Prior, candidates: seq<Candidate>)
    requires BudgetOk(cfg.budget) && cfg.budget.minItemBytes >= 4
    ensures NoneEmpty(Plan(cfg, est, denied, prior, candidates).items)
  {
    hide Sort, Screen, Fill, BudgetOk, AllOmissions, PreparedOk;
    assert Complete(cfg.budget) by { OkIsComplete(cfg.budget); }
    var sorted := Sort(candidates, ByCandidateKey());
    ScreenedOk(cfg, denied, sorted, |sorted|);
    assert sorted[..|sorted|] == sorted;
    var accepted := Fill(cfg, est, Screen(cfg, denied, sorted).prepared).accepted;
    FillHasNoneEmpty(cfg, est, Screen(cfg, denied, sorted).prepared);
    SortPermutes(accepted, ByItemKey());
    SameElements(Sort(accepted, ByItemKey()), accepted);
    var items := Sort(accepted, ByItemKey());
    forall i | 0 <= i < |items| ensures items[i].body != "" {
      assert items[i] in items;
      var k :| 0 <= k < |accepted| && accepted[k] == items[i];
    }
  }
}
