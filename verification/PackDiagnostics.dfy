/** What the remarks of a plan say about its items (packages/context/src/select.ts). */
module PackDiagnostics {
  import opened Basics
  import opened Utf8
  import opened Framing
  import opened Sentinels
  import opened Ordering
  import opened Diagnostics
  import opened Selection
  import opened SelectionSafety
  import opened PackChecks
  import opened PackDecisions

  /** These are some of all remarks, and none of the others belongs before any of them. */
  ghost predicate AreFirstRemarks(listed: seq<Diagnostic>, all: seq<Diagnostic>) {
    exists others: seq<Diagnostic> ::
      && multiset(listed + others) == multiset(all)
      && forall d, e :: d in listed && e in others ==> StandsBefore(d, e)
  }

  /** Listed remarks are in order, and they are all of them, or the first of them if the plan says so. */
  lemma PlanDiagnosticsInOrder(cfg: Configuration, est: Estimator, denied: set<nat>, prior: Prior,
      candidates: seq<Candidate>)
    requires Complete(cfg.budget)
    ensures var p := Plan(cfg, est, denied, prior, candidates);
      var all := AllDiagnostics(cfg, est, denied, prior, Sort(candidates, ByCandidateKey()));
      && CanonicalDiagnosticOrder(p.diagnostics)
      && (p.diagnosticsTruncated <==> |all| > cfg.budget.maxDiagnostics)
      && (!p.diagnosticsTruncated ==> multiset(p.diagnostics) == multiset(all))
      && (p.diagnosticsTruncated ==>
            |p.diagnostics| == cfg.budget.maxDiagnostics && AreFirstRemarks(p.diagnostics, all))
  {
    hide Sort, Fill, Screen, Complete, Orders, AllDiagnostics, AllOmissions, CompareDiagnostics, Numbered;
    var all := AllDiagnostics(cfg, est, denied, prior, Sort(candidates, ByCandidateKey()));
    DiagnosticsOrder();
    SortOrders(all, ByDiagnosticKey());
    SortPermutes(all, ByDiagnosticKey());
    SameElements(Sort(all, ByDiagnosticKey()), all);
    CanonicalIff(Sort(all, ByDiagnosticKey()));
    if |all| > cfg.budget.maxDiagnostics {
      FirstRemarks(Sort(all, ByDiagnosticKey()), all, cfg.budget.maxDiagnostics);
    }
  }

  lemma FirstRemarks(sorted: seq<Diagnostic>, all: seq<Diagnostic>, n: nat)
    requires CanonicalDiagnosticOrder(sorted) && multiset(sorted) == multiset(all) && n <= |sorted|
    ensures AreFirstRemarks(sorted[..n], all)
  {
    hide StandsBefore;
    assert sorted == sorted[..n] + sorted[n..];
    forall d, e | d in sorted[..n] && e in sorted[n..] ensures StandsBefore(d, e) {
      var i :| 0 <= i < n && sorted[i] == d;
      var j :| 0 <= j < |sorted[n..]| && sorted[n..][j] == e;
      assert sorted[n + j] == e;
    }
  }

  // Cuts -----------------------------------------------------------------------------------

  function CutsOf(k: nat): Item -> nat { (i: Item) => if i.truncated && i.identity == k then 1 else 0 }

  function CutRemarksOn(k: nat): Diagnostic -> nat {
    (d: Diagnostic) => if d.code == CandidateTruncated && d.identity == Some(k) then 1 else 0
  }

  lemma {:induction false} TotalJoin<T>(xs: seq<T>, ys: seq<T>, f: T -> nat)
    ensures Total(xs + ys, f) == Total(xs, f) + Total(ys, f)
  {
    if xs == [] {
      assert xs + ys == ys;
    } else {
      TotalJoin(xs[1..], ys, f);
      assert (xs + ys)[1..] == xs[1..] + ys;
    }
  }

  lemma TotalShort<T>(x: T, f: T -> nat)
    ensures Total([], f) == 0 && Total([x], f) == f(x)
  {
    assert [x][1..] == [];
  }

  /** The passes remark on cuts only, as often as there are cut items of a name. */
  ghost predicate CutsAreReported(f: Filling, k: nat) {
    && Total(f.diagnostics, CutRemarksOn(k)) == Total(f.accepted, CutsOf(k))
    && forall d :: d in f.diagnostics ==> d.code == CandidateTruncated
  }

  lemma WithItemReports(f: Filling, e: Prepared, item: Item, state: BudgetState, k: nat)
    requires CutsAreReported(f, k) && item.identity == e.candidate.identity
    ensures CutsAreReported(WithItem(f, e, item, state), k)
  {
    hide Total, Decimal;
    TotalSnoc(f.accepted, item, CutsOf(k));
    if item.truncated {
      TotalSnoc(f.diagnostics, CutRemark(e.candidate.identity, e.byteLength, item.byteContribution), CutRemarksOn(k));
    } else {
      assert f.diagnostics + [] == f.diagnostics;
    }
  }

  lemma {:induction false} ReservedPassReports(b: Budget, est: Estimator, entries: seq<Prepared>, n: nat, k: nat)
    requires Complete(b) && n <= |entries|
    ensures CutsAreReported(ReservedPass(b, est, entries[..n]), k)
  {
    hide ReservedPass, Admit, Complete, WithItem;
    PassStep(b, est, entries, n);
    if n > 0 {
      ReservedPassReports(b, est, entries, n - 1, k);
      var f := ReservedPass(b, est, entries[..n - 1]);
      AdmittedName(b, est, f.state, |f.accepted|, entries[n - 1], Reserved);
      var (outcome, after) := Admit(b, est, f.state, |f.accepted|, entries[n - 1], Reserved);
      if outcome.Admitted? {
        WithItemReports(f, entries[n - 1], outcome.item, after, k);
      }
    }
  }

  lemma {:induction false} GeneralPassReports(b: Budget, est: Estimator, start: Filling, todo: seq<Prepared>, n: nat,
      k: nat)
    requires Complete(b) && n <= |todo| && CutsAreReported(start, k)
    ensures CutsAreReported(GeneralPass(b, est, start, todo[..n]), k)
  {
    hide GeneralPass, Admit, Complete, WithItem;
    GeneralStep(b, est, start, todo, n);
    if n > 0 {
      GeneralPassReports(b, est, start, todo, n - 1, k);
      var f := GeneralPass(b, est, start, todo[..n - 1]);
      AdmittedName(b, est, f.state, |f.accepted|, todo[n - 1], General);
      var (outcome, after) := Admit(b, est, f.state, |f.accepted|, todo[n - 1], General);
      if outcome.Admitted? {
        WithItemReports(f, todo[n - 1], outcome.item, after, k);
      }
    }
  }

  lemma FillReports(cfg: Configuration, est: Estimator, entries: seq<Prepared>, k: nat)
    requires Complete(cfg.budget)
    ensures CutsAreReported(Fill(cfg, est, entries), k)
  {
    hide ReservedPass, GeneralPass, Complete, CutsAreReported;
    var b := cfg.budget;
    ReservedPassReports(b, est, entries, |entries|, k);
    assert entries[..|entries|] == entries;
    var first := ReservedPass(b, est, entries);
    GeneralPassReports(b, est, first, first.remaining, |first.remaining|, k);
    assert first.remaining[..|first.remaining|] == first.remaining;
  }

  lemma ScreenOneCutsNothing(cfg: Configuration, denied: set<nat>, s: Screening, c: Candidate, k: nat)
    ensures Total(ScreenOne(cfg, denied, s, c).diagnostics, CutRemarksOn(k)) == Total(s.diagnostics, CutRemarksOn(k))
  {
    hide Total, Sanitized, SentinelCount, ByteLength, Decimal;
    var body := Sanitized(c.body);
    var removals, markers := RemovalsFrom(c, body), MarkersIn(c, SentinelCount(body));
    TotalJoin(s.diagnostics, removals, CutRemarksOn(k));
    TotalJoin(s.diagnostics + removals, markers, CutRemarksOn(k));
    if removals != [] {
      TotalShort(removals[0], CutRemarksOn(k));
    }
    if markers != [] {
      TotalShort(markers[0], CutRemarksOn(k));
    }
    TotalShort(EstimatorRemark(""), CutRemarksOn(k));
  }

  lemma {:induction false} ScreenCutsNothing(cfg: Configuration, denied: set<nat>, candidates: seq<Candidate>, n: nat,
      k: nat)
    requires n <= |candidates|
    ensures Total(Screen(cfg, denied, candidates[..n]).diagnostics, CutRemarksOn(k)) == 0
  {
    hide Screen, ScreenOne;
    ScreenStep(cfg, denied, candidates, n);
    if n > 0 {
      ScreenCutsNothing(cfg, denied, candidates, n - 1, k);
      ScreenOneCutsNothing(cfg, denied, Screen(cfg, denied, candidates[..n - 1]), candidates[n - 1], k);
    }
  }

  lemma ClosingCutsNothing(b: Budget, est: Estimator, omissions: nat, k: nat)
    ensures Total(ClosingRemarks(b, est, omissions), CutRemarksOn(k)) == 0
  {
    hide Total, Decimal;
    TotalShort(OmissionsRemark(omissions, b.maxOmissions), CutRemarksOn(k));
    TotalShort(EstimatorRemark(est.estimatorId), CutRemarksOn(k));
    if omissions > b.maxOmissions {
      TotalJoin([OmissionsRemark(omissions, b.maxOmissions)], [EstimatorRemark(est.estimatorId)], CutRemarksOn(k));
    } else {
      assert [] + [EstimatorRemark(est.estimatorId)] == [EstimatorRemark(est.estimatorId)];
    }
  }

  /** Every cut item is remarked on once, and nothing else is said to be cut. */
  lemma EveryCutIsReported(cfg: Configuration, est: Estimator, denied: set<nat>, prior: Prior,
      candidates: seq<Candidate>, k: nat)
    requires Complete(cfg.budget)
    ensures Total(AllDiagnostics(cfg, est, denied, prior, Sort(candidates, ByCandidateKey())), CutRemarksOn(k))
        == Total(prior.diagnostics, CutRemarksOn(k))
         + Total(Plan(cfg, est, denied, prior, candidates).items, CutsOf(k))
  {
    hide Total, Sort, Screen, Fill, Complete, AllOmissions, ClosingRemarks, Numbered;
    var sorted := Sort(candidates, ByCandidateKey());
    var screening := Screen(cfg, denied, sorted);
    var f := Fill(cfg, est, screening.prepared);
    var closing := ClosingRemarks(cfg.budget, est, |AllOmissions(cfg, est, denied, prior.omissions, sorted)|);
    ScreenCutsNothing(cfg, denied, sorted, |sorted|, k);
    assert sorted[..|sorted|] == sorted;
    FillReports(cfg, est, screening.prepared, k);
    ClosingCutsNothing(cfg.budget, est, |AllOmissions(cfg, est, denied, prior.omissions, sorted)|, k);
    TotalJoin(prior.diagnostics + screening.diagnostics + f.diagnostics, closing, CutRemarksOn(k));
    TotalJoin(prior.diagnostics + screening.diagnostics, f.diagnostics, CutRemarksOn(k));
    TotalJoin(prior.diagnostics, screening.diagnostics, CutRemarksOn(k));
    PlannedTotal(f.accepted, CutsOf(k));
  }

  // Markers ------------------------------------------------------------------------------------

  /** The remark that an entry with markers gives rise to. */
  ghost predicate Marks(entries: seq<Prepared>, d: Diagnostic) {
    exists e :: e in entries && e.sentinels > 0 && d == MarkerRemark(e.candidate.identity, e.sentinels)
  }

  ghost predicate MarkersAreReported(s: Screening) {
    forall d: Diagnostic :: d.code == FrameSentinelInBody ==> (d in s.diagnostics <==> Marks(s.prepared, d))
  }

  lemma ScreenOneReports(cfg: Configuration, denied: set<nat>, s: Screening, c: Candidate)
    requires MarkersAreReported(s)
    ensures MarkersAreReported(ScreenOne(cfg, denied, s, c))
  {
    hide Sanitized, SentinelCount, ByteLength, Decimal, Marks, ScreenOne;
    var after := ScreenOne(cfg, denied, s, c);
    ScreenOneMarks(cfg, denied, s, c);
    forall d: Diagnostic | d.code == FrameSentinelInBody ensures d in after.diagnostics <==> Marks(after.prepared, d) {
      MarksOneMore(s.prepared, after.prepared[|s.prepared|..], d);
      assert after.prepared == s.prepared + after.prepared[|s.prepared|..];
    }
  }

  lemma ScreenOneMarks(cfg: Configuration, denied: set<nat>, s: Screening, c: Candidate)
    ensures var after := ScreenOne(cfg, denied, s, c);
      && s.prepared <= after.prepared
      && forall d: Diagnostic :: d.code == FrameSentinelInBody ==>
        (d in after.diagnostics <==> d in s.diagnostics || Marks(after.prepared[|s.prepared|..], d))
  {
    hide Sanitized, SentinelCount, ByteLength, Decimal;
    var after := ScreenOne(cfg, denied, s, c);
    var more := after.prepared[|s.prepared|..];
    if more != [] {
      assert more == [after.prepared[|s.prepared|]];
    }
  }

  lemma MarksOneMore(some: seq<Prepared>, more: seq<Prepared>, d: Diagnostic)
    ensures Marks(some + more, d) <==> Marks(some, d) || Marks(more, d)
  {
    hide Decimal;
    if Marks(some, d) {
      var e :| e in some && e.sentinels > 0 && d == MarkerRemark(e.candidate.identity, e.sentinels);
      assert e in some + more;
    }
    if Marks(more, d) {
      var e :| e in more && e.sentinels > 0 && d == MarkerRemark(e.candidate.identity, e.sentinels);
      assert e in some + more;
    }
  }

  lemma {:induction false} ScreenReports(cfg: Configuration, denied: set<nat>, candidates: seq<Candidate>, n: nat)
    requires n <= |candidates|
    ensures MarkersAreReported(Screen(cfg, denied, candidates[..n]))
  {
    hide Screen, ScreenOne;
    ScreenStep(cfg, denied, candidates, n);
    if n > 0 {
      ScreenReports(cfg, denied, candidates, n - 1);
      ScreenOneReports(cfg, denied, Screen(cfg, denied, candidates[..n - 1]), candidates[n - 1]);
    }
  }

  lemma MarkersAreAllReported(cfg: Configuration, est: Estimator, denied: set<nat>, prior: Prior,
      sorted: seq<Candidate>, d: Diagnostic)
    requires Complete(cfg.budget) && d.code == FrameSentinelInBody
    ensures d in AllDiagnostics(cfg, est, denied, prior, sorted) <==>
      d in prior.diagnostics || Marks(Screen(cfg, denied, sorted).prepared, d)
  {
    hide Screen, Fill, Complete, AllOmissions, Decimal, Marks;
    ScreenReports(cfg, denied, sorted, |sorted|);
    assert sorted[..|sorted|] == sorted;
    FillReports(cfg, est, Screen(cfg, denied, sorted).prepared, 0);
  }

  /** Markers are remarked on for exactly the screened texts that have some, so for every item whose count is
      positive. */
  lemma EveryMarkerIsReported(cfg: Configuration, est: Estimator, denied: set<nat>, prior: Prior,
      candidates: seq<Candidate>)
    requires Complete(cfg.budget)
    ensures var sorted := Sort(candidates, ByCandidateKey());
      var all := AllDiagnostics(cfg, est, denied, prior, sorted);
      && (forall d: Diagnostic :: d.code == FrameSentinelInBody ==>
           (d in all <==> d in prior.diagnostics || Marks(Screen(cfg, denied, sorted).prepared, d)))
      && (forall item :: item in Plan(cfg, est, denied, prior, candidates).items && item.sentinels > 0 ==>
           MarkerRemark(item.identity, item.sentinels) in all)
  {
    hide Sort, Screen, Fill, Complete, AllOmissions, AllDiagnostics, Decimal, Marks, FromEntries, Ledger, Capped;
    var sorted := Sort(candidates, ByCandidateKey());
    var all := AllDiagnostics(cfg, est, denied, prior, sorted);
    forall d: Diagnostic | d.code == FrameSentinelInBody
      ensures d in all <==> d in prior.diagnostics || Marks(Screen(cfg, denied, sorted).prepared, d)
    {
      MarkersAreAllReported(cfg, est, denied, prior, sorted, d);
    }
    var prepared := Screen(cfg, denied, sorted).prepared;
    ScreenedOk(cfg, denied, sorted, |sorted|);
    assert sorted[..|sorted|] == sorted;
    FillIsOk(cfg, est, prepared);
    SortedFromEntries(cfg.budget, est, Fill(cfg, est, prepared).accepted, prepared);
    var items := Plan(cfg, est, denied, prior, candidates).items;
    forall item | item in items && item.sentinels > 0
      ensures Marks(prepared, MarkerRemark(item.identity, item.sentinels))
    {
      ItemIsMarked(cfg.budget, est, items, prepared, item);
    }
  }

  lemma ItemIsMarked(b: Budget, est: Estimator, items: seq<Item>, entries: seq<Prepared>, item: Item)
    requires FromEntries(b, est, items, entries) && item in items && item.sentinels > 0
    ensures Marks(entries, MarkerRemark(item.identity, item.sentinels))
  {
    hide Decimal, ByteLength;
    var i :| 0 <= i < |items| && items[i] == item;
    assert FromSome(items[i], entries);
    var n :| 0 <= n < |entries| && TakenFrom(entries[n], items[i]);
    assert entries[n] in entries;
  }

  // The remarks in their own words -----------------------------------------------------------------

  function Shortened(detail: string): string {
    if |detail| > 200 then detail[..200] else detail
  }

  ghost predicate RemovalAt(cfg: Configuration, denied: set<nat>, sorted: seq<Candidate>, i: nat, d: Diagnostic)
    requires i < |sorted|
  {
    var c := sorted[i];
    var kept := |Sanitized(c.body)|;
    && c.identity !in denied && c.classification <= cfg.maxClassification && kept < |c.body|
    && d == Diagnostic(ControlCharactersRemoved, Some(c.identity),
                       Shortened(Decimal(|c.body| - kept) + " characters removed"))
  }

  ghost predicate MarkerAt(cfg: Configuration, denied: set<nat>, sorted: seq<Candidate>, i: nat, d: Diagnostic)
    requires i < |sorted|
  {
    var markers := SentinelCount(Sanitized(sorted[i].body));
    && IsScreenedIn(cfg, denied, sorted, i) && markers > 0
    && d == Diagnostic(FrameSentinelInBody, Some(sorted[i].identity),
                       Shortened(Decimal(markers) + " frame markers present; length prefix governs"))
  }

  ghost predicate ScreenRemark(cfg: Configuration, denied: set<nat>, sorted: seq<Candidate>, n: nat, d: Diagnostic)
    requires n <= |sorted|
  {
    exists i: nat :: i < n && (RemovalAt(cfg, denied, sorted, i, d) || MarkerAt(cfg, denied, sorted, i, d))
  }

  lemma ScreenOneSays(cfg: Configuration, denied: set<nat>, s: Screening, c: Candidate, d: Diagnostic)
    ensures var text := Sanitized(c.body);
      d in ScreenOne(cfg, denied, s, c).diagnostics <==>
        || d in s.diagnostics
        || (c.identity !in denied && c.classification <= cfg.maxClassification && d in RemovalsFrom(c, text))
        || (Eligible(cfg, denied, c) && c.digest !in s.seen && d in MarkersIn(c, SentinelCount(text)))
  {
    hide Sanitized, SentinelCount, ByteLength, RemovalsFrom, MarkersIn;
  }

  lemma ScreenOneRemarks(cfg: Configuration, denied: set<nat>, sorted: seq<Candidate>, n: nat, s: Screening,
      d: Diagnostic)
    requires n < |sorted| && SeenIs(cfg, denied, sorted, n, s.seen)
    ensures d in ScreenOne(cfg, denied, s, sorted[n]).diagnostics <==>
      d in s.diagnostics || RemovalAt(cfg, denied, sorted, n, d) || MarkerAt(cfg, denied, sorted, n, d)
  {
    hide Sanitized, SentinelCount, ByteLength, Decimal, IsScreenedIn, ScreenOne, Eligible, SeenIs;
    ScreenedInIff(cfg, denied, sorted, n, s.seen);
    ScreenOneSays(cfg, denied, s, sorted[n], d);
  }

  lemma {:induction false} ScreenRemarks(cfg: Configuration, denied: set<nat>, sorted: seq<Candidate>, n: nat,
      d: Diagnostic)
    requires n <= |sorted|
    ensures d in Screen(cfg, denied, sorted[..n]).diagnostics <==> ScreenRemark(cfg, denied, sorted, n, d)
  {
    hide Screen, ScreenOne, RemovalAt, MarkerAt;
    ScreenStep(cfg, denied, sorted, n);
    if n > 0 {
      ScreenRemarks(cfg, denied, sorted, n - 1, d);
      var f, g := ScreenIs(cfg, denied, sorted, n - 1);
      ScreenOneRemarks(cfg, denied, sorted, n - 1, Screen(cfg, denied, sorted[..n - 1]), d);
    }
  }

  /** An accepted item that was cut from the entry, and what is said of that. */
  ghost predicate CutRemarkOf(e: Prepared, item: Item, d: Diagnostic) {
    && TakenFrom(e, item) && item.truncated
    && d == Diagnostic(CandidateTruncated, Some(item.identity),
                       Shortened(Decimal(ByteLength(e.body)) + " bytes reduced to " + Decimal(ByteLength(item.body))))
  }

  ghost predicate RemarkOnItem(entries: seq<Prepared>, item: Item, d: Diagnostic) {
    exists e :: e in entries && CutRemarkOf(e, item, d)
  }

  /** The remarks of the passes are remarks on accepted items, and each cut item has one. */
  ghost predicate CutsAreTold(f: Filling, entries: seq<Prepared>) {
    && (forall d :: d in f.diagnostics ==> exists item :: item in f.accepted && RemarkOnItem(entries, item, d))
    && (forall item :: item in f.accepted && item.truncated ==>
          exists d :: d in f.diagnostics && RemarkOnItem(entries, item, d))
  }

  lemma CutIsTold(e: Prepared, item: Item)
    requires PreparedOk(e) && TakenFrom(e, item) && item.truncated
    ensures CutRemarkOf(e, item, CutRemarks(e, item)[0]) && CutRemarks(e, item) == [CutRemarks(e, item)[0]]
  {
    hide ByteLength, SentinelCount, Decimal;
  }

  lemma WithItemTells(f: Filling, e: Prepared, item: Item, state: BudgetState, entries: seq<Prepared>)
    requires CutsAreTold(f, entries) && PreparedOk(e) && e in entries && TakenFrom(e, item)
    ensures CutsAreTold(WithItem(f, e, item, state), entries)
  {
    hide PreparedOk, TakenFrom, CutRemarkOf;
    var t := WithItem(f, e, item, state);
    if item.truncated {
      CutIsTold(e, item);
      assert RemarkOnItem(entries, item, CutRemarks(e, item)[0]);
    } else {
      assert t.diagnostics == f.diagnostics;
    }
  }

  lemma {:induction false} ReservedPassTells(b: Budget, est: Estimator, entries: seq<Prepared>, n: nat)
    requires Complete(b) && AllPrepared(entries) && n <= |entries|
    ensures CutsAreTold(ReservedPass(b, est, entries[..n]), entries)
  {
    hide ReservedPass, Admit, Complete, WithItem, PreparedOk, TakenFrom, CutsAreTold;
    PassStep(b, est, entries, n);
    if n == 0 {
      NothingIsTold(entries);
    } else {
      ReservedPassTells(b, est, entries, n - 1);
      var f, e := ReservedPass(b, est, entries[..n - 1]), entries[n - 1];
      AdmissionIsSound(b, est, f.state, |f.accepted|, e, Reserved);
      var (outcome, after) := Admit(b, est, f.state, |f.accepted|, e, Reserved);
      if outcome.Admitted? {
        WithItemTells(f, e, outcome.item, after, entries);
      } else {
        OnlyItemsTell(f, f.(remaining := f.remaining + [e]), entries);
      }
    }
  }

  lemma NothingIsTold(entries: seq<Prepared>)
    ensures CutsAreTold(Filling(NOTHING_SPENT, [], [], [], []), entries)
  {
  }

  lemma OnlyItemsTell(f: Filling, t: Filling, entries: seq<Prepared>)
    requires CutsAreTold(f, entries) && t.accepted == f.accepted && t.diagnostics == f.diagnostics
    ensures CutsAreTold(t, entries)
  {
  }

  lemma {:induction false} GeneralPassTells(b: Budget, est: Estimator, start: Filling, todo: seq<Prepared>, n: nat,
      entries: seq<Prepared>)
    requires Complete(b) && AllPrepared(entries) && CutsAreTold(start, entries) && n <= |todo|
    requires forall e :: e in todo ==> e in entries
    ensures CutsAreTold(GeneralPass(b, est, start, todo[..n]), entries)
  {
    hide GeneralPass, Admit, Complete, WithItem, PreparedOk, TakenFrom, CutsAreTold;
    GeneralStep(b, est, start, todo, n);
    if n > 0 {
      GeneralPassTells(b, est, start, todo, n - 1, entries);
      var f, e := GeneralPass(b, est, start, todo[..n - 1]), todo[n - 1];
      AdmissionIsSound(b, est, f.state, |f.accepted|, e, General);
      var (outcome, after) := Admit(b, est, f.state, |f.accepted|, e, General);
      if outcome.Admitted? {
        WithItemTells(f, e, outcome.item, after, entries);
      } else {
        OnlyItemsTell(f, GeneralOne(b, est, f, e), entries);
      }
    }
  }

  lemma FillTells(cfg: Configuration, est: Estimator, entries: seq<Prepared>)
    requires Complete(cfg.budget) && AllPrepared(entries)
    ensures CutsAreTold(Fill(cfg, est, entries), entries)
  {
    hide ReservedPass, GeneralPass, Complete, CutsAreTold, PreparedOk, FillOk, AllPrepared;
    var b := cfg.budget;
    ReservedPassTells(b, est, entries, |entries|);
    ReservedPassOk(b, est, entries, |entries|);
    assert entries[..|entries|] == entries;
    var first := ReservedPass(b, est, entries);
    assert forall e :: e in first.remaining ==> e in entries by { RemainingAreEntries(b, est, first, entries); }
    GeneralPassTells(b, est, first, first.remaining, |first.remaining|, entries);
    assert first.remaining[..|first.remaining|] == first.remaining;
  }

  lemma RemainingAreEntries(b: Budget, est: Estimator, f: Filling, entries: seq<Prepared>)
    requires Complete(b) && FillOk(b, est, f, entries)
    ensures forall e :: e in f.remaining ==> e in entries
  {
  }

  ghost predicate ClosingRemark(cfg: Configuration, est: Estimator, omissions: nat, d: Diagnostic) {
    || (omissions > cfg.budget.maxOmissions
        && d == Diagnostic(OmissionsTruncated, None,
                           Shortened(Decimal(omissions) + " omissions capped at " + Decimal(cfg.budget.maxOmissions))))
    || d == Diagnostic(EstimatorConservative, None,
                       Shortened(est.estimatorId + " is an upper bound, not a model token count"))
  }

  lemma ClosingRemarksAre(cfg: Configuration, est: Estimator, omissions: nat, d: Diagnostic)
    ensures d in ClosingRemarks(cfg.budget, est, omissions) <==> ClosingRemark(cfg, est, omissions, d)
  {
    hide Decimal;
  }

  /** Every remark a plan can list: those it was given, one for each text that lost characters, one for each screened
      text with markers, one for each cut item, and the two closing ones. */
  lemma RemarksAreExact(cfg: Configuration, est: Estimator, denied: set<nat>, prior: Prior, sorted: seq<Candidate>,
      d: Diagnostic)
    requires Complete(cfg.budget)
    ensures var entries := Screen(cfg, denied, sorted).prepared;
      var omissions := |AllOmissions(cfg, est, denied, prior.omissions, sorted)|;
      && CutsAreTold(Fill(cfg, est, entries), entries)
      && (d in AllDiagnostics(cfg, est, denied, prior, sorted) <==>
            || d in prior.diagnostics || ScreenRemark(cfg, denied, sorted, |sorted|, d)
            || d in Fill(cfg, est, entries).diagnostics || ClosingRemark(cfg, est, omissions, d))
  {
    hide Screen, Fill, AllOmissions, ClosingRemarks, ClosingRemark, ScreenRemark, CutsAreTold, Complete, PreparedOk;
    ScreenedOk(cfg, denied, sorted, |sorted|);
    ScreenRemarks(cfg, denied, sorted, |sorted|, d);
    assert sorted[..|sorted|] == sorted;
    FillTells(cfg, est, Screen(cfg, denied, sorted).prepared);
    ClosingRemarksAre(cfg, est, |AllOmissions(cfg, est, denied, prior.omissions, sorted)|, d);
  }
}
