/** Plans that show where the packer and the checks on reading part (packages/context/src/select.ts). */
module PackExamples {
  import opened Utf8
  import opened Framing
  import opened Sentinels
  import opened Ordering
  import opened Selection
  import opened SelectionSafety
  import opened SelectionGuarantees
  import opened PackChecks

  function Roomy(): Allocation { Allocation(0, 100, 100) }

  /** Room for everything, but only three bytes an item. */
  function TightBudget(): Budget {
    Budget(100, 100, 100, 3, 1, 100, 100, 100, true,
           map[Task := Roomy(), Constraint := Roomy(), RepositoryText := Roomy(), MemoryText := Roomy(),
               ArtifactText := Roomy()])
  }

  function TightConfiguration(): Configuration {
    Configuration(TightBudget(), 0)
  }

  function TightPlan(candidates: seq<Candidate>): SelectionPlan {
    TightIsOk();
    Plan(TightConfiguration(), ConservativeEstimator(), {}, Prior([], []), candidates)
  }

  function TightScreen(candidates: seq<Candidate>): seq<Prepared> {
    Screen(TightConfiguration(), {}, candidates).prepared
  }

  function TightFill(entries: seq<Prepared>): seq<Item> {
    TightIsOk();
    Fill(TightConfiguration(), ConservativeEstimator(), entries).accepted
  }

  /** Candidates that differ in nothing but their text. */
  function Showing(body: string): Candidate {
    Candidate(TaskDescription, Task, 0, 0, 0, 0, body, "")
  }

  function Entry(body: string): Prepared {
    Prepared(Showing(body), body, ByteLength(body), SentinelCount(body))
  }

  lemma TightIsOk()
    ensures BudgetOk(TightBudget()) && Complete(TightBudget())
  {
    var b := TightBudget();
    forall c: Category ensures c in b.categories && b.categories[c] == Roomy() {
      match c case Task => case Constraint => case RepositoryText => case MemoryText => case ArtifactText =>
    }
    assert ReservedUpTo(b, 5) == 0;
  }

  // Filling for one text ----------------------------------------------------------------------

  ghost predicate Clean(body: string) {
    body != "" && forall c :: c in body ==> Survives(c)
  }

  lemma CleanEntry(body: string)
    requires Clean(body)
    ensures body != "" && Sanitized(body) == body && PreparedOk(Entry(body))
  {
    hide Survives, Sanitized, ByteLength, SentinelCount;
    CleanIsKept(body);
    SanitizedIsClean(body);
  }

  /** The one attempt to place an entry. */
  function Attempt(body: string): Admission {
    TightIsOk();
    Admit(TightBudget(), ConservativeEstimator(), NOTHING_SPENT, 0, Entry(body), General).0
  }

  lemma TightestOfTight(e: Prepared)
    requires Complete(TightBudget()) && e.candidate.category == Task && e.candidate.sourceKind == TaskDescription
    ensures Tightest(e.byteLength, LimitsFor(TightBudget(), NOTHING_SPENT, e.candidate), 4).bytes
         == if e.byteLength < 3 then e.byteLength else 3
  {
    hide Tightest;
    var limits := LimitsFor(TightBudget(), NOTHING_SPENT, e.candidate);
    TightestIsLeast(e.byteLength, limits, 4);
    assert limits[0].bytes == 3 && limits[1].bytes == 100 && limits[2].bytes == 100 && limits[3].bytes == 100;
  }

  ghost predicate Small(p: Portion) {
    p.Portion? && p.byteLength <= 3 && p.byteLength == ByteLength(p.body)
  }

  lemma TightFits(b: Budget, e: Prepared, allowed: Limit)
    requires b.minItemBytes == 1 && b.allowTruncation
    requires PreparedOk(e) && allowed.bytes == if e.byteLength < 3 then e.byteLength else 3
    ensures var p := WithinBytes(b, e, allowed);
      Small(p) && (e.byteLength <= 3 ==> p.body == e.body)
  {
    hide TruncateToBytes, ByteLength, SentinelCount;
    WithinBytesOk(b, e, allowed);
  }

  lemma SmallFits(b: Budget, p: Portion)
    requires b.maxTotalUnits == 100 && Small(p)
    ensures WithinUnits(b, ConservativeEstimator(), 0, p) == p
  {
    hide TruncateToBytes, ByteLength;
  }

  /** The text, cut to three bytes. */
  ghost predicate CutToThree(body: string, item: Item) {
    && body != "" && TakenFrom(Entry(body), item) && item.byteContribution <= 3
    && (ByteLength(body) <= 3 ==> item.body == body)
    && (item.body == "" <==> ByteLength(body) > 3 && |EncodeScalar(body[0])| > 3)
  }

  ghost predicate ShowsCut(body: string, items: seq<Item>) {
    |items| == 1 && CutToThree(body, items[0])
  }

  lemma EntryIsAdmitted(body: string)
    requires Clean(body)
    ensures match Attempt(body) case Admitted(item) => CutToThree(body, item) case _ => false
  {
    hide WithinBytes, WithinUnits, Charge, Tightest, ByteLength, EncodeScalar, SentinelCount, BudgetOk, Clean,
        TakenFrom;
    TightIsOk();
    CleanEntry(body);
    var b, e := TightBudget(), Entry(body);
    var allowed := Tightest(e.byteLength, LimitsFor(b, NOTHING_SPENT, e.candidate), 4);
    TightestOfTight(e);
    TightFits(b, e, allowed);
    SmallFits(b, WithinBytes(b, e, allowed));
    assert Attempt(body).Admitted?;
    AdmissionIsSound(b, ConservativeEstimator(), NOTHING_SPENT, 0, e, General);
    EmptyItemIff(b, ConservativeEstimator(), NOTHING_SPENT, 0, e, General);
  }

  /** Nothing is reserved, so the reservation pass leaves the entry to the general pass. */
  lemma EntryIsDeferred(body: string)
    requires Clean(body) && Complete(TightBudget())
    ensures ReservedPass(TightBudget(), ConservativeEstimator(), [Entry(body)])
        == Filling(NOTHING_SPENT, [], [Entry(body)], [], [])
  {
    hide WithinBytes, WithinUnits, Tightest, Charge, ReservedPass, BudgetOk, SentinelCount, ByteLength, Clean;
    var b, est, e := TightBudget(), ConservativeEstimator(), Entry(body);
    PassStep(b, est, [e], 0);
    PassStep(b, est, [e], 1);
    assert [e][..1] == [e];
    assert Admit(b, est, NOTHING_SPENT, 0, e, Reserved).0 == Deferred;
  }

  lemma EntryIsFilled(body: string)
    requires Clean(body)
    ensures ShowsCut(body, TightFill([Entry(body)]))
  {
    hide ReservedPass, GeneralPass, GeneralOne, Complete, CutToThree, Clean, TightBudget, Entry, Attempt, BudgetOk;
    TightIsOk();
    EntryIsDeferred(body);
    EntryIsAdmitted(body);
    var first := Filling(NOTHING_SPENT, [], [Entry(body)], [], []);
    OneIsFilled(TightBudget(), ConservativeEstimator(), first, Entry(body));
    AttemptFills(body, first);
  }

  lemma AttemptFills(body: string, first: Filling)
    requires Complete(TightBudget()) && first.state == NOTHING_SPENT && first.accepted == []
    ensures match Attempt(body)
      case Admitted(item) =>
        GeneralOne(TightBudget(), ConservativeEstimator(), first, Entry(body)).accepted == [item]
      case _ => true
  {
    hide Admit, Complete, BudgetOk, TightBudget, Entry, CutRemarks;
  }

  lemma OneIsFilled(b: Budget, est: Estimator, first: Filling, e: Prepared)
    requires Complete(b)
    ensures GeneralPass(b, est, first, [e]) == GeneralOne(b, est, first, e)
  {
    hide GeneralPass, GeneralOne;
    GeneralStep(b, est, first, [e], 0);
    GeneralStep(b, est, first, [e], 1);
    assert [e][..1] == [e] && [e][..0] == [];
  }

  lemma SortOne<T>(x: T, compare: Comparator<T>)
    ensures Sort([x], compare) == [x]
  {
    assert [x][..0] == [];
  }

  /** A tie leaves the order of arrival. */
  lemma SortTied<T>(x: T, y: T, compare: Comparator<T>)
    requires compare(y, x) == 0
    ensures Sort([x, y], compare) == [x, y]
  {
    SortOne(x, compare);
    assert [x, y][..1] == [x];
    assert Insert(y, [x], compare) == [x] + Insert(y, [], compare);
  }

  lemma FirstIsScreened(body: string, others: seq<Candidate>)
    requires Clean(body) && (others == [] || exists other :: others == [Showing(other)])
    ensures TightScreen([Showing(body)] + others) == [Entry(body)]
  {
    hide Screen, Sanitized, SentinelCount, ByteLength, Clean;
    CleanEntry(body);
    var cfg, all := TightConfiguration(), [Showing(body)] + others;
    ScreenStep(cfg, {}, all, 0);
    ScreenStep(cfg, {}, all, 1);
    assert all[..|all|] == all;
    if others != [] {
      ScreenStep(cfg, {}, all, 2);
    }
  }

  lemma PlanIsFilled(candidates: seq<Candidate>)
    requires Sort(candidates, ByCandidateKey()) == candidates
    ensures TightPlan(candidates).items == Numbered(Sort(TightFill(TightScreen(candidates)), ByItemKey()))
  {
    hide Fill, Screen, AllOmissions, AllDiagnostics, Sort, BudgetOk, TightBudget, Numbered;
  }

  lemma ArrivalIsKept(body: string, others: seq<Candidate>)
    requires others == [] || exists other :: others == [Showing(other)]
    ensures Sort([Showing(body)] + others, ByCandidateKey()) == [Showing(body)] + others
  {
    hide Sort;
    if others == [] {
      SortOne(Showing(body), ByCandidateKey());
      assert [Showing(body)] + others == [Showing(body)];
    } else {
      SortTied(Showing(body), others[0], ByCandidateKey());
      assert [Showing(body)] + others == [Showing(body), others[0]];
    }
  }

  /** So the plan shows the first of the tied texts alone. */
  lemma PlanShowsFirst(body: string, others: seq<Candidate>)
    requires Clean(body) && (others == [] || exists other :: others == [Showing(other)])
    ensures ShowsCut(body, TightPlan([Showing(body)] + others).items)
  {
    hide Fill, Screen, Sort, CutToThree, Clean, Entry, TightPlan, TightFill, TightScreen;
    EntryIsFilled(body);
    FirstIsScreened(body, others);
    ArrivalIsKept(body, others);
    PlanIsFilled([Showing(body)] + others);
    var item := TightFill([Entry(body)])[0];
    assert TightFill([Entry(body)]) == [item];
    SortOne(item, ByItemKey());
    OrdinalIsFree(body, item, 1);
  }

  lemma OrdinalIsFree(body: string, item: Item, n: nat)
    requires CutToThree(body, item)
    ensures CutToThree(body, item.(ordinal := n))
  {
    hide ByteLength, EncodeScalar, SentinelCount;
  }

  // What that shows ---------------------------------------------------------------------------

  /** Tied candidates that differ: the plan depends on which comes first. */
  lemma TiesShowOrder()
    ensures var x, y := Showing("x"), Showing("y");
      && x != y && ByCandidateKey()(x, y) == 0 && multiset([x, y]) == multiset([y, x])
      && TightPlan([x, y]).items != TightPlan([y, x]).items
  {
    hide TightPlan;
    var x, y := Showing("x"), Showing("y");
    assert x.body[0] != y.body[0];
    assert [x] + [y] == [x, y] && [y] + [x] == [y, x];
    OneLetter('x');
    OneLetter('y');
    PlanShowsFirst("x", [y]);
    PlanShowsFirst("y", [x]);
  }

  lemma OneLetter(c: char)
    requires 'a' <= c <= 'z'
    ensures Clean([c]) && ByteLength([c]) == 1
  {
    assert [c][1..] == "";
    assert Encode([c]) == EncodeScalar(c) + [];
  }

  const FACE := "\U{1F600}"

  /** A character of four bytes under an item cap of three becomes an empty item. */
  lemma EmptyItemExample()
    ensures BudgetOk(TightBudget()) && PreparedOk(Entry(FACE))
    ensures match Attempt(FACE) case Admitted(item) => item.body == "" case _ => false
  {
    hide BudgetOk, PreparedOk, Attempt, TakenFrom;
    TightIsOk();
    FaceIsFourBytes();
    CleanEntry(FACE);
    EntryIsAdmitted(FACE);
  }

  /** And a plan has an empty item. */
  lemma EmptyItemPlan()
    ensures BudgetOk(TightBudget()) && TightBudget().minItemBytes == 1
    ensures var items := TightPlan([Showing(FACE)]).items;
      |items| == 1 && items[0].body == "" && items[0].byteContribution == 0 && !ReadsBack(items[0])
  {
    hide TightPlan, BudgetOk;
    TightIsOk();
    FaceIsFourBytes();
    assert [Showing(FACE)] + [] == [Showing(FACE)];
    PlanShowsFirst(FACE, []);
  }

  lemma FaceIsFourBytes()
    ensures Clean(FACE) && ByteLength(FACE) == 4 && |EncodeScalar(FACE[0])| == 4
  {
    assert FACE[1..] == "";
    assert Encode(FACE) == EncodeScalar('\U{1F600}') + [];
  }

  /** A marker cut after three characters: the plan keeps a count of one for a text without markers. */
  lemma CutMarkerPlan()
    ensures var items := TightPlan([Showing(FRAME_BODY)]).items;
      |items| == 1 && items[0].body != "" && !ReadsBack(items[0])
  {
    hide TightPlan;
    MarkerIsClean();
    assert [Showing(FRAME_BODY)] + [] == [Showing(FRAME_BODY)];
    PlanShowsFirst(FRAME_BODY, []);
    MarkerIsCut(TightPlan([Showing(FRAME_BODY)]).items[0]);
  }

  lemma MarkerIsClean()
    ensures Clean(FRAME_BODY) && |EncodeScalar(FRAME_BODY[0])| == 1
  {
  }

  lemma MarkerIsCut(item: Item)
    requires CutToThree(FRAME_BODY, item)
    ensures !ReadsBack(item)
  {
    hide SentinelCount, ByteLength;
    MoreBytesThanCharacters(item.body);
    assert item.body == FRAME_BODY[..|item.body|];
    assert StandsAt(FRAME_BODY, FRAME_SENTINELS[2], 0);
    PrefixCountIff(FRAME_BODY, |item.body|);
  }

  lemma {:induction false} MoreBytesThanCharacters(text: string)
    ensures |text| <= ByteLength(text)
  {
    hide EncodeScalar;
    if text != "" {
      ScalarShape(text[0]);
      MoreBytesThanCharacters(text[1..]);
    }
  }
}
