/** The context packer: which candidates go into a pack, how much of them, and in what order
    (packages/context/src/select.ts, packages/context/src/model.ts).

    Identities and digests are compared by equality and code-unit order only, so they are modelled
    by their rank. `Details` stands for the fields an item carries along unread.
 */
module Selection {
  import opened Utf8
  import opened Framing
  import opened Sentinels
  import opened Ordering
  import opened Diagnostics

  datatype Category = Task | Constraint | RepositoryText | MemoryText | ArtifactText
  datatype SourceKind = RepositoryFile | RepositorySearchHit | MemoryRecord | ArtifactExcerpt | TaskDescription

  const CATEGORIES := [Task, Constraint, RepositoryText, MemoryText, ArtifactText]
  const SOURCE_KINDS := [RepositoryFile, RepositorySearchHit, MemoryRecord, ArtifactExcerpt, TaskDescription]

  function CategoryPriority(c: Category): nat {
    match c case Task => 0 case Constraint => 1 case RepositoryText => 2 case MemoryText => 3 case ArtifactText => 4
  }

  type Details = string

  datatype Candidate = Candidate(
    sourceKind: SourceKind, category: Category, identity: nat, digest: nat, classification: nat, baseScore: nat,
    body: string, details: Details)

  datatype Item = Item(
    ordinal: nat, sourceKind: SourceKind, category: Category, identity: nat, digest: nat, score: nat,
    byteContribution: nat, unitContribution: nat, truncated: bool, sentinels: nat, body: string, details: Details)

  datatype Reason =
    | ArtifactUnresolved | BudgetBytesExhausted | BudgetItemsExhausted | BudgetUnitsExhausted | CategoryAllocationFull
    | ClassificationCeiling | DuplicateDigest | EmptyAfterSanitization | Expired | ItemTooLarge | PerSourceCap |
    PolicyDenied
    | ScopeMismatch | SourceDigestMismatch | SourceUnavailable | Tombstoned | UnconfirmedCandidateExcluded

  datatype Omission = Omission(
    identity: nat, sourceKind: SourceKind, category: Category, digest: nat, reason: Reason, requestedBytes: nat)

  // Budgets ------------------------------------------------------------------------

  datatype Allocation = Allocation(reservedBytes: nat, maxBytes: nat, maxItems: nat)

  datatype Budget = Budget(
    maxTotalBytes: nat, maxTotalUnits: nat, maxItems: nat, maxItemBytes: nat, minItemBytes: nat,
    maxBytesPerSourceKind: nat, maxOmissions: nat, maxDiagnostics: nat, allowTruncation: bool,
    categories: map<Category, Allocation>)

  const MAX_BYTES: nat := 1_073_741_824
  const MAX_CANDIDATE_BODY_BYTES: nat := 1_048_576
  const MAX_COUNT: nat := 100_000

  /** Every category has an allocation. */
  predicate Complete(b: Budget) {
    forall c: Category :: c in b.categories
  }

  function ReservedUpTo(b: Budget, n: nat): nat
    requires Complete(b) && n <= |CATEGORIES|
  {
    if n == 0 then 0 else ReservedUpTo(b, n - 1) + b.categories[CATEGORIES[n - 1]].reservedBytes
  }

  predicate AllocationOk(a: Allocation) {
    a.reservedBytes <= 1_073_741_824 && a.maxBytes <= 1_073_741_824 && a.maxItems <= 100_000
  }

  predicate RangesOk(b: Budget) {
    && 1 <= b.maxTotalBytes <= 1_073_741_824 && 1 <= b.maxTotalUnits <= 1_073_741_824 && 1 <= b.maxItems <= 100_000
    && 1 <= b.maxItemBytes <= 1_048_576 && 1 <= b.minItemBytes <= 1_048_576
    && 1 <= b.maxBytesPerSourceKind <= 1_073_741_824 && b.maxOmissions <= 100_000 && b.maxDiagnostics <= 100_000
  }

  /** What budget parsing enforces. */
  predicate BudgetOk(b: Budget) {
    && Complete(b) && RangesOk(b)
    && (forall c: Category :: AllocationOk(b.categories[c]))
    && 1 <= b.minItemBytes <= b.maxItemBytes
    && (forall c: Category :: b.categories[c].reservedBytes <= b.categories[c].maxBytes)
    && ReservedUpTo(b, |CATEGORIES|) <= b.maxTotalBytes
  }

  method ParseContextBudget(b: Budget) returns (ok: bool)
    ensures ok <==> BudgetOk(b)
  {
    if !Complete(b) {
      return false;
    }
    var reservedTotal := 0;
    var i := 0;
    while i < |CATEGORIES|
      invariant 0 <= i <= |CATEGORIES| && reservedTotal == ReservedUpTo(b, i)
      invariant forall k :: 0 <= k < i ==>
        var a := b.categories[CATEGORIES[k]]; AllocationOk(a) && a.reservedBytes <= a.maxBytes
    {
      var allocation := b.categories[CATEGORIES[i]];
      if allocation.reservedBytes > MAX_BYTES || allocation.maxBytes > MAX_BYTES
         || allocation.reservedBytes > allocation.maxBytes || allocation.maxItems > MAX_COUNT
      {
        assert !(AllocationOk(allocation) && allocation.reservedBytes <= allocation.maxBytes);
        return false;
      }
      reservedTotal := reservedTotal + allocation.reservedBytes;
      i := i + 1;
    }
    forall c: Category ensures AllocationOk(b.categories[c])
        && b.categories[c].reservedBytes <= b.categories[c].maxBytes {
      assert CATEGORIES[CategoryPriority(c)] == c;
    }
    if b.maxTotalBytes < 1 || b.maxTotalBytes > MAX_BYTES || b.maxTotalUnits < 1 || b.maxTotalUnits > MAX_BYTES
       || b.maxItems < 1 || b.maxItems > MAX_COUNT || b.maxItemBytes < 1 || b.maxItemBytes > MAX_CANDIDATE_BODY_BYTES
       || b.minItemBytes < 1 || b.minItemBytes > MAX_CANDIDATE_BODY_BYTES
       || b.maxBytesPerSourceKind < 1 || b.maxBytesPerSourceKind > MAX_BYTES
       || b.maxOmissions > MAX_COUNT || b.maxDiagnostics > MAX_COUNT
    {
      return false;
    }
    return b.minItemBytes <= b.maxItemBytes && reservedTotal <= b.maxTotalBytes;
  }

  /** A unit estimator; `estimate` is deterministic by being a function. */
  datatype Estimator = Estimator(estimatorId: string, estimate: string -> nat, bytesPerUnit: nat)

  function CeilingOfThird(n: nat): nat {
    (n + 2) / 3
  }

  /** The shipped estimator. */
  function ConservativeEstimator(): Estimator {
    Estimator("conservative-utf8-bytes-per-3", (text: string) => CeilingOfThird(ByteLength(text)), 3)
  }

  // Order --------------------------------------------------------------------------

  datatype SortKey = SortKey(priority: nat, score: nat, identity: nat, digest: nat)

  function CompareKeys(p: SortKey, q: SortKey): int {
    if p.priority != q.priority then p.priority - q.priority
    else if p.score != q.score then q.score - p.score
    else if p.identity != q.identity then (if p.identity < q.identity then -1 else 1)
    else if p.digest < q.digest then -1 else if p.digest > q.digest then 1 else 0
  }

  function CandidateKey(c: Candidate): SortKey {
    SortKey(CategoryPriority(c.category), c.baseScore, c.identity, c.digest)
  }

  function ItemKey(i: Item): SortKey {
    SortKey(CategoryPriority(i.category), i.score, i.identity, i.digest)
  }

  function ByCandidateKey(): Comparator<Candidate> {
    (a: Candidate, b: Candidate) => CompareKeys(CandidateKey(a), CandidateKey(b))
  }

  function ByItemKey(): Comparator<Item> {
    (a: Item, b: Item) => CompareKeys(ItemKey(a), ItemKey(b))
  }

  /** The place of a reason's name in code-unit order. */
  function ReasonRank(r: Reason): nat {
    match r
    case ArtifactUnresolved => 0
    case BudgetBytesExhausted => 1
    case BudgetItemsExhausted => 2
    case BudgetUnitsExhausted => 3
    case CategoryAllocationFull => 4
    case ClassificationCeiling => 5
    case DuplicateDigest => 6
    case EmptyAfterSanitization => 7
    case Expired => 8
    case ItemTooLarge => 9
    case PerSourceCap => 10
    case PolicyDenied => 11
    case ScopeMismatch => 12
    case SourceDigestMismatch => 13
    case SourceUnavailable => 14
    case Tombstoned => 15
    case UnconfirmedCandidateExcluded => 16
  }

  function ByOmissionKey(): Comparator<Omission> {
    (a: Omission, b: Omission) =>
      CompareKeys(SortKey(ReasonRank(a.reason), 0, a.identity, a.digest),
          SortKey(ReasonRank(b.reason), 0, b.identity, b.digest))
  }

  // Eligibility ----------------------------------------------------------------------

  datatype Configuration = Configuration(budget: Budget, maxClassification: nat)

  datatype Prepared = Prepared(candidate: Candidate, body: string, byteLength: nat, sentinels: nat)

  datatype Screening = Screening(
    prepared: seq<Prepared>, omissions: seq<Omission>, diagnostics: seq<Diagnostic>, seen: set<nat>)

  function Omitting(c: Candidate, reason: Reason, requestedBytes: nat): Omission {
    Omission(c.identity, c.sourceKind, c.category, c.digest, reason, requestedBytes)
  }

  function RemovalsFrom(c: Candidate, body: string): seq<Diagnostic> {
    if |body| < |c.body| then [Removal(c.identity, |c.body| - |body|)] else []
  }

  function MarkersIn(c: Candidate, sentinels: nat): seq<Diagnostic> {
    if sentinels > 0 then [MarkerRemark(c.identity, sentinels)] else []
  }

  function ScreenOne(cfg: Configuration, denied: set<nat>, s: Screening, c: Candidate): Screening {
    var body := Sanitized(c.body);
    var noted := s.diagnostics + RemovalsFrom(c, body);
    if c.identity in denied then s.(omissions := s.omissions + [Omitting(c, PolicyDenied, 0)])
    else if c.classification > cfg.maxClassification
        then s.(omissions := s.omissions + [Omitting(c, ClassificationCeiling, 0)])
    else if body == ""
        then s.(omissions := s.omissions + [Omitting(c, EmptyAfterSanitization, 0)], diagnostics := noted)
    else if c.digest in s.seen
        then s.(omissions := s.omissions + [Omitting(c, DuplicateDigest, ByteLength(body))], diagnostics := noted)
    else Screening(s.prepared + [Prepared(c, body, ByteLength(body), SentinelCount(body))], s.omissions,
                   noted + MarkersIn(c, SentinelCount(body)), s.seen + {c.digest})
  }

  function Screen(cfg: Configuration, denied: set<nat>, candidates: seq<Candidate>): Screening {
    if candidates == [] then Screening([], [], [], {})
    else ScreenOne(cfg, denied, Screen(cfg, denied, candidates[..|candidates| - 1]), candidates[|candidates| - 1])
  }

  // Admission ------------------------------------------------------------------------

  datatype BudgetState = BudgetState(
    bytes: nat, units: nat, items: nat, bytesByCategory: map<Category, nat>, bytesBySourceKind: map<SourceKind, nat>,
    itemsByCategory: map<Category, nat>)

  function ZeroByCategory(): map<Category, nat> {
    map[Task := 0, Constraint := 0, RepositoryText := 0, MemoryText := 0, ArtifactText := 0]
  }

  function ZeroBySourceKind(): map<SourceKind, nat> {
    map[RepositoryFile := 0, RepositorySearchHit := 0, MemoryRecord := 0, ArtifactExcerpt := 0, TaskDescription := 0]
  }

  const NOTHING_SPENT := BudgetState(0, 0, 0, ZeroByCategory(), ZeroBySourceKind(), ZeroByCategory())

  function At<K>(m: map<K, nat>, k: K): nat {
    if k in m then m[k] else 0
  }

  datatype Phase = Reserved | General
  datatype Admission = Admitted(item: Item) | Deferred | Refused(reason: Reason)

  datatype Limit = Limit(bytes: int, reason: Reason)

  function LimitsFor(b: Budget, s: BudgetState, c: Candidate): seq<Limit>
    requires Complete(b)
  {
    [Limit(b.maxItemBytes, ItemTooLarge),
     Limit(b.categories[c.category].maxBytes - At(s.bytesByCategory, c.category), CategoryAllocationFull),
     Limit(b.maxBytesPerSourceKind - At(s.bytesBySourceKind, c.sourceKind), PerSourceCap),
     Limit(b.maxTotalBytes - s.bytes, BudgetBytesExhausted)]
  }

  /** The tightest of the first `n` limits, and the reason that goes with it: of equal limits, the first. */
  function Tightest(wanted: nat, limits: seq<Limit>, n: nat): Limit
    requires n <= |limits|
  {
    if n == 0 then Limit(wanted, BudgetBytesExhausted)
    else
      var before := Tightest(wanted, limits, n - 1);
      if limits[n - 1].bytes < before.bytes then limits[n - 1] else before
  }

  /** How much of a body is taken, or why none of it is. */
  datatype Portion = Portion(body: string, byteLength: nat, truncated: bool) | Nothing(reason: Reason)

  function WithinBytes(b: Budget, e: Prepared, allowed: Limit): Portion {
    if allowed.bytes >= e.byteLength then Portion(e.body, e.byteLength, false)
    else if !b.allowTruncation || allowed.bytes < b.minItemBytes then Nothing(allowed.reason)
    else
      var cut := TruncateToBytes(e.body, allowed.bytes);
      Portion(cut.text, cut.byteLength, true)
  }

  /** Units are asked for after bytes; one more cut may make them fit. */
  function WithinUnits(b: Budget, est: Estimator, units: nat, p: Portion): Portion
    requires p.Portion?
  {
    if units + est.estimate(p.body) <= b.maxTotalUnits then p
    else
      var byUnits := (b.maxTotalUnits - units) * est.bytesPerUnit;
      if !b.allowTruncation || byUnits < b.minItemBytes then Nothing(BudgetUnitsExhausted)
      else
        var cut := TruncateToBytes(p.body, if byUnits <= p.byteLength then byUnits else p.byteLength);
        if units + est.estimate(cut.text) > b.maxTotalUnits || cut.byteLength < b.minItemBytes
            then Nothing(BudgetUnitsExhausted)
        else Portion(cut.text, cut.byteLength, true)
  }

  function Charge(s: BudgetState, c: Candidate, bytes: nat, units: nat): BudgetState {
    BudgetState(s.bytes + bytes, s.units + units, s.items + 1,
                s.bytesByCategory[c.category := At(s.bytesByCategory, c.category) + bytes],
                s.bytesBySourceKind[c.sourceKind := At(s.bytesBySourceKind, c.sourceKind) + bytes],
                s.itemsByCategory[c.category := At(s.itemsByCategory, c.category) + 1])
  }

  function ItemOf(e: Prepared, ordinal: nat, p: Portion, units: nat): Item
    requires p.Portion?
  {
    var c := e.candidate;
    Item(ordinal, c.sourceKind, c.category, c.identity, c.digest, c.baseScore, p.byteLength, units, p.truncated,
        e.sentinels, p.body, c.details)
  }

  /** What is left of the reservation of a category. */
  function ReservationLeft(b: Budget, s: BudgetState, c: Category): int
    requires Complete(b)
  {
    b.categories[c].reservedBytes - At(s.bytesByCategory, c)
  }

  function Admit(b: Budget, est: Estimator, s: BudgetState, accepted: nat, e: Prepared, phase: Phase)
    : (Admission, BudgetState)
    requires Complete(b)
  {
    var c := e.candidate;
    if s.items >= b.maxItems then (Refused(BudgetItemsExhausted), s)
    else if At(s.itemsByCategory, c.category) >= b.categories[c.category].maxItems
        then (Refused(CategoryAllocationFull), s)
    else if phase.Reserved?
        && (ReservationLeft(b, s, c.category) <= 0 || e.byteLength > ReservationLeft(b, s, c.category))
             then (Deferred, s)
    else
      var byBytes := WithinBytes(b, e, Tightest(e.byteLength, LimitsFor(b, s, c), 4));
      if byBytes.Nothing? then (Refused(byBytes.reason), s)
      else
        var portion := WithinUnits(b, est, s.units, byBytes);
        if portion.Nothing? then (Refused(portion.reason), s)
        else
          var units := est.estimate(portion.body);
          (Admitted(ItemOf(e, accepted + 1, portion, units)), Charge(s, c, portion.byteLength, units))
  }

  // The two passes ----------------------------------------------------------------------

  datatype Filling = Filling(state: BudgetState, accepted: seq<Item>, remaining: seq<Prepared>,
      omissions: seq<Omission>, diagnostics: seq<Diagnostic>)

  function CutRemarks(e: Prepared, item: Item): seq<Diagnostic> {
    if item.truncated then [CutRemark(e.candidate.identity, e.byteLength, item.byteContribution)] else []
  }

  function WithItem(f: Filling, e: Prepared, item: Item, state: BudgetState): Filling {
    f.(state := state, accepted := f.accepted + [item], diagnostics := f.diagnostics + CutRemarks(e, item))
  }

  function ReserveOne(b: Budget, est: Estimator, f: Filling, e: Prepared): Filling
    requires Complete(b)
  {
    var (outcome, state) := Admit(b, est, f.state, |f.accepted|, e, Reserved);
    if outcome.Admitted? then WithItem(f, e, outcome.item, state)
    else f.(remaining := f.remaining + [e])
  }

  function ReservedPass(b: Budget, est: Estimator, entries: seq<Prepared>): Filling
    requires Complete(b)
  {
    if entries == [] then Filling(NOTHING_SPENT, [], [], [], [])
    else ReserveOne(b, est, ReservedPass(b, est, entries[..|entries| - 1]), entries[|entries| - 1])
  }

  function GeneralOne(b: Budget, est: Estimator, f: Filling, e: Prepared): Filling
    requires Complete(b)
  {
    var (outcome, state) := Admit(b, est, f.state, |f.accepted|, e, General);
    if outcome.Admitted? then WithItem(f, e, outcome.item, state)
    else if outcome.Refused? then f.(omissions := f.omissions + [Omitting(e.candidate, outcome.reason, e.byteLength)])
    else f
  }

  function GeneralPass(b: Budget, est: Estimator, start: Filling, entries: seq<Prepared>): Filling
    requires Complete(b)
  {
    if entries == [] then start
    else GeneralOne(b, est, GeneralPass(b, est, start, entries[..|entries| - 1]), entries[|entries| - 1])
  }

  // The plan ------------------------------------------------------------------------------

  datatype Usage = Usage(bytes: nat, units: nat, itemCount: nat, bytesByCategory: map<Category, nat>,
      bytesBySourceKind: map<SourceKind, nat>)

  datatype SelectionPlan = SelectionPlan(items: seq<Item>, omissions: seq<Omission>, omissionsTruncated: bool,
      usage: Usage, diagnostics: seq<Diagnostic>, diagnosticsTruncated: bool)

  /** What collecting the candidates has already left out and remarked on. */
  datatype Prior = Prior(omissions: seq<Omission>, diagnostics: seq<Diagnostic>)

  function Numbered(items: seq<Item>): seq<Item> {
    seq(|items|, i requires 0 <= i < |items| => items[i].(ordinal := i + 1))
  }

  function Fill(cfg: Configuration, est: Estimator, prepared: seq<Prepared>): Filling
    requires Complete(cfg.budget)
  {
    var first := ReservedPass(cfg.budget, est, prepared);
    GeneralPass(cfg.budget, est, first, first.remaining)
  }

  function AllOmissions(cfg: Configuration, est: Estimator, denied: set<nat>, prior: seq<Omission>,
      sorted: seq<Candidate>): seq<Omission>
    requires Complete(cfg.budget)
  {
    var screening := Screen(cfg, denied, sorted);
    prior + screening.omissions + Fill(cfg, est, screening.prepared).omissions
  }

  /** The remarks made last. */
  function ClosingRemarks(b: Budget, est: Estimator, omissions: nat): seq<Diagnostic> {
    (if omissions > b.maxOmissions then [OmissionsRemark(omissions, b.maxOmissions)] else [])
    + [EstimatorRemark(est.estimatorId)]
  }

  function AllDiagnostics(cfg: Configuration, est: Estimator, denied: set<nat>, prior: Prior, sorted: seq<Candidate>)
    : seq<Diagnostic>
    requires Complete(cfg.budget)
  {
    var screening := Screen(cfg, denied, sorted);
    prior.diagnostics + screening.diagnostics + Fill(cfg, est, screening.prepared).diagnostics
    + ClosingRemarks(cfg.budget, est, |AllOmissions(cfg, est, denied, prior.omissions, sorted)|)
  }

  function Finish(b: Budget, f: Filling, omissions: seq<Omission>, diagnostics: seq<Diagnostic>): SelectionPlan {
    var items := Numbered(Sort(f.accepted, ByItemKey()));
    var listed := Sort(omissions, ByOmissionKey());
    var remarks := Sort(diagnostics, ByDiagnosticKey());
    SelectionPlan(
      items, if |listed| > b.maxOmissions then listed[..b.maxOmissions] else listed, |listed| > b.maxOmissions,
      Usage(f.state.bytes, f.state.units, |items|, f.state.bytesByCategory, f.state.bytesBySourceKind),
      if |remarks| > b.maxDiagnostics then remarks[..b.maxDiagnostics] else remarks, |remarks| > b.maxDiagnostics)
  }

  function Plan(cfg: Configuration, est: Estimator, denied: set<nat>, prior: Prior, candidates: seq<Candidate>)
    : SelectionPlan
    requires Complete(cfg.budget)
  {
    var sorted := Sort(candidates, ByCandidateKey());
    Finish(cfg.budget, Fill(cfg, est, Screen(cfg, denied, sorted).prepared),
        AllOmissions(cfg, est, denied, prior.omissions, sorted), AllDiagnostics(cfg, est, denied, prior, sorted))
  }

  // The packer as it runs --------------------------------------------------------------------

  class Packer {
    const cfg: Configuration
    const estimator: Estimator
    var bytes: nat
    var units: nat
    var items: nat
    var bytesByCategory: map<Category, nat>
    var bytesBySourceKind: map<SourceKind, nat>
    var itemsByCategory: map<Category, nat>
    var accepted: seq<Item>
    var omissions: seq<Omission>
    var diagnostics: seq<Diagnostic>

    function Spent(): BudgetState
      reads this
    {
      BudgetState(bytes, units, items, bytesByCategory, bytesBySourceKind, itemsByCategory)
    }

    constructor (cfg: Configuration, estimator: Estimator, prior: Prior)
      ensures this.cfg == cfg && this.estimator == estimator
      ensures Spent() == NOTHING_SPENT && accepted == []
      ensures omissions == prior.omissions && diagnostics == prior.diagnostics
    {
      this.cfg, this.estimator := cfg, estimator;
      bytes, units, items := 0, 0, 0;
      bytesByCategory, bytesBySourceKind, itemsByCategory := ZeroByCategory(), ZeroBySourceKind(), ZeroByCategory();
      accepted, omissions, diagnostics := [], prior.omissions, prior.diagnostics;
    }

    method Omit(c: Candidate, reason: Reason, requestedBytes: nat)
      modifies this`omissions
      ensures omissions == old(omissions) + [Omitting(c, reason, requestedBytes)]
    {
      omissions := omissions + [Omission(c.identity, c.sourceKind, c.category, c.digest, reason, requestedBytes)];
    }

    /** Phase one: everything that is decided without the budget. */
    method Eligible(denied: set<nat>, sorted: seq<Candidate>) returns (prepared: seq<Prepared>)
      modifies this`omissions, this`diagnostics
      ensures prepared == Screen(cfg, denied, sorted).prepared
      ensures omissions == old(omissions) + Screen(cfg, denied, sorted).omissions
      ensures diagnostics == old(diagnostics) + Screen(cfg, denied, sorted).diagnostics
    {
      hide Screen, ScreenOne;
      prepared := [];
      var seenDigests: set<nat> := {};
      var i := 0;
      ScreenStep(cfg, denied, sorted, 0);
      while i < |sorted|
        invariant 0 <= i <= |sorted|
        invariant Screen(cfg, denied, sorted[..i]).prepared == prepared
        invariant Screen(cfg, denied, sorted[..i]).seen == seenDigests
        invariant omissions == old(omissions) + Screen(cfg, denied, sorted[..i]).omissions
        invariant diagnostics == old(diagnostics) + Screen(cfg, denied, sorted[..i]).diagnostics
      {
        ScreenStep(cfg, denied, sorted, i + 1);
        ScreenOneAdds(cfg, denied, Screen(cfg, denied, sorted[..i]), sorted[i]);
        var entries := Prepare(denied, seenDigests, sorted[i]);
        prepared := prepared + entries;
        if |entries| > 0 {
          seenDigests := seenDigests + {sorted[i].digest};
        }
        i := i + 1;
      }
      assert sorted[..i] == sorted;
    }

    /** The body of that loop: at most one entry, or an omission. */
    method Prepare(denied: set<nat>, seenDigests: set<nat>, candidate: Candidate) returns (entries: seq<Prepared>)
      modifies this`omissions, this`diagnostics
      ensures var one := ScreenOne(cfg, denied, Screening([], [], [], seenDigests), candidate);
        && entries == one.prepared && omissions == old(omissions) + one.omissions
        && diagnostics == old(diagnostics) + one.diagnostics
    {
      hide Sanitized, SentinelCount, ByteLength, Removal, MarkerRemark;
      if candidate.identity in denied {
        Omit(candidate, PolicyDenied, 0);
        return [];
      }
      if candidate.classification > cfg.maxClassification {
        Omit(candidate, ClassificationCeiling, 0);
        return [];
      }
      var text, removed := SanitizeContextText(candidate.body);
      if removed > 0 {
        diagnostics := diagnostics + [Removal(candidate.identity, removed)];
      }
      if |text| == 0 {
        Omit(candidate, EmptyAfterSanitization, 0);
        return [];
      }
      if candidate.digest in seenDigests {
        Omit(candidate, DuplicateDigest, ByteLength(text));
        return [];
      }
      var sentinels := CountFrameSentinels(text);
      if sentinels > 0 {
        diagnostics := diagnostics + [MarkerRemark(candidate.identity, sentinels)];
      }
      return [Prepared(candidate, text, ByteLength(text), sentinels)];
    }

    method TightestLimit(wanted: nat, limits: seq<Limit>) returns (allowedBytes: int, bindingReason: Reason)
      ensures Limit(allowedBytes, bindingReason) == Tightest(wanted, limits, |limits|)
    {
      allowedBytes, bindingReason := wanted, BudgetBytesExhausted;
      var i := 0;
      while i < |limits|
        invariant 0 <= i <= |limits| && Limit(allowedBytes, bindingReason) == Tightest(wanted, limits, i)
      {
        if limits[i].bytes < allowedBytes {
          allowedBytes, bindingReason := limits[i].bytes, limits[i].reason;
        }
        i := i + 1;
      }
    }

    /** `admit`: charges the budget if and only if it returns an item. */
    method TryAdmit(entry: Prepared, phase: Phase) returns (outcome: Admission)
      requires Complete(cfg.budget)
      modifies this`bytes, this`units, this`items, this`bytesByCategory, this`bytesBySourceKind, this`itemsByCategory
      modifies this`diagnostics
      ensures (outcome, Spent()) == Admit(cfg.budget, estimator, old(Spent()), |accepted|, entry, phase)
      ensures diagnostics
           == old(diagnostics) + if outcome.Admitted? then CutRemarks(entry, outcome.item) else []
    {
      hide Tightest, WithinBytes, WithinUnits, Complete, Charge;
      var b := cfg.budget;
      var c := entry.candidate;
      assert c.category in b.categories by { HasCategory(b, c.category); }
      if items >= b.maxItems {
        return Refused(BudgetItemsExhausted);
      }
      if At(itemsByCategory, c.category) >= b.categories[c.category].maxItems {
        return Refused(CategoryAllocationFull);
      }
      var reservationRemaining := b.categories[c.category].reservedBytes - At(bytesByCategory, c.category);
      if phase == Reserved && (reservationRemaining <= 0 || entry.byteLength > reservationRemaining) {
        return Deferred;
      }
      var allowedBytes, bindingReason := TightestLimit(entry.byteLength, LimitsFor(b, Spent(), c));
      var portion := FitBytes(entry, Limit(allowedBytes, bindingReason));
      if portion.Nothing? {
        return Refused(portion.reason);
      }
      portion := FitUnits(portion);
      if portion.Nothing? {
        return Refused(portion.reason);
      }
      var cost := estimator.estimate(portion.body);
      if portion.truncated {
        diagnostics := diagnostics + [CutRemark(c.identity, entry.byteLength, portion.byteLength)];
      }
      Spend(c, portion.byteLength, cost);
      return Admitted(ItemOf(entry, |accepted| + 1, portion, cost));
    }

    method FitBytes(entry: Prepared, allowed: Limit) returns (portion: Portion)
      ensures portion == WithinBytes(cfg.budget, entry, allowed)
    {
      hide TruncateToBytes;
      var body, byteLength, truncated := entry.body, entry.byteLength, false;
      if allowed.bytes < entry.byteLength {
        if !cfg.budget.allowTruncation || allowed.bytes < cfg.budget.minItemBytes {
          return Nothing(allowed.reason);
        }
        var cut := TruncateToBytes(entry.body, allowed.bytes);
        body, byteLength, truncated := cut.text, cut.byteLength, true;
      }
      return Portion(body, byteLength, truncated);
    }

    method FitUnits(p: Portion) returns (portion: Portion)
      requires p.Portion?
      ensures portion == WithinUnits(cfg.budget, estimator, units, p)
    {
      hide TruncateToBytes;
      var b := cfg.budget;
      var body, byteLength, truncated := p.body, p.byteLength, p.truncated;
      if units + estimator.estimate(body) > b.maxTotalUnits {
        var byUnits := (b.maxTotalUnits - units) * estimator.bytesPerUnit;
        if !b.allowTruncation || byUnits < b.minItemBytes {
          return Nothing(BudgetUnitsExhausted);
        }
        var cut := TruncateToBytes(body, if byUnits <= byteLength then byUnits else byteLength);
        body, byteLength, truncated := cut.text, cut.byteLength, true;
        if units + estimator.estimate(body) > b.maxTotalUnits || byteLength < b.minItemBytes {
          return Nothing(BudgetUnitsExhausted);
        }
      }
      return Portion(body, byteLength, truncated);
    }

    method Spend(c: Candidate, byteLength: nat, cost: nat)
      modifies this`bytes, this`units, this`items, this`bytesByCategory, this`bytesBySourceKind, this`itemsByCategory
      ensures Spent() == Charge(old(Spent()), c, byteLength, cost)
    {
      bytes := bytes + byteLength;
      units := units + cost;
      items := items + 1;
      bytesByCategory := bytesByCategory[c.category := At(bytesByCategory, c.category) + byteLength];
      bytesBySourceKind := bytesBySourceKind[c.sourceKind := At(bytesBySourceKind, c.sourceKind) + byteLength];
      itemsByCategory := itemsByCategory[c.category := At(itemsByCategory, c.category) + 1];
    }

    /** The reservation pass and the general pass. */
    method FillPack(prepared: seq<Prepared>) returns (ghost filled: Filling)
      requires Complete(cfg.budget) && Spent() == NOTHING_SPENT && accepted == []
      modifies this
      ensures filled == Fill(cfg, estimator, prepared)
      ensures Spent() == filled.state && accepted == filled.accepted && omissions == old(omissions) + filled.omissions
      ensures diagnostics == old(diagnostics) + filled.diagnostics
    {
      hide Admit, ReservedPass, GeneralPass;
      ghost var b := cfg.budget;
      var remaining: seq<Prepared> := [];
      ghost var noted: seq<Diagnostic> := [];
      PassStep(b, estimator, prepared, 0);
      var i := 0;
      while i < |prepared|
        invariant 0 <= i <= |prepared| && omissions == old(omissions) && diagnostics == old(diagnostics) + noted
        invariant Filling(Spent(), accepted, remaining, [], noted) == ReservedPass(b, estimator, prepared[..i])
      {
        PassStep(b, estimator, prepared, i + 1);
        RefusalIsFree(b, estimator, Spent(), |accepted|, prepared[i], Reserved);
        var outcome := TryAdmit(prepared[i], Reserved);
        if outcome.Admitted? {
          accepted := accepted + [outcome.item];
          noted := noted + CutRemarks(prepared[i], outcome.item);
        } else {
          remaining := remaining + [prepared[i]];
        }
        i := i + 1;
      }
      assert prepared[..i] == prepared;
      ghost var first := ReservedPass(b, estimator, prepared);
      ghost var omitted: seq<Omission> := [];
      GeneralStep(b, estimator, first, remaining, 0);
      i := 0;
      while i < |remaining|
        invariant 0 <= i <= |remaining| && omissions == old(omissions) + omitted && diagnostics == old(diagnostics)
            + noted
        invariant Filling(Spent(), accepted, remaining, omitted, noted)
               == GeneralPass(b, estimator, first, remaining[..i])
      {
        GeneralStep(b, estimator, first, remaining, i + 1);
        var entry := remaining[i];
        RefusalIsFree(b, estimator, Spent(), |accepted|, entry, General);
        var outcome := TryAdmit(entry, General);
        if outcome.Admitted? {
          accepted := accepted + [outcome.item];
          noted := noted + CutRemarks(entry, outcome.item);
        } else if outcome.Refused? {
          Omit(entry.candidate, outcome.reason, entry.byteLength);
          omitted := omitted + [Omitting(entry.candidate, outcome.reason, entry.byteLength)];
        }
        i := i + 1;
      }
      assert remaining[..i] == remaining;
      filled := Filling(Spent(), accepted, remaining, omitted, noted);
    }

    method PlanContextPack(denied: set<nat>, candidates: seq<Candidate>) returns (plan: SelectionPlan)
      requires Complete(cfg.budget) && Spent() == NOTHING_SPENT && accepted == []
      modifies this
      ensures plan == Plan(cfg, estimator, denied, Prior(old(omissions), old(diagnostics)), candidates)
    {
      hide Fill, Screen, Sort, Complete;
      var sorted := Sort(candidates, ByCandidateKey());
      var prepared := Eligible(denied, sorted);
      ghost var filled := FillPack(prepared);
      var orderedItems := Sort(accepted, ByItemKey());
      var numbered: seq<Item> := [];
      var i := 0;
      while i < |orderedItems|
        invariant 0 <= i <= |orderedItems| && |numbered| == i
        invariant forall k :: 0 <= k < i ==> numbered[k] == orderedItems[k].(ordinal := k + 1)
      {
        numbered := numbered + [orderedItems[i].(ordinal := i + 1)];
        i := i + 1;
      }
      assert numbered == Numbered(orderedItems);
      var sortedOmissions := Sort(omissions, ByOmissionKey());
      assert omissions == AllOmissions(cfg, estimator, denied, old(omissions), sorted);
      var omissionsTruncated := |sortedOmissions| > cfg.budget.maxOmissions;
      if omissionsTruncated {
        diagnostics := diagnostics + [OmissionsRemark(|sortedOmissions|, cfg.budget.maxOmissions)];
      }
      diagnostics := diagnostics + [EstimatorRemark(estimator.estimatorId)];
      SortKeepsLength(omissions, ByOmissionKey());
      assert diagnostics
          == AllDiagnostics(cfg, estimator, denied, Prior(old(omissions), old(diagnostics)), sorted);
      var sortedDiagnostics := Sort(diagnostics, ByDiagnosticKey());
      var diagnosticsTruncated := |sortedDiagnostics| > cfg.budget.maxDiagnostics;
      plan := SelectionPlan(
        numbered, if omissionsTruncated then sortedOmissions[..cfg.budget.maxOmissions] else sortedOmissions,
        omissionsTruncated,
        Usage(bytes, units, |numbered|, bytesByCategory, bytesBySourceKind),
        if diagnosticsTruncated then sortedDiagnostics[..cfg.budget.maxDiagnostics] else sortedDiagnostics,
        diagnosticsTruncated);
    }
  }

  lemma SortKeepsLength<T>(xs: seq<T>, compare: Comparator<T>)
    ensures |Sort(xs, compare)| == |xs|
  {
    SortPermutes(xs, compare);
    SameElements(Sort(xs, compare), xs);
  }

  lemma PassStep(b: Budget, est: Estimator, entries: seq<Prepared>, i: nat)
    requires Complete(b) && i <= |entries|
    ensures i == 0 ==> ReservedPass(b, est, entries[..i]) == Filling(NOTHING_SPENT, [], [], [], [])
    ensures i > 0 ==>
      ReservedPass(b, est, entries[..i]) == ReserveOne(b, est, ReservedPass(b, est, entries[..i - 1]), entries[i - 1])
  {
    hide ReserveOne;
    if i > 0 {
      assert entries[..i][..i - 1] == entries[..i - 1];
    }
  }

  lemma GeneralStep(b: Budget, est: Estimator, start: Filling, entries: seq<Prepared>, i: nat)
    requires Complete(b) && i <= |entries|
    ensures i == 0 ==> GeneralPass(b, est, start, entries[..i]) == start
    ensures i > 0 ==>
      GeneralPass(b, est, start, entries[..i])
          == GeneralOne(b, est, GeneralPass(b, est, start, entries[..i - 1]), entries[i - 1])
  {
    hide GeneralOne;
    if i > 0 {
      assert entries[..i][..i - 1] == entries[..i - 1];
    }
  }

  /** An attempt that admits nothing leaves the budget alone. */
  lemma RefusalIsFree(b: Budget, est: Estimator, s: BudgetState, accepted: nat, e: Prepared, phase: Phase)
    requires Complete(b)
    ensures var (outcome, after) := Admit(b, est, s, accepted, e, phase);
      (!outcome.Admitted? ==> after == s) && (outcome.Deferred? ==> phase.Reserved?)
  {
    hide WithinBytes, WithinUnits, Tightest, Charge;
  }

  lemma HasCategory(b: Budget, c: Category)
    requires Complete(b)
    ensures c in b.categories
  {
  }

  /** Screening a candidate adds to what was there, depending only on the digests seen. */
  lemma ScreenOneAdds(cfg: Configuration, denied: set<nat>, s: Screening, c: Candidate)
    ensures var one, after := ScreenOne(cfg, denied, Screening([], [], [], s.seen), c), ScreenOne(cfg, denied, s, c);
      && after.prepared == s.prepared + one.prepared && after.omissions == s.omissions + one.omissions
      && after.diagnostics == s.diagnostics + one.diagnostics
      && after.seen == s.seen + (if |one.prepared| > 0 then {c.digest} else {})
  {
    hide Sanitized, SentinelCount, ByteLength, RemovalsFrom, MarkersIn;
  }

  lemma ScreenStep(cfg: Configuration, denied: set<nat>, sorted: seq<Candidate>, i: nat)
    requires i <= |sorted|
    ensures i == 0 ==> Screen(cfg, denied, sorted[..i]) == Screening([], [], [], {})
    ensures i > 0 ==>
      Screen(cfg, denied, sorted[..i]) == ScreenOne(cfg, denied, Screen(cfg, denied, sorted[..i - 1]), sorted[i - 1])
  {
    if i > 0 {
      assert sorted[..i][..i - 1] == sorted[..i - 1];
    }
  }
}
