/** The checks a pack must pass when it is read back, and what plans have to do with them
    (packages/context/src/pack.ts, packages/context/src/select.ts).
 */
module PackChecks {
  import opened Utf8
  import opened Framing
  import opened Sentinels
  import opened Ordering
  import opened Selection
  import opened CanonicalOrder
  import opened SelectionSafety

  // What the checks demand ----------------------------------------------------------------

  /** The item at `i` carries its position and repeats no identity or digest. */
  ghost predicate FitsAt(items: seq<Item>, i: nat)
    requires i < |items|
  {
    && items[i].ordinal == i + 1
    && (forall j :: 0 <= j < i ==> items[j].identity != items[i].identity && items[j].digest != items[i].digest)
  }

  ghost predicate InItemOrder(items: seq<Item>) {
    forall i, j :: 0 <= i < j < |items| ==> Precedes(ItemStanding(items[i]), ItemStanding(items[j]))
  }

  ghost predicate CanonicalItemOrder(items: seq<Item>) {
    (forall i :: 0 <= i < |items| ==> FitsAt(items, i)) && InItemOrder(items)
  }

  ghost predicate UsageAdds(items: seq<Item>, usage: Usage) {
    && usage.bytes == Total(items, ItemBytes()) && usage.units == Total(items, ItemUnits()) && usage.itemCount
         == |items|
    && (forall c: Category :: At(usage.bytesByCategory, c) == Total(items, BytesIn(c)))
    && (forall k: SourceKind :: At(usage.bytesBySourceKind, k) == Total(items, BytesFrom(k)))
  }

  lemma CheckedOrder(items: seq<Item>)
    ensures InItemOrder(items) <==> forall k :: 0 < k < |items| ==> ByItemKey()(items[k - 1], items[k]) <= 0
  {
    ItemsInOrderIff(items);
  }

  method AssertCanonicalItemOrder(items: seq<Item>) returns (ok: bool)
    ensures ok <==> CanonicalItemOrder(items)
  {
    hide CompareKeys, Precedes, InItemOrder;
    CheckedOrder(items);
    var identities: set<nat> := {};
    var digests: set<nat> := {};
    var index := 0;
    while index < |items|
      invariant 0 <= index <= |items|
      invariant identities == set k | 0 <= k < index :: items[k].identity
      invariant digests == set k | 0 <= k < index :: items[k].digest
      invariant forall k :: 0 <= k < index ==> FitsAt(items, k)
      invariant forall k :: 0 < k < index ==> ByItemKey()(items[k - 1], items[k]) <= 0
    {
      var item := items[index];
      if item.ordinal != index + 1 || item.identity in identities || item.digest in digests {
        assert !FitsAt(items, index);
        return false;
      }
      identities := identities + {item.identity};
      digests := digests + {item.digest};
      if index > 0 && ByItemKey()(items[index - 1], item) > 0 {
        return false;
      }
      index := index + 1;
    }
    return true;
  }

  method AssertUsage(items: seq<Item>, usage: Usage) returns (ok: bool)
    ensures ok <==> UsageAdds(items, usage)
  {
    hide Total;
    var bytes: nat, units: nat := 0, 0;
    var bytesByCategory: map<Category, nat>, bytesBySourceKind: map<SourceKind, nat> := ZeroByCategory(),
        ZeroBySourceKind();
    var i := 0;
    NothingAdds();
    assert items[..0] == [];
    while i < |items|
      invariant 0 <= i <= |items|
      invariant UsageAdds(items[..i], Usage(bytes, units, i, bytesByCategory, bytesBySourceKind))
    {
      var item := items[i];
      OneMoreAdds(items[..i], item, Usage(bytes, units, i, bytesByCategory, bytesBySourceKind));
      assert items[..i + 1] == items[..i] + [item];
      bytes := bytes + item.byteContribution;
      units := units + item.unitContribution;
      bytesByCategory := bytesByCategory[item.category := At(bytesByCategory, item.category) + item.byteContribution];
      bytesBySourceKind := bytesBySourceKind[item.sourceKind := At(bytesBySourceKind,
          item.sourceKind) + item.byteContribution];
      i := i + 1;
    }
    assert items[..i] == items;
    if usage.bytes != bytes || usage.units != units || usage.itemCount != |items| {
      return false;
    }
    i := 0;
    while i < |CATEGORIES|
      invariant 0 <= i <= |CATEGORIES|
      invariant forall k :: 0 <= k < i ==>
          At(usage.bytesByCategory, CATEGORIES[k]) == Total(items, BytesIn(CATEGORIES[k]))
    {
      if At(usage.bytesByCategory, CATEGORIES[i]) != At(bytesByCategory, CATEGORIES[i]) {
        return false;
      }
      i := i + 1;
    }
    forall c: Category ensures At(usage.bytesByCategory, c) == Total(items, BytesIn(c)) {
      assert CATEGORIES[CategoryPriority(c)] == c;
    }
    i := 0;
    while i < |SOURCE_KINDS|
      invariant 0 <= i <= |SOURCE_KINDS|
      invariant forall k :: 0 <= k < i ==>
          At(usage.bytesBySourceKind, SOURCE_KINDS[k]) == Total(items, BytesFrom(SOURCE_KINDS[k]))
    {
      if At(usage.bytesBySourceKind, SOURCE_KINDS[i]) != At(bytesBySourceKind, SOURCE_KINDS[i]) {
        return false;
      }
      i := i + 1;
    }
    forall k: SourceKind ensures At(usage.bytesBySourceKind, k) == Total(items, BytesFrom(k)) {
      assert SOURCE_KINDS[SourceRank(k)] == k;
    }
    return true;
  }

  function SourceRank(k: SourceKind): nat {
    match k
    case RepositoryFile => 0
    case RepositorySearchHit => 1
    case MemoryRecord => 2
    case ArtifactExcerpt => 3
    case TaskDescription => 4
  }

  lemma NothingAdds()
    ensures UsageAdds([], Usage(0, 0, 0, ZeroByCategory(), ZeroBySourceKind()))
  {
  }

  lemma OneMoreAdds(items: seq<Item>, item: Item, u: Usage)
    requires UsageAdds(items, u)
    ensures UsageAdds(items + [item], Usage(
      u.bytes + item.byteContribution, u.units + item.unitContribution, u.itemCount + 1,
      u.bytesByCategory[item.category := At(u.bytesByCategory, item.category) + item.byteContribution],
      u.bytesBySourceKind[item.sourceKind := At(u.bytesBySourceKind, item.sourceKind) + item.byteContribution]))
  {
    hide Total;
    TotalSnoc(items, item, ItemBytes());
    TotalSnoc(items, item, ItemUnits());
    forall c: Category ensures Total(items + [item], BytesIn(c)) == Total(items, BytesIn(c)) + BytesIn(c)(item) {
      TotalSnoc(items, item, BytesIn(c));
    }
    forall k: SourceKind ensures Total(items + [item], BytesFrom(k))
        == Total(items, BytesFrom(k)) + BytesFrom(k)(item) {
      TotalSnoc(items, item, BytesFrom(k));
    }
  }

  // Plans are canonical ---------------------------------------------------------------------------

  ghost predicate DistinctIdentities(candidates: seq<Candidate>) {
    forall i, j :: 0 <= i < j < |candidates| ==> candidates[i].identity != candidates[j].identity
  }

  /** Candidates with distinct identities never tie. */
  lemma DistinctHaveNoTies(candidates: seq<Candidate>)
    requires DistinctIdentities(candidates)
    ensures NoTies(candidates, ByCandidateKey())
  {
    forall a, b | a in candidates && b in candidates && ByCandidateKey()(a, b) == 0 ensures a == b {
      KeysOrder(CandidateKey(a), CandidateKey(b), CandidateKey(b));
    }
  }

  /** The order in which candidates arrive does not matter, if candidates that differ never tie. */
  lemma PlanIgnoresArrangement(
    cfg: Configuration, est: Estimator, denied: set<nat>, prior: Prior, v: seq<Candidate>, w: seq<Candidate>)
    requires Complete(cfg.budget) && NoTies(v, ByCandidateKey()) && multiset(v) == multiset(w)
    ensures Plan(cfg, est, denied, prior, v) == Plan(cfg, est, denied, prior, w)
  {
    hide Orders, Sort, Complete, NoTies;
    ComparatorsOrder();
    SortIgnoresArrangement(v, w, ByCandidateKey());
  }

  ghost predicate NoRepeats(m: multiset<nat>) {
    forall k: nat :: m[k] <= 1
  }

  function ByIdentity(): Naming<nat> { (identity: nat, digest: nat) => identity }
  function ByDigest(): Naming<nat> { (identity: nat, digest: nat) => digest }

  lemma PartHasNoRepeats(a: multiset<nat>, b: multiset<nat>)
    requires NoRepeats(a + b)
    ensures NoRepeats(a)
  {
    forall k: nat ensures a[k] <= 1 {
      assert (a + b)[k] <= 1;
    }
  }

  lemma {:induction false} BagHas<T, K>(xs: seq<T>, key: T -> K, i: nat)
    requires i < |xs|
    ensures Bag(xs, key)[key(xs[i])] >= 1
  {
    if i > 0 {
      BagHas(xs[1..], key, i - 1);
    }
  }

  lemma {:induction false} NoRepeatsMeansDistinct<T>(xs: seq<T>, key: T -> nat, i: nat, j: nat)
    requires NoRepeats(Bag(xs, key)) && i < j < |xs|
    ensures key(xs[i]) != key(xs[j])
  {
    if i == 0 {
      BagHas(xs[1..], key, j - 1);
      assert Bag(xs, key)[key(xs[0])] == 1 + Bag(xs[1..], key)[key(xs[0])];
    } else {
      assert forall k: nat :: Bag(xs[1..], key)[k] <= Bag(xs, key)[k];
      NoRepeatsMeansDistinct(xs[1..], key, i - 1, j - 1);
    }
  }

  lemma {:induction false} BagMember<T, K>(xs: seq<T>, key: T -> K, k: K)
    requires Bag(xs, key)[k] > 0
    ensures exists i :: 0 <= i < |xs| && key(xs[i]) == k
  {
    if key(xs[0]) != k {
      BagMember(xs[1..], key, k);
      var i :| 0 <= i < |xs[1..]| && key(xs[1..][i]) == k;
      assert key(xs[i + 1]) == k;
    }
  }

  lemma {:induction false} DistinctMeansNoRepeats(candidates: seq<Candidate>)
    requires DistinctIdentities(candidates)
    ensures NoRepeats(Bag(candidates, CandidateName(ByIdentity())))
  {
    if candidates != [] {
      var key := CandidateName(ByIdentity());
      var tail := candidates[1..];
      assert forall i :: 0 <= i < |tail| ==> tail[i] == candidates[i + 1];
      DistinctMeansNoRepeats(tail);
      forall i | 0 <= i < |tail| ensures key(tail[i]) != key(candidates[0]) {
        assert tail[i] == candidates[i + 1] && candidates[0].identity != candidates[i + 1].identity;
      }
      if Bag(tail, key)[key(candidates[0])] > 0 {
        BagMember(tail, key, key(candidates[0]));
        assert false;
      }
      assert Bag(candidates, key) == multiset{key(candidates[0])} + Bag(tail, key);
    }
  }

  // Digests repeat nowhere --------------------------------------------------------------------------

  lemma {:induction false} ScreenedDigests(cfg: Configuration, denied: set<nat>, candidates: seq<Candidate>, n: nat,
      d: nat)
    requires n <= |candidates|
    ensures var s := Screen(cfg, denied, candidates[..n]);
      Bag(s.prepared, PreparedName(ByDigest()))[d] == if d in s.seen then 1 else 0
  {
    hide Screen, Bag, Sanitized, ByteLength;
    ScreenStep(cfg, denied, candidates, n);
    BagNone(PreparedName(ByDigest()));
    if n > 0 {
      var before, after := Screen(cfg, denied, candidates[..n - 1]), Screen(cfg, denied, candidates[..n]);
      ScreenedDigests(cfg, denied, candidates, n - 1, d);
      if after.omissions == before.omissions {
        BagSnoc(before.prepared, after.prepared[|before.prepared|], PreparedName(ByDigest()));
      }
    }
  }

  lemma ScreenedHaveNoRepeats(cfg: Configuration, denied: set<nat>, candidates: seq<Candidate>)
    ensures NoRepeats(Bag(Screen(cfg, denied, candidates).prepared, PreparedName(ByDigest())))
  {
    hide Screen, Bag;
    assert candidates[..|candidates|] == candidates;
    forall d: nat ensures Bag(Screen(cfg, denied, candidates).prepared, PreparedName(ByDigest()))[d] <= 1 {
      ScreenedDigests(cfg, denied, candidates, |candidates|, d);
    }
  }

  lemma PlannedDigests(cfg: Configuration, est: Estimator, denied: set<nat>, candidates: seq<Candidate>)
    requires Complete(cfg.budget)
    ensures NoRepeats(Bag(PlannedItems(cfg, est, denied, candidates), ItemName(ByDigest())))
  {
    hide Bag, Sort, Screen, Fill, Complete, Numbered;
    var sorted := Sort(candidates, ByCandidateKey());
    var prepared := Screen(cfg, denied, sorted).prepared;
    ScreenedHaveNoRepeats(cfg, denied, sorted);
    FillConserves(cfg, est, prepared, ByDigest());
    var f := Fill(cfg, est, prepared);
    ItemsBag(f.accepted, ByDigest());
    assert Bag(f.accepted, ItemName(ByDigest())) + Bag(f.omissions, OmissionName(ByDigest()))
        == Bag(prepared, PreparedName(ByDigest()));
    PartHasNoRepeats(Bag(f.accepted, ItemName(ByDigest())), Bag(f.omissions, OmissionName(ByDigest())));
  }

  lemma PlannedIdentities(cfg: Configuration, est: Estimator, denied: set<nat>, candidates: seq<Candidate>)
    requires Complete(cfg.budget) && DistinctIdentities(candidates)
    ensures NoRepeats(Bag(PlannedItems(cfg, est, denied, candidates), ItemName(ByIdentity())))
  {
    hide Bag, Sort, Screen, Fill, Complete, Numbered, DistinctIdentities, AllOmissions, AllDiagnostics, PlannedItems;
    DistinctMeansNoRepeats(candidates);
    EveryCandidateOnce(cfg, est, denied, Prior([], []), candidates, ByIdentity());
    BagNone(OmissionName(ByIdentity()));
    PartHasNoRepeats(Bag(PlannedItems(cfg, est, denied, candidates), ItemName(ByIdentity())),
                     Bag(AllOmissions(cfg, est, denied, [], Sort(candidates, ByCandidateKey())),
                         OmissionName(ByIdentity())));
  }

  /** Items stand by category, then higher score, then identity, then digest, in every plan. */
  lemma PlanItemsInOrder(cfg: Configuration, est: Estimator, denied: set<nat>, prior: Prior,
      candidates: seq<Candidate>)
    requires Complete(cfg.budget)
    ensures InItemOrder(Plan(cfg, est, denied, prior, candidates).items)
  {
    hide Sort, Screen, Fill, Complete, Orders, AllOmissions, AllDiagnostics, CompareKeys, Precedes;
    var accepted := Fill(cfg, est, Screen(cfg, denied, Sort(candidates, ByCandidateKey())).prepared).accepted;
    var sorted := Sort(accepted, ByItemKey());
    ComparatorsOrder();
    SortOrders(accepted, ByItemKey());
    ItemsInOrderIff(sorted);
    var items := Plan(cfg, est, denied, prior, candidates).items;
    assert items == Numbered(sorted);
    forall i, j | 0 <= i < j < |items| ensures Precedes(ItemStanding(items[i]), ItemStanding(items[j])) {
      assert Precedes(ItemStanding(sorted[i]), ItemStanding(sorted[j]));
    }
  }

  /** A plan passes `AssertCanonicalItemOrder`: positions, distinct identities and digests, canonical order. */
  lemma PlanIsInOrder(cfg: Configuration, est: Estimator, denied: set<nat>, prior: Prior,
      candidates: seq<Candidate>)
    requires Complete(cfg.budget) && DistinctIdentities(candidates)
    ensures CanonicalItemOrder(Plan(cfg, est, denied, prior, candidates).items)
  {
    hide Bag, Sort, Screen, Fill, Complete, DistinctIdentities, NoRepeats, Orders, AllOmissions, CompareKeys,
        InItemOrder;
    var items := PlannedItems(cfg, est, denied, candidates);
    PlannedDigests(cfg, est, denied, candidates);
    PlannedIdentities(cfg, est, denied, candidates);
    PlanItemsInOrder(cfg, est, denied, prior, candidates);
    assert items == Plan(cfg, est, denied, prior, candidates).items;
    forall i | 0 <= i < |items| ensures FitsAt(items, i) {
      forall j | 0 <= j < i ensures items[j].identity != items[i].identity && items[j].digest != items[i].digest {
        NoRepeatsMeansDistinct(items, ItemName(ByIdentity()), j, i);
        NoRepeatsMeansDistinct(items, ItemName(ByDigest()), j, i);
      }
    }
  }

  // Plans add up and stay within every cap --------------------------------------------------------------

  lemma PlannedTotal(accepted: seq<Item>, f: Item -> nat)
    requires forall i: Item, n: nat :: f(i.(ordinal := n)) == f(i)
    ensures Total(Numbered(Sort(accepted, ByItemKey())), f) == Total(accepted, f)
  {
    hide Total, Sort;
    var sorted := Sort(accepted, ByItemKey());
    TotalSort(accepted, ByItemKey(), f);
    TotalSame(Numbered(sorted), sorted, f);
  }

  lemma PlannedLedger(s: BudgetState, accepted: seq<Item>)
    requires Ledger(s, accepted)
    ensures Ledger(s, Numbered(Sort(accepted, ByItemKey())))
  {
    hide Total, Sort;
    PlannedTotal(accepted, ItemBytes());
    PlannedTotal(accepted, ItemUnits());
    forall c: Category
      ensures Total(Numbered(Sort(accepted, ByItemKey())), BytesIn(c)) == Total(accepted, BytesIn(c))
      ensures Total(Numbered(Sort(accepted, ByItemKey())), CountIn(c)) == Total(accepted, CountIn(c))
    {
      PlannedTotal(accepted, BytesIn(c));
      PlannedTotal(accepted, CountIn(c));
    }
    forall k: SourceKind ensures Total(Numbered(Sort(accepted, ByItemKey())), BytesFrom(k))
        == Total(accepted, BytesFrom(k)) {
      PlannedTotal(accepted, BytesFrom(k));
    }
    SortPermutes(accepted, ByItemKey());
    SameElements(Sort(accepted, ByItemKey()), accepted);
  }

  /** Each of the five caps, on the items themselves. */
  ghost predicate WithinBudget(b: Budget, items: seq<Item>)
    requires Complete(b)
  {
    && Total(items, ItemBytes()) <= b.maxTotalBytes && Total(items, ItemUnits()) <= b.maxTotalUnits
         && |items| <= b.maxItems
    && (forall c: Category :: Total(items, BytesIn(c)) <= b.categories[c].maxBytes
         && Total(items, CountIn(c)) <= b.categories[c].maxItems)
    && (forall k: SourceKind :: Total(items, BytesFrom(k)) <= b.maxBytesPerSourceKind)
    && (forall i :: 0 <= i < |items| ==> items[i].byteContribution == ByteLength(items[i].body) <= b.maxItemBytes)
  }

  /** An item shows a prefix of the sanitized text of an eligible candidate, under that candidate's name and with the
      marker count of that text. */
  ghost predicate ShownFrom(cfg: Configuration, denied: set<nat>, c: Candidate, item: Item) {
    && c.identity == item.identity && c.digest == item.digest && c.category == item.category
    && c.sourceKind == item.sourceKind && c.identity !in denied && c.classification <= cfg.maxClassification
    && item.body <= Sanitized(c.body) && (item.truncated <==> item.body != Sanitized(c.body))
    && item.sentinels == SentinelCount(Sanitized(c.body))
  }

  ghost predicate Shows(cfg: Configuration, denied: set<nat>, candidates: seq<Candidate>, item: Item) {
    exists c :: c in candidates && ShownFrom(cfg, denied, c, item)
  }

  lemma LedgerWithinCaps(b: Budget, s: BudgetState, items: seq<Item>)
    requires Complete(b) && Ledger(s, items) && Capped(b, s)
    requires forall i :: 0 <= i < |items| ==> items[i].byteContribution == ByteLength(items[i].body) <= b.maxItemBytes
    ensures WithinBudget(b, items)
  {
    hide Total, ByteLength;
  }

  lemma AcceptedAreSized(b: Budget, est: Estimator, items: seq<Item>, entries: seq<Prepared>)
    requires FromEntries(b, est, items, entries)
    ensures forall i :: 0 <= i < |items| ==> items[i].byteContribution == ByteLength(items[i].body) <= b.maxItemBytes
  {
    hide ByteLength;
  }

  lemma SortedFromEntries(b: Budget, est: Estimator, accepted: seq<Item>, entries: seq<Prepared>)
    requires FromEntries(b, est, accepted, entries)
    ensures FromEntries(b, est, Numbered(Sort(accepted, ByItemKey())), entries)
  {
    hide Sort, ByteLength;
    var sorted := Sort(accepted, ByItemKey());
    SortPermutes(accepted, ByItemKey());
    SameElements(sorted, accepted);
    forall i | 0 <= i < |sorted|
      ensures sorted[i].byteContribution <= b.maxItemBytes && sorted[i].unitContribution == est.estimate(sorted[i].body)
      ensures FromSome(sorted[i].(ordinal := i + 1), entries)
    {
      assert sorted[i] in sorted;
      var k :| 0 <= k < |accepted| && accepted[k] == sorted[i];
      assert FromSome(accepted[k], entries);
      var n :| 0 <= n < |entries| && TakenFrom(entries[n], accepted[k]);
      assert TakenFrom(entries[n], sorted[i].(ordinal := i + 1));
    }
  }

  /** Whatever the candidates: the usage adds up, every cap holds, and nothing denied or too sensitive is shown. */
  lemma PlanIsSafe(cfg: Configuration, est: Estimator, denied: set<nat>, prior: Prior,
      candidates: seq<Candidate>)
    requires Complete(cfg.budget)
    ensures var p := Plan(cfg, est, denied, prior, candidates);
      && UsageAdds(p.items, p.usage) && WithinBudget(cfg.budget, p.items)
      && forall i :: 0 <= i < |p.items| ==>
           Shows(cfg, denied, candidates, p.items[i]) && p.items[i].unitContribution == est.estimate(p.items[i].body)
  {
    hide Total, Sort, Screen, Fill, Complete, ByteLength, SentinelCount, Ledger, Capped, FromEntries, AllOmissions,
        Numbered, AllPrepared, WithinBudget, Shows, Sanitized;
    var b := cfg.budget;
    var sorted := Sort(candidates, ByCandidateKey());
    var prepared := Screen(cfg, denied, sorted).prepared;
    var f := Fill(cfg, est, prepared);
    ScreenedOk(cfg, denied, sorted, |sorted|);
    assert sorted[..|sorted|] == sorted;
    FillIsOk(cfg, est, prepared);
    var items := Numbered(Sort(f.accepted, ByItemKey()));
    PlannedLedger(f.state, f.accepted);
    SortedFromEntries(b, est, f.accepted, prepared);
    AcceptedAreSized(b, est, items, prepared);
    LedgerWithinCaps(b, f.state, items);
    LedgerAdds(f.state, items);
    SortPermutes(candidates, ByCandidateKey());
    SameElements(sorted, candidates);
    forall i | 0 <= i < |items|
      ensures Shows(cfg, denied, candidates, items[i]) && items[i].unitContribution == est.estimate(items[i].body)
    {
      ItemShows(cfg, est, denied, candidates, items, prepared, i);
    }
  }

  lemma LedgerAdds(s: BudgetState, items: seq<Item>)
    requires Ledger(s, items)
    ensures UsageAdds(items, Usage(s.bytes, s.units, |items|, s.bytesByCategory, s.bytesBySourceKind))
  {
    hide Total;
  }

  lemma ItemShows(cfg: Configuration, est: Estimator, denied: set<nat>, candidates: seq<Candidate>, items: seq<Item>,
      prepared: seq<Prepared>, i: nat)
    requires i < |items| && FromEntries(cfg.budget, est, items, prepared)
    requires forall e :: e in prepared ==>
      e.candidate in candidates && e.candidate.identity !in denied
          && e.candidate.classification <= cfg.maxClassification
      && e.body == Sanitized(e.candidate.body) && e.sentinels == SentinelCount(e.body)
    ensures Shows(cfg, denied, candidates, items[i]) && items[i].unitContribution == est.estimate(items[i].body)
  {
    hide Sanitized, SentinelCount;
    assert FromSome(items[i], prepared);
    var n :| 0 <= n < |prepared| && TakenFrom(prepared[n], items[i]);
    var c := prepared[n].candidate;
    assert prepared[n] in prepared && c in candidates && ShownFrom(cfg, denied, c, items[i]);
  }

  // What can be read back -----------------------------------------------------------------------

  /** What `parsePackItem` asks of a body and of the two numbers that must be recounted from it. */
  predicate ReadsBack(item: Item) {
    && item.body != "" && item.byteContribution == ByteLength(item.body)
    && item.sentinels == SentinelCount(item.body)
  }

  /** The count was made before the text was cut, so an item reads back exactly when no marker was cut into or away. */
  lemma ReadsBackIff(cfg: Configuration, denied: set<nat>, c: Candidate, item: Item)
    requires ShownFrom(cfg, denied, c, item) && item.byteContribution == ByteLength(item.body)
    ensures ReadsBack(item) <==> item.body != "" && MarkersEndBy(Sanitized(c.body), |item.body|)
    ensures !item.truncated && item.body != "" ==> ReadsBack(item)
  {
    hide Sanitized, ByteLength, SentinelCount, MarkersEndBy;
    PrefixCountIff(Sanitized(c.body), |item.body|);
    assert Sanitized(c.body)[..|item.body|] == item.body;
  }

  /** The same for the items of every plan. */
  lemma PlanReadsBackIff(cfg: Configuration, est: Estimator, denied: set<nat>, prior: Prior,
      candidates: seq<Candidate>, i: nat)
    requires Complete(cfg.budget) && i < |Plan(cfg, est, denied, prior, candidates).items|
    ensures var item := Plan(cfg, est, denied, prior, candidates).items[i];
      exists c :: c in candidates && ShownFrom(cfg, denied, c, item)
        && (ReadsBack(item) <==> item.body != "" && MarkersEndBy(Sanitized(c.body), |item.body|))
  {
    hide Plan, UsageAdds, Complete, ShownFrom, ReadsBack, MarkersEndBy, Sanitized;
    PlanIsSafe(cfg, est, denied, prior, candidates);
    var item := Plan(cfg, est, denied, prior, candidates).items[i];
    var c :| c in candidates && ShownFrom(cfg, denied, c, item);
    ReadsBackIff(cfg, denied, c, item);
  }

  // Omissions ----------------------------------------------------------------------------------

  ghost predicate CanonicalOmissionOrder(omissions: seq<Omission>) {
    forall i, j :: 0 <= i < j < |omissions| ==> OmissionPrecedes(omissions[i], omissions[j])
  }

  method AssertCanonicalOmissionOrder(omissions: seq<Omission>) returns (ok: bool)
    ensures ok <==> CanonicalOmissionOrder(omissions)
  {
    hide CompareKeys, OmissionPrecedes;
    OmissionsInOrderIff(omissions);
    var index := 1;
    while index < |omissions|
      invariant 1 <= index
      invariant forall i :: 0 < i < index && i < |omissions| ==> ByOmissionKey()(omissions[i - 1], omissions[i]) <= 0
    {
      if ByOmissionKey()(omissions[index - 1], omissions[index]) > 0 {
        return false;
      }
      index := index + 1;
    }
    return true;
  }

  /** These are some of all omissions, and none of the others belongs before any of them. */
  ghost predicate AreFirstOmissions(listed: seq<Omission>, all: seq<Omission>) {
    exists others: seq<Omission> ::
      && multiset(listed + others) == multiset(all)
      && forall o, p :: o in listed && p in others ==> OmissionPrecedes(o, p)
  }

  /** Listed omissions are in order, and they are all of them, or the first of them if the plan says so. */
  lemma PlanOmissionsInOrder(cfg: Configuration, est: Estimator, denied: set<nat>, prior: Prior,
      candidates: seq<Candidate>)
    requires Complete(cfg.budget)
    ensures var p := Plan(cfg, est, denied, prior, candidates);
      var all := AllOmissions(cfg, est, denied, prior.omissions, Sort(candidates, ByCandidateKey()));
      && CanonicalOmissionOrder(p.omissions)
      && (p.omissionsTruncated <==> |all| > cfg.budget.maxOmissions)
      && (!p.omissionsTruncated ==> multiset(p.omissions) == multiset(all))
      && (p.omissionsTruncated ==> |p.omissions| == cfg.budget.maxOmissions && AreFirstOmissions(p.omissions, all))
  {
    hide Sort, Fill, Screen, Complete, Orders, AllOmissions, CompareKeys, Numbered, OmissionPrecedes;
    var all := AllOmissions(cfg, est, denied, prior.omissions, Sort(candidates, ByCandidateKey()));
    OmissionsOrder();
    SortOrders(all, ByOmissionKey());
    SortPermutes(all, ByOmissionKey());
    SameElements(Sort(all, ByOmissionKey()), all);
    OmissionsInOrderIff(Sort(all, ByOmissionKey()));
    if |all| > cfg.budget.maxOmissions {
      FirstOmissions(Sort(all, ByOmissionKey()), all, cfg.budget.maxOmissions);
    }
  }

  lemma FirstOmissions(sorted: seq<Omission>, all: seq<Omission>, n: nat)
    requires CanonicalOmissionOrder(sorted) && multiset(sorted) == multiset(all) && n <= |sorted|
    ensures AreFirstOmissions(sorted[..n], all)
  {
    hide OmissionPrecedes;
    assert sorted == sorted[..n] + sorted[n..];
    forall o, p | o in sorted[..n] && p in sorted[n..] ensures OmissionPrecedes(o, p) {
      var i :| 0 <= i < n && sorted[i] == o;
      var j :| 0 <= j < |sorted[n..]| && sorted[n..][j] == p;
      assert sorted[n + j] == p;
    }
  }
}
