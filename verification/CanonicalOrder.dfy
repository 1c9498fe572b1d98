/** The orders a plan is listed in, in their own terms
    (packages/context/src/select.ts, packages/context/src/pack.ts).
 */
module CanonicalOrder {
  import opened Ordering
  import opened TextOrder
  import opened Selection

  // Candidates and items ---------------------------------------------------------------------

  /** What the place of a candidate or an item depends on. */
  datatype Standing = Standing(category: Category, score: nat, identity: nat, digest: nat)

  function CandidateStanding(c: Candidate): Standing {
    Standing(c.category, c.baseScore, c.identity, c.digest)
  }

  function ItemStanding(i: Item): Standing {
    Standing(i.category, i.score, i.identity, i.digest)
  }

  /** Tasks, then constraints, repository, memory and artifact texts. */
  predicate Earlier(c: Category, d: Category) {
    match c
    case Task => !d.Task?
    case Constraint => d.RepositoryText? || d.MemoryText? || d.ArtifactText?
    case RepositoryText => d.MemoryText? || d.ArtifactText?
    case MemoryText => d.ArtifactText?
    case ArtifactText => false
  }

  /** Within a category the higher score goes first, then the smaller identity, then the smaller digest. */
  predicate Precedes(p: Standing, q: Standing) {
    || Earlier(p.category, q.category)
    || (p.category == q.category && p.score > q.score)
    || (p.category == q.category && p.score == q.score && p.identity < q.identity)
    || (p.category == q.category && p.score == q.score && p.identity == q.identity && p.digest <= q.digest)
  }

  function KeyOf(p: Standing): SortKey {
    SortKey(CategoryPriority(p.category), p.score, p.identity, p.digest)
  }

  lemma PrecedesIff(p: Standing, q: Standing)
    ensures CompareKeys(KeyOf(p), KeyOf(q)) <= 0 <==> Precedes(p, q)
  {
  }

  lemma CandidatesPrecedeIff(a: Candidate, b: Candidate)
    ensures ByCandidateKey()(a, b) <= 0 <==> Precedes(CandidateStanding(a), CandidateStanding(b))
  {
    PrecedesIff(CandidateStanding(a), CandidateStanding(b));
  }

  lemma ItemsPrecedeIff(a: Item, b: Item)
    ensures ByItemKey()(a, b) <= 0 <==> Precedes(ItemStanding(a), ItemStanding(b))
  {
    PrecedesIff(ItemStanding(a), ItemStanding(b));
  }

  lemma KeysOrder(a: SortKey, b: SortKey, c: SortKey)
    ensures CompareKeys(a, b) < 0 <==> CompareKeys(b, a) > 0
    ensures CompareKeys(a, b) <= 0 && CompareKeys(b, c) <= 0 ==> CompareKeys(a, c) <= 0
    ensures CompareKeys(a, b) == 0 <==> a == b
  {
  }

  lemma ComparatorsOrder()
    ensures Orders(ByCandidateKey()) && Orders(ByItemKey())
  {
    hide CompareKeys;
    forall a: Candidate, b: Candidate, c: Candidate
      ensures ByCandidateKey()(a, b) < 0 <==> ByCandidateKey()(b, a) > 0
      ensures ByCandidateKey()(a, b) <= 0 && ByCandidateKey()(b, c) <= 0 ==> ByCandidateKey()(a, c) <= 0
    {
      KeysOrder(CandidateKey(a), CandidateKey(b), CandidateKey(c));
    }
    forall a: Item, b: Item, c: Item
      ensures ByItemKey()(a, b) < 0 <==> ByItemKey()(b, a) > 0
      ensures ByItemKey()(a, b) <= 0 && ByItemKey()(b, c) <= 0 ==> ByItemKey()(a, c) <= 0
    {
      KeysOrder(ItemKey(a), ItemKey(b), ItemKey(c));
    }
  }


  // Omissions ----------------------------------------------------------------------------------

  function ReasonName(r: Reason): string {
    match r
    case ArtifactUnresolved => "artifact-unresolved"
    case BudgetBytesExhausted => "budget-bytes-exhausted"
    case BudgetItemsExhausted => "budget-items-exhausted"
    case BudgetUnitsExhausted => "budget-units-exhausted"
    case CategoryAllocationFull => "category-allocation-full"
    case ClassificationCeiling => "classification-ceiling"
    case DuplicateDigest => "duplicate-digest"
    case EmptyAfterSanitization => "empty-after-sanitization"
    case Expired => "expired"
    case ItemTooLarge => "item-too-large"
    case PerSourceCap => "per-source-cap"
    case PolicyDenied => "policy-denied"
    case ScopeMismatch => "scope-mismatch"
    case SourceDigestMismatch => "source-digest-mismatch"
    case SourceUnavailable => "source-unavailable"
    case Tombstoned => "tombstoned"
    case UnconfirmedCandidateExcluded => "unconfirmed-candidate-excluded"
  }

  /** By the name of the reason, then the identity, then the digest. */
  ghost predicate OmissionPrecedes(a: Omission, b: Omission) {
    || TextLess(ReasonName(a.reason), ReasonName(b.reason))
    || (a.reason == b.reason && a.identity < b.identity)
    || (a.reason == b.reason && a.identity == b.identity && a.digest <= b.digest)
  }

  function ReasonAt(n: nat): Reason {
    match n
    case 0 => ArtifactUnresolved
    case 1 => BudgetBytesExhausted
    case 2 => BudgetItemsExhausted
    case 3 => BudgetUnitsExhausted
    case 4 => CategoryAllocationFull
    case 5 => ClassificationCeiling
    case 6 => DuplicateDigest
    case 7 => EmptyAfterSanitization
    case 8 => Expired
    case 9 => ItemTooLarge
    case 10 => PerSourceCap
    case 11 => PolicyDenied
    case 12 => ScopeMismatch
    case 13 => SourceDigestMismatch
    case 14 => SourceUnavailable
    case 15 => Tombstoned
    case _ => UnconfirmedCandidateExcluded
  }

  /** Where the names of neighbouring reasons first differ. */
  const FIRST_DIFFERENCES: seq<nat> := [0, 7, 7, 0, 1, 0, 0, 1, 0, 0, 1, 0, 1, 7, 0, 0]

  lemma EarlyReasons(n: nat)
    requires n < 4
    ensures CompareText(ReasonName(ReasonAt(n)), ReasonName(ReasonAt(n + 1))) < 0
  {
    hide CompareText;
    DifferAt(ReasonName(ReasonAt(n)), ReasonName(ReasonAt(n + 1)), FIRST_DIFFERENCES[n]);
  }

  lemma MiddleReasons(n: nat)
    requires 4 <= n < 8
    ensures CompareText(ReasonName(ReasonAt(n)), ReasonName(ReasonAt(n + 1))) < 0
  {
    hide CompareText;
    DifferAt(ReasonName(ReasonAt(n)), ReasonName(ReasonAt(n + 1)), FIRST_DIFFERENCES[n]);
  }

  lemma LaterReasons(n: nat)
    requires 8 <= n < 12
    ensures CompareText(ReasonName(ReasonAt(n)), ReasonName(ReasonAt(n + 1))) < 0
  {
    hide CompareText;
    DifferAt(ReasonName(ReasonAt(n)), ReasonName(ReasonAt(n + 1)), FIRST_DIFFERENCES[n]);
  }

  lemma LastReasons(n: nat)
    requires 12 <= n < 16
    ensures CompareText(ReasonName(ReasonAt(n)), ReasonName(ReasonAt(n + 1))) < 0
  {
    hide CompareText;
    DifferAt(ReasonName(ReasonAt(n)), ReasonName(ReasonAt(n + 1)), FIRST_DIFFERENCES[n]);
  }

  lemma NextReason(n: nat)
    requires n < 16
    ensures CompareText(ReasonName(ReasonAt(n)), ReasonName(ReasonAt(n + 1))) < 0
  {
    hide CompareText, ReasonName, ReasonAt;
    if n < 4 {
      EarlyReasons(n);
    } else if n < 8 {
      MiddleReasons(n);
    } else if n < 12 {
      LaterReasons(n);
    } else {
      LastReasons(n);
    }
  }

  lemma {:induction false} ReasonsAscend(m: nat, n: nat)
    requires m < n <= 16
    ensures CompareText(ReasonName(ReasonAt(m)), ReasonName(ReasonAt(n))) < 0
  {
    hide CompareText, ReasonName, ReasonAt;
    NextReason(n - 1);
    if m < n - 1 {
      ReasonsAscend(m, n - 1);
      LessIsTransitive(ReasonName(ReasonAt(m)), ReasonName(ReasonAt(n - 1)), ReasonName(ReasonAt(n)));
    }
  }

  lemma RankedReason(r: Reason)
    ensures ReasonRank(r) <= 16 && ReasonAt(ReasonRank(r)) == r
  {
  }

  lemma ReasonRankIsName(a: Reason, b: Reason)
    ensures ReasonRank(a) < ReasonRank(b) <==> TextLess(ReasonName(a), ReasonName(b))
    ensures ReasonRank(a) == ReasonRank(b) <==> a == b
  {
    hide CompareText, ReasonName, TextLess, ReasonRank, ReasonAt;
    CompareTextIff(ReasonName(a), ReasonName(b));
    CompareTextIff(ReasonName(b), ReasonName(a));
    TextIsAntisymmetric(ReasonName(a), ReasonName(b));
    RankedReason(a);
    RankedReason(b);
    if ReasonRank(a) < ReasonRank(b) {
      ReasonsAscend(ReasonRank(a), ReasonRank(b));
    } else if ReasonRank(b) < ReasonRank(a) {
      ReasonsAscend(ReasonRank(b), ReasonRank(a));
    }
  }

  lemma OmissionsPrecedeIff(a: Omission, b: Omission)
    ensures ByOmissionKey()(a, b) <= 0 <==> OmissionPrecedes(a, b)
  {
    hide ReasonRank, ReasonName, TextLess;
    ReasonRankIsName(a.reason, b.reason);
  }

  function OmissionKey(o: Omission): SortKey {
    SortKey(ReasonRank(o.reason), 0, o.identity, o.digest)
  }

  lemma OmissionsOrder()
    ensures Orders(ByOmissionKey())
  {
    hide CompareKeys, ReasonRank;
    forall a: Omission, b: Omission, c: Omission
      ensures ByOmissionKey()(a, b) < 0 <==> ByOmissionKey()(b, a) > 0
      ensures ByOmissionKey()(a, b) <= 0 && ByOmissionKey()(b, c) <= 0 ==> ByOmissionKey()(a, c) <= 0
    {
      KeysOrder(OmissionKey(a), OmissionKey(b), OmissionKey(c));
    }
  }

  // Whole lists ----------------------------------------------------------------------------------

  lemma ItemsInOrderIff(items: seq<Item>)
    ensures (forall i, j :: 0 <= i < j < |items| ==> Precedes(ItemStanding(items[i]), ItemStanding(items[j]))) <==>
      forall k :: 0 < k < |items| ==> ByItemKey()(items[k - 1], items[k]) <= 0
    ensures InOrder(items, ByItemKey()) <==>
      forall k :: 0 < k < |items| ==> ByItemKey()(items[k - 1], items[k]) <= 0
  {
    hide CompareKeys, Precedes, Orders;
    ComparatorsOrder();
    InOrderIff(items, ByItemKey());
    forall i, j | 0 <= i < j < |items|
      ensures ByItemKey()(items[i], items[j]) <= 0 <==> Precedes(ItemStanding(items[i]), ItemStanding(items[j]))
    {
      ItemsPrecedeIff(items[i], items[j]);
    }
  }

  lemma OmissionsInOrderIff(omissions: seq<Omission>)
    ensures (forall i, j :: 0 <= i < j < |omissions| ==> OmissionPrecedes(omissions[i], omissions[j])) <==>
      forall k :: 0 < k < |omissions| ==> ByOmissionKey()(omissions[k - 1], omissions[k]) <= 0
    ensures InOrder(omissions, ByOmissionKey()) <==>
      forall k :: 0 < k < |omissions| ==> ByOmissionKey()(omissions[k - 1], omissions[k]) <= 0
  {
    hide CompareKeys, OmissionPrecedes, Orders;
    OmissionsOrder();
    InOrderIff(omissions, ByOmissionKey());
    forall i, j | 0 <= i < j < |omissions|
      ensures ByOmissionKey()(omissions[i], omissions[j]) <= 0 <==> OmissionPrecedes(omissions[i], omissions[j])
    {
      OmissionsPrecedeIff(omissions[i], omissions[j]);
    }
  }

  /** Sorting candidates puts them in that order. */
  lemma CandidatesInOrder(candidates: seq<Candidate>, i: nat, j: nat)
    requires i < j < |Sort(candidates, ByCandidateKey())|
    ensures var sorted := Sort(candidates, ByCandidateKey());
      Precedes(CandidateStanding(sorted[i]), CandidateStanding(sorted[j]))
  {
    hide Sort, CompareKeys, Precedes, Orders;
    ComparatorsOrder();
    SortOrders(candidates, ByCandidateKey());
    CandidatesPrecedeIff(Sort(candidates, ByCandidateKey())[i], Sort(candidates, ByCandidateKey())[j]);
  }
}
