/** The remarks a plan carries (packages/context/src/errors.ts, packages/context/src/select.ts). */
module Diagnostics {
  import opened Basics
  import opened Framing
  import opened Ordering
  import opened TextOrder

  datatype Code =
    | ArtifactReadFailed | CandidateTruncated | ControlCharactersRemoved | DiagnosticsTruncated | EstimatorConservative
    | FrameSentinelInBody | IndexReadFailed | OmissionsTruncated

  /** `identity` is None for a remark on the whole pack. */
  datatype Diagnostic = Diagnostic(code: Code, identity: Option<nat>, detail: string)

  const MAX_DETAIL: nat := 200

  /** `diagnostic`: a detail is cut after 200 characters. */
  function Remark(code: Code, identity: Option<nat>, detail: string): Diagnostic {
    Diagnostic(code, identity, if |detail| > MAX_DETAIL then detail[..MAX_DETAIL] else detail)
  }

  function Removal(identity: nat, removed: nat): Diagnostic {
    Remark(ControlCharactersRemoved, Some(identity), Decimal(removed) + " characters removed")
  }

  function MarkerRemark(identity: nat, sentinels: nat): Diagnostic {
    Remark(FrameSentinelInBody, Some(identity),
           Decimal(sentinels) + " frame markers present; length prefix governs")
  }

  function CutRemark(identity: nat, before: nat, after: nat): Diagnostic {
    Remark(CandidateTruncated, Some(identity), Decimal(before) + " bytes reduced to " + Decimal(after))
  }

  function OmissionsRemark(omissions: nat, most: nat): Diagnostic {
    Remark(OmissionsTruncated, None, Decimal(omissions) + " omissions capped at " + Decimal(most))
  }

  function EstimatorRemark(estimatorId: string): Diagnostic {
    Remark(EstimatorConservative, None, estimatorId + " is an upper bound, not a model token count")
  }

  // Order -----------------------------------------------------------------------------------

  /** The place of a code's name in code-unit order. */
  function CodeRank(code: Code): nat {
    match code
    case ArtifactReadFailed => 0
    case CandidateTruncated => 1
    case ControlCharactersRemoved => 2
    case DiagnosticsTruncated => 3
    case EstimatorConservative => 4
    case FrameSentinelInBody => 5
    case IndexReadFailed => 6
    case OmissionsTruncated => 7
  }

  function IdentityRank(identity: Option<nat>): nat {
    if identity.Some? then identity.value else 0
  }

  function CompareDiagnostics(a: Diagnostic, b: Diagnostic): int {
    var codes := CompareNumbers(CodeRank(a.code), CodeRank(b.code));
    var identities := CompareNumbers(IdentityRank(a.identity), IdentityRank(b.identity));
    if codes != 0 then codes else if identities != 0 then identities else CompareText(a.detail, b.detail)
  }

  function ByDiagnosticKey(): Comparator<Diagnostic> {
    (a: Diagnostic, b: Diagnostic) => CompareDiagnostics(a, b)
  }

  ghost predicate ReadAlike(a: Diagnostic, b: Diagnostic) {
    a.code == b.code && IdentityRank(a.identity) == IdentityRank(b.identity) && a.detail == b.detail
  }

  lemma NumbersOrder(m: nat, n: nat)
    ensures CompareNumbers(m, n) == -CompareNumbers(n, m) && (CompareNumbers(m, n) == 0 <==> m == n)
  {
  }

  lemma DiagnosticsAntisymmetric(a: Diagnostic, b: Diagnostic)
    ensures CompareDiagnostics(a, b) < 0 <==> CompareDiagnostics(b, a) > 0
    ensures CompareDiagnostics(a, b) == 0 <==> ReadAlike(a, b)
  {
    hide CompareText, CodeRank, CompareNumbers;
    TextIsAntisymmetric(a.detail, b.detail);
    CompareTextIff(a.detail, b.detail);
    CodesDiffer(a.code, b.code);
    NumbersOrder(CodeRank(a.code), CodeRank(b.code));
    NumbersOrder(IdentityRank(a.identity), IdentityRank(b.identity));
  }

  lemma DiagnosticsTransitive(a: Diagnostic, b: Diagnostic, c: Diagnostic)
    ensures CompareDiagnostics(a, b) <= 0 && CompareDiagnostics(b, c) <= 0 ==> CompareDiagnostics(a, c) <= 0
  {
    hide CompareText, CodeRank, IdentityRank;
    TextIsTransitive(a.detail, b.detail, c.detail);
  }

  /** Remarks are totally preordered, and tie only if they read the same. */
  lemma DiagnosticsOrder()
    ensures Orders(ByDiagnosticKey())
    ensures forall a: Diagnostic, b: Diagnostic :: ByDiagnosticKey()(a, b) == 0 <==> ReadAlike(a, b)
  {
    hide CompareDiagnostics, ReadAlike;
    forall a: Diagnostic, b: Diagnostic
      ensures ByDiagnosticKey()(a, b) < 0 <==> ByDiagnosticKey()(b, a) > 0
      ensures ByDiagnosticKey()(a, b) == 0 <==> ReadAlike(a, b)
    {
      DiagnosticsAntisymmetric(a, b);
    }
    forall a: Diagnostic, b: Diagnostic, c: Diagnostic
      ensures ByDiagnosticKey()(a, b) <= 0 && ByDiagnosticKey()(b, c) <= 0 ==> ByDiagnosticKey()(a, c) <= 0
    {
      DiagnosticsTransitive(a, b, c);
    }
  }

  lemma CodesDiffer(a: Code, b: Code)
    ensures CodeRank(a) == CodeRank(b) <==> a == b
  {
  }

  // The order in its own terms ---------------------------------------------------------------

  function CodeName(code: Code): string {
    match code
    case ArtifactReadFailed => "artifact-read-failed"
    case CandidateTruncated => "candidate-truncated"
    case ControlCharactersRemoved => "control-characters-removed"
    case DiagnosticsTruncated => "diagnostics-truncated"
    case EstimatorConservative => "estimator-conservative"
    case FrameSentinelInBody => "frame-sentinel-in-body"
    case IndexReadFailed => "index-read-failed"
    case OmissionsTruncated => "omissions-truncated"
  }

  /** By the name of the code, then the identity, with none as the empty text, then the detail. */
  ghost predicate StandsBefore(a: Diagnostic, b: Diagnostic) {
    || TextLess(CodeName(a.code), CodeName(b.code))
    || (a.code == b.code && a.identity == None && b.identity.Some? && b.identity.value > 0)
    || (a.code == b.code && a.identity.Some? && b.identity.Some? && a.identity.value < b.identity.value)
    || (a.code == b.code && IdentityRank(a.identity) == IdentityRank(b.identity)
        && (a.detail == b.detail || TextLess(a.detail, b.detail)))
  }

  function CodeAt(n: nat): Code {
    match n
    case 0 => ArtifactReadFailed
    case 1 => CandidateTruncated
    case 2 => ControlCharactersRemoved
    case 3 => DiagnosticsTruncated
    case 4 => EstimatorConservative
    case 5 => FrameSentinelInBody
    case 6 => IndexReadFailed
    case _ => OmissionsTruncated
  }

  lemma NextCode(n: nat)
    requires n < 7
    ensures CompareText(CodeName(CodeAt(n)), CodeName(CodeAt(n + 1))) < 0
  {
    DifferAt(CodeName(CodeAt(n)), CodeName(CodeAt(n + 1)), if n == 1 then 1 else 0);
  }

  lemma {:induction false} CodesAscend(m: nat, n: nat)
    requires m < n <= 7
    ensures CompareText(CodeName(CodeAt(m)), CodeName(CodeAt(n))) < 0
  {
    hide CompareText, CodeName, CodeAt;
    NextCode(n - 1);
    if m < n - 1 {
      CodesAscend(m, n - 1);
      LessIsTransitive(CodeName(CodeAt(m)), CodeName(CodeAt(n - 1)), CodeName(CodeAt(n)));
    }
  }

  lemma CodeRankIsName(a: Code, b: Code)
    ensures CodeRank(a) < CodeRank(b) <==> TextLess(CodeName(a), CodeName(b))
    ensures CodeAt(CodeRank(a)) == a
  {
    hide CompareText, CodeName, TextLess;
    CompareTextIff(CodeName(a), CodeName(b));
    TextIsAntisymmetric(CodeName(a), CodeName(b));
    CompareTextIff(CodeName(b), CodeName(a));
    assert CodeAt(CodeRank(a)) == a && CodeAt(CodeRank(b)) == b;
    if CodeRank(a) < CodeRank(b) {
      CodesAscend(CodeRank(a), CodeRank(b));
    } else if CodeRank(b) < CodeRank(a) {
      CodesAscend(CodeRank(b), CodeRank(a));
    } else {
      assert a == b;
    }
  }

  lemma ComparedIff(a: Diagnostic, b: Diagnostic)
    ensures ByDiagnosticKey()(a, b) <= 0 <==> StandsBefore(a, b)
  {
    hide CompareText, CodeRank, CodeName, TextLess;
    CodeRankIsName(a.code, b.code);
    CompareTextIff(a.detail, b.detail);
    CodesDiffer(a.code, b.code);
    CompareTextIff(CodeName(a.code), CodeName(b.code));
  }

  // The check on reading --------------------------------------------------------------------

  ghost predicate CanonicalDiagnosticOrder(diagnostics: seq<Diagnostic>) {
    forall i, j :: 0 <= i < j < |diagnostics| ==> StandsBefore(diagnostics[i], diagnostics[j])
  }

  lemma CanonicalIff(diagnostics: seq<Diagnostic>)
    ensures CanonicalDiagnosticOrder(diagnostics) <==> InOrder(diagnostics, ByDiagnosticKey())
    ensures CanonicalDiagnosticOrder(diagnostics) <==>
      forall k :: 0 < k < |diagnostics| ==> ByDiagnosticKey()(diagnostics[k - 1], diagnostics[k]) <= 0
  {
    hide CompareDiagnostics, StandsBefore, Orders;
    DiagnosticsOrder();
    InOrderIff(diagnostics, ByDiagnosticKey());
    forall i, j | 0 <= i < j < |diagnostics|
      ensures ByDiagnosticKey()(diagnostics[i], diagnostics[j]) <= 0 <==> StandsBefore(diagnostics[i], diagnostics[j])
    {
      ComparedIff(diagnostics[i], diagnostics[j]);
    }
  }

  method AssertCanonicalDiagnosticOrder(diagnostics: seq<Diagnostic>) returns (ok: bool)
    ensures ok <==> CanonicalDiagnosticOrder(diagnostics)
  {
    hide CompareDiagnostics, CanonicalDiagnosticOrder;
    CanonicalIff(diagnostics);
    var index := 1;
    while index < |diagnostics|
      invariant 1 <= index
      invariant forall i :: 0 < i < index && i < |diagnostics| ==>
        ByDiagnosticKey()(diagnostics[i - 1], diagnostics[i]) <= 0
    {
      if ByDiagnosticKey()(diagnostics[index - 1], diagnostics[index]) > 0 {
        return false;
      }
      index := index + 1;
    }
    return true;
  }
}
