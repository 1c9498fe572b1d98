/** Which candidates a plan takes, in which order it decides, and how much of each it takes
    (packages/context/src/select.ts).
 */
module PackDecisions {
  import opened Utf8
  import opened Framing
  import opened Sentinels
  import opened Ordering
  import opened Selection
  import opened SelectionSafety
  import opened CanonicalOrder

  // Screening ----------------------------------------------------------------------------------

  /** Nothing but its text being a repeat can keep the candidate out. */
  predicate Eligible(cfg: Configuration, denied: set<nat>, c: Candidate) {
    c.identity !in denied && c.classification <= cfg.maxClassification && Sanitized(c.body) != ""
  }

  /** The candidate is eligible and the first of those to show its digest. */
  ghost predicate IsScreenedIn(cfg: Configuration, denied: set<nat>, sorted: seq<Candidate>, i: nat)
    requires i < |sorted|
  {
    && Eligible(cfg, denied, sorted[i])
    && forall j :: 0 <= j < i && Eligible(cfg, denied, sorted[j]) ==> sorted[j].digest != sorted[i].digest
  }

  function EntryOf(c: Candidate): Prepared {
    var text := Sanitized(c.body);
    Prepared(c, text, ByteLength(text), SentinelCount(text))
  }

  /** Why a candidate that is not screened in is left out, and how many bytes it asked for. */
  function ScreenedOut(cfg: Configuration, denied: set<nat>, c: Candidate): Omission {
    var (reason, bytes) :=
      if c.identity in denied then (PolicyDenied, 0)
      else if c.classification > cfg.maxClassification then (ClassificationCeiling, 0)
      else if Sanitized(c.body) == "" then (EmptyAfterSanitization, 0)
      else (DuplicateDigest, ByteLength(Sanitized(c.body)));
    Omission(c.identity, c.sourceKind, c.category, c.digest, reason, bytes)
  }

  ghost predicate Ascending(f: seq<nat>, n: nat) {
    (forall k :: 0 <= k < |f| ==> f[k] < n) && forall k, l :: 0 <= k < l < |f| ==> f[k] < f[l]
  }

  /** The candidates at the places `f`, in this order, became the entries, those at `g` the omissions. */
  ghost predicate ScreenedAs(cfg: Configuration, denied: set<nat>, sorted: seq<Candidate>, n: nat, s: Screening,
      f: seq<nat>, g: seq<nat>)
    requires n <= |sorted|
  {
    && Ascending(f, n) && Ascending(g, n) && |f| == |s.prepared| && |g| == |s.omissions|
    && (forall k :: 0 <= k < |f| ==> s.prepared[k] == EntryOf(sorted[f[k]]))
    && (forall k :: 0 <= k < |g| ==> s.omissions[k] == ScreenedOut(cfg, denied, sorted[g[k]]))
    && (forall i :: 0 <= i < n ==> (i in f <==> IsScreenedIn(cfg, denied, sorted, i)))
    && (forall i :: 0 <= i < n ==> (i in g <==> !IsScreenedIn(cfg, denied, sorted, i)))
  }

  ghost predicate SeenIs(cfg: Configuration, denied: set<nat>, sorted: seq<Candidate>, n: nat, seen: set<nat>)
    requires n <= |sorted|
  {
    forall d: nat :: d in seen <==>
      exists j :: 0 <= j < n && Eligible(cfg, denied, sorted[j]) && sorted[j].digest == d
  }

  /** What screening one more candidate does. */
  lemma ScreenOneIs(cfg: Configuration, denied: set<nat>, s: Screening, c: Candidate)
    ensures var t := ScreenOne(cfg, denied, s, c);
      if Eligible(cfg, denied, c) && c.digest !in s.seen
      then t.prepared == s.prepared + [EntryOf(c)] && t.omissions == s.omissions && t.seen == s.seen + {c.digest}
      else t.prepared == s.prepared && t.omissions == s.omissions + [ScreenedOut(cfg, denied, c)] && t.seen == s.seen
  {
    hide Sanitized, ByteLength, SentinelCount;
  }

  lemma ScreenedInIff(cfg: Configuration, denied: set<nat>, sorted: seq<Candidate>, n: nat, seen: set<nat>)
    requires n < |sorted| && SeenIs(cfg, denied, sorted, n, seen)
    ensures IsScreenedIn(cfg, denied, sorted, n) <==>
      Eligible(cfg, denied, sorted[n]) && sorted[n].digest !in seen
    ensures SeenIs(cfg, denied, sorted, n + 1,
                   if Eligible(cfg, denied, sorted[n]) then seen + {sorted[n].digest} else seen)
  {
    hide Eligible;
  }

  lemma {:induction false} ScreenIs(cfg: Configuration, denied: set<nat>, sorted: seq<Candidate>, n: nat)
    returns (f: seq<nat>, g: seq<nat>)
    requires n <= |sorted|
    ensures ScreenedAs(cfg, denied, sorted, n, Screen(cfg, denied, sorted[..n]), f, g)
    ensures SeenIs(cfg, denied, sorted, n, Screen(cfg, denied, sorted[..n]).seen)
  {
    hide Screen, ScreenOne, Eligible, EntryOf, ScreenedOut, IsScreenedIn;
    ScreenStep(cfg, denied, sorted, n);
    f, g := [], [];
    if n > 0 {
      f, g := ScreenIs(cfg, denied, sorted, n - 1);
      var s := Screen(cfg, denied, sorted[..n - 1]);
      ScreenOneIs(cfg, denied, s, sorted[n - 1]);
      ScreenedInIff(cfg, denied, sorted, n - 1, s.seen);
      if IsScreenedIn(cfg, denied, sorted, n - 1) {
        f := f + [n - 1];
      } else {
        g := g + [n - 1];
        assert Eligible(cfg, denied, sorted[n - 1]) ==> s.seen + {sorted[n - 1].digest} == s.seen;
      }
    }
  }

  /** Screening walks through the sorted candidates: the first eligible one of each digest becomes an entry, every
      other candidate is left out for the first reason that applies to it. */
  lemma ScreenIsExact(cfg: Configuration, denied: set<nat>, sorted: seq<Candidate>) returns (f: seq<nat>, g: seq<nat>)
    ensures ScreenedAs(cfg, denied, sorted, |sorted|, Screen(cfg, denied, sorted), f, g)
  {
    hide Screen, ScreenedAs;
    f, g := ScreenIs(cfg, denied, sorted, |sorted|);
    assert sorted[..|sorted|] == sorted;
  }

  /** So the entries that the passes walk through stand in canonical order. */
  lemma EntriesInOrder(cfg: Configuration, denied: set<nat>, candidates: seq<Candidate>, k: nat, l: nat)
    requires k < l < |Screen(cfg, denied, Sort(candidates, ByCandidateKey())).prepared|
    ensures var entries := Screen(cfg, denied, Sort(candidates, ByCandidateKey())).prepared;
      Precedes(CandidateStanding(entries[k].candidate), CandidateStanding(entries[l].candidate))
  {
    hide Screen, Sort, Precedes, Sanitized, ByteLength, SentinelCount, IsScreenedIn;
    var f, g := ScreenIsExact(cfg, denied, Sort(candidates, ByCandidateKey()));
    CandidatesInOrder(candidates, f[k], f[l]);
  }

  // One attempt ----------------------------------------------------------------------------------

  /** The longest part of a text, from its beginning, that fits. */
  ghost predicate LongestPart(text: string, maxBytes: int, part: string) {
    && part <= text && ByteLength(part) <= maxBytes
    && forall n :: |part| < n <= |text| ==> ByteLength(text[..n]) > maxBytes
  }

  lemma CutIsLongest(text: string, maxBytes: nat)
    requires BYTE_ORDER_MARK !in text
    ensures var r := TruncateToBytes(text, maxBytes);
      LongestPart(text, maxBytes, r.text) && r.byteLength == ByteLength(r.text)
  {
    hide TruncateToBytes, Encode;
    TruncationIsPrefix(text, maxBytes);
    forall n | |TruncateToBytes(text, maxBytes).text| < n <= |text| ensures ByteLength(text[..n]) > maxBytes {
      if ByteLength(text[..n]) <= maxBytes {
        TruncationIsLongest(text, maxBytes, n);
      }
    }
  }

  lemma WholeIsLongest(text: string)
    ensures LongestPart(text, ByteLength(text), text)
  {
  }

  function Least(a: int, b: int): int {
    if a <= b then a else b
  }

  function CategoryRoom(b: Budget, s: BudgetState, c: Candidate): int
    requires Complete(b)
  {
    b.categories[c.category].maxBytes - At(s.bytesByCategory, c.category)
  }

  function SourceRoom(b: Budget, s: BudgetState, c: Candidate): int {
    b.maxBytesPerSourceKind - At(s.bytesBySourceKind, c.sourceKind)
  }

  /** How many bytes may still be taken of a text. */
  function Room(b: Budget, s: BudgetState, c: Candidate): int
    requires Complete(b)
  {
    Least(Least(b.maxItemBytes, CategoryRoom(b, s, c)), Least(SourceRoom(b, s, c), b.maxTotalBytes - s.bytes))
  }

  /** Which cap leaves no more than that: of several, the most specific. */
  function Binding(b: Budget, s: BudgetState, c: Candidate): Reason
    requires Complete(b)
  {
    if Room(b, s, c) == b.maxItemBytes then ItemTooLarge
    else if Room(b, s, c) == CategoryRoom(b, s, c) then CategoryAllocationFull
    else if Room(b, s, c) == SourceRoom(b, s, c) then PerSourceCap
    else BudgetBytesExhausted
  }

  lemma {:induction false} TightestIsRoom(b: Budget, s: BudgetState, c: Candidate, wanted: nat)
    requires Complete(b)
    ensures var t := Tightest(wanted, LimitsFor(b, s, c), 4);
      if Room(b, s, c) < wanted then t == Limit(Room(b, s, c), Binding(b, s, c)) else t.bytes == wanted
  {
    hide Complete;
    var limits := LimitsFor(b, s, c);
    assert limits[0] == Limit(b.maxItemBytes, ItemTooLarge)
        && limits[1] == Limit(CategoryRoom(b, s, c), CategoryAllocationFull)
        && limits[2] == Limit(SourceRoom(b, s, c), PerSourceCap)
        && limits[3] == Limit(b.maxTotalBytes - s.bytes, BudgetBytesExhausted);
    TightestStep(wanted, limits, 1);
    TightestStep(wanted, limits, 2);
    TightestStep(wanted, limits, 3);
    TightestStep(wanted, limits, 4);
  }

  lemma TightestStep(wanted: nat, limits: seq<Limit>, n: nat)
    requires 0 < n <= |limits|
    ensures Tightest(wanted, limits, 0) == Limit(wanted, BudgetBytesExhausted)
    ensures Tightest(wanted, limits, n) ==
      if limits[n - 1].bytes < Tightest(wanted, limits, n - 1).bytes then limits[n - 1]
      else Tightest(wanted, limits, n - 1)
  {
  }

  function ItemShowing(e: Prepared, ordinal: nat, body: string, units: nat): Item {
    var c := e.candidate;
    Item(ordinal, c.sourceKind, c.category, c.identity, c.digest, c.baseScore, ByteLength(body), units, body != e.body,
         SentinelCount(e.body), body, c.details)
  }

  /** With the bytes settled: the part is taken if its units fit, and else the longest part of it that the units left
      are worth, if that fits and is long enough. */
  ghost predicate RightUnits(b: Budget, est: Estimator, s: BudgetState, ordinal: nat, e: Prepared, part: string,
      out: Admission)
  {
    var worth := (b.maxTotalUnits - s.units) * est.bytesPerUnit;
    if s.units + est.estimate(part) <= b.maxTotalUnits
    then out == Admitted(ItemShowing(e, ordinal, part, est.estimate(part)))
    else if !b.allowTruncation || worth < b.minItemBytes then out == Refused(BudgetUnitsExhausted)
    else exists less :: RightCut(b, est, s, ordinal, e, part, Least(worth, ByteLength(part)), less, out)
  }

  ghost predicate RightCut(b: Budget, est: Estimator, s: BudgetState, ordinal: nat, e: Prepared, part: string,
      maxBytes: int, less: string, out: Admission)
  {
    && LongestPart(part, maxBytes, less)
    && out == if s.units + est.estimate(less) > b.maxTotalUnits || ByteLength(less) < b.minItemBytes
              then Refused(BudgetUnitsExhausted)
              else Admitted(ItemShowing(e, ordinal, less, est.estimate(less)))
  }

  /** The outcome that an attempt must have. */
  ghost predicate RightOutcome(b: Budget, est: Estimator, s: BudgetState, ordinal: nat, e: Prepared, phase: Phase,
      out: Admission)
    requires Complete(b)
  {
    var c, bytes := e.candidate, ByteLength(e.body);
    if s.items >= b.maxItems then out == Refused(BudgetItemsExhausted)
    else if At(s.itemsByCategory, c.category) >= b.categories[c.category].maxItems
        then out == Refused(CategoryAllocationFull)
    else if phase == Reserved && bytes > b.categories[c.category].reservedBytes - At(s.bytesByCategory, c.category)
        then out == Deferred
    else if Room(b, s, c) < bytes && (!b.allowTruncation || Room(b, s, c) < b.minItemBytes)
        then out == Refused(Binding(b, s, c))
    else exists part :: (
      LongestPart(e.body, Least(Room(b, s, c), bytes), part) && RightUnits(b, est, s, ordinal, e, part, out))
  }

  ghost predicate RightPart(text: string, maxBytes: int, p: Portion) {
    && p.Portion? && LongestPart(text, maxBytes, p.body) && p.byteLength == ByteLength(p.body)
    && (p.truncated <==> p.body != text) && BYTE_ORDER_MARK !in p.body
  }

  lemma NonemptyHasBytes(text: string)
    requires text != ""
    ensures ByteLength(text) >= 1
  {
    hide EncodeScalar;
    ScalarShape(text[0]);
  }

  lemma BytesAreRight(b: Budget, s: BudgetState, e: Prepared)
    requires Complete(b) && PreparedOk(e)
    ensures var c, bytes := e.candidate, ByteLength(e.body);
      var p := WithinBytes(b, e, Tightest(e.byteLength, LimitsFor(b, s, c), 4));
      if Room(b, s, c) < bytes && (!b.allowTruncation || Room(b, s, c) < b.minItemBytes)
      then p == Nothing(Binding(b, s, c))
      else RightPart(e.body, Least(Room(b, s, c), bytes), p)
  {
    hide TruncateToBytes, Encode, Tightest, Room, Binding, LongestPart, Complete, SentinelCount, ByteLength;
    var c := e.candidate;
    var allowed := Tightest(e.byteLength, LimitsFor(b, s, c), 4);
    TightestIsRoom(b, s, c, e.byteLength);
    WithinBytesOk(b, e, allowed);
    if allowed.bytes >= e.byteLength {
      WholeIsLongest(e.body);
    } else if allowed.bytes >= 0 {
      CutIsLongest(e.body, allowed.bytes);
    }
  }

  lemma UnitsAreRight(b: Budget, est: Estimator, s: BudgetState, ordinal: nat, e: Prepared, p: Portion)
    requires PreparedOk(e) && p.Portion? && p.body <= e.body && BYTE_ORDER_MARK !in p.body
    requires p.byteLength == ByteLength(p.body) && (p.truncated <==> p.body != e.body)
    ensures var q := WithinUnits(b, est, s.units, p);
      RightUnits(b, est, s, ordinal, e, p.body,
                 if q.Nothing? then Refused(q.reason)
                 else Admitted(ItemOf(e, ordinal, q, est.estimate(q.body))))
  {
    hide TruncateToBytes, ByteLength, SentinelCount, LongestPart;
    var worth := (b.maxTotalUnits - s.units) * est.bytesPerUnit;
    if worth >= 0 {
      CutIsLongest(p.body, Least(worth, p.byteLength));
      CutOk(p.body, Least(worth, p.byteLength));
      var q := WithinUnits(b, est, s.units, p);
      var less := TruncateToBytes(p.body, Least(worth, p.byteLength)).text;
      assert less == e.body ==> less == p.body;
      if s.units + est.estimate(p.body) > b.maxTotalUnits && b.allowTruncation && worth >= b.minItemBytes {
        assert RightCut(b, est, s, ordinal, e, p.body, Least(worth, ByteLength(p.body)), less,
                        if q.Nothing? then Refused(q.reason)
                        else Admitted(ItemOf(e, ordinal, q, est.estimate(q.body))));
      }
    }
  }

  /** Every attempt has the right outcome. */
  lemma AdmitIsExact(b: Budget, est: Estimator, s: BudgetState, accepted: nat, e: Prepared, phase: Phase)
    requires Complete(b) && PreparedOk(e)
    ensures RightOutcome(b, est, s, accepted + 1, e, phase, Admit(b, est, s, accepted, e, phase).0)
  {
    hide WithinBytes, WithinUnits, Tightest, Room, Binding, LongestPart, RightUnits, ByteLength, SentinelCount,
        Complete, Charge, ItemOf;
    NonemptyHasBytes(e.body);
    BytesAreRight(b, s, e);
    var p := WithinBytes(b, e, Tightest(e.byteLength, LimitsFor(b, s, e.candidate), 4));
    if p.Portion? {
      PartsArePrefixes(e.body, Least(Room(b, s, e.candidate), ByteLength(e.body)), p.body);
      UnitsAreRight(b, est, s, accepted + 1, e, p);
    }
  }

  lemma PartsArePrefixes(text: string, maxBytes: int, part: string)
    requires LongestPart(text, maxBytes, part)
    ensures part <= text
  {
  }

  // The passes -------------------------------------------------------------------------------------

  /** The outcome is right for an entry that is tried when these items, and no others, have been taken. */
  ghost predicate DecidedBy(b: Budget, est: Estimator, before: seq<Item>, e: Prepared, phase: Phase, out: Admission)
    requires Complete(b)
  {
    exists s :: Ledger(s, before) && RightOutcome(b, est, s, |before| + 1, e, phase, out)
  }

  /** `m` of the places `f` come before place `i`. */
  ghost predicate Splits(f: seq<nat>, m: nat, i: nat) {
    m <= |f| && (forall k :: 0 <= k < m ==> f[k] < i) && forall k :: m <= k < |f| ==> f[k] > i
  }

  /** The entry at place `i` was tried after the items taken from places before it, and not taken. */
  ghost predicate LeftOut(b: Budget, est: Estimator, phase: Phase, e: Prepared, i: nat, base: nat, accepted: seq<Item>,
      f: seq<nat>, out: Admission)
    requires Complete(b)
  {
    exists m: nat ::
      && Splits(f, m, i) && base + m <= |accepted| && !out.Admitted?
      && DecidedBy(b, est, accepted[..base + m], e, phase, out)
  }

  /** A pass over `todo`: the entries at the places `f` were taken, one item each, those at `g` were not, for `outs`;
      each was decided in its turn, by what had been taken before. */
  ghost predicate PassedAs(b: Budget, est: Estimator, phase: Phase, todo: seq<Prepared>, n: nat, base: nat,
      accepted: seq<Item>, f: seq<nat>, g: seq<nat>, outs: seq<Admission>)
    requires Complete(b) && n <= |todo|
  {
    && Ascending(f, n) && Ascending(g, n) && (forall i :: 0 <= i < n ==> (i in f <==> i !in g))
    && |accepted| == base + |f| && |outs| == |g|
    && (forall k :: 0 <= k < |f| ==>
          DecidedBy(b, est, accepted[..base + k], todo[f[k]], phase, Admitted(accepted[base + k])))
    && (forall k :: 0 <= k < |g| ==> LeftOut(b, est, phase, todo[g[k]], g[k], base, accepted, f, outs[k]))
  }

  lemma PassTakes(b: Budget, est: Estimator, phase: Phase, todo: seq<Prepared>, n: nat, base: nat, accepted: seq<Item>,
      f: seq<nat>, g: seq<nat>, outs: seq<Admission>, item: Item)
    requires Complete(b) && n < |todo| && PassedAs(b, est, phase, todo, n, base, accepted, f, g, outs)
    requires DecidedBy(b, est, accepted, todo[n], phase, Admitted(item))
    ensures PassedAs(b, est, phase, todo, n + 1, base, accepted + [item], f + [n], g, outs)
  {
    hide DecidedBy, Complete, Splits;
    var more, f2 := accepted + [item], f + [n];
    assert more[..|accepted|] == accepted;
    forall k | 0 <= k < |f2|
      ensures DecidedBy(b, est, more[..base + k], todo[f2[k]], phase, Admitted(more[base + k]))
    {
      if k < |f| {
        assert more[..base + k] == accepted[..base + k];
      }
    }
    forall k | 0 <= k < |g| ensures LeftOut(b, est, phase, todo[g[k]], g[k], base, more, f2, outs[k]) {
      var m: nat :| Splits(f, m, g[k]) && base + m <= |accepted| && !outs[k].Admitted?
        && DecidedBy(b, est, accepted[..base + m], todo[g[k]], phase, outs[k]);
      assert more[..base + m] == accepted[..base + m];
      SplitsLater(f, m, g[k], n);
    }
  }

  lemma SplitsLater(f: seq<nat>, m: nat, i: nat, n: nat)
    requires Splits(f, m, i) && i < n
    ensures Splits(f + [n], m, i)
  {
  }

  lemma PassLeaves(b: Budget, est: Estimator, phase: Phase, todo: seq<Prepared>, n: nat, base: nat,
      accepted: seq<Item>, f: seq<nat>, g: seq<nat>, outs: seq<Admission>, out: Admission)
    requires Complete(b) && n < |todo| && PassedAs(b, est, phase, todo, n, base, accepted, f, g, outs)
    requires DecidedBy(b, est, accepted, todo[n], phase, out) && !out.Admitted?
    ensures PassedAs(b, est, phase, todo, n + 1, base, accepted, f, g + [n], outs + [out])
  {
    hide DecidedBy, Complete;
    assert accepted[..base + |f|] == accepted;
    assert Splits(f, |f|, n);
    assert LeftOut(b, est, phase, todo[n], n, base, accepted, f, out);
    forall k | 0 <= k < |g| + 1
      ensures LeftOut(b, est, phase, todo[(g + [n])[k]], (g + [n])[k], base, accepted, f, (outs + [out])[k])
    {
      assert k < |g| ==> LeftOut(b, est, phase, todo[g[k]], g[k], base, accepted, f, outs[k]);
    }
  }

  lemma AttemptIsDecided(b: Budget, est: Estimator, f: Filling, e: Prepared, phase: Phase, entries: seq<Prepared>)
    requires Complete(b) && FillOk(b, est, f, entries) && PreparedOk(e)
    ensures DecidedBy(b, est, f.accepted, e, phase, Admit(b, est, f.state, |f.accepted|, e, phase).0)
  {
    hide Admit, Ledger, Capped, FromEntries, PreparedOk, Complete, RightOutcome;
    AdmitIsExact(b, est, f.state, |f.accepted|, e, phase);
  }

  lemma {:induction false} ReservedPassIs(b: Budget, est: Estimator, entries: seq<Prepared>, n: nat)
    returns (f: seq<nat>, g: seq<nat>, outs: seq<Admission>)
    requires Complete(b) && AllPrepared(entries) && n <= |entries|
    ensures var filled := ReservedPass(b, est, entries[..n]);
      && PassedAs(b, est, Reserved, entries, n, 0, filled.accepted, f, g, outs)
      && |filled.remaining| == |g| && (forall k :: 0 <= k < |g| ==> filled.remaining[k] == entries[g[k]])
  {
    hide Admit, PreparedOk, ReservedPass, Complete, FillOk, DecidedBy, PassedAs, WithItem;
    PassStep(b, est, entries, n);
    f, g, outs := [], [], [];
    if n == 0 {
      PassOfNothing(b, est, Reserved, entries, []);
    } else {
      f, g, outs := ReservedPassIs(b, est, entries, n - 1);
      var filled, e := ReservedPass(b, est, entries[..n - 1]), entries[n - 1];
      ReservedPassOk(b, est, entries, n - 1);
      AttemptIsDecided(b, est, filled, e, Reserved, entries);
      RefusalIsFree(b, est, filled.state, |filled.accepted|, e, Reserved);
      var (out, after) := Admit(b, est, filled.state, |filled.accepted|, e, Reserved);
      if out.Admitted? {
        PassTakes(b, est, Reserved, entries, n - 1, 0, filled.accepted, f, g, outs, out.item);
        TakenLast(filled, e, out.item, after);
        f := f + [n - 1];
      } else {
        PassLeaves(b, est, Reserved, entries, n - 1, 0, filled.accepted, f, g, outs, out);
        g, outs := g + [n - 1], outs + [out];
      }
    }
  }

  lemma PassOfNothing(b: Budget, est: Estimator, phase: Phase, todo: seq<Prepared>, accepted: seq<Item>)
    requires Complete(b)
    ensures PassedAs(b, est, phase, todo, 0, |accepted|, accepted, [], [], [])
  {
  }

  lemma TakenLast(f: Filling, e: Prepared, item: Item, after: BudgetState)
    ensures var t := WithItem(f, e, item, after);
      t.accepted == f.accepted + [item] && t.remaining == f.remaining && t.omissions == f.omissions
  {
  }

  lemma {:induction false} GeneralPassIs(b: Budget, est: Estimator, start: Filling, todo: seq<Prepared>, n: nat,
      entries: seq<Prepared>)
    returns (f: seq<nat>, g: seq<nat>, outs: seq<Admission>)
    requires Complete(b) && AllPrepared(entries) && FillOk(b, est, start, entries) && n <= |todo|
    requires forall e :: e in todo ==> e in entries
    ensures var filled := GeneralPass(b, est, start, todo[..n]);
      && start.accepted <= filled.accepted
      && PassedAs(b, est, General, todo, n, |start.accepted|, filled.accepted, f, g, outs)
      && |filled.omissions| == |start.omissions| + |g| && |outs| == |g|
      && (forall k :: 0 <= k < |start.omissions| ==> filled.omissions[k] == start.omissions[k])
      && (forall k :: 0 <= k < |g| ==> LeftOutAs(todo[g[k]], outs[k], filled.omissions[|start.omissions| + k]))
  {
    hide Admit, PreparedOk, GeneralPass, Complete, FillOk, DecidedBy, PassedAs, WithItem;
    GeneralStep(b, est, start, todo, n);
    f, g, outs := [], [], [];
    if n == 0 {
      PassOfNothing(b, est, General, todo, start.accepted);
    } else {
      f, g, outs := GeneralPassIs(b, est, start, todo, n - 1, entries);
      var filled, e := GeneralPass(b, est, start, todo[..n - 1]), todo[n - 1];
      GeneralPassOk(b, est, start, todo, n - 1, entries);
      AttemptIsDecided(b, est, filled, e, General, entries);
      RefusalIsFree(b, est, filled.state, |filled.accepted|, e, General);
      var (out, after) := Admit(b, est, filled.state, |filled.accepted|, e, General);
      if out.Admitted? {
        PassTakes(b, est, General, todo, n - 1, |start.accepted|, filled.accepted, f, g, outs, out.item);
        TakenLast(filled, e, out.item, after);
        f := f + [n - 1];
      } else {
        PassLeaves(b, est, General, todo, n - 1, |start.accepted|, filled.accepted, f, g, outs, out);
        assert LeftOutAs(e, out, Omitting(e.candidate, out.reason, e.byteLength));
        g, outs := g + [n - 1], outs + [out];
      }
    }
  }

  ghost predicate LeftOutAs(e: Prepared, out: Admission, o: Omission) {
    var c := e.candidate;
    out.Refused? && o == Omission(c.identity, c.sourceKind, c.category, c.digest, out.reason, e.byteLength)
  }

  /** Filling a pack: in the first pass every entry is tried in order, and in the second, in the same order, every entry
      that the first did not take. Each outcome is the right one for the items taken until then, and exactly the entries
      refused in the second pass are left out, for the reason they were refused for. */
  lemma FillIsExact(cfg: Configuration, est: Estimator, entries: seq<Prepared>)
    returns (f: seq<nat>, g: seq<nat>, outs: seq<Admission>, f2: seq<nat>, g2: seq<nat>, outs2: seq<Admission>)
    requires Complete(cfg.budget) && AllPrepared(entries)
    ensures |outs| == |g| && |outs2| == |g2| && (forall k :: 0 <= k < |g| ==> g[k] < |entries|)
    ensures var b, filled := cfg.budget, Fill(cfg, est, entries);
      var later := seq(|g|, k requires 0 <= k < |g| => entries[g[k]]);
      && |f| <= |filled.accepted|
      && PassedAs(b, est, Reserved, entries, |entries|, 0, filled.accepted[..|f|], f, g, outs)
      && PassedAs(b, est, General, later, |g|, |f|, filled.accepted, f2, g2, outs2)
      && |filled.omissions| == |g2|
      && forall k :: 0 <= k < |g2| ==> g2[k] < |g| && LeftOutAs(later[g2[k]], outs2[k], filled.omissions[k])
  {
    hide Admit, PreparedOk, GeneralPass, ReservedPass, Complete, FillOk, DecidedBy, AllPrepared;
    var b := cfg.budget;
    f, g, outs := ReservedPassIs(b, est, entries, |entries|);
    ReservedPassOk(b, est, entries, |entries|);
    ReservedPassConserves(b, est, entries, |entries|, (identity: nat, digest: nat) => 0);
    assert entries[..|entries|] == entries;
    var first := ReservedPass(b, est, entries);
    assert first.remaining == seq(|g|, k requires 0 <= k < |g| => entries[g[k]]);
    f2, g2, outs2 := GeneralPassIs(b, est, first, first.remaining, |first.remaining|, entries);
    assert first.remaining[..|first.remaining|] == first.remaining;
    var filled := Fill(cfg, est, entries);
    assert filled.accepted[..|f|] == first.accepted;
  }

  function Unnumbered(): Item -> Item { (i: Item) => i.(ordinal := 0) }

  /** A plan lists the items of the filling, each once, with their positions as ordinals. */
  lemma PlanListsFilling(cfg: Configuration, est: Estimator, denied: set<nat>, prior: Prior,
      candidates: seq<Candidate>)
    requires Complete(cfg.budget)
    ensures var items := Plan(cfg, est, denied, prior, candidates).items;
      var entries := Screen(cfg, denied, Sort(candidates, ByCandidateKey())).prepared;
      && Bag(items, Unnumbered()) == Bag(Fill(cfg, est, entries).accepted, Unnumbered())
      && forall i :: 0 <= i < |items| ==> items[i].ordinal == i + 1
  {
    hide Bag, Sort, Screen, Fill, Complete, AllOmissions, AllDiagnostics;
    var accepted := Fill(cfg, est, Screen(cfg, denied, Sort(candidates, ByCandidateKey())).prepared).accepted;
    BagSort(accepted, ByItemKey(), Unnumbered());
    BagSame(Numbered(Sort(accepted, ByItemKey())), Sort(accepted, ByItemKey()), Unnumbered());
  }
}
