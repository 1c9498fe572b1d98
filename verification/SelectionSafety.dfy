/** What every plan of the packer satisfies: caps, exact accounting, conservation, canonical form
    (packages/context/src/select.ts).
 */
module SelectionSafety {
  import opened Utf8
  import opened Framing
  import opened Sentinels
  import opened Ordering
  import opened Selection

  // Sums and bags over sequences ------------------------------------------------------

  function Total<T>(xs: seq<T>, f: T -> nat): nat {
    if xs == [] then 0 else f(xs[0]) + Total(xs[1..], f)
  }

  /** How often each key occurs. */
  function Bag<T, K>(xs: seq<T>, key: T -> K): multiset<K> {
    if xs == [] then multiset{} else multiset{key(xs[0])} + Bag(xs[1..], key)
  }

  lemma {:induction false} TotalSnoc<T>(xs: seq<T>, x: T, f: T -> nat)
    ensures Total(xs + [x], f) == Total(xs, f) + f(x)
  {
    if xs == [] {
      assert xs + [x] == [x] && [x][1..] == [];
    } else {
      TotalSnoc(xs[1..], x, f);
      assert (xs + [x])[1..] == xs[1..] + [x];
    }
  }

  lemma {:induction false} BagSnoc<T, K>(xs: seq<T>, x: T, key: T -> K)
    ensures Bag(xs + [x], key) == Bag(xs, key) + multiset{key(x)}
  {
    if xs == [] {
      assert xs + [x] == [x] && [x][1..] == [];
    } else {
      BagSnoc(xs[1..], x, key);
      assert (xs + [x])[1..] == xs[1..] + [x];
    }
  }

  lemma Regroup<K>(a: multiset<K>, b: multiset<K>, c: multiset<K>)
    ensures (a + b) + c == a + (b + c)
    ensures a + b == b + a
  {
  }

  lemma {:induction false} BagJoin<T, K>(xs: seq<T>, ys: seq<T>, key: T -> K)
    ensures Bag(xs + ys, key) == Bag(xs, key) + Bag(ys, key)
    decreases |ys|
  {
    hide Bag;
    if ys == [] {
      assert xs + ys == xs;
      assert Bag(ys, key) == multiset{} by { BagNone(key); }
    } else {
      var init, last := ys[..|ys| - 1], ys[|ys| - 1];
      BagJoin(xs, init, key);
      BagSnoc(xs + init, last, key);
      BagSnoc(init, last, key);
      assert xs + ys == (xs + init) + [last] && ys == init + [last];
      Regroup(Bag(xs, key), Bag(init, key), multiset{key(last)});
    }
  }

  lemma BagNone<T, K>(key: T -> K)
    ensures Bag([], key) == multiset{}
  {
  }

  lemma {:induction false} TotalInsert<T>(x: T, xs: seq<T>, compare: Comparator<T>, f: T -> nat)
    ensures Total(Insert(x, xs, compare), f) == f(x) + Total(xs, f)
  {
    if xs == [] || compare(x, xs[0]) < 0 {
      assert ([x] + xs)[1..] == xs;
    } else {
      TotalInsert(x, xs[1..], compare, f);
      assert ([xs[0]] + Insert(x, xs[1..], compare))[1..] == Insert(x, xs[1..], compare);
    }
  }

  lemma {:induction false} TotalSort<T>(xs: seq<T>, compare: Comparator<T>, f: T -> nat)
    ensures Total(Sort(xs, compare), f) == Total(xs, f)
  {
    hide Insert;
    if xs != [] {
      var init, last := xs[..|xs| - 1], xs[|xs| - 1];
      TotalSort(init, compare, f);
      TotalInsert(last, Sort(init, compare), compare, f);
      TotalSnoc(init, last, f);
      assert xs == init + [last];
    }
  }

  lemma {:induction false} BagInsert<T, K>(x: T, xs: seq<T>, compare: Comparator<T>, key: T -> K)
    ensures Bag(Insert(x, xs, compare), key) == multiset{key(x)} + Bag(xs, key)
  {
    if xs == [] || compare(x, xs[0]) < 0 {
      assert ([x] + xs)[1..] == xs;
    } else {
      BagInsert(x, xs[1..], compare, key);
      assert ([xs[0]] + Insert(x, xs[1..], compare))[1..] == Insert(x, xs[1..], compare);
    }
  }

  lemma {:induction false} BagSort<T, K>(xs: seq<T>, compare: Comparator<T>, key: T -> K)
    ensures Bag(Sort(xs, compare), key) == Bag(xs, key)
  {
    hide Insert, Bag;
    if xs != [] {
      var init, last := xs[..|xs| - 1], xs[|xs| - 1];
      BagSort(init, compare, key);
      BagInsert(last, Sort(init, compare), compare, key);
      BagSnoc(init, last, key);
      Regroup(Bag(init, key), multiset{key(last)}, multiset{});
      assert xs == init + [last];
    }
  }

  // One admission -------------------------------------------------------------------------

  /** What screening hands on. */
  predicate PreparedOk(e: Prepared) {
    && e.byteLength == ByteLength(e.body) && e.body != "" && BYTE_ORDER_MARK !in e.body
    && e.sentinels == SentinelCount(e.body)
  }

  /** A portion is a whole-character prefix, marked as truncated exactly when it is not all of the body. */
  predicate PortionOk(body: string, p: Portion) {
    p.Portion? ==>
      && p.body <= body && p.byteLength == ByteLength(p.body) && (p.truncated <==> p.body != body)
      && (p.truncated ==> p.byteLength < ByteLength(body))
  }

  lemma CutOk(body: string, maxBytes: nat)
    requires BYTE_ORDER_MARK !in body
    ensures var r := TruncateToBytes(body, maxBytes);
      && r.text <= body && r.byteLength == ByteLength(r.text) <= maxBytes && BYTE_ORDER_MARK !in r.text
      && (r.truncated <==> ByteLength(body) > maxBytes) && (!r.truncated ==> r.text == body)
      && (r.truncated ==> maxBytes <= r.byteLength + 3 && r.byteLength < ByteLength(body) && r.text != body)
  {
    hide TruncateToBytes, Encode;
    TruncationIsPrefix(body, maxBytes);
  }

  lemma WithinBytesOk(b: Budget, e: Prepared, allowed: Limit)
    requires PreparedOk(e)
    ensures var p := WithinBytes(b, e, allowed);
      PortionOk(e.body, p) && (p.Portion? ==> p.byteLength <= allowed.bytes && BYTE_ORDER_MARK !in p.body)
    ensures var p := WithinBytes(b, e, allowed);
      p.Portion? && p.truncated ==> p.byteLength + 3 >= allowed.bytes >= b.minItemBytes
  {
    hide TruncateToBytes, ByteLength;
    if 0 <= allowed.bytes {
      CutOk(e.body, allowed.bytes);
    }
  }

  lemma WithinUnitsOk(b: Budget, est: Estimator, units: nat, body: string, p: Portion)
    requires PortionOk(body, p) && p.Portion? && BYTE_ORDER_MARK !in p.body
    ensures var q := WithinUnits(b, est, units, p);
      PortionOk(body, q) && (q.Portion? ==>
        && q.byteLength <= p.byteLength && units + est.estimate(q.body) <= b.maxTotalUnits
        && (q == p || q.byteLength >= b.minItemBytes))
  {
    hide TruncateToBytes, ByteLength;
    var byUnits := (b.maxTotalUnits - units) * est.bytesPerUnit;
    if 0 <= byUnits {
      CutOk(p.body, if byUnits <= p.byteLength then byUnits else p.byteLength);
    }
  }

  lemma {:induction false} TightestIsLeast(wanted: nat, limits: seq<Limit>, n: nat)
    requires n <= |limits|
    ensures var t := Tightest(wanted, limits, n);
      && t.bytes <= wanted
      && (forall k :: 0 <= k < n ==> t.bytes <= limits[k].bytes)
      && (t == Limit(wanted, BudgetBytesExhausted)
          || exists k :: 0 <= k < n && t == limits[k] && limits[k].bytes < wanted)
  {
    if n > 0 {
      TightestIsLeast(wanted, limits, n - 1);
    }
  }

  /** The item that an entry became, whole or in part. */
  predicate TakenFrom(e: Prepared, item: Item) {
    var c := e.candidate;
    && item.sourceKind == c.sourceKind && item.category == c.category && item.identity == c.identity
    && item.digest == c.digest && item.score == c.baseScore && item.details == c.details
    && item.sentinels == e.sentinels
    && item.body <= e.body && item.byteContribution
         == ByteLength(item.body) && (item.truncated <==> item.body != e.body)
  }

  /** What the budget still has room for. */
  predicate Affordable(b: Budget, s: BudgetState, item: Item)
    requires Complete(b)
  {
    && s.items < b.maxItems && At(s.itemsByCategory, item.category) < b.categories[item.category].maxItems
    && item.byteContribution <= b.maxItemBytes
    && At(s.bytesByCategory, item.category) + item.byteContribution <= b.categories[item.category].maxBytes
    && At(s.bytesBySourceKind, item.sourceKind) + item.byteContribution <= b.maxBytesPerSourceKind
    && s.bytes + item.byteContribution <= b.maxTotalBytes
    && s.units + item.unitContribution <= b.maxTotalUnits
  }

  /** An admitted item is a prefix of its candidate's text, fits every cap, and is charged for exactly. */
  lemma AdmissionIsSound(b: Budget, est: Estimator, s: BudgetState, accepted: nat, e: Prepared, phase: Phase)
    requires Complete(b) && PreparedOk(e)
    ensures var (outcome, after) := Admit(b, est, s, accepted, e, phase);
      outcome.Admitted? ==>
        && TakenFrom(e, outcome.item) && Affordable(b, s, outcome.item)
        && outcome.item.unitContribution == est.estimate(outcome.item.body)
        && after == Charge(s, e.candidate, outcome.item.byteContribution, outcome.item.unitContribution)
        && (phase.Reserved? ==> outcome.item.byteContribution <= ReservationLeft(b, s, e.candidate.category))
  {
    hide WithinBytes, WithinUnits, Tightest, ByteLength, Charge, Complete;
    var limits := LimitsFor(b, s, e.candidate);
    TightestIsLeast(e.byteLength, limits, 4);
    var allowed := Tightest(e.byteLength, limits, 4);
    WithinBytesOk(b, e, allowed);
    var p := WithinBytes(b, e, allowed);
    if p.Portion? {
      WithinUnitsOk(b, est, s.units, e.body, p);
    }
    assert allowed.bytes <= limits[0].bytes && allowed.bytes <= limits[1].bytes && allowed.bytes <= limits[2].bytes
        && allowed.bytes <= limits[3].bytes;
  }

  // Accounts and caps through both passes -------------------------------------------------------

  function ItemBytes(): Item -> nat { (i: Item) => i.byteContribution }
  function ItemUnits(): Item -> nat { (i: Item) => i.unitContribution }
  function BytesIn(c: Category): Item -> nat { (i: Item) => if i.category == c then i.byteContribution else 0 }
  function BytesFrom(k: SourceKind): Item -> nat { (i: Item) => if i.sourceKind == k then i.byteContribution else 0 }
  function CountIn(c: Category): Item -> nat { (i: Item) => if i.category == c then 1 else 0 }

  /** The counters are exactly the sums over the items. */
  ghost predicate Ledger(s: BudgetState, items: seq<Item>) {
    && s.bytes == Total(items, ItemBytes()) && s.units == Total(items, ItemUnits()) && s.items == |items|
    && (forall c: Category :: At(s.bytesByCategory, c) == Total(items, BytesIn(c)))
    && (forall k: SourceKind :: At(s.bytesBySourceKind, k) == Total(items, BytesFrom(k)))
    && (forall c: Category :: At(s.itemsByCategory, c) == Total(items, CountIn(c)))
  }

  ghost predicate Capped(b: Budget, s: BudgetState)
    requires Complete(b)
  {
    && s.bytes <= b.maxTotalBytes && s.units <= b.maxTotalUnits && s.items <= b.maxItems
    && (forall c: Category :: At(s.bytesByCategory, c) <= b.categories[c].maxBytes)
    && (forall k: SourceKind :: At(s.bytesBySourceKind, k) <= b.maxBytesPerSourceKind)
    && (forall c: Category :: At(s.itemsByCategory, c) <= b.categories[c].maxItems)
  }

  /** Every item is cut from an entry, is no larger than an item may be, and costs what the estimator says. */
  ghost predicate FromEntries(b: Budget, est: Estimator, items: seq<Item>, entries: seq<Prepared>) {
    forall i :: 0 <= i < |items| ==>
      && items[i].byteContribution <= b.maxItemBytes && items[i].unitContribution == est.estimate(items[i].body)
      && FromSome(items[i], entries)
  }

  ghost predicate FromSome(item: Item, entries: seq<Prepared>) {
    exists k :: 0 <= k < |entries| && TakenFrom(entries[k], item)
  }

  ghost predicate AllPrepared(entries: seq<Prepared>) {
    forall e :: e in entries ==> PreparedOk(e)
  }

  lemma ChargeKeepsLedger(s: BudgetState, items: seq<Item>, e: Prepared, item: Item)
    requires Ledger(s, items) && TakenFrom(e, item)
    ensures Ledger(Charge(s, e.candidate, item.byteContribution, item.unitContribution), items + [item])
  {
    hide Total, ByteLength, TakenFrom;
    assert item.category == e.candidate.category && item.sourceKind == e.candidate.sourceKind by { TakenKeys(e, item); }
    TotalSnoc(items, item, ItemBytes());
    TotalSnoc(items, item, ItemUnits());
    forall c: Category ensures Total(items + [item], BytesIn(c)) == Total(items, BytesIn(c)) + BytesIn(c)(item) {
      TotalSnoc(items, item, BytesIn(c));
    }
    forall k: SourceKind ensures Total(items + [item], BytesFrom(k))
        == Total(items, BytesFrom(k)) + BytesFrom(k)(item) {
      TotalSnoc(items, item, BytesFrom(k));
    }
    forall c: Category ensures Total(items + [item], CountIn(c)) == Total(items, CountIn(c)) + CountIn(c)(item) {
      TotalSnoc(items, item, CountIn(c));
    }
  }

  lemma TakenKeys(e: Prepared, item: Item)
    requires TakenFrom(e, item)
    ensures item.category == e.candidate.category && item.sourceKind == e.candidate.sourceKind
    ensures item.identity == e.candidate.identity && item.digest == e.candidate.digest
  {
  }

  lemma ChargeKeepsCaps(b: Budget, s: BudgetState, c: Candidate, item: Item)
    requires Complete(b) && Capped(b, s) && Affordable(b, s, item)
    requires item.category == c.category && item.sourceKind == c.sourceKind
    ensures Capped(b, Charge(s, c, item.byteContribution, item.unitContribution))
  {
    var t := Charge(s, c, item.byteContribution, item.unitContribution);
    forall k: SourceKind ensures At(t.bytesBySourceKind, k) <= b.maxBytesPerSourceKind {
      assert k != c.sourceKind ==> At(t.bytesBySourceKind, k) == At(s.bytesBySourceKind, k);
    }
  }

  /** What holds of the packer between any two attempts. */
  ghost predicate FillOk(b: Budget, est: Estimator, f: Filling, entries: seq<Prepared>)
    requires Complete(b)
  {
    && Ledger(f.state, f.accepted) && Capped(b, f.state) && FromEntries(b, est, f.accepted, entries)
    && forall e :: e in f.remaining ==> e in entries
  }

  lemma AdmitKeepsFill(b: Budget, est: Estimator, f: Filling, e: Prepared, phase: Phase, entries: seq<Prepared>)
    requires Complete(b) && FillOk(b, est, f, entries) && PreparedOk(e) && e in entries
    ensures var (outcome, after) := Admit(b, est, f.state, |f.accepted|, e, phase);
      outcome.Admitted? ==> FillOk(b, est, WithItem(f, e, outcome.item, after), entries)
  {
    hide Admit, Ledger, Capped, Charge, TakenFrom, PreparedOk, Complete;
    AdmissionIsSound(b, est, f.state, |f.accepted|, e, phase);
    var (outcome, after) := Admit(b, est, f.state, |f.accepted|, e, phase);
    if outcome.Admitted? {
      TakenKeys(e, outcome.item);
      ChargeKeepsLedger(f.state, f.accepted, e, outcome.item);
      ChargeKeepsCaps(b, f.state, e.candidate, outcome.item);
    }
  }

  lemma NothingIsOk(b: Budget, est: Estimator, entries: seq<Prepared>)
    requires Complete(b)
    ensures FillOk(b, est, Filling(NOTHING_SPENT, [], [], [], []), entries)
  {
    NothingAt();
  }

  lemma NothingAt()
    ensures forall c: Category :: At(ZeroByCategory(), c) == 0
    ensures forall k: SourceKind :: At(ZeroBySourceKind(), k) == 0
  {
  }

  lemma {:induction false} ReservedPassOk(b: Budget, est: Estimator, entries: seq<Prepared>, n: nat)
    requires Complete(b) && AllPrepared(entries) && n <= |entries|
    ensures FillOk(b, est, ReservedPass(b, est, entries[..n]), entries)
  {
    hide Ledger, Capped, FromEntries, Admit, PreparedOk, ReservedPass, Complete;
    PassStep(b, est, entries, n);
    if n == 0 {
      NothingIsOk(b, est, entries);
    } else {
      ReservedPassOk(b, est, entries, n - 1);
      var f := ReservedPass(b, est, entries[..n - 1]);
      RefusalIsFree(b, est, f.state, |f.accepted|, entries[n - 1], Reserved);
      AdmitKeepsFill(b, est, f, entries[n - 1], Reserved, entries);
    }
  }

  lemma {:induction false} GeneralPassOk(b: Budget, est: Estimator, start: Filling, todo: seq<Prepared>, n: nat,
      entries: seq<Prepared>)
    requires Complete(b) && AllPrepared(entries) && FillOk(b, est, start, entries) && n <= |todo|
    requires forall e :: e in todo ==> e in entries
    ensures FillOk(b, est, GeneralPass(b, est, start, todo[..n]), entries)
  {
    hide Ledger, Capped, FromEntries, Admit, PreparedOk, GeneralPass, Complete;
    GeneralStep(b, est, start, todo, n);
    if n > 0 {
      GeneralPassOk(b, est, start, todo, n - 1, entries);
      var f := GeneralPass(b, est, start, todo[..n - 1]);
      RefusalIsFree(b, est, f.state, |f.accepted|, todo[n - 1], General);
      AdmitKeepsFill(b, est, f, todo[n - 1], General, entries);
    }
  }

  lemma FillIsOk(cfg: Configuration, est: Estimator, entries: seq<Prepared>)
    requires Complete(cfg.budget) && AllPrepared(entries)
    ensures FillOk(cfg.budget, est, Fill(cfg, est, entries), entries)
  {
    hide Ledger, Capped, FromEntries, GeneralPass, ReservedPass, PreparedOk, Complete, AllPrepared;
    var b := cfg.budget;
    ReservedPassOk(b, est, entries, |entries|);
    assert entries[..|entries|] == entries;
    var first := ReservedPass(b, est, entries);
    GeneralPassOk(b, est, first, first.remaining, |first.remaining|, entries);
    assert first.remaining[..|first.remaining|] == first.remaining;
  }

  lemma {:induction false} ScreenedOk(cfg: Configuration, denied: set<nat>, candidates: seq<Candidate>, n: nat)
    requires n <= |candidates|
    ensures AllPrepared(Screen(cfg, denied, candidates[..n]).prepared)
    ensures forall e :: e in Screen(cfg, denied, candidates[..n]).prepared ==>
      e.candidate in candidates && e.candidate.identity !in denied
          && e.candidate.classification <= cfg.maxClassification
      && e.body == Sanitized(e.candidate.body) && e.sentinels == SentinelCount(e.body)
  {
    hide Screen, Sanitized, ByteLength, SentinelCount;
    ScreenStep(cfg, denied, candidates, n);
    if n > 0 {
      ScreenedOk(cfg, denied, candidates, n - 1);
      SanitizedIsClean(candidates[n - 1].body);
    }
  }

  // Conservation -------------------------------------------------------------------------------

  /** A way to name a candidate, and what became of it, by its identity and digest. */
  type Naming<!K> = (nat, nat) -> K

  function CandidateName<K>(g: Naming<K>): Candidate -> K { (c: Candidate) => g(c.identity, c.digest) }
  function PreparedName<K>(g: Naming<K>): Prepared -> K { (e: Prepared) => g(e.candidate.identity, e.candidate.digest) }
  function ItemName<K>(g: Naming<K>): Item -> K { (i: Item) => g(i.identity, i.digest) }
  function OmissionName<K>(g: Naming<K>): Omission -> K { (o: Omission) => g(o.identity, o.digest) }

  /** Where the names of all candidates screened so far are. */
  ghost function Screened<K>(s: Screening, g: Naming<K>): multiset<K> {
    Bag(s.prepared, PreparedName(g)) + Bag(s.omissions, OmissionName(g))
  }

  lemma ScreenOneConserves<K>(cfg: Configuration, denied: set<nat>, s: Screening, c: Candidate, g: Naming<K>)
    ensures Screened(ScreenOne(cfg, denied, s, c), g) == Screened(s, g) + multiset{g(c.identity, c.digest)}
  {
    hide Bag, Sanitized, SentinelCount, ByteLength, RemovalsFrom, MarkersIn;
    var after := ScreenOne(cfg, denied, s, c);
    var p, o, x := Bag(s.prepared, PreparedName(g)), Bag(s.omissions, OmissionName(g)),
        multiset{g(c.identity, c.digest)};
    Regroup(p, o, x);
    Regroup(p, x, o);
    Regroup(o, x, p);
    if after.omissions == s.omissions {
      BagSnoc(s.prepared, after.prepared[|s.prepared|], PreparedName(g));
    } else {
      BagSnoc(s.omissions, after.omissions[|s.omissions|], OmissionName(g));
    }
  }

  lemma {:induction false} ScreenConserves<K>(cfg: Configuration, denied: set<nat>, candidates: seq<Candidate>,
      n: nat, g: Naming<K>)
    requires n <= |candidates|
    ensures Bag(candidates[..n], CandidateName(g)) == Screened(Screen(cfg, denied, candidates[..n]), g)
  {
    hide Screen, ScreenOne, Bag;
    ScreenStep(cfg, denied, candidates, n);
    BagNone(CandidateName(g));
    BagNone(PreparedName(g));
    BagNone(OmissionName(g));
    if n > 0 {
      var c := candidates[n - 1];
      ScreenConserves(cfg, denied, candidates, n - 1, g);
      assert candidates[..n] == candidates[..n - 1] + [c];
      BagSnoc(candidates[..n - 1], c, CandidateName(g));
      ScreenOneConserves(cfg, denied, Screen(cfg, denied, candidates[..n - 1]), c, g);
    }
  }

  lemma AdmittedName(b: Budget, est: Estimator, s: BudgetState, accepted: nat, e: Prepared, phase: Phase)
    requires Complete(b)
    ensures var (outcome, _) := Admit(b, est, s, accepted, e, phase);
      outcome.Admitted? ==> outcome.item.identity == e.candidate.identity && outcome.item.digest == e.candidate.digest
  {
    hide WithinBytes, WithinUnits, Tightest, Charge;
  }

  lemma {:induction false} ReservedPassConserves<K>(b: Budget, est: Estimator, entries: seq<Prepared>, n: nat,
      g: Naming<K>)
    requires Complete(b) && n <= |entries|
    ensures var f := ReservedPass(b, est, entries[..n]);
      f.omissions == [] && Bag(entries[..n], PreparedName(g))
          == Bag(f.accepted, ItemName(g)) + Bag(f.remaining, PreparedName(g))
  {
    hide ReservedPass, Bag, Admit, Complete;
    PassStep(b, est, entries, n);
    BagNone(ItemName(g));
    BagNone(PreparedName(g));
    if n > 0 {
      var before := ReservedPass(b, est, entries[..n - 1]);
      var e := entries[n - 1];
      ReservedPassConserves(b, est, entries, n - 1, g);
      AdmittedName(b, est, before.state, |before.accepted|, e, Reserved);
      assert entries[..n] == entries[..n - 1] + [e];
      BagSnoc(entries[..n - 1], e, PreparedName(g));
      var (outcome, _) := Admit(b, est, before.state, |before.accepted|, e, Reserved);
      var a, r, x := Bag(before.accepted, ItemName(g)), Bag(before.remaining, PreparedName(g)),
          multiset{g(e.candidate.identity, e.candidate.digest)};
      Regroup(a, r, x);
      Regroup(a, x, r);
      Regroup(r, x, a);
      if outcome.Admitted? {
        BagSnoc(before.accepted, outcome.item, ItemName(g));
      } else {
        BagSnoc(before.remaining, e, PreparedName(g));
      }
    }
  }

  /** Where the names of all entries seen so far are. */
  ghost function Placed<K>(f: Filling, g: Naming<K>): multiset<K> {
    Bag(f.accepted, ItemName(g)) + Bag(f.omissions, OmissionName(g))
  }

  lemma GeneralOneConserves<K>(b: Budget, est: Estimator, f: Filling, e: Prepared, g: Naming<K>)
    requires Complete(b)
    ensures Placed(GeneralOne(b, est, f, e), g) == Placed(f, g) + multiset{g(e.candidate.identity, e.candidate.digest)}
  {
    hide Bag, Admit, Complete;
    AdmittedName(b, est, f.state, |f.accepted|, e, General);
    RefusalIsFree(b, est, f.state, |f.accepted|, e, General);
    var (outcome, _) := Admit(b, est, f.state, |f.accepted|, e, General);
    var a, o, x := Bag(f.accepted, ItemName(g)), Bag(f.omissions, OmissionName(g)),
        multiset{g(e.candidate.identity, e.candidate.digest)};
    Regroup(a, o, x);
    Regroup(a, x, o);
    Regroup(o, x, a);
    if outcome.Admitted? {
      BagSnoc(f.accepted, outcome.item, ItemName(g));
    } else if outcome.Refused? {
      BagSnoc(f.omissions, Omitting(e.candidate, outcome.reason, e.byteLength), OmissionName(g));
    }
  }

  lemma {:induction false} GeneralPassConserves<K>(b: Budget, est: Estimator, start: Filling, todo: seq<Prepared>,
      n: nat, g: Naming<K>)
    requires Complete(b) && n <= |todo|
    ensures Placed(GeneralPass(b, est, start, todo[..n]), g) == Placed(start, g) + Bag(todo[..n], PreparedName(g))
  {
    hide GeneralPass, GeneralOne, Bag, Complete, Placed;
    GeneralStep(b, est, start, todo, n);
    BagNone(PreparedName(g));
    if n > 0 {
      var e := todo[n - 1];
      GeneralPassConserves(b, est, start, todo, n - 1, g);
      GeneralOneConserves(b, est, GeneralPass(b, est, start, todo[..n - 1]), e, g);
      assert todo[..n] == todo[..n - 1] + [e];
      BagSnoc(todo[..n - 1], e, PreparedName(g));
      Regroup(Placed(start, g), Bag(todo[..n - 1], PreparedName(g)),
          multiset{g(e.candidate.identity, e.candidate.digest)});
    }
  }

  lemma FillConserves<K>(cfg: Configuration, est: Estimator, entries: seq<Prepared>, g: Naming<K>)
    requires Complete(cfg.budget)
    ensures Placed(Fill(cfg, est, entries), g) == Bag(entries, PreparedName(g))
  {
    hide ReservedPass, GeneralPass, Bag, Complete;
    var b := cfg.budget;
    ReservedPassConserves(b, est, entries, |entries|, g);
    assert entries[..|entries|] == entries;
    var first := ReservedPass(b, est, entries);
    GeneralPassConserves(b, est, first, first.remaining, |first.remaining|, g);
    assert first.remaining[..|first.remaining|] == first.remaining;
    BagNone(OmissionName(g));
  }

  lemma {:induction false} BagSame<T, K>(xs: seq<T>, ys: seq<T>, key: T -> K)
    requires |xs| == |ys| && forall i :: 0 <= i < |xs| ==> key(xs[i]) == key(ys[i])
    ensures Bag(xs, key) == Bag(ys, key)
  {
    if xs != [] {
      assert forall i :: 0 <= i < |xs| - 1 ==> xs[1..][i] == xs[i + 1] && ys[1..][i] == ys[i + 1];
      BagSame(xs[1..], ys[1..], key);
    }
  }

  lemma {:induction false} TotalSame<T>(xs: seq<T>, ys: seq<T>, f: T -> nat)
    requires |xs| == |ys| && forall i :: 0 <= i < |xs| ==> f(xs[i]) == f(ys[i])
    ensures Total(xs, f) == Total(ys, f)
  {
    if xs != [] {
      assert forall i :: 0 <= i < |xs| - 1 ==> xs[1..][i] == xs[i + 1] && ys[1..][i] == ys[i + 1];
      TotalSame(xs[1..], ys[1..], f);
    }
  }

  /** The items of a plan are the accepted ones, renumbered. */
  lemma ItemsBag<K>(accepted: seq<Item>, g: Naming<K>)
    ensures Bag(Numbered(Sort(accepted, ByItemKey())), ItemName(g)) == Bag(accepted, ItemName(g))
  {
    hide Bag, Sort;
    var sorted := Sort(accepted, ByItemKey());
    BagSort(accepted, ByItemKey(), ItemName(g));
    BagSame(Numbered(sorted), sorted, ItemName(g));
  }

  function PlannedItems(cfg: Configuration, est: Estimator, denied: set<nat>, candidates: seq<Candidate>): seq<Item>
    requires Complete(cfg.budget)
  {
    Numbered(Sort(Fill(cfg, est, Screen(cfg, denied, Sort(candidates, ByCandidateKey())).prepared).accepted,
        ByItemKey()))
  }

  /** Each candidate ends in exactly one place, the items or the (uncapped) omissions, whatever way it is named. */
  lemma EveryCandidateOnce<K>(
    cfg: Configuration, est: Estimator, denied: set<nat>, prior: Prior, candidates: seq<Candidate>, g: Naming<K>)
    requires Complete(cfg.budget)
    ensures PlannedItems(cfg, est, denied, candidates) == Plan(cfg, est, denied, prior, candidates).items
    ensures Bag(candidates, CandidateName(g)) + Bag(prior.omissions, OmissionName(g))
         == Bag(PlannedItems(cfg, est, denied, candidates), ItemName(g))
          + Bag(AllOmissions(cfg, est, denied, prior.omissions, Sort(candidates, ByCandidateKey())), OmissionName(g))
  {
    hide Bag, Sort, Screen, Fill, Complete, Numbered;
    var sorted := Sort(candidates, ByCandidateKey());
    var screening := Screen(cfg, denied, sorted);
    var filled := Fill(cfg, est, screening.prepared);
    BagSort(candidates, ByCandidateKey(), CandidateName(g));
    ScreenConserves(cfg, denied, sorted, |sorted|, g);
    assert sorted[..|sorted|] == sorted;
    FillConserves(cfg, est, screening.prepared, g);
    ItemsBag(filled.accepted, g);
    BagJoin(prior.omissions + screening.omissions, filled.omissions, OmissionName(g));
    BagJoin(prior.omissions, screening.omissions, OmissionName(g));
    AddUp(Bag(prior.omissions, OmissionName(g)), Bag(screening.omissions, OmissionName(g)),
          Bag(filled.accepted, ItemName(g)), Bag(filled.omissions, OmissionName(g)));
  }

  lemma AddUp<K>(p: multiset<K>, s: multiset<K>, a: multiset<K>, o: multiset<K>)
    ensures ((a + o) + s) + p == a + ((p + s) + o)
  {
  }
}
