/** Streaming redaction of literal byte strings (packages/artifact-store/src/transform.ts).

    The transform sees its input in chunks of arbitrary size and keeps back only a short
    carry. The question this module answers is when its output is the one that redacting
    the whole input at once would give, and what holds of the output in every case.
 */
module Redaction {
  import opened Basics

  /** `Match(index, which)` is literal number `which` found at `index`. */
  datatype Match = NoMatch | Match(index: nat, which: nat)

  predicate OccursAt(buffer: Bytes, literal: Bytes, at: int) {
    0 <= at && at + |literal| <= |buffer| && buffer[at..at + |literal|] == literal
  }

  /** What option parsing guarantees: at least one literal, none of them empty. */
  predicate ValidLiterals(literals: seq<Bytes>) {
    |literals| >= 1 && forall k :: 0 <= k < |literals| ==> literals[k] != []
  }

  /** The leftmost occurrence wins; at one index, the literal listed first wins. */
  ghost predicate IsEarliest(buffer: Bytes, literals: seq<Bytes>, n: nat, m: Match)
    requires n <= |literals|
  {
    match m
    case NoMatch => forall k, i :: 0 <= k < n ==> !OccursAt(buffer, literals[k], i)
    case Match(index, which) =>
      && which < n
      && OccursAt(buffer, literals[which], index)
      && forall k, i :: 0 <= k < n && OccursAt(buffer, literals[k], i) ==>
                          index < i || (index == i && which <= k)
  }

  ghost predicate LiteralFree(literals: seq<Bytes>, s: Bytes) {
    IsEarliest(s, literals, |literals|, NoMatch)
  }

  function IndexOf(buffer: Bytes, literal: Bytes, from: nat): (r: int)
    requires from <= |buffer|
    ensures r == -1 || from <= r <= |buffer| - |literal|
    decreases |buffer| - from
  {
    if OccursAt(buffer, literal, from) then from
    else if from == |buffer| then -1
    else IndexOf(buffer, literal, from + 1)
  }

  lemma {:induction false} IndexOfIsFirst(buffer: Bytes, literal: Bytes, from: nat)
    requires from <= |buffer|
    ensures var r := IndexOf(buffer, literal, from);
      && (r != -1 ==> OccursAt(buffer, literal, r))
      && forall i :: from <= i && (r == -1 || i < r) ==> !OccursAt(buffer, literal, i)
    decreases |buffer| - from
  {
    if !OccursAt(buffer, literal, from) && from < |buffer| {
      IndexOfIsFirst(buffer, literal, from + 1);
    }
  }

  predicate InBounds(buffer: Bytes, literals: seq<Bytes>, m: Match) {
    m.Match? ==> m.which < |literals| && m.index + |literals[m.which]| <= |buffer|
  }

  /** The best match among the first `n` literals. */
  function EarliestAmong(buffer: Bytes, literals: seq<Bytes>, n: nat): (m: Match)
    requires n <= |literals|
    ensures InBounds(buffer, literals, m)
  {
    if n == 0 then NoMatch
    else
      var best := EarliestAmong(buffer, literals, n - 1);
      var index := IndexOf(buffer, literals[n - 1], 0);
      if index != -1 && (best.NoMatch? || index < best.index) then Match(index, n - 1) else best
  }

  lemma {:induction false} EarliestAmongIsEarliest(buffer: Bytes, literals: seq<Bytes>, n: nat)
    requires n <= |literals|
    ensures IsEarliest(buffer, literals, n, EarliestAmong(buffer, literals, n))
  {
    if n > 0 {
      EarliestAmongIsEarliest(buffer, literals, n - 1);
      IndexOfIsFirst(buffer, literals[n - 1], 0);
    }
  }

  function Earliest(buffer: Bytes, literals: seq<Bytes>): (m: Match)
    ensures InBounds(buffer, literals, m)
  {
    EarliestAmong(buffer, literals, |literals|)
  }

  /** `Earliest` is leftmost-first, and it is the only match that is. */
  lemma EarliestSpec(buffer: Bytes, literals: seq<Bytes>)
    ensures IsEarliest(buffer, literals, |literals|, Earliest(buffer, literals))
  {
    EarliestAmongIsEarliest(buffer, literals, |literals|);
  }

  lemma EarliestIsUnique(buffer: Bytes, literals: seq<Bytes>, m: Match)
    requires IsEarliest(buffer, literals, |literals|, m)
    ensures m == Earliest(buffer, literals)
  {
    EarliestSpec(buffer, literals);
    var e := Earliest(buffer, literals);
    if m.Match? && e.Match? {
      assert OccursAt(buffer, literals[m.which], m.index) && OccursAt(buffer, literals[e.which], e.index);
    }
  }

  method IndexOfEarliestMatch(buffer: Bytes, literals: seq<Bytes>) returns (best: Match)
    ensures IsEarliest(buffer, literals, |literals|, best)
    ensures best == Earliest(buffer, literals)
  {
    best := NoMatch;
    for n := 0 to |literals|
      invariant IsEarliest(buffer, literals, n, best)
    {
      var index := IndexOf(buffer, literals[n], 0);
      IndexOfIsFirst(buffer, literals[n], 0);
      if index != -1 && (best.NoMatch? || index < best.index) {
        best := Match(index, n);
      }
    }
    EarliestIsUnique(buffer, literals, best);
  }

  /** The reference: leftmost-first redaction of the whole input at once. */
  function Redact(literals: seq<Bytes>, replacement: Bytes, input: Bytes): Bytes
    requires ValidLiterals(literals)
    decreases |input|
  {
    match Earliest(input, literals)
    case NoMatch => input
    case Match(i, k) => input[..i] + replacement + Redact(literals, replacement, input[i + |literals[k]|..])
  }

  function Flatten(pieces: seq<Bytes>): Bytes {
    if pieces == [] then [] else pieces[0] + Flatten(pieces[1..])
  }

  lemma Assoc(a: Bytes, b: Bytes, c: Bytes)
    ensures a + b + c == a + (b + c)
  {
  }

  lemma Assoc4(a: Bytes, b: Bytes, c: Bytes, d: Bytes)
    ensures a + b + c + d == a + (b + c + d)
  {
  }

  lemma SliceShift(head: Bytes, tail: Bytes, i: nat, j: nat)
    requires i <= |tail| && j <= |tail|
    ensures (head + tail)[..i + |head|] == head + tail[..i]
    ensures (head + tail)[j + |head|..] == tail[j..]
  {
  }

  lemma SliceBefore(head: Bytes, tail: Bytes, i: nat, j: nat)
    requires i <= |head| && j <= |head|
    ensures (head + tail)[..i] == head[..i]
    ensures (head + tail)[j..] == head[j..] + tail
  {
  }

  lemma {:induction false} FlattenAppend(pieces: seq<Bytes>, last: Bytes)
    ensures Flatten(pieces + [last]) == Flatten(pieces) + last
  {
    if pieces == [] {
      assert [last][1..] == [];
    } else {
      FlattenAppend(pieces[1..], last);
      Assoc(pieces[0], Flatten(pieces[1..]), last);
      assert (pieces + [last])[1..] == pieces[1..] + [last];
    }
  }

  lemma NothingFlattens()
    ensures Flatten([]) == []
  {
  }

  function MaxLength(literals: seq<Bytes>): (n: nat)
    requires |literals| >= 1
    ensures forall k :: 0 <= k < |literals| ==> |literals[k]| <= n
    ensures exists k :: 0 <= k < |literals| && |literals[k]| == n
  {
    var last := |literals[|literals| - 1]|;
    if |literals| == 1 then last
    else
      var init := literals[..|literals| - 1];
      var rest := MaxLength(init);
      assert forall k {:trigger literals[k]} :: 0 <= k < |init| ==> literals[k] == init[k];
      if last < rest then rest else last
  }

  function Holdback(literals: seq<Bytes>): nat
    requires ValidLiterals(literals)
  {
    assert |literals[0]| >= 1;
    MaxLength(literals) - 1
  }

  datatype Drained = Drained(output: Bytes, carry: Bytes)

  /** How many bytes of a match-free remainder may be passed on. */
  function SafeLength(literals: seq<Bytes>, remaining: Bytes, final: bool): (n: nat)
    requires ValidLiterals(literals)
    ensures n <= |remaining|
  {
    if final then |remaining|
    else if |remaining| > Holdback(literals) then |remaining| - Holdback(literals) else 0
  }

  /** One call of `drain`: what it emits and what it carries over. */
  function Drain(literals: seq<Bytes>, replacement: Bytes, buffer: Bytes, final: bool): (d: Drained)
    requires ValidLiterals(literals)
    decreases |buffer|
  {
    match Earliest(buffer, literals)
    case NoMatch =>
      var n := SafeLength(literals, buffer, final);
      Drained(buffer[..n], buffer[n..])
    case Match(i, k) =>
      var d := Drain(literals, replacement, buffer[i + |literals[k]|..], final);
      Drained(buffer[..i] + replacement + d.output, d.carry)
  }

  /** Everything the generator still yields, from carry `carry` with `chunks` to come. */
  function Stream(literals: seq<Bytes>, replacement: Bytes, carry: Bytes, chunks: seq<Bytes>): Bytes
    requires ValidLiterals(literals)
    decreases |chunks|
  {
    if chunks == [] then Drain(literals, replacement, carry, true).output
    else
      var d := Drain(literals, replacement, carry + chunks[0], false);
      d.output + Stream(literals, replacement, d.carry, chunks[1..])
  }

  lemma DrainHit(literals: seq<Bytes>, replacement: Bytes, buffer: Bytes, final: bool)
    requires ValidLiterals(literals) && Earliest(buffer, literals).Match?
    ensures var m := Earliest(buffer, literals);
      var d := Drain(literals, replacement, buffer[m.index + |literals[m.which]|..], final);
      Drain(literals, replacement, buffer, final) == Drained(buffer[..m.index] + replacement + d.output, d.carry)
  {
    hide Earliest;
  }

  lemma DrainMiss(literals: seq<Bytes>, replacement: Bytes, buffer: Bytes, final: bool)
    requires ValidLiterals(literals) && Earliest(buffer, literals).NoMatch?
    ensures var n := SafeLength(literals, buffer, final);
      Drain(literals, replacement, buffer, final) == Drained(buffer[..n], buffer[n..])
  {
    hide Earliest;
  }

  lemma StreamStep(literals: seq<Bytes>, replacement: Bytes, carry: Bytes, chunks: seq<Bytes>, n: nat)
    requires ValidLiterals(literals) && n < |chunks|
    ensures var d := Drain(literals, replacement, carry + chunks[n], false);
      Stream(literals, replacement, carry, chunks[n..])
          == d.output + Stream(literals, replacement, d.carry, chunks[n + 1..])
  {
    hide Drain;
    assert chunks[n..][0] == chunks[n] && chunks[n..][1..] == chunks[n + 1..];
  }

  lemma StreamEnd(literals: seq<Bytes>, replacement: Bytes, carry: Bytes, chunks: seq<Bytes>)
    requires ValidLiterals(literals)
    ensures Stream(literals, replacement, carry, chunks[|chunks|..]) == Drain(literals, replacement, carry, true).output
  {
    hide Drain;
  }

  /** The generator returned by `createLiteralRedactionTransform`. */
  class RedactionStream {
    const literals: seq<Bytes>
    const replacement: Bytes
    const holdback: nat
    var carry: Bytes

    predicate Valid() {
      ValidLiterals(literals) && holdback == Holdback(literals)
    }

    constructor (literals: seq<Bytes>, replacement: Bytes)
      requires ValidLiterals(literals)
      ensures Valid() && carry == [] && this.literals == literals && this.replacement == replacement
    {
      this.literals := literals;
      this.replacement := replacement;
      this.holdback := Holdback(literals);
      this.carry := [];
    }

    method DrainBuffer(buffer: Bytes, final: bool) returns (output: seq<Bytes>)
      requires Valid()
      modifies this`carry
      ensures Drained(Flatten(output), carry) == Drain(literals, replacement, buffer, final)
      ensures forall p :: 0 <= p < |output| ==> output[p] != [] || output[p] == replacement
    {
      hide Earliest, Drain, Flatten;
      NothingFlattens();
      output := [];
      ghost var sent: Bytes := [];
      var remaining := buffer;
      while true
        invariant Flatten(output) == sent
        invariant sent + Drain(literals, replacement, remaining, final).output
               == Drain(literals, replacement, buffer, final).output
        invariant Drain(literals, replacement, remaining, final).carry
            == Drain(literals, replacement, buffer, final).carry
        invariant forall p :: 0 <= p < |output| ==> output[p] != [] || output[p] == replacement
        decreases |remaining|
      {
        var m := IndexOfEarliestMatch(remaining, literals);
        if m.NoMatch? {
          DrainMiss(literals, replacement, remaining, final);
          break;
        }
        DrainHit(literals, replacement, remaining, final);
        var skipped := remaining[..m.index];
        remaining := remaining[m.index + |literals[m.which]|..];
        Assoc(sent, skipped + replacement, Drain(literals, replacement, remaining, final).output);
        Assoc(sent, skipped, replacement);
        if m.index > 0 {
          FlattenAppend(output, skipped);
          output := output + [skipped];
        }
        FlattenAppend(output, replacement);
        output := output + [replacement];
        sent := sent + skipped + replacement;
      }
      var safeLength := if final then |remaining| else if |remaining| > holdback then |remaining| - holdback else 0;
      if safeLength > 0 {
        FlattenAppend(output, remaining[..safeLength]);
        output := output + [remaining[..safeLength]];
      }
      carry := remaining[safeLength..];
    }

    method Run(chunks: seq<Bytes>) returns (output: seq<Bytes>)
      requires Valid() && carry == []
      modifies this`carry
      ensures Flatten(output) == Stream(literals, replacement, [], chunks)
    {
      hide Drain, Stream, ValidLiterals;
      assert chunks[0..] == chunks;
      output := [];
      for n := 0 to |chunks|
        invariant Flatten(output) + Stream(literals, replacement, carry, chunks[n..])
               == Stream(literals, replacement, [], chunks)
      {
        StreamStep(literals, replacement, carry, chunks, n);
        var pieces := DrainBuffer(carry + chunks[n], false);
        FlattenConcat(output, pieces);
        Assoc(Flatten(output), Flatten(pieces), Stream(literals, replacement, carry, chunks[n + 1..]));
        output := output + pieces;
      }
      StreamEnd(literals, replacement, carry, chunks);
      var pieces := DrainBuffer(carry, true);
      FlattenConcat(output, pieces);
      output := output + pieces;
    }
  }

  lemma {:induction false} FlattenConcat(a: seq<Bytes>, b: seq<Bytes>)
    ensures Flatten(a + b) == Flatten(a) + Flatten(b)
  {
    if a == [] {
      assert a + b == b;
    } else {
      FlattenConcat(a[1..], b);
      Assoc(a[0], Flatten(a[1..]), Flatten(b));
      assert (a + b)[1..] == a[1..] + b;
    }
  }

  // ------------------------------------------------------------------
  // Exactly when chunking is invisible
  // ------------------------------------------------------------------

  /** Literal `k` can never win: an earlier rule matches wherever it does. */
  predicate Shadowed(literals: seq<Bytes>, k: nat)
    requires k < |literals|
  {
    exists j :: 0 <= j < k && literals[j] <= literals[k]
  }

  /** A literal that can win contains no literal that ends before its own end. */
  predicate EndsTogether(literals: seq<Bytes>) {
    forall k, j, o ::
      0 <= k < |literals| && 0 <= j < |literals| && 0 <= o < |literals[k]|
      && OccursAt(literals[k], literals[j], o) && o + |literals[j]| < |literals[k]|
      ==> Shadowed(literals, k)
  }

  lemma OccursInPrefix(a: Bytes, b: Bytes, literal: Bytes, i: int)
    requires i + |literal| <= |a|
    ensures OccursAt(a + b, literal, i) == OccursAt(a, literal, i)
  {
    if 0 <= i {
      assert (a + b)[i..i + |literal|] == a[i..i + |literal|];
    }
  }

  lemma OccursAfter(a: Bytes, b: Bytes, literal: Bytes, i: int)
    requires i >= |a|
    ensures OccursAt(a + b, literal, i) == OccursAt(b, literal, i - |a|)
  {
    if i + |literal| <= |a| + |b| {
      assert (a + b)[i..i + |literal|] == b[i - |a|..i - |a| + |literal|];
    }
  }

  /** Two occurrences in one buffer, one inside the other. */
  lemma OccursInside(w: Bytes, outer: Bytes, i: int, inner: Bytes, j: int)
    requires OccursAt(w, outer, i) && OccursAt(w, inner, j)
    requires i <= j && j + |inner| <= i + |outer|
    ensures OccursAt(outer, inner, j - i)
  {
    var at := j - i;
    assert outer == w[i..i + |outer|];
    forall t | 0 <= t < |inner| ensures outer[at..at + |inner|][t] == inner[t] {
      assert w[j..j + |inner|][t] == w[i..i + |outer|][at + t];
    }
  }

  lemma OccursAsPrefix(w: Bytes, outer: Bytes, inner: Bytes, i: int)
    requires OccursAt(w, outer, i) && inner <= outer
    ensures OccursAt(w, inner, i)
  {
    assert w[i..i + |inner|] == w[i..i + |outer|][..|inner|];
  }

  /** The match chosen on a prefix is the one chosen on the whole input. */
  lemma MatchIsStable(literals: seq<Bytes>, buffer: Bytes, rest: Bytes)
    requires ValidLiterals(literals) && EndsTogether(literals)
    requires Earliest(buffer, literals).Match?
    ensures Earliest(buffer + rest, literals) == Earliest(buffer, literals)
  {
    hide Earliest;
    var m := Earliest(buffer, literals);
    var w := buffer + rest;
    var e := Earliest(w, literals);
    EarliestSpec(buffer, literals);
    EarliestSpec(w, literals);
    OccursInPrefix(buffer, rest, literals[m.which], m.index);
    if e != m {
      // The better match of the longer input must reach beyond the buffer.
      if e.index + |literals[e.which]| <= |buffer| {
        OccursInPrefix(buffer, rest, literals[e.which], e.index);
        assert false;
      }
      OccursInside(w, literals[e.which], e.index, literals[m.which], m.index);
      assert Shadowed(literals, e.which);
      var j :| 0 <= j < e.which && literals[j] <= literals[e.which];
      OccursAsPrefix(w, literals[e.which], literals[j], e.index);
      assert false;
    }
  }

  /** No match of a longer input starts among bytes that a drain passes on. */
  lemma NoMatchStartsEarly(literals: seq<Bytes>, buffer: Bytes, rest: Bytes, k: nat, i: int)
    requires ValidLiterals(literals) && Earliest(buffer, literals).NoMatch?
    requires k < |literals| && OccursAt(buffer + rest, literals[k], i)
    ensures SafeLength(literals, buffer, false) <= i
  {
    hide Earliest;
    EarliestSpec(buffer, literals);
    if i + |literals[k]| <= |buffer| {
      OccursInPrefix(buffer, rest, literals[k], i);
    }
  }

  lemma EarliestShift(literals: seq<Bytes>, head: Bytes, tail: Bytes)
    requires ValidLiterals(literals)
    requires forall k, i :: 0 <= k < |literals| && OccursAt(head + tail, literals[k], i) ==> |head| <= i
    ensures var m := Earliest(tail, literals);
      Earliest(head + tail, literals) == if m.NoMatch? then NoMatch else Match(m.index + |head|, m.which)
  {
    hide Earliest;
    EarliestSpec(tail, literals);
    forall k, i | 0 <= k < |literals| && OccursAt(head + tail, literals[k], i)
      ensures OccursAt(tail, literals[k], i - |head|)
    {
      OccursAfter(head, tail, literals[k], i);
    }
    match Earliest(tail, literals)
    case NoMatch =>
      EarliestIsUnique(head + tail, literals, NoMatch);
    case Match(i, k) =>
      OccursAfter(head, tail, literals[k], i + |head|);
      EarliestIsUnique(head + tail, literals, Match(i + |head|, k));
  }

  lemma RedactShift(literals: seq<Bytes>, replacement: Bytes, head: Bytes, tail: Bytes)
    requires ValidLiterals(literals)
    requires forall k, i :: 0 <= k < |literals| && OccursAt(head + tail, literals[k], i) ==> |head| <= i
    ensures Redact(literals, replacement, head + tail) == head + Redact(literals, replacement, tail)
  {
    hide Redact, Earliest, OccursAt, ValidLiterals;
    EarliestShift(literals, head, tail);
    RedactStep(literals, replacement, tail);
    RedactStep(literals, replacement, head + tail);
    match Earliest(tail, literals)
    case NoMatch =>
    case Match(i, k) =>
      SliceShift(head, tail, i, i + |literals[k]|);
      Assoc4(head, tail[..i], replacement, Redact(literals, replacement, tail[i + |literals[k]|..]));
  }

  lemma RedactStep(literals: seq<Bytes>, replacement: Bytes, input: Bytes)
    requires ValidLiterals(literals)
    ensures var m := Earliest(input, literals);
      Redact(literals, replacement, input) ==
      if m.NoMatch? then input
      else input[..m.index] + replacement + Redact(literals, replacement, input[m.index + |literals[m.which]|..])
  {
    hide Earliest, OccursAt;
  }

  /** Bytes that are passed on can no longer belong to any match. */
  lemma SafePrefix(literals: seq<Bytes>, replacement: Bytes, buffer: Bytes, rest: Bytes)
    requires ValidLiterals(literals) && Earliest(buffer, literals).NoMatch?
    ensures var n := SafeLength(literals, buffer, false);
      Redact(literals, replacement, buffer + rest) == buffer[..n] + Redact(literals, replacement, buffer[n..] + rest)
  {
    hide Earliest, Redact;
    var n := SafeLength(literals, buffer, false);
    var tail := buffer[n..] + rest;
    assert buffer + rest == buffer[..n] + tail;
    forall k, i | 0 <= k < |literals| && OccursAt(buffer[..n] + tail, literals[k], i) ensures n <= i {
      NoMatchStartsEarly(literals, buffer, rest, k, i);
    }
    RedactShift(literals, replacement, buffer[..n], tail);
  }

  /** A match found before the rest has come changes nothing: redaction of the rest goes on behind it. */
  predicate AgreesAt(literals: seq<Bytes>, replacement: Bytes, buffer: Bytes, rest: Bytes)
    requires ValidLiterals(literals)
  {
    var m := Earliest(buffer, literals);
    m.Match? ==>
      Redact(literals, replacement, buffer + rest)
        == buffer[..m.index] + replacement
           + Redact(literals, replacement, buffer[m.index + |literals[m.which]|..] + rest)
  }

  ghost predicate EarlyMatchesAgree(literals: seq<Bytes>, replacement: Bytes)
    requires ValidLiterals(literals)
  {
    forall buffer: Bytes, rest: Bytes :: AgreesAt(literals, replacement, buffer, rest)
  }

  lemma StableMatchesAgree(literals: seq<Bytes>, replacement: Bytes)
    requires ValidLiterals(literals) && EndsTogether(literals)
    ensures EarlyMatchesAgree(literals, replacement)
  {
    hide Earliest, Redact, EndsTogether;
    forall buffer: Bytes, rest: Bytes ensures AgreesAt(literals, replacement, buffer, rest) {
      var m := Earliest(buffer, literals);
      if m.Match? {
        MatchIsStable(literals, buffer, rest);
        RedactStep(literals, replacement, buffer + rest);
        SliceBefore(buffer, rest, m.index, m.index + |literals[m.which]|);
      }
    }
  }

  lemma {:induction false} DrainAgrees(literals: seq<Bytes>, replacement: Bytes, buffer: Bytes, rest: Bytes)
    requires ValidLiterals(literals) && EarlyMatchesAgree(literals, replacement)
    ensures var d := Drain(literals, replacement, buffer, false);
      Redact(literals, replacement, buffer + rest) == d.output + Redact(literals, replacement, d.carry + rest)
    decreases |buffer|
  {
    hide Redact, Drain, Earliest, OccursAt, Holdback;
    match Earliest(buffer, literals)
    case NoMatch =>
      DrainMiss(literals, replacement, buffer, false);
      SafePrefix(literals, replacement, buffer, rest);
    case Match(i, k) =>
      DrainHit(literals, replacement, buffer, false);
      assert AgreesAt(literals, replacement, buffer, rest);
      var next := buffer[i + |literals[k]|..];
      DrainAgrees(literals, replacement, next, rest);
      var d := Drain(literals, replacement, next, false);
      Assoc(buffer[..i] + replacement, d.output, Redact(literals, replacement, d.carry + rest));
  }

  lemma {:induction false} FinalDrainIsRedact(literals: seq<Bytes>, replacement: Bytes, buffer: Bytes)
    requires ValidLiterals(literals)
    ensures Drain(literals, replacement, buffer, true).output == Redact(literals, replacement, buffer)
    decreases |buffer|
  {
    hide Earliest;
    match Earliest(buffer, literals)
    case NoMatch =>
    case Match(i, k) => FinalDrainIsRedact(literals, replacement, buffer[i + |literals[k]|..]);
  }

  lemma {:induction false} StreamAgrees(
    literals: seq<Bytes>, replacement: Bytes, carry: Bytes, chunks: seq<Bytes>)
    requires ValidLiterals(literals) && EarlyMatchesAgree(literals, replacement)
    ensures Stream(literals, replacement, carry, chunks) == Redact(literals, replacement, carry + Flatten(chunks))
    decreases |chunks|
  {
    hide Earliest, EarlyMatchesAgree;
    if chunks == [] {
      FinalDrainIsRedact(literals, replacement, carry);
      assert carry + Flatten(chunks) == carry;
    } else {
      var rest := Flatten(chunks[1..]);
      DrainAgrees(literals, replacement, carry + chunks[0], rest);
      var d := Drain(literals, replacement, carry + chunks[0], false);
      StreamAgrees(literals, replacement, d.carry, chunks[1..]);
      Assoc(carry, chunks[0], rest);
      assert carry + Flatten(chunks) == (carry + chunks[0]) + rest;
    }
  }

  /** Under the condition, however the input is cut, the output is the one-pass redaction. */
  lemma ChunkingIsInvisible(literals: seq<Bytes>, replacement: Bytes, chunks: seq<Bytes>)
    requires ValidLiterals(literals) && EndsTogether(literals)
    ensures Stream(literals, replacement, [], chunks) == Redact(literals, replacement, Flatten(chunks))
  {
    hide Stream, Redact, EarlyMatchesAgree;
    StableMatchesAgree(literals, replacement);
    StreamAgrees(literals, replacement, [], chunks);
    assert [] + Flatten(chunks) == Flatten(chunks);
  }

  lemma RedactNonempty(literals: seq<Bytes>, replacement: Bytes, input: Bytes)
    requires ValidLiterals(literals) && replacement != [] && input != []
    ensures Redact(literals, replacement, input) != []
  {
    hide Earliest;
  }

  /** Cutting a literal that can win right after an enclosed literal shows the difference. */
  lemma CutInsideLiteralShows(literals: seq<Bytes>, replacement: Bytes, k: nat, j: nat, o: nat)
    requires ValidLiterals(literals) && replacement != []
    requires k < |literals| && j < |literals| && !Shadowed(literals, k)
    requires OccursAt(literals[k], literals[j], o) && o + |literals[j]| < |literals[k]|
    ensures var cut := o + |literals[j]|;
      Stream(literals, replacement, [], [literals[k][..cut], literals[k][cut..]])
      != Redact(literals, replacement, literals[k])
  {
    hide Earliest;
    var a := literals[k];
    var cut := o + |literals[j]|;
    var chunks: seq<Bytes> := [a[..cut], a[cut..]];

    // At once: rule k wins at index 0 and swallows the whole input.
    assert OccursAt(a, a, 0);
    forall q, i | 0 <= q < |literals| && OccursAt(a, literals[q], i)
      ensures 0 < i || k <= q
    {
      assert i == 0 ==> a[..|literals[q]|] == literals[q];
    }
    EarliestIsUnique(a, literals, Match(0, k));
    assert Earliest([], literals).NoMatch?;
    assert a[|a|..] == [];
    assert Redact(literals, replacement, a) == replacement;

    // In two chunks: something is replaced in the first, and bytes are left over.
    var first := a[..cut];
    assert [] + first == first;
    assert OccursAt(first, literals[j], o) by { assert first[o..cut] == a[o..cut]; }
    EarliestSpec(first, literals);
    var m := Earliest(first, literals);
    var d := Drain(literals, replacement, first, false);
    assert |d.output| >= m.index + |replacement|;
    assert chunks[1..] == [a[cut..]] && chunks[1..][1..] == [];
    TwoChunks(literals, replacement, d.carry, a[cut..]);
  }

  lemma TwoChunks(literals: seq<Bytes>, replacement: Bytes, carry: Bytes, chunk: Bytes)
    requires ValidLiterals(literals) && replacement != [] && chunk != []
    ensures Stream(literals, replacement, carry, [chunk]) != []
  {
    hide Earliest;
    var d := Drain(literals, replacement, carry + chunk, false);
    assert [chunk][1..] == [];
    FinalDrainIsRedact(literals, replacement, d.carry);
    if d.carry != [] {
      RedactNonempty(literals, replacement, d.carry);
    } else {
      DrainKeepsSomething(literals, replacement, carry + chunk);
    }
  }

  lemma DrainKeepsSomething(literals: seq<Bytes>, replacement: Bytes, buffer: Bytes)
    requires ValidLiterals(literals) && replacement != [] && buffer != []
    ensures var d := Drain(literals, replacement, buffer, false); d.output != [] || d.carry != []
  {
    hide Earliest;
  }

  ghost predicate ChunkingInvisible(literals: seq<Bytes>, replacement: Bytes)
    requires ValidLiterals(literals)
  {
    forall chunks :: Stream(literals, replacement, [], chunks) == Redact(literals, replacement, Flatten(chunks))
  }

  /** The exact condition, for every rule set and every visible replacement. */
  lemma ChunkingInvisibleIff(literals: seq<Bytes>, replacement: Bytes)
    requires ValidLiterals(literals)
    ensures EndsTogether(literals) ==> ChunkingInvisible(literals, replacement)
    ensures replacement != [] ==> (ChunkingInvisible(literals, replacement) <==> EndsTogether(literals))
  {
    hide Stream, Redact;
    if EndsTogether(literals) {
      forall chunks
        ensures Stream(literals, replacement, [], chunks) == Redact(literals, replacement, Flatten(chunks))
      {
        ChunkingIsInvisible(literals, replacement, chunks);
      }
    } else if replacement != [] {
      var k, j, o :|
        0 <= k < |literals| && 0 <= j < |literals| && 0 <= o < |literals[k]|
        && OccursAt(literals[k], literals[j], o) && o + |literals[j]| < |literals[k]|
        && !Shadowed(literals, k);
      CutInsideLiteralShows(literals, replacement, k, j, o);
      var cut := o + |literals[j]|;
      var chunks: seq<Bytes> := [literals[k][..cut], literals[k][cut..]];
      assert Flatten(chunks) == literals[k] by {
        assert chunks[1..] == [literals[k][cut..]] && chunks[1..][1..] == [];
        assert Flatten(chunks[1..]) == literals[k][cut..];
      }
    }
  }

  /** A rule set on which the output depends on the cut: "bc" inside "abcd". */
  lemma ChunkingVisibleWitness()
    ensures var a: Byte := 97; var b: Byte := 98; var c: Byte := 99; var d: Byte := 100;
      var literals := [[b, c], [a, b, c, d]];
      ValidLiterals(literals) && !EndsTogether(literals)
      && forall r: Bytes :: r != [] ==>
           Stream(literals, r, [], [[a, b, c], [d]]) != Redact(literals, r, [a, b, c, d])
  {
    var a: Byte := 97; var b: Byte := 98; var c: Byte := 99; var d: Byte := 100;
    var literals := [[b, c], [a, b, c, d]];
    assert literals[1][1..3] == [b, c];
    assert OccursAt(literals[1], literals[0], 1);
    assert !Shadowed(literals, 1) by {
      assert literals[0][0] != literals[1][0];
    }
    assert literals[1][..3] == [a, b, c] && literals[1][3..] == [d];
    forall r: Bytes | r != []
      ensures Stream(literals, r, [], [[a, b, c], [d]]) != Redact(literals, r, [a, b, c, d])
    {
      CutInsideLiteralShows(literals, r, 1, 0, 1);
    }
  }

  // ------------------------------------------------------------------
  // What holds for every rule set and every chunking
  // ------------------------------------------------------------------

  /** An input cut into passed-on stretches and redacted literals. */
  datatype Split = Last(pass: Bytes) | Then(pass: Bytes, hit: nat, next: Split)

  ghost predicate ValidSplit(literals: seq<Bytes>, s: Split) {
    LiteralFree(literals, s.pass) && (s.Then? ==> s.hit < |literals| && ValidSplit(literals, s.next))
  }

  ghost function Source(literals: seq<Bytes>, s: Split): Bytes
    requires ValidSplit(literals, s)
  {
    match s
    case Last(p) => p
    case Then(p, k, next) => p + literals[k] + Source(literals, next)
  }

  ghost function Rendered(replacement: Bytes, s: Split): Bytes {
    match s
    case Last(p) => p
    case Then(p, _, next) => p + replacement + Rendered(replacement, next)
  }

  /** Nothing in `run + buffer` starts in `run`, the bytes already passed on since the last hit. */
  ghost predicate RunIsClean(literals: seq<Bytes>, run: Bytes, buffer: Bytes) {
    forall k, i :: 0 <= k < |literals| && OccursAt(run + buffer, literals[k], i) ==> |run| <= i
  }

  /** Inside a drain: `run` already passed on, `buffer` under scan, `chunks` still to come. */
  ghost function Rest(literals: seq<Bytes>, replacement: Bytes, buffer: Bytes, final: bool, chunks: seq<Bytes>): Bytes
    requires ValidLiterals(literals)
  {
    var d := Drain(literals, replacement, buffer, final);
    if final then d.output else d.output + Stream(literals, replacement, d.carry, chunks)
  }

  lemma EmptyRunIsClean(literals: seq<Bytes>, buffer: Bytes)
    ensures RunIsClean(literals, [], buffer)
  {
  }

  lemma FlattenCons(chunks: seq<Bytes>)
    ensures Flatten(chunks) == if chunks == [] then [] else chunks[0] + Flatten(chunks[1..])
    ensures chunks == [] ==> Flatten([]) == []
  {
  }

  lemma SourceOfHit(run: Bytes, head: Bytes, literal: Bytes, after: Bytes, later: Bytes)
    ensures run + (head + literal + after) + later == (run + head) + literal + (after + later)
  {
  }

  lemma SourceOfMiss(run: Bytes, buffer: Bytes, n: nat, chunk: Bytes, later: Bytes)
    requires n <= |buffer|
    ensures run + buffer[..n] + (buffer[n..] + chunk) + later == run + buffer + (chunk + later)
  {
    assert buffer == buffer[..n] + buffer[n..];
  }

  lemma RestAfterHit(literals: seq<Bytes>, replacement: Bytes, run: Bytes, buffer: Bytes, final: bool,
      chunks: seq<Bytes>)
    requires ValidLiterals(literals) && Earliest(buffer, literals).Match?
    ensures var m := Earliest(buffer, literals);
      run + Rest(literals, replacement, buffer, final, chunks)
      == (run + buffer[..m.index]) + replacement
         + Rest(literals, replacement, buffer[m.index + |literals[m.which]|..], final, chunks)
  {
    DrainHit(literals, replacement, buffer, final);
    hide Earliest, Drain, Stream;
    var m := Earliest(buffer, literals);
    var head := buffer[..m.index];
    var d := Drain(literals, replacement, buffer[m.index + |literals[m.which]|..], final);
    Assoc(run, head, replacement);
    Assoc(run, head + replacement, d.output);
    if !final {
      var more := Stream(literals, replacement, d.carry, chunks);
      Assoc(run, head + replacement + d.output, more);
      Assoc(run + (head + replacement), d.output, more);
    }
  }

  lemma RestAtEnd(literals: seq<Bytes>, replacement: Bytes, buffer: Bytes)
    requires ValidLiterals(literals) && Earliest(buffer, literals).NoMatch?
    ensures Rest(literals, replacement, buffer, true, []) == buffer
  {
    hide Earliest;
  }

  lemma RestAfterMiss(literals: seq<Bytes>, replacement: Bytes, run: Bytes, buffer: Bytes, chunks: seq<Bytes>)
    requires ValidLiterals(literals) && Earliest(buffer, literals).NoMatch?
    ensures var n := SafeLength(literals, buffer, false);
      run + Rest(literals, replacement, buffer, false, chunks)
      == (run + buffer[..n])
         + if chunks == [] then Rest(literals, replacement, buffer[n..] + [], true, [])
           else Rest(literals, replacement, buffer[n..] + chunks[0], false, chunks[1..])
  {
    DrainMiss(literals, replacement, buffer, false);
    hide Earliest, Drain;
    var n := SafeLength(literals, buffer, false);
    assert buffer[n..] + [] == buffer[n..];
    Assoc(run, buffer[..n], Stream(literals, replacement, buffer[n..], chunks));
  }

  lemma CleanAfterSafePrefix(literals: seq<Bytes>, run: Bytes, buffer: Bytes, chunk: Bytes)
    requires ValidLiterals(literals)
    requires RunIsClean(literals, run, buffer) && Earliest(buffer, literals).NoMatch?
    requires run != [] ==> |buffer| >= Holdback(literals)
    ensures var n := SafeLength(literals, buffer, false);
      RunIsClean(literals, run + buffer[..n], buffer[n..] + chunk)
  {
    hide Earliest;
    var n := SafeLength(literals, buffer, false);
    var passed := run + buffer[..n];
    var joined := passed + (buffer[n..] + chunk);
    EarliestSpec(buffer, literals);
    assert joined == (run + buffer) + chunk;
    forall k, i | 0 <= k < |literals| && OccursAt(joined, literals[k], i)
      ensures |passed| <= i
    {
      if i + |literals[k]| <= |run + buffer| {
        OccursInPrefix(run + buffer, chunk, literals[k], i);
        OccursAfter(run, buffer, literals[k], i);
        assert false;
      }
    }
  }

  lemma CleanPassIsLiteralFree(literals: seq<Bytes>, run: Bytes, buffer: Bytes, n: nat)
    requires RunIsClean(literals, run, buffer) && n <= |buffer|
    requires forall k, i :: 0 <= k < |literals| && OccursAt(buffer, literals[k], i) ==> n <= i
    requires ValidLiterals(literals)
    ensures LiteralFree(literals, run + buffer[..n])
  {
    forall k, i | 0 <= k < |literals| ensures !OccursAt(run + buffer[..n], literals[k], i) {
      if OccursAt(run + buffer[..n], literals[k], i) {
        assert run + buffer == (run + buffer[..n]) + buffer[n..];
        OccursInPrefix(run + buffer[..n], buffer[n..], literals[k], i);
        OccursAfter(run, buffer, literals[k], i);
        assert false;
      }
    }
  }

  lemma HitSplit(
    literals: seq<Bytes>, replacement: Bytes, run: Bytes, buffer: Bytes, final: bool, chunks: seq<Bytes>, t: Split)
    requires ValidLiterals(literals) && ValidSplit(literals, t) && Earliest(buffer, literals).Match?
    requires OccursAt(buffer, literals[Earliest(buffer, literals).which], Earliest(buffer, literals).index)
    requires var m := Earliest(buffer, literals);
      var after := buffer[m.index + |literals[m.which]|..];
      LiteralFree(literals, run + buffer[..m.index])
      && Source(literals, t) == after + Flatten(chunks)
      && Rendered(replacement, t) == Rest(literals, replacement, after, final, chunks)
    ensures var m := Earliest(buffer, literals);
      var s := Then(run + buffer[..m.index], m.which, t);
      && Source(literals, s) == run + buffer + Flatten(chunks)
      && Rendered(replacement, s) == run + Rest(literals, replacement, buffer, final, chunks)
  {
    hide Earliest, Drain, Stream, Rest, LiteralFree;
    var m := Earliest(buffer, literals);
    var after := buffer[m.index + |literals[m.which]|..];
    assert buffer == buffer[..m.index] + literals[m.which] + after;
    SourceOfHit(run, buffer[..m.index], literals[m.which], after, Flatten(chunks));
    RestAfterHit(literals, replacement, run, buffer, final, chunks);
  }

  lemma {:induction false} DrainSplits(
    literals: seq<Bytes>, replacement: Bytes, run: Bytes, buffer: Bytes, final: bool, chunks: seq<Bytes>)
    returns (s: Split)
    requires ValidLiterals(literals) && RunIsClean(literals, run, buffer)
    requires run != [] ==> |buffer| >= Holdback(literals)
    requires final ==> chunks == []
    ensures ValidSplit(literals, s)
    ensures Source(literals, s) == run + buffer + Flatten(chunks)
    ensures Rendered(replacement, s) == run + Rest(literals, replacement, buffer, final, chunks)
    decreases |chunks|, !final, |buffer|
  {
    hide Earliest, Drain, Stream, Rest, Flatten, OccursAt, Holdback;
    EarliestSpec(buffer, literals);
    match Earliest(buffer, literals)
    case Match(i, k) =>
      var after := buffer[i + |literals[k]|..];
      EmptyRunIsClean(literals, after);
      assert [] + after == after;
      var t := DrainSplits(literals, replacement, [], after, final, chunks);
      CleanPassIsLiteralFree(literals, run, buffer, i);
      s := Then(run + buffer[..i], k, t);
      HitSplit(literals, replacement, run, buffer, final, chunks, t);
    case NoMatch =>
      if final {
        RestAtEnd(literals, replacement, buffer);
        FlattenCons(chunks);
        assert buffer[..|buffer|] == buffer;
        CleanPassIsLiteralFree(literals, run, buffer, |buffer|);
        s := Last(run + buffer);
        assert run + buffer + [] == run + buffer;
      } else {
        var n := SafeLength(literals, buffer, false);
        var chunk := if chunks == [] then [] else chunks[0];
        CleanAfterSafePrefix(literals, run, buffer, chunk);
        var later := if chunks == [] then [] else chunks[1..];
        s := DrainSplits(literals, replacement, run + buffer[..n], buffer[n..] + chunk, chunks == [], later);
        FlattenCons(chunks);
        SourceOfMiss(run, buffer, n, chunk, Flatten(later));
        RestAfterMiss(literals, replacement, run, buffer, chunks);
      }
  }

  /** No side condition: every chunking replaces whole literals and passes on literal-free stretches only. */
  lemma RedactionIsComplete(literals: seq<Bytes>, replacement: Bytes, chunks: seq<Bytes>) returns (s: Split)
    requires ValidLiterals(literals)
    ensures ValidSplit(literals, s)
    ensures Source(literals, s) == Flatten(chunks)
    ensures Rendered(replacement, s) == Stream(literals, replacement, [], chunks)
  {
    hide Drain;
    if chunks == [] {
      s := DrainSplits(literals, replacement, [], [], true, []);
    } else {
      s := DrainSplits(literals, replacement, [], [] + chunks[0], false, chunks[1..]);
    }
  }

  // ------------------------------------------------------------------
  // How little is kept back
  // ------------------------------------------------------------------

  /** What lies behind the last match. */
  ghost predicate IsRest(literals: seq<Bytes>, buffer: Bytes, rest: Bytes) {
    LiteralFree(literals, rest) && exists n :: 0 <= n <= |buffer| && rest == buffer[n..]
  }

  lemma RestBehind(literals: seq<Bytes>, buffer: Bytes, behind: nat, rest: Bytes)
    requires behind <= |buffer| && IsRest(literals, buffer[behind..], rest)
    ensures IsRest(literals, buffer, rest)
  {
    hide LiteralFree;
    var n :| 0 <= n <= |buffer[behind..]| && rest == buffer[behind..][n..];
    assert rest == buffer[behind + n..];
  }

  lemma MissIsRest(literals: seq<Bytes>, buffer: Bytes)
    requires Earliest(buffer, literals).NoMatch?
    ensures IsRest(literals, buffer, buffer)
  {
    hide Earliest;
    EarliestSpec(buffer, literals);
    assert buffer[0..] == buffer;
  }

  /** A drain keeps back the last bytes of a literal-free rest, one less than the longest literal has, or all of it if
      it is shorter. Everything else of the buffer has been passed on or replaced. */
  lemma {:induction false} CarryIsShort(literals: seq<Bytes>, replacement: Bytes, buffer: Bytes) returns (rest: Bytes)
    requires ValidLiterals(literals)
    ensures IsRest(literals, buffer, rest)
    ensures var carry := Drain(literals, replacement, buffer, false).carry;
      var most := MaxLength(literals) - 1;
      carry == if |rest| <= most then rest else rest[|rest| - most..]
    decreases |buffer|
  {
    hide Earliest, Drain, IsRest;
    match Earliest(buffer, literals)
    case NoMatch =>
      DrainMiss(literals, replacement, buffer, false);
      MissIsRest(literals, buffer);
      rest := buffer;
    case Match(i, k) =>
      DrainHit(literals, replacement, buffer, false);
      rest := CarryIsShort(literals, replacement, buffer[i + |literals[k]|..]);
      RestBehind(literals, buffer, i + |literals[k]|, rest);
  }

  /** What is kept back after all these chunks. */
  function CarryAfter(literals: seq<Bytes>, replacement: Bytes, chunks: seq<Bytes>): Bytes
    requires ValidLiterals(literals)
  {
    if chunks == [] then []
    else Drain(literals, replacement, CarryAfter(literals, replacement, chunks[..|chunks| - 1]) + chunks[|chunks| - 1],
               false).carry
  }

  /** What has been passed on by then. */
  function SentAfter(literals: seq<Bytes>, replacement: Bytes, chunks: seq<Bytes>): Bytes
    requires ValidLiterals(literals)
  {
    if chunks == [] then []
    else
      var first := chunks[..|chunks| - 1];
      SentAfter(literals, replacement, first)
      + Drain(literals, replacement, CarryAfter(literals, replacement, first) + chunks[|chunks| - 1], false).output
  }

  /** However much has come in, less than the longest literal is kept back, and it holds no literal. */
  lemma MemoryIsBounded(literals: seq<Bytes>, replacement: Bytes, chunks: seq<Bytes>)
    requires ValidLiterals(literals)
    ensures |CarryAfter(literals, replacement, chunks)| < MaxLength(literals)
  {
    hide Drain;
    assert |literals[0]| >= 1;
    if chunks != [] {
      var rest := CarryIsShort(literals, replacement,
                               CarryAfter(literals, replacement, chunks[..|chunks| - 1]) + chunks[|chunks| - 1]);
    }
  }

  /** What is passed on early, and what follows from the carry, is the whole output. */
  lemma {:induction false} SentThenRest(literals: seq<Bytes>, replacement: Bytes, chunks: seq<Bytes>, later: seq<Bytes>)
    requires ValidLiterals(literals)
    ensures Stream(literals, replacement, [], chunks + later)
         == SentAfter(literals, replacement, chunks)
            + Stream(literals, replacement, CarryAfter(literals, replacement, chunks), later)
    decreases |chunks|
  {
    hide Drain, Stream;
    if chunks == [] {
      assert chunks + later == later;
    } else {
      var first, last := chunks[..|chunks| - 1], chunks[|chunks| - 1];
      SentThenRest(literals, replacement, first, [last] + later);
      assert first + ([last] + later) == chunks + later;
      var carry := CarryAfter(literals, replacement, first);
      StreamStep(literals, replacement, carry, [last] + later, 0);
      assert ([last] + later)[0..] == [last] + later && ([last] + later)[1..] == later;
      Assoc(SentAfter(literals, replacement, first), Drain(literals, replacement, carry + last, false).output,
            Stream(literals, replacement, CarryAfter(literals, replacement, chunks), later));
    }
  }
}
