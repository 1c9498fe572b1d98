/** When chunking cannot be seen although matches are replaced by nothing
    (packages/artifact-store/src/transform.ts).

    With an empty replacement a match taken too early goes unnoticed if what it leaves of the literal that
    should have matched is deleted as well, whatever follows. Which remainders are is a question about
    finitely many pieces of the literals.
 */
module EmptyRedaction {
  import opened Basics
  import opened Redaction

  /** Each remainder in `s` is deleted from the front, whatever follows: its first literal leaves a remainder in `s`,
      and so does every longer literal that could win instead, of what follows. */
  ghost predicate Absorbs(literals: seq<Bytes>, s: set<Bytes>) {
    forall u :: u in s && u != [] ==>
      && Earliest(u, literals).Match? && Earliest(u, literals).index == 0
      && var m := Earliest(u, literals).which;
        && u[|literals[m]|..] in s
        && forall l :: 0 <= l < m && !Shadowed(literals, l) && u <= literals[l] ==> literals[l][|u|..] in s
  }

  /** Whatever part of a literal has arrived, a match found in it starts at its front and leaves a remainder in `s`. */
  ghost predicate CutsInto(literals: seq<Bytes>, s: set<Bytes>) {
    forall k, c :: 0 <= k < |literals| && !Shadowed(literals, k) && 0 <= c < |literals[k]| ==>
      var m := Earliest(literals[k][..c], literals);
      m.Match? ==> m.index == 0 && literals[k][|literals[m.which]|..] in s
  }

  /** All ends of literals, of which there are finitely many. */
  function Endings(literals: seq<Bytes>): set<Bytes> {
    set k: nat, n: nat | k < |literals| && n <= |literals[k]| :: literals[k][n..]
  }

  /** The condition on the rule set: it can be decided by going through the subsets of `Endings(literals)`. */
  ghost predicate Vanishes(literals: seq<Bytes>) {
    exists s: set<Bytes> :: s <= Endings(literals) && Absorbs(literals, s) && CutsInto(literals, s)
  }

  function Deleted(literals: seq<Bytes>, input: Bytes): Bytes
    requires ValidLiterals(literals)
  {
    Redact(literals, [], input)
  }

  lemma DeletedStep(literals: seq<Bytes>, input: Bytes)
    requires ValidLiterals(literals)
    ensures var m := Earliest(input, literals);
      Deleted(literals, input) ==
      if m.NoMatch? then input else input[..m.index] + Deleted(literals, input[m.index + |literals[m.which]|..])
  {
    hide Earliest, Redact;
    RedactStep(literals, [], input);
    var m := Earliest(input, literals);
    if m.Match? {
      assert input[..m.index] + [] == input[..m.index];
    }
  }

  // The condition suffices ----------------------------------------------------------------------------

  /** The winner in front of a remainder and what follows: the remainder's own first literal, or a longer one. */
  lemma WinnerInFront(literals: seq<Bytes>, u: Bytes, q: Bytes)
    requires ValidLiterals(literals) && Earliest(u, literals).Match? && Earliest(u, literals).index == 0
    ensures var m := Earliest(u, literals).which;
      var e := Earliest(u + q, literals);
      && e.Match? && e.index == 0 && !Shadowed(literals, e.which)
      && |literals[m]| <= |u|
      && (e.which == m || (e.which < m && u <= literals[e.which] && literals[e.which] <= u + q))
  {
    hide Earliest;
    var m := Earliest(u, literals).which;
    var e := Earliest(u + q, literals);
    EarliestSpec(u, literals);
    EarliestSpec(u + q, literals);
    OccursInPrefix(u, q, literals[m], 0);
    var g := literals[e.which];
    assert g == (u + q)[..|g|];
    if |g| <= |u| {
      OccursInPrefix(u, q, g, 0);
    } else {
      assert u == g[..|u|];
    }
    forall j | 0 <= j < e.which ensures !(literals[j] <= g) {
      if literals[j] <= g {
        OccursAsPrefix(u + q, g, literals[j], 0);
        assert false;
      }
    }
  }

  /** The winner leaves a remainder in `s` in front of what follows, or has taken one from the front of it. */
  lemma AbsorbedFurther(literals: seq<Bytes>, s: set<Bytes>, u: Bytes, q: Bytes) returns (v: Bytes, rest: Bytes)
    requires ValidLiterals(literals) && Absorbs(literals, s) && u in s && u != []
    ensures var e := Earliest(u + q, literals);
      && e.Match? && e.index == 0
      && var behind := (u + q)[|literals[e.which]|..];
        (behind == v + rest && q == rest) || (behind == rest && q == v + rest)
    ensures v in s && |v| + |rest| < |u| + |q|
  {
    hide Absorbs, Earliest, Shadowed;
    WinnerLeaves(literals, s, u, q);
    WinnerInFront(literals, u, q) by { AbsorbedMatches(literals, s, u); }
    var m, e := Earliest(u, literals).which, Earliest(u + q, literals).which;
    var g := literals[e];
    if e == m {
      v, rest := u[|g|..], q;
      BehindShorter(u, q, g);
    } else {
      v, rest := g[|u|..], q[|g| - |u|..];
      BehindLonger(u, q, g);
    }
  }

  lemma AbsorbedMatches(literals: seq<Bytes>, s: set<Bytes>, u: Bytes)
    requires Absorbs(literals, s) && u in s && u != []
    ensures Earliest(u, literals).Match? && Earliest(u, literals).index == 0
  {
    hide Earliest;
  }

  lemma WinnerLeaves(literals: seq<Bytes>, s: set<Bytes>, u: Bytes, q: Bytes)
    requires ValidLiterals(literals) && Absorbs(literals, s) && u in s && u != []
    ensures var m, e := Earliest(u, literals), Earliest(u + q, literals);
      && m.Match? && e.Match?
      && (if e.which == m.which then |literals[e.which]| <= |u| && u[|literals[e.which]|..] in s
          else u <= literals[e.which] <= u + q && literals[e.which][|u|..] in s)
  {
    hide Earliest, Shadowed;
    WinnerInFront(literals, u, q);
  }

  lemma BehindShorter(u: Bytes, q: Bytes, g: Bytes)
    requires |g| <= |u|
    ensures (u + q)[|g|..] == u[|g|..] + q
  {
  }

  lemma BehindLonger(u: Bytes, q: Bytes, g: Bytes)
    requires u <= g <= u + q
    ensures var v := g[|u|..];
      v <= q && q == v + q[|v|..] && (u + q)[|g|..] == q[|v|..]
  {
    var v := g[|u|..];
    assert v == (u + q)[..|g|][|u|..] == q[..|v|];
  }

  lemma {:induction false} AbsorbedIsDeleted(literals: seq<Bytes>, s: set<Bytes>, u: Bytes, q: Bytes)
    requires ValidLiterals(literals) && Absorbs(literals, s) && u in s
    ensures Deleted(literals, u + q) == Deleted(literals, q)
    decreases |u| + |q|
  {
    hide Absorbs, Earliest, Deleted;
    if u == [] {
      assert u + q == q;
    } else {
      var v, rest := AbsorbedFurther(literals, s, u, q);
      DeletedStep(literals, u + q);
      AbsorbedIsDeleted(literals, s, v, rest);
    }
  }

  /** A literal that wins is not shadowed; the part of it that has come matches as the buffer does. */
  lemma WinnerSeenEarly(literals: seq<Bytes>, buffer: Bytes, rest: Bytes)
    requires ValidLiterals(literals) && Earliest(buffer, literals).Match?
    requires Earliest(buffer + rest, literals) != Earliest(buffer, literals)
    ensures var m := Earliest(buffer, literals);
      var e := Earliest(buffer + rest, literals);
      && e.Match? && !Shadowed(literals, e.which) && e.index <= m.index
      && e.index <= |buffer| && |buffer| - e.index < |literals[e.which]|
      && buffer[e.index..] == literals[e.which][..|buffer| - e.index]
      && Earliest(buffer[e.index..], literals) == Match(m.index - e.index, m.which)
  {
    hide Earliest;
    var m := Earliest(buffer, literals);
    var w := buffer + rest;
    var e := Earliest(w, literals);
    EarliestSpec(buffer, literals);
    EarliestSpec(w, literals);
    OccursInPrefix(buffer, rest, literals[m.which], m.index);
    var g := literals[e.which];
    if e.index + |g| <= |buffer| {
      OccursInPrefix(buffer, rest, g, e.index);
      assert false;
    }
    assert w[e.index..e.index + |g|] == g;
    assert buffer[e.index..] == w[e.index..e.index + |g|][..|buffer| - e.index];
    forall j | 0 <= j < e.which ensures !(literals[j] <= g) {
      if literals[j] <= g {
        OccursAsPrefix(w, g, literals[j], e.index);
        assert false;
      }
    }
    SuffixKeepsEarliest(literals, buffer, e.index);
  }

  lemma SuffixKeepsEarliest(literals: seq<Bytes>, buffer: Bytes, i: nat)
    requires Earliest(buffer, literals).Match? && i <= Earliest(buffer, literals).index
    ensures i <= |buffer|
    ensures var m := Earliest(buffer, literals);
      Earliest(buffer[i..], literals) == Match(m.index - i, m.which)
  {
    hide Earliest;
    var m := Earliest(buffer, literals);
    EarliestSpec(buffer, literals);
    var tail := buffer[i..];
    assert buffer == buffer[..i] + tail;
    forall k, n | 0 <= k < |literals| && n >= 0
      ensures OccursAt(tail, literals[k], n) == OccursAt(buffer, literals[k], n + i)
    {
      OccursAfter(buffer[..i], tail, literals[k], n + i);
    }
    EarliestIsUnique(tail, literals, Match(m.index - i, m.which));
  }

  lemma VanishingAgrees(literals: seq<Bytes>, s: set<Bytes>)
    requires ValidLiterals(literals) && Absorbs(literals, s) && CutsInto(literals, s)
    ensures EarlyMatchesAgree(literals, [])
  {
    hide Earliest, Redact, Shadowed;
    forall buffer: Bytes, rest: Bytes ensures AgreesAt(literals, [], buffer, rest) {
      var m := Earliest(buffer, literals);
      if m.Match? {
        VanishingAgreesAt(literals, s, buffer, rest);
        assert buffer[..m.index] + [] == buffer[..m.index];
      }
    }
  }

  lemma VanishingAgreesAt(literals: seq<Bytes>, s: set<Bytes>, buffer: Bytes, rest: Bytes)
    requires ValidLiterals(literals) && Absorbs(literals, s) && CutsInto(literals, s)
    requires Earliest(buffer, literals).Match?
    ensures var m := Earliest(buffer, literals);
      Deleted(literals, buffer + rest)
        == buffer[..m.index] + Deleted(literals, buffer[m.index + |literals[m.which]|..] + rest)
  {
    hide Earliest, Deleted, Shadowed, Absorbs;
    var m := Earliest(buffer, literals);
    var w := buffer + rest;
    var e := Earliest(w, literals);
    DeletedStep(literals, w);
    if e == m {
      SliceBefore(buffer, rest, m.index, m.index + |literals[m.which]|);
    } else {
      WinnerSeenEarly(literals, buffer, rest);
      var g := literals[e.which];
      var c := |buffer| - e.index;
      assert Earliest(g[..c], literals) == Match(m.index - e.index, m.which);
      var u := g[|literals[m.which]|..];
      var q := w[e.index + |g|..];
      EarliestSpec(w, literals);
      LeftOver(literals, buffer, rest, e.index, g, |literals[m.which]|);
      AbsorbedIsDeleted(literals, s, u, q);
    }
  }

  /** What is left when `n` bytes of the literal `g` at `i` are taken from the buffer. */
  lemma LeftOver(literals: seq<Bytes>, buffer: Bytes, rest: Bytes, i: nat, g: Bytes, n: nat)
    requires OccursAt(buffer + rest, g, i) && i + n <= |buffer| && n <= |g| && |buffer| - i < |g|
    ensures buffer[i + n..] + rest == g[n..] + (buffer + rest)[i + |g|..]
    ensures (buffer + rest)[..i] == buffer[..i]
  {
    var w := buffer + rest;
    assert w[i..i + |g|] == g;
    assert buffer[i + n..] + rest == w[i + n..];
    assert w[i + n..] == w[i..i + |g|][n..] + w[i + |g|..];
  }

  // And it is necessary ---------------------------------------------------------------------------------

  /** Deleted from the front of any input without a trace. */
  ghost predicate Transparent(literals: seq<Bytes>, u: Bytes)
    requires ValidLiterals(literals)
  {
    forall q: Bytes :: Deleted(literals, u + q) == Deleted(literals, q)
  }

  /** Two chunks, the first with a match: the prefix goes out, and the stream goes on behind the match. */
  lemma StreamBehindMatch(literals: seq<Bytes>, first: Bytes, rest: Bytes)
    requires ValidLiterals(literals) && ChunkingInvisible(literals, []) && Earliest(first, literals).Match?
    ensures var m := Earliest(first, literals);
      Deleted(literals, first + rest)
        == first[..m.index] + Deleted(literals, first[m.index + |literals[m.which]|..] + rest)
  {
    hide Earliest, Redact, Drain, Stream, Deleted;
    var m := Earliest(first, literals);
    var behind := first[m.index + |literals[m.which]|..];
    StreamOfTwo(literals, first, rest);
    StreamOfTwo(literals, behind, rest);
    DrainHit(literals, [], first, false);
    var d := Drain(literals, [], behind, false);
    assert first[..m.index] + [] == first[..m.index];
    Assoc(first[..m.index], d.output, Stream(literals, [], d.carry, [rest]));
  }

  lemma StreamOfTwo(literals: seq<Bytes>, first: Bytes, rest: Bytes)
    requires ValidLiterals(literals) && ChunkingInvisible(literals, [])
    ensures var d := Drain(literals, [], first, false);
      Deleted(literals, first + rest) == d.output + Stream(literals, [], d.carry, [rest])
  {
    hide Redact, Drain;
    var chunks: seq<Bytes> := [first, rest];
    assert chunks[1..] == [rest] && [rest][1..] == [];
    assert Flatten([rest]) == rest;
    assert Flatten(chunks) == first + rest;
    assert [] + first == first;
    assert Stream(literals, [], [], chunks) == Redact(literals, [], Flatten(chunks));
  }

  /** An unshadowed literal alone is deleted, and so is one in front of any input that arrives later. */
  lemma LiteralIsTransparent(literals: seq<Bytes>, k: nat)
    requires ValidLiterals(literals) && ChunkingInvisible(literals, []) && k < |literals| && !Shadowed(literals, k)
    ensures Transparent(literals, literals[k])
  {
    hide Earliest, Deleted, ChunkingInvisible;
    var a := literals[k];
    LiteralMatchesItself(literals, k);
    forall q: Bytes ensures Deleted(literals, a + q) == Deleted(literals, q) {
      StreamBehindMatch(literals, a, q);
      assert a[..0] + Deleted(literals, a[|a|..] + q) == Deleted(literals, q) by { assert a[|a|..] + q == q; }
    }
  }

  lemma LiteralMatchesItself(literals: seq<Bytes>, k: nat)
    requires ValidLiterals(literals) && k < |literals| && !Shadowed(literals, k)
    ensures Earliest(literals[k], literals) == Match(0, k)
  {
    hide Earliest;
    var a := literals[k];
    assert OccursAt(a, a, 0);
    forall q, i | 0 <= q < |literals| && OccursAt(a, literals[q], i) ensures 0 < i || k <= q {
      assert i == 0 ==> a[..|literals[q]|] == literals[q];
    }
    EarliestIsUnique(a, literals, Match(0, k));
  }

  lemma NothingIsDeleted(literals: seq<Bytes>)
    requires ValidLiterals(literals)
    ensures Deleted(literals, []) == []
  {
    hide Earliest;
    DeletedStep(literals, []);
    EarliestSpec([], literals);
  }

  /** What a match leaves of something transparent is transparent, and the match was at its front. */
  lemma RemainderIsTransparent(literals: seq<Bytes>, first: Bytes, u: Bytes)
    requires ValidLiterals(literals) && ChunkingInvisible(literals, []) && Transparent(literals, u)
    requires first <= u && Earliest(first, literals).Match?
    ensures var m := Earliest(first, literals);
      m.index == 0 && |literals[m.which]| <= |u| && Transparent(literals, u[|literals[m.which]|..])
  {
    hide Earliest, Deleted, ChunkingInvisible;
    var m := Earliest(first, literals);
    var n := m.index + |literals[m.which]|;
    forall q: Bytes ensures Deleted(literals, q) == first[..m.index] + Deleted(literals, u[n..] + q) {
      var rest := u[|first|..] + q;
      StreamBehindMatch(literals, first, rest);
      assert first + rest == u + q;
      assert first[n..] + rest == u[n..] + q;
    }
    NothingIsDeleted(literals);
    assert Deleted(literals, []) == first[..m.index] + Deleted(literals, u[n..] + []);
    assert m.index == 0;
    forall q: Bytes ensures Deleted(literals, u[n..] + q) == Deleted(literals, q) {
      assert first[..0] + Deleted(literals, u[n..] + q) == Deleted(literals, u[n..] + q);
    }
  }

  /** The transparent remainders of literals. */
  ghost function Remainders(literals: seq<Bytes>): set<Bytes>
    requires ValidLiterals(literals)
  {
    set k: nat, n: nat |
      k < |literals| && n <= |literals[k]| && Transparent(literals, literals[k][n..]) :: literals[k][n..]
  }

  lemma IsRemainder(literals: seq<Bytes>, k: nat, n: nat)
    requires ValidLiterals(literals) && k < |literals| && n <= |literals[k]| && Transparent(literals, literals[k][n..])
    ensures literals[k][n..] in Remainders(literals)
  {
  }

  lemma RemainderOf(literals: seq<Bytes>, u: Bytes) returns (k: nat, n: nat)
    requires ValidLiterals(literals) && u in Remainders(literals)
    ensures k < |literals| && n <= |literals[k]| && u == literals[k][n..] && Transparent(literals, u)
  {
    k, n :| k < |literals| && n <= |literals[k]| && Transparent(literals, literals[k][n..]) && u == literals[k][n..];
  }

  lemma RemaindersAreEndings(literals: seq<Bytes>)
    requires ValidLiterals(literals)
    ensures Remainders(literals) <= Endings(literals)
  {
    forall u | u in Remainders(literals) ensures u in Endings(literals) {
      var k, n := RemainderOf(literals, u);
    }
  }

  lemma RemaindersAbsorb(literals: seq<Bytes>)
    requires ValidLiterals(literals) && ChunkingInvisible(literals, [])
    ensures Absorbs(literals, Remainders(literals))
  {
    hide Earliest, Deleted, ChunkingInvisible, Remainders, Transparent, Shadowed;
    var s := Remainders(literals);
    forall u | u in s && u != []
      ensures Earliest(u, literals).Match? && Earliest(u, literals).index == 0
      ensures var m := Earliest(u, literals).which;
        && u[|literals[m]|..] in s
        && forall l :: 0 <= l < m && !Shadowed(literals, l) && u <= literals[l] ==> literals[l][|u|..] in s
    {
      var k, n := RemainderOf(literals, u);
      TransparentMatches(literals, u);
      RemainderIsTransparent(literals, u, u);
      var m := Earliest(u, literals).which;
      assert u[|literals[m]|..] == literals[k][n + |literals[m]|..];
      IsRemainder(literals, k, n + |literals[m]|);
      forall l | 0 <= l < m && !Shadowed(literals, l) && u <= literals[l] ensures literals[l][|u|..] in s {
        LongerLeavesTransparent(literals, l, u);
        IsRemainder(literals, l, |u|);
      }
    }
  }

  lemma TransparentMatches(literals: seq<Bytes>, u: Bytes)
    requires ValidLiterals(literals) && Transparent(literals, u) && u != []
    ensures Earliest(u, literals).Match?
  {
    hide Earliest, Deleted;
    NothingIsDeleted(literals);
    assert Deleted(literals, u + []) == Deleted(literals, []);
    assert u + [] == u;
    DeletedStep(literals, u);
  }

  lemma LongerLeavesTransparent(literals: seq<Bytes>, l: nat, u: Bytes)
    requires ValidLiterals(literals) && ChunkingInvisible(literals, []) && Transparent(literals, u)
    requires l < |literals| && !Shadowed(literals, l) && u <= literals[l]
    ensures Transparent(literals, literals[l][|u|..])
  {
    hide Earliest, Deleted, ChunkingInvisible, Shadowed;
    LiteralIsTransparent(literals, l);
    var v := literals[l][|u|..];
    forall q: Bytes ensures Deleted(literals, v + q) == Deleted(literals, q) {
      assert literals[l] + q == u + (v + q);
      assert Deleted(literals, u + (v + q)) == Deleted(literals, v + q);
      assert Deleted(literals, literals[l] + q) == Deleted(literals, q);
    }
  }

  lemma CutsLeaveRemainders(literals: seq<Bytes>)
    requires ValidLiterals(literals) && ChunkingInvisible(literals, [])
    ensures CutsInto(literals, Remainders(literals))
  {
    hide Earliest, ChunkingInvisible, Remainders, Transparent, Shadowed;
    forall k, c | 0 <= k < |literals| && !Shadowed(literals, k) && 0 <= c < |literals[k]|
      ensures var m := Earliest(literals[k][..c], literals);
        m.Match? ==> m.index == 0 && literals[k][|literals[m.which]|..] in Remainders(literals)
    {
      var first := literals[k][..c];
      if Earliest(first, literals).Match? {
        LiteralIsTransparent(literals, k);
        RemainderIsTransparent(literals, first, literals[k]);
        IsRemainder(literals, k, |literals[Earliest(first, literals).which]|);
      }
    }
  }

  /** The exact condition for an empty replacement. */
  lemma DeletionInvisibleIff(literals: seq<Bytes>)
    requires ValidLiterals(literals)
    ensures ChunkingInvisible(literals, []) <==> Vanishes(literals)
  {
    hide Absorbs, CutsInto, Stream, Redact, EarlyMatchesAgree, Remainders, Endings;
    if ChunkingInvisible(literals, []) {
      RemaindersAbsorb(literals);
      CutsLeaveRemainders(literals);
      RemaindersAreEndings(literals);
    }
    if Vanishes(literals) {
      var s: set<Bytes> :| Absorbs(literals, s) && CutsInto(literals, s);
      VanishingAgrees(literals, s);
      forall chunks ensures Stream(literals, [], [], chunks) == Redact(literals, [], Flatten(chunks)) {
        StreamAgrees(literals, [], [], chunks);
        assert [] + Flatten(chunks) == Flatten(chunks);
      }
    }
  }

  // An example ---------------------------------------------------------------------------------------------

  /** The rules "aa" and "a". */
  function Doubled(): (literals: seq<Bytes>)
    ensures ValidLiterals(literals)
  {
    [[97, 97], [97]]
  }

  /** They delete the same bytes however the input is cut, although one ends inside the other. */
  lemma EmptyReplacementCanHide()
    ensures ChunkingInvisible(Doubled(), []) && !EndsTogether(Doubled())
  {
    hide Earliest, Absorbs, CutsInto, Stream, Redact, EndsTogether, ChunkingInvisible, Doubled, Endings;
    DoubledOverlaps();
    DoubledVanishes({[97], []});
    DoubledEndings();
    DeletionInvisibleIff(Doubled());
  }

  lemma DoubledEndings()
    ensures {[97], []} <= Endings(Doubled())
  {
    assert Doubled()[1][0..] == [97] && Doubled()[1][1..] == [];
  }

  lemma DoubledOverlaps()
    ensures !EndsTogether(Doubled())
  {
    hide Earliest, Absorbs, CutsInto, Stream, Redact;
    var literals := Doubled();
    assert literals[0][0..1] == [97];
    assert OccursAt(literals[0], literals[1], 0) && !Shadowed(literals, 0);
  }

  lemma DoubledMatches()
    ensures Earliest([97], Doubled()) == Match(0, 1) && Earliest([], Doubled()) == NoMatch
  {
    hide Earliest;
    EarliestSpec([], Doubled());
    assert OccursAt([97], Doubled()[1], 0);
    EarliestSpec([97], Doubled());
  }

  lemma DoubledVanishes(s: set<Bytes>)
    requires s == {[97], []}
    ensures Absorbs(Doubled(), s) && CutsInto(Doubled(), s)
  {
    hide Earliest;
    DoubledMatches();
    var literals := Doubled();
    assert [97][1..] == [] && literals[0][1..] == [97];
    forall k, c | 0 <= k < |literals| && !Shadowed(literals, k) && 0 <= c < |literals[k]|
      ensures var m := Earliest(literals[k][..c], literals);
        m.Match? ==> m.index == 0 && literals[k][|literals[m.which]|..] in s
    {
      if c == 0 {
        assert literals[k][..0] == [];
      } else {
        assert k == 0 && literals[0][..1] == [97];
      }
    }
  }
}
