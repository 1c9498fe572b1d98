/** `<` on strings: the order of their UTF-16 code units (packages/context/src/select.ts). */
module TextOrder {
  /** Surrogate pairs sort before the characters from U+E000 on. */
  function UnitRank(c: char): nat {
    var code := c as int;
    if 0xe000 <= code <= 0xffff then code + 0x11_0000 else code
  }

  function CompareNumbers(m: nat, n: nat): int {
    if m < n then -1 else if m > n then 1 else 0
  }

  /** `compareText`, character by character. */
  function CompareText(a: string, b: string): int {
    if a == "" || b == "" then CompareNumbers(|a|, |b|)
    else if a[0] == b[0] then CompareText(a[1..], b[1..])
    else CompareNumbers(UnitRank(a[0]), UnitRank(b[0]))
  }

  // What that means ------------------------------------------------------------------------

  /** The code units that encode a character. */
  function CodeUnits(c: char): seq<int> {
    var code := c as int;
    if code < 0x10000 then [code] else [0xd800 + (code - 0x10000) / 0x400, 0xdc00 + (code - 0x10000) % 0x400]
  }

  predicate UnitsLess(c: char, d: char) {
    var u, v := CodeUnits(c), CodeUnits(d);
    u[0] < v[0] || (u[0] == v[0] && |u| == 2 && |v| == 2 && u[1] < v[1])
  }

  /** The texts differ first at `n`, where the first one ends or has the smaller character. */
  predicate LessAt(a: string, b: string, n: nat) {
    n <= |a| && n < |b| && a[..n] == b[..n] && (n == |a| || UnitsLess(a[n], b[n]))
  }

  ghost predicate TextLess(a: string, b: string) {
    exists n: nat :: LessAt(a, b, n)
  }

  lemma RankIsUnits(c: char, d: char)
    ensures UnitRank(c) < UnitRank(d) <==> UnitsLess(c, d)
    ensures UnitRank(c) == UnitRank(d) <==> c == d
  {
  }

  lemma LessLater(a: string, b: string, n: nat)
    requires a != "" && b != "" && a[0] == b[0]
    ensures LessAt(a[1..], b[1..], n) <==> LessAt(a, b, n + 1)
    ensures !LessAt(a, b, 0)
  {
    hide UnitsLess;
    RankIsUnits(a[0], b[0]);
    assert UnitsLess(a[0], b[0]) == false;
    if n + 1 <= |a| && n + 1 <= |b| {
      assert a[..n + 1] == [a[0]] + a[1..][..n] && b[..n + 1] == [b[0]] + b[1..][..n];
      assert a[1..][..n] == a[..n + 1][1..] && b[1..][..n] == b[..n + 1][1..];
    }
  }

  lemma FirstDiffers(a: string, b: string, n: nat)
    requires a != "" && b != "" && a[0] != b[0]
    ensures LessAt(a, b, n) ==> n == 0
  {
    if 0 < n <= |a| && n <= |b| {
      assert a[..n][0] == a[0] && b[..n][0] == b[0];
    }
  }

  lemma {:induction false} CompareTextIff(a: string, b: string)
    ensures CompareText(a, b) < 0 <==> TextLess(a, b)
    ensures CompareText(a, b) == 0 <==> a == b
  {
    hide UnitsLess, UnitRank;
    if a == "" || b == "" {
      assert LessAt(a, b, 0) <==> a == "" && b != "";
    } else if a[0] == b[0] {
      CompareTextIff(a[1..], b[1..]);
      assert a == [a[0]] + a[1..] && b == [b[0]] + b[1..];
      LessLater(a, b, 0);
      if TextLess(a, b) {
        var n: nat :| LessAt(a, b, n);
        LessLater(a, b, n - 1);
      }
      if TextLess(a[1..], b[1..]) {
        var n: nat :| LessAt(a[1..], b[1..], n);
        LessLater(a, b, n);
      }
    } else {
      RankIsUnits(a[0], b[0]);
      assert LessAt(a, b, 0) <==> UnitsLess(a[0], b[0]);
      if TextLess(a, b) {
        var n: nat :| LessAt(a, b, n);
        FirstDiffers(a, b, n);
      }
    }
  }

  lemma {:induction false} TextIsAntisymmetric(a: string, b: string)
    ensures CompareText(a, b) < 0 <==> CompareText(b, a) > 0
  {
    if a != "" && b != "" {
      TextIsAntisymmetric(a[1..], b[1..]);
    }
  }

  lemma {:induction false} TextIsTransitive(a: string, b: string, c: string)
    ensures CompareText(a, b) <= 0 && CompareText(b, c) <= 0 ==> CompareText(a, c) <= 0
  {
    if a != "" && b != "" && c != "" {
      TextIsTransitive(a[1..], b[1..], c[1..]);
    }
  }

  lemma LessIsTransitive(a: string, b: string, c: string)
    requires CompareText(a, b) < 0 && CompareText(b, c) < 0
    ensures CompareText(a, c) < 0
  {
    hide CompareText, TextLess;
    TextIsTransitive(a, b, c);
    TextIsAntisymmetric(b, c);
    CompareTextIff(a, c);
  }

  lemma {:induction false} DifferAt(a: string, b: string, n: nat)
    requires n < |a| && n < |b| && a[..n] == b[..n] && UnitRank(a[n]) < UnitRank(b[n])
    ensures CompareText(a, b) < 0
  {
    if n > 0 {
      assert a[0] == a[..n][0] && b[0] == b[..n][0];
      assert a[1..][..n - 1] == a[..n][1..] && b[1..][..n - 1] == b[..n][1..];
      DifferAt(a[1..], b[1..], n - 1);
    }
  }
}
