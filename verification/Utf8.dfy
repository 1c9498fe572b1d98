/** UTF-8 (RFC 3629, section 3) and cutting text on character boundaries
    (packages/context/src/estimator.ts). A `char` is a Unicode scalar value.
 */
module Utf8 {
  import opened Basics

  const BYTE_ORDER_MARK: char := '\U{FEFF}'

  predicate Continuation(b: Byte) {
    b / 64 == 2
  }

  /** A continuation byte with the low six bits of `n`. */
  function Low(n: nat): Byte {
    0x80 + n % 64
  }

  function EncodeScalar(character: char): Bytes {
    var c := character as int;
    var q1 := c / 64;
    var q2 := q1 / 64;
    if c < 0x80 then [c]
    else if c < 0x800 then [0xC0 + q1, Low(c)]
    else if c < 0x10000 then [0xE0 + q2, Low(q1), Low(c)]
    else [0xF0 + q2 / 64, Low(q2), Low(q1), Low(c)]
  }

  function Encode(text: string): Bytes {
    if text == [] then [] else EncodeScalar(text[0]) + Encode(text[1..])
  }

  function ByteLength(text: string): nat {
    |Encode(text)|
  }

  lemma ScalarShape(c: char)
    ensures 1 <= |EncodeScalar(c)| <= 4
    ensures !Continuation(EncodeScalar(c)[0])
    ensures forall i :: 1 <= i < |EncodeScalar(c)| ==> Continuation(EncodeScalar(c)[i])
  {
  }

  lemma {:induction false} EncodeJoin(a: string, b: string)
    ensures Encode(a + b) == Encode(a) + Encode(b)
  {
    hide EncodeScalar;
    if a == [] {
      assert a + b == b;
    } else {
      EncodeJoin(a[1..], b);
      assert (a + b)[1..] == a[1..] + b;
    }
  }

  // Decoding ----------------------------------------------------------------------

  /** How many bytes the character has that starts with `b`. */
  function Width(b: Byte): nat {
    if b < 0x80 then 1 else if b < 0xE0 then 2 else if b < 0xF0 then 3 else 4
  }

  function DecodeScalar(bytes: Bytes): int
    requires bytes != [] && |bytes| == Width(bytes[0])
  {
    var lead: int := bytes[0];
    if |bytes| == 1 then lead
    else if |bytes| == 2 then 64 * (lead - 0xC0) + Six(bytes[1])
    else if |bytes| == 3 then 64 * (64 * (lead - 0xE0) + Six(bytes[1])) + Six(bytes[2])
    else 64 * (64 * (64 * (lead - 0xF0) + Six(bytes[1])) + Six(bytes[2])) + Six(bytes[3])
  }

  function Six(b: Byte): int {
    b - 0x80
  }

  /** What a reader makes of bytes that are an encoding; other bytes are given up on at the first defect. */
  function Decode(bytes: Bytes): string {
    if bytes == [] || Width(bytes[0]) > |bytes| then []
    else
      var w := Width(bytes[0]);
      var c := DecodeScalar(bytes[..w]);
      if 0 <= c < 0x110000 && !(0xD800 <= c < 0xE000) then [c as char] + Decode(bytes[w..]) else []
  }

  lemma ScalarRoundTrip(c: char)
    ensures Width(EncodeScalar(c)[0]) == |EncodeScalar(c)| && DecodeScalar(EncodeScalar(c)) == c as int
  {
  }

  lemma {:induction false} RoundTrip(text: string)
    ensures Decode(Encode(text)) == text
  {
    if text != [] {
      var first := EncodeScalar(text[0]);
      ScalarShape(text[0]);
      ScalarRoundTrip(text[0]);
      RoundTrip(text[1..]);
      assert Encode(text)[..|first|] == first && Encode(text)[|first|..] == Encode(text[1..]);
    }
  }

  // Boundaries ----------------------------------------------------------------------

  /** Some whole number of characters takes exactly `k` bytes. */
  ghost predicate Boundary(text: string, k: nat) {
    exists n: nat :: n <= |text| && ByteLength(text[..n]) == k
  }

  lemma {:induction false} InsideCharacter(text: string, k: nat)
    requires k < ByteLength(text)
    ensures Boundary(text, k) <==> !Continuation(Encode(text)[k])
  {
    hide EncodeScalar, Continuation;
    var w := |EncodeScalar(text[0])|;
    ScalarShape(text[0]);
    if k < w {
      FirstCharacter(text, k);
    } else {
      InsideCharacter(text[1..], k - w);
      BoundaryShifts(text, k);
    }
  }

  lemma FirstCharacter(text: string, k: nat)
    requires text != [] && k < |EncodeScalar(text[0])|
    ensures Boundary(text, k) <==> k == 0
  {
    hide EncodeScalar;
    ScalarShape(text[0]);
    assert text[..0] == [];
    forall n: nat | 1 <= n <= |text| ensures ByteLength(text[..n]) > k {
      assert text[..n][0] == text[0];
    }
    assert k == 0 ==> ByteLength(text[..0]) == k;
  }

  lemma BoundaryShifts(text: string, k: nat)
    requires text != [] && k >= |EncodeScalar(text[0])|
    ensures Boundary(text, k) <==> Boundary(text[1..], k - |EncodeScalar(text[0])|)
  {
    hide EncodeScalar;
    var w := |EncodeScalar(text[0])|;
    ScalarShape(text[0]);
    forall n: nat | 1 <= n <= |text| ensures ByteLength(text[..n]) == w + ByteLength(text[1..][..n - 1]) {
      assert text[..n][1..] == text[1..][..n - 1];
    }
    if Boundary(text, k) {
      var n: nat :| n <= |text| && ByteLength(text[..n]) == k;
      assert text[..0] == [];
      assert ByteLength(text[1..][..n - 1]) == k - w;
    }
    if m: nat :| m <= |text[1..]| && ByteLength(text[1..][..m]) == k - w {
      assert ByteLength(text[..m + 1]) == k;
    }
  }

  lemma WholeIsBoundary(text: string)
    ensures Boundary(text, ByteLength(text)) && Boundary(text, 0)
  {
    assert text[..|text|] == text && text[..0] == [];
    assert ByteLength(text[..0]) == 0;
    assert ByteLength(text[..|text|]) == ByteLength(text);
  }

  // `safeUtf8Cut` ----------------------------------------------------------------------

  function CutFrom(bytes: Bytes, cut: nat, scanned: nat): (r: nat)
    requires cut <= |bytes|
    ensures r <= cut
  {
    if cut > 0 && scanned < 4 && cut < |bytes| && Continuation(bytes[cut]) then CutFrom(bytes, cut - 1, scanned + 1)
        else cut
  }

  function Cut(bytes: Bytes, limit: nat): nat {
    CutFrom(bytes, if limit <= |bytes| then limit else |bytes|, 0)
  }

  method SafeUtf8Cut(bytes: Bytes, limit: nat) returns (cut: nat)
    ensures cut == Cut(bytes, limit)
  {
    cut := if limit <= |bytes| then limit else |bytes|;
    var scanned := 0;
    while cut > 0 && scanned < 4
      invariant cut <= |bytes|
      invariant CutFrom(bytes, cut, scanned) == Cut(bytes, limit)
    {
      if !(cut < |bytes| && Continuation(bytes[cut])) {
        break;
      }
      cut := cut - 1;
      scanned := scanned + 1;
    }
  }

  /** On any bytes: never above the limit, never more than 4 below, and only continuation bytes are stepped over. */
  lemma {:induction false} CutFromSteps(bytes: Bytes, cut: nat, scanned: nat)
    requires cut <= |bytes| && scanned <= 4
    ensures var r := CutFrom(bytes, cut, scanned);
      && r <= cut && cut - r <= 4 - scanned
      && (forall k :: r < k <= cut ==> k < |bytes| && Continuation(bytes[k]))
      && (r == 0 || cut - r == 4 - scanned || r == |bytes| || !Continuation(bytes[r]))
    decreases 4 - scanned
  {
    if cut > 0 && scanned < 4 && cut < |bytes| && Continuation(bytes[cut]) {
      CutFromSteps(bytes, cut - 1, scanned + 1);
    }
  }

  /** At most three continuation bytes follow one another. */
  lemma {:induction false} NoLongRuns(text: string, k: nat)
    requires k + 3 < ByteLength(text)
    ensures exists i :: k <= i <= k + 3 && !Continuation(Encode(text)[i])
  {
    hide EncodeScalar, Continuation;
    var w := |EncodeScalar(text[0])|;
    ScalarShape(text[0]);
    if k == 0 {
      assert !Continuation(Encode(text)[0]);
    } else if k >= w {
      NoLongRuns(text[1..], k - w);
      var i :| k - w <= i <= k - w + 3 && !Continuation(Encode(text[1..])[i]);
      assert Encode(text)[i + w] == Encode(text[1..])[i];
    } else {
      assert w <= k + 3;
      ScalarShape(text[1]);
      assert Encode(text)[w] == Encode(text[1..])[0];
      assert !Continuation(Encode(text)[w]);
    }
  }

  /** On UTF-8 the cut is the largest character boundary not above the limit, and at most three bytes are given up. */
  lemma CutIsLargestBoundary(text: string, limit: nat)
    ensures var bytes := Encode(text);
      var top := if limit <= |bytes| then limit else |bytes|;
      && Boundary(text, Cut(bytes, limit))
      && Cut(bytes, limit) <= top <= Cut(bytes, limit) + 3
      && forall k: nat :: Boundary(text, k) && k <= limit ==> k <= Cut(bytes, limit)
  {
    hide Encode, Continuation, Boundary;
    var bytes := Encode(text);
    var top := if limit <= |bytes| then limit else |bytes|;
    var cut := Cut(bytes, limit);
    CutFromSteps(bytes, top, 0);
    WholeIsBoundary(text);
    if cut + 4 <= top {
      NoLongRuns(text, cut + 1);
      assert false;
    }
    if cut < |bytes| && cut > 0 {
      InsideCharacter(text, cut);
    }
    forall k: nat | Boundary(text, k) && k <= limit ensures k <= cut {
      if cut < k {
        if k < |bytes| {
          InsideCharacter(text, k);
        } else {
          BoundaryInRange(text, k);
        }
      }
    }
  }

  lemma BoundaryInRange(text: string, k: nat)
    requires Boundary(text, k)
    ensures k <= ByteLength(text)
  {
    var n: nat :| n <= |text| && ByteLength(text[..n]) == k;
    EncodeJoin(text[..n], text[n..]);
    assert text[..n] + text[n..] == text;
  }

  // `truncateToBytes` ----------------------------------------------------------------------

  datatype Truncation = Truncation(text: string, truncated: bool, byteLength: nat)

  /** A decoder that is not told otherwise drops a leading byte order mark. */
  function DecodeText(bytes: Bytes): string {
    var text := Decode(bytes);
    if text != [] && text[0] == BYTE_ORDER_MARK then text[1..] else text
  }

  function TruncateToBytes(text: string, maxBytes: nat): Truncation {
    var bytes := Encode(text);
    if |bytes| <= maxBytes then Truncation(text, false, |bytes|)
    else Truncation(DecodeText(bytes[..Cut(bytes, maxBytes)]), true, Cut(bytes, maxBytes))
  }

  lemma BoundaryPrefix(text: string, k: nat)
    requires Boundary(text, k)
    ensures k <= ByteLength(text)
    ensures Decode(Encode(text)[..k]) <= text && ByteLength(Decode(Encode(text)[..k])) == k
  {
    hide Encode, Decode;
    var n: nat :| n <= |text| && ByteLength(text[..n]) == k;
    EncodeJoin(text[..n], text[n..]);
    assert text[..n] + text[n..] == text;
    assert Encode(text)[..k] == Encode(text[..n]);
    RoundTrip(text[..n]);
  }

  /** A cut text is a whole-character prefix of at least `maxBytes - 3` bytes whose reported length is its length,
      provided the text does not begin with a byte order mark. */
  lemma TruncationIsPrefix(text: string, maxBytes: nat)
    requires text == [] || text[0] != BYTE_ORDER_MARK
    ensures var r := TruncateToBytes(text, maxBytes);
      && r.text <= text && r.byteLength == ByteLength(r.text) <= maxBytes
      && (r.truncated <==> ByteLength(text) > maxBytes)
      && (r.truncated ==> maxBytes <= r.byteLength + 3 && r.byteLength < ByteLength(text))
      && (!r.truncated ==> r.text == text)
  {
    hide Encode, Cut, Decode, Boundary;
    CutIsLargestBoundary(text, maxBytes);
    BoundaryPrefix(text, Cut(Encode(text), maxBytes));
  }

  lemma LongerIsMore(text: string, m: nat, n: nat)
    requires m < n <= |text|
    ensures ByteLength(text[..m]) < ByteLength(text[..n])
  {
    hide EncodeScalar;
    var rest := text[m..n];
    assert text[..n] == text[..m] + rest;
    EncodeJoin(text[..m], rest);
    ScalarShape(rest[0]);
  }

  /** No longer part of the text fits into `maxBytes`. */
  lemma TruncationIsLongest(text: string, maxBytes: nat, n: nat)
    requires (text == [] || text[0] != BYTE_ORDER_MARK) && n <= |text| && ByteLength(text[..n]) <= maxBytes
    ensures n <= |TruncateToBytes(text, maxBytes).text|
  {
    hide Encode, Cut, Decode;
    var r := TruncateToBytes(text, maxBytes);
    TruncationIsPrefix(text, maxBytes);
    CutIsLargestBoundary(text, maxBytes);
    assert Boundary(text, ByteLength(text[..n]));
    assert text[..|r.text|] == r.text;
    BoundaryPrefix(text, Cut(Encode(text), maxBytes));
    if |r.text| < n {
      LongerIsMore(text, |r.text|, n);
    }
  }

  /** The reported length is wrong exactly when a byte order mark survives the cut and is then dropped by the
      decoder. */
  lemma ReportedLengthIff(text: string, maxBytes: nat)
    ensures var r := TruncateToBytes(text, maxBytes);
      r.byteLength == ByteLength(r.text) <==>
        !(text != [] && text[0] == BYTE_ORDER_MARK && 3 <= maxBytes < ByteLength(text))
  {
    hide Cut, Decode, Boundary;
    if text == [] || text[0] != BYTE_ORDER_MARK {
      TruncationIsPrefix(text, maxBytes);
    } else if ByteLength(text) > maxBytes {
      var cut := Cut(Encode(text), maxBytes);
      CutIsLargestBoundary(text, maxBytes);
      BoundaryPrefix(text, cut);
      var kept := Decode(Encode(text)[..cut]);
      if maxBytes >= 3 {
        MarkIsBoundary(text);
        assert kept != [] && kept[0] == BYTE_ORDER_MARK;
        assert Encode(kept) == EncodeScalar(BYTE_ORDER_MARK) + Encode(kept[1..]);
      } else {
        MarkIsWhole(text, cut);
        assert kept == [] by { ScalarShape(text[0]); }
      }
    }
  }

  lemma MarkIsBoundary(text: string)
    requires text != [] && text[0] == BYTE_ORDER_MARK
    ensures Boundary(text, 3)
  {
    assert text[..1] == [BYTE_ORDER_MARK];
    assert Encode([BYTE_ORDER_MARK]) == EncodeScalar(BYTE_ORDER_MARK) + [];
    assert ByteLength(text[..1]) == 3;
  }

  lemma MarkIsWhole(text: string, k: nat)
    requires text != [] && text[0] == BYTE_ORDER_MARK && Boundary(text, k) && k < 3
    ensures k == 0
  {
    FirstCharacter(text, k);
  }
}
