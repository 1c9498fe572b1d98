/** Sanitized text and the framed rendering of a context pack (packages/context/src/framing.ts),
    with a reader that trusts nothing but the length prefixes.
 */
module Framing {
  import opened Basics
  import opened Utf8

  // Sanitizing ----------------------------------------------------------------------

  predicate Survives(character: char) {
    var code := character as int;
    || code == 0x09 || code == 0x0a || code == 0x0d
    || !(|| code <= 0x1f || 0x7f <= code <= 0x9f
         || 0x200b <= code <= 0x200f || 0x202a <= code <= 0x202e
         || 0x2060 <= code <= 0x2064 || 0x2066 <= code <= 0x206f || code == 0xfeff)
  }

  function Sanitized(text: string): string {
    if text == [] then [] else Sanitized(text[..|text| - 1]) + if Survives(text[|text| - 1]) then [text[|text| - 1]]
        else []
  }

  method SanitizeContextText(text: string) returns (result: string, removed: nat)
    ensures result == Sanitized(text) && removed + |result| == |text|
  {
    result, removed := "", 0;
    var i := 0;
    assert text[..0] == [];
    while i < |text|
      invariant 0 <= i <= |text| && result == Sanitized(text[..i]) && removed + |result| == i
    {
      assert text[..i + 1][..i] == text[..i];
      if Survives(text[i]) {
        result := result + [text[i]];
      } else {
        removed := removed + 1;
      }
      i := i + 1;
    }
    assert text[..i] == text;
  }

  lemma {:induction false} SanitizedSurvives(text: string)
    ensures forall c :: c in Sanitized(text) <==> c in text && Survives(c)
  {
    hide Survives;
    if text != [] {
      SanitizedSurvives(text[..|text| - 1]);
      assert text == text[..|text| - 1] + [text[|text| - 1]];
    }
  }

  lemma {:induction false} CleanIsKept(text: string)
    requires forall c :: c in text ==> Survives(c)
    ensures Sanitized(text) == text
  {
    hide Survives, Sanitized;
    if text == [] {
      NothingToSanitize();
    } else {
      var init := text[..|text| - 1];
      assert text[|text| - 1] in text;
      assert forall c :: c in init ==> c in text;
      CleanIsKept(init);
      SanitizedStep(text);
      assert text == init + [text[|text| - 1]];
    }
  }

  lemma NothingToSanitize()
    ensures Sanitized("") == ""
  {
  }

  lemma SanitizedStep(text: string)
    requires text != []
    ensures Sanitized(text)
         == Sanitized(text[..|text| - 1]) + if Survives(text[|text| - 1]) then [text[|text| - 1]] else []
  {
  }

  lemma CleanIsUntouched(text: string)
    ensures Sanitized(text) == text <==> forall c :: c in text ==> Survives(c)
  {
    hide Survives, Sanitized;
    SanitizedSurvives(text);
    if forall c :: c in text ==> Survives(c) {
      CleanIsKept(text);
    }
  }

  /** Sanitizing again removes nothing, and no byte order mark is left to be lost by a decoder. */
  lemma SanitizedIsClean(text: string)
    ensures Sanitized(Sanitized(text)) == Sanitized(text) && BYTE_ORDER_MARK !in Sanitized(text)
  {
    SanitizedSurvives(text);
    CleanIsUntouched(Sanitized(text));
  }

  predicate IsControl(c: char) {
    '\U{0}' <= c <= '\U{1f}' || '\U{7f}' <= c <= '\U{9f}'
  }

  predicate IsZeroWidth(c: char) {
    '\U{200b}' <= c <= '\U{200d}' || c == '\U{2060}' || c == BYTE_ORDER_MARK
  }

  /** Marks, embeddings, overrides and isolates. */
  predicate IsDirectional(c: char) {
    c == '\U{200e}' || c == '\U{200f}' || '\U{202a}' <= c <= '\U{202e}' || '\U{2066}' <= c <= '\U{2069}'
  }

  /** Invisible operators, and format characters that are deprecated. */
  predicate IsInvisible(c: char) {
    '\U{2061}' <= c <= '\U{2064}' || '\U{206a}' <= c <= '\U{206f}'
  }

  /** Which characters of a text are dropped: those that control its display without being seen. */
  lemma DroppedIff(text: string, c: char)
    ensures c in Sanitized(text) <==>
      && c in text
      && (c == '\t' || c == '\n' || c == '\r'
          || (!IsControl(c) && !IsZeroWidth(c) && !IsDirectional(c) && !IsInvisible(c)))
  {
    hide Sanitized;
    SanitizedSurvives(text);
  }

  /** The others stay in their order: sanitizing works on every part by itself. */
  lemma {:induction false} SanitizedJoin(a: string, b: string)
    ensures Sanitized(a + b) == Sanitized(a) + Sanitized(b)
    decreases |b|
  {
    hide Survives;
    if b == "" {
      assert a + b == a;
    } else {
      var init := b[..|b| - 1];
      SanitizedJoin(a, init);
      assert (a + b)[..|a + b| - 1] == a + init;
    }
  }

  // Rendering ----------------------------------------------------------------------

  const FRAME_HEADER := "<<<ADOS-CONTEXT"
  const FRAME_ITEM := "<<<ADOS-ITEM"
  const FRAME_BODY := "<<<ADOS-BODY"
  const FRAME_END := "<<<ADOS-END>>>"

  datatype RenderableItem = RenderableItem(
    ordinal: nat, sourceKind: string, category: string, identity: string, digest: string, classification: string,
    disclosure: string, trust: string, observedAt: string, extractionRange: Option<(nat, nat)>, truncated: bool,
    byteContribution: nat, body: string)

  datatype RenderablePack = RenderablePack(fingerprint: string, items: seq<RenderableItem>)

  function Digit(n: nat): char
    requires n < 10
  {
    (n + 48) as char
  }

  function Decimal(n: nat): string {
    if n < 10 then [Digit(n)] else Decimal(n / 10) + [Digit(n % 10)]
  }

  function Join(parts: seq<string>, separator: char): string {
    if parts == [] then [] else if |parts| == 1 then parts[0]
    else parts[0] + [separator] + Join(parts[1..], separator)
  }

  function RangeText(range: Option<(nat, nat)>): string {
    if range.None? then "none" else Decimal(range.value.0) + ['-'] + Decimal(range.value.1)
  }

  function ItemWords(item: RenderableItem): seq<string> {
    [FRAME_ITEM, "n=" + Decimal(item.ordinal), "kind=" + item.sourceKind, "category=" + item.category,
        "id=" + item.identity,
     "digest=" + item.digest, "classification=" + item.classification, "disclosure=" + item.disclosure,
         "trust=" + item.trust,
     "observed=" + item.observedAt, "lines=" + RangeText(item.extractionRange),
     "truncated=" + (if item.truncated then "yes" else "no"), ">>>"]
  }

  function HeaderLine(pack: RenderablePack): string {
    FRAME_HEADER + " v=1 items=" + Decimal(|pack.items|) + " fingerprint=" + pack.fingerprint + ">>>"
  }

  function BodyLine(n: nat): string {
    FRAME_BODY + " bytes=" + Decimal(n) + ">>>"
  }

  function ItemLines(item: RenderableItem): seq<string> {
    [Join(ItemWords(item), ' '), BodyLine(item.byteContribution), item.body, FRAME_END]
  }

  function LinesOf(items: seq<RenderableItem>): seq<string> {
    if items == [] then [] else LinesOf(items[..|items| - 1]) + ItemLines(items[|items| - 1])
  }

  function Render(pack: RenderablePack): string {
    Join([HeaderLine(pack)] + LinesOf(pack.items), '\n') + "\n"
  }

  method RenderContextPack(pack: RenderablePack) returns (text: string)
    ensures text == Render(pack)
  {
    var lines := [HeaderLine(pack)];
    var i := 0;
    assert pack.items[..0] == [];
    while i < |pack.items|
      invariant 0 <= i <= |pack.items| && lines == [HeaderLine(pack)] + LinesOf(pack.items[..i])
    {
      var item := pack.items[i];
      assert pack.items[..i + 1][..i] == pack.items[..i];
      lines := lines + [Join(ItemWords(item), ' ')];
      lines := lines + [BodyLine(item.byteContribution)];
      lines := lines + [item.body];
      lines := lines + [FRAME_END];
      i := i + 1;
    }
    assert pack.items[..i] == pack.items;
    text := Join(lines, '\n') + "\n";
  }

  // What fields and packs look like -----------------------------------------------------

  predicate IsWord(s: string) {
    forall c :: c in s ==> c != ' ' && c != '\n'
  }

  predicate ItemOk(item: RenderableItem) {
    && IsWord(item.sourceKind) && IsWord(item.category) && IsWord(item.identity) && IsWord(item.digest)
    && IsWord(item.classification) && IsWord(item.disclosure) && IsWord(item.trust) && IsWord(item.observedAt)
    && item.byteContribution == ByteLength(item.body)
  }

  predicate PackOk(pack: RenderablePack) {
    IsWord(pack.fingerprint) && forall i :: 0 <= i < |pack.items| ==> ItemOk(pack.items[i])
  }

  // The reader --------------------------------------------------------------------------

  datatype Frame = Frame(header: string, body: string)
  datatype Reading = Reading(header: string, frames: seq<Frame>)

  /** Where the first newline is; the length if there is none. */
  function NewlineAt(bytes: Bytes): (n: nat)
    ensures n <= |bytes|
  {
    if bytes == [] || bytes[0] == 10 then 0 else 1 + NewlineAt(bytes[1..])
  }

  predicate IsDigit(c: char) { '0' <= c <= '9' }

  function ParseDecimal(s: string): Option<nat> {
    if s == [] || !IsDigit(s[|s| - 1]) then None
    else
      var d: nat := s[|s| - 1] as int - 48;
      if |s| == 1 then Some(d)
      else
        var before := ParseDecimal(s[..|s| - 1]);
        if before.None? then None else Some(10 * before.value + d)
  }

  /** The byte count a body line announces. */
  function Announced(line: string): Option<nat> {
    var prefix, suffix := FRAME_BODY + " bytes=", ">>>";
    if |line| >= |prefix| + |suffix| && line[..|prefix|] == prefix && line[|line| - |suffix|..] == suffix
    then ParseDecimal(line[|prefix|..|line| - |suffix|]) else None
  }

  /** Reads one block: a header line, the announced number of bytes, the end marker. */
  function ReadFrame(bytes: Bytes): Option<(Frame, nat)> {
    var h := NewlineAt(bytes);
    if h == |bytes| then None
    else
      var afterHeader := bytes[h + 1..];
      var b := NewlineAt(afterHeader);
      if b == |afterHeader| then None
      else
        var count := Announced(Decode(afterHeader[..b]));
        var rest := afterHeader[b + 1..];
        var end := Encode("\n" + FRAME_END + "\n");
        if count.None? || count.value + |end| > |rest| || rest[count.value..count.value + |end|] != end then None
        else Some((Frame(Decode(bytes[..h]), Decode(rest[..count.value])), h + 1 + b + 1 + count.value + |end|))
  }

  function ReadFrames(bytes: Bytes): Option<seq<Frame>>
    decreases |bytes|
  {
    if bytes == [] then Some([])
    else
      var first := ReadFrame(bytes);
      if first.None? || first.value.1 > |bytes| || first.value.1 == 0 then None
      else
        var others := ReadFrames(bytes[first.value.1..]);
        if others.None? then None else Some([first.value.0] + others.value)
  }

  function Read(bytes: Bytes): Option<Reading> {
    var h := NewlineAt(bytes);
    if h == |bytes| then None
    else
      var frames := ReadFrames(bytes[h + 1..]);
      if frames.None? then None else Some(Reading(Decode(bytes[..h]), frames.value))
  }

  // Reading back what was rendered ----------------------------------------------------------

  predicate OneLine(s: string) {
    '\n' !in s
  }

  lemma AsciiScalar(c: char)
    ensures c == '\n' ==> EncodeScalar(c) == [10]
    ensures c != '\n' ==> forall b :: b in EncodeScalar(c) ==> b != 10
  {
  }

  lemma {:induction false} NoNewlineBytes(line: string)
    requires OneLine(line)
    ensures forall b :: b in Encode(line) ==> b != 10
  {
    hide EncodeScalar;
    if line != [] {
      AsciiScalar(line[0]);
      assert line[0] in line;
      NoNewlineBytes(line[1..]);
    }
  }

  lemma {:induction false} FirstNewline(bytes: Bytes, n: nat)
    requires n < |bytes| && bytes[n] == 10 && forall i :: 0 <= i < n ==> bytes[i] != 10
    ensures NewlineAt(bytes) == n
  {
    if n > 0 {
      FirstNewline(bytes[1..], n - 1);
    }
  }

  lemma EncodeNewline()
    ensures Encode("\n") == [10]
  {
    AsciiScalar('\n');
    assert "\n"[1..] == "";
  }

  /** A line ends where it should, whatever follows. */
  lemma LineReads(line: string, rest: Bytes)
    requires OneLine(line)
    ensures var bytes := Encode(line + "\n") + rest;
      var n := NewlineAt(bytes);
      n == |Encode(line)| < |bytes| && Decode(bytes[..n]) == line && bytes[n + 1..] == rest
  {
    var bytes := Encode(line + "\n") + rest;
    EncodeJoin(line, "\n");
    EncodeNewline();
    NoNewlineBytes(line);
    hide Encode, Decode, EncodeScalar, NewlineAt;
    assert Encode(line + "\n") == Encode(line) + [10];
    assert forall i :: 0 <= i < |Encode(line)| ==> bytes[i] == Encode(line)[i] && Encode(line)[i] in Encode(line);
    FirstNewline(bytes, |Encode(line)|);
    assert bytes[..|Encode(line)|] == Encode(line);
    RoundTrip(line);
  }

  lemma {:induction false} DecimalRoundTrip(n: nat)
    ensures ParseDecimal(Decimal(n)) == Some(n)
    ensures Decimal(n) != [] && forall c :: c in Decimal(n) ==> IsDigit(c)
  {
    if n >= 10 {
      DecimalRoundTrip(n / 10);
      assert Decimal(n)[..|Decimal(n)| - 1] == Decimal(n / 10);
    }
  }

  lemma BodyLineReads(n: nat)
    ensures Announced(BodyLine(n)) == Some(n) && OneLine(BodyLine(n))
  {
    DecimalRoundTrip(n);
    var prefix, suffix := FRAME_BODY + " bytes=", ">>>";
    var line := BodyLine(n);
    assert line == prefix + Decimal(n) + suffix;
    assert line[|prefix|..|line| - |suffix|] == Decimal(n);
    assert OneLine(prefix) && OneLine(suffix);
  }

  // One block -----------------------------------------------------------------------------------

  function Header(item: RenderableItem): string {
    Join(ItemWords(item), ' ')
  }

  function Block(item: RenderableItem): string {
    Header(item) + "\n" + (BodyLine(item.byteContribution) + "\n" + (item.body + ("\n" + FRAME_END + "\n")))
  }

  function EndBytes(): Bytes {
    Encode("\n" + FRAME_END + "\n")
  }

  lemma ReadFrameStep(bytes: Bytes, header: string, count: nat, rest: Bytes, body: string)
    requires var h := NewlineAt(bytes);
      && h < |bytes| && Decode(bytes[..h]) == header
      && var afterHeader := bytes[h + 1..];
        var b := NewlineAt(afterHeader);
        b < |afterHeader| && Announced(Decode(afterHeader[..b])) == Some(count) && afterHeader[b + 1..] == rest
    requires count + |EndBytes()| <= |rest| && rest[count..count + |EndBytes()|]
        == EndBytes() && Decode(rest[..count]) == body
    ensures ReadFrame(bytes) == Some((Frame(header, body), |bytes| - |rest| + count + |EndBytes()|))
  {
    hide Encode, Decode, Announced, NewlineAt;
  }

  lemma BodyReads(body: string, rest: Bytes)
    ensures var all := Encode(body + ("\n" + FRAME_END + "\n")) + rest;
      var n := ByteLength(body);
      && |all| == n + |EndBytes()| + |rest|
      && all[n..n + |EndBytes()|] == EndBytes() && Decode(all[..n]) == body
  {
    hide Encode, Decode;
    EncodeJoin(body, "\n" + FRAME_END + "\n");
    RoundTrip(body);
    var all := Encode(body + ("\n" + FRAME_END + "\n")) + rest;
    assert all[..ByteLength(body)] == Encode(body);
  }

  /** The announced length decides where a body ends, so nothing in the body can end it. */
  lemma BlockReads(item: RenderableItem, rest: Bytes)
    requires item.byteContribution == ByteLength(item.body) && OneLine(Header(item))
    ensures var bytes := Encode(Block(item)) + rest;
      ReadFrame(bytes) == Some((Frame(Header(item), item.body), |Encode(Block(item))|))
  {
    hide Encode, Decode, Announced, BodyLine, Header, NewlineAt, EndBytes;
    var head, count, tail := Header(item), BodyLine(item.byteContribution), "\n" + FRAME_END + "\n";
    var afterCount := item.body + tail;
    EncodeJoin(head + "\n", count + "\n" + afterCount);
    EncodeJoin(count + "\n", afterCount);
    var rest2 := Encode(afterCount) + rest;
    var rest1 := Encode(count + "\n") + rest2;
    var bytes := Encode(Block(item)) + rest;
    assert bytes == Encode(head + "\n") + rest1;
    LineReads(head, rest1);
    BodyLineReads(item.byteContribution);
    LineReads(count, rest2);
    BodyReads(item.body, rest);
    ReadFrameStep(bytes, head, item.byteContribution, rest2, item.body);
  }

  // The whole rendering -----------------------------------------------------------------------------

  function Terminated(lines: seq<string>): string {
    if lines == [] then [] else lines[0] + "\n" + Terminated(lines[1..])
  }

  lemma {:induction false} JoinTerminated(lines: seq<string>)
    requires lines != []
    ensures Join(lines, '\n') + "\n" == Terminated(lines)
  {
    if |lines| == 1 {
      assert lines[1..] == [];
    } else {
      JoinTerminated(lines[1..]);
      assert Join(lines, '\n') + "\n" == lines[0] + ['\n'] + (Join(lines[1..], '\n') + "\n");
    }
  }

  lemma {:induction false} TerminatedAppend(a: seq<string>, b: seq<string>)
    ensures Terminated(a + b) == Terminated(a) + Terminated(b)
  {
    if a == [] {
      assert a + b == b;
    } else {
      TerminatedAppend(a[1..], b);
      assert (a + b)[1..] == a[1..] + b;
    }
  }

  function Blocks(items: seq<RenderableItem>): string {
    if items == [] then [] else Block(items[0]) + Blocks(items[1..])
  }

  lemma {:induction false} BlocksSnoc(items: seq<RenderableItem>)
    requires items != []
    ensures Blocks(items) == Blocks(items[..|items| - 1]) + Block(items[|items| - 1])
  {
    hide Block;
    if |items| == 1 {
      assert items[..0] == [] && items[1..] == [];
    } else {
      BlocksSnoc(items[1..]);
      assert items[1..][..|items| - 2] == items[..|items| - 1][1..];
    }
  }

  lemma ItemLinesAreBlock(item: RenderableItem)
    ensures Terminated(ItemLines(item)) == Block(item)
  {
    hide Join, BodyLine, ItemWords;
    var lines := ItemLines(item);
    assert lines[1..][1..][1..][1..] == [];
    assert Terminated(lines[1..][1..][1..]) == FRAME_END + "\n";
    assert Terminated(lines[1..][1..]) == item.body + "\n" + (FRAME_END + "\n");
    assert item.body + "\n" + (FRAME_END + "\n") == item.body + ("\n" + FRAME_END + "\n");
  }

  lemma {:induction false} LinesAreBlocks(items: seq<RenderableItem>)
    ensures Terminated(LinesOf(items)) == Blocks(items)
  {
    hide Block, ItemLines;
    if items != [] {
      var init := items[..|items| - 1];
      LinesAreBlocks(init);
      BlocksSnoc(items);
      TerminatedAppend(LinesOf(init), ItemLines(items[|items| - 1]));
      ItemLinesAreBlock(items[|items| - 1]);
    }
  }

  lemma RenderIsBlocks(pack: RenderablePack)
    ensures Render(pack) == HeaderLine(pack) + "\n" + Blocks(pack.items)
  {
    hide Blocks, LinesOf, HeaderLine, Join, Terminated;
    var lines := LinesOf(pack.items);
    JoinTerminated([HeaderLine(pack)] + lines);
    TerminatedAppend([HeaderLine(pack)], lines);
    LinesAreBlocks(pack.items);
    assert Terminated([HeaderLine(pack)]) == HeaderLine(pack) + "\n" by { TerminatedOne(HeaderLine(pack)); }
  }

  lemma TerminatedOne(line: string)
    ensures Terminated([line]) == line + "\n"
  {
    assert [line][1..] == [];
  }

  function FramesOf(items: seq<RenderableItem>): seq<Frame> {
    if items == [] then [] else [Frame(Header(items[0]), items[0].body)] + FramesOf(items[1..])
  }

  lemma BlockNotEmpty(item: RenderableItem)
    ensures |Encode(Block(item))| > 0
  {
    hide Encode;
    var rest := BodyLine(item.byteContribution) + "\n" + (item.body + ("\n" + FRAME_END + "\n"));
    EncodeJoin(Header(item) + "\n", rest);
    EncodeJoin(Header(item), "\n");
    EncodeNewline();
  }

  lemma {:induction false} BlocksRead(items: seq<RenderableItem>)
    requires forall i :: 0 <= i < |items| ==>
        items[i].byteContribution == ByteLength(items[i].body) && OneLine(Header(items[i]))
    ensures ReadFrames(Encode(Blocks(items))) == Some(FramesOf(items))
  {
    hide Block, Header, Encode, ReadFrame;
    if items == [] {
      NothingEncodes();
    } else {
      var block := Encode(Block(items[0]));
      var rest := Encode(Blocks(items[1..]));
      EncodeJoin(Block(items[0]), Blocks(items[1..]));
      BlockReads(items[0], rest);
      BlockNotEmpty(items[0]);
      assert (block + rest)[|block|..] == rest;
      BlocksRead(items[1..]);
    }
  }

  lemma NothingEncodes()
    ensures Encode("") == []
  {
  }

  // Header lines ---------------------------------------------------------------------------------------

  lemma {:induction false} JoinedWords(words: seq<string>)
    requires forall i :: 0 <= i < |words| ==> IsWord(words[i])
    ensures OneLine(Join(words, ' '))
  {
    if |words| > 1 {
      JoinedWords(words[1..]);
    }
  }

  lemma DecimalIsWord(n: nat)
    ensures IsWord(Decimal(n)) && '-' !in Decimal(n)
  {
    DecimalRoundTrip(n);
  }

  lemma Labelled(name: string, value: string)
    requires IsWord(name) && IsWord(value)
    ensures IsWord(name + value)
  {
  }

  lemma RangeIsWord(range: Option<(nat, nat)>)
    ensures IsWord(RangeText(range))
  {
    hide Decimal;
    if range.Some? {
      DecimalIsWord(range.value.0);
      DecimalIsWord(range.value.1);
    }
  }

  lemma FixedWords()
    ensures IsWord(FRAME_ITEM) && IsWord(">>>") && IsWord("truncated=yes") && IsWord("truncated=no")
    ensures IsWord("n=") && IsWord("kind=") && IsWord("category=") && IsWord("id=") && IsWord("digest=")
    ensures IsWord("classification=") && IsWord("disclosure=") && IsWord("trust=") && IsWord("observed=")
        && IsWord("lines=")
  {
  }

  lemma ItemWordsAreWords(item: RenderableItem)
    requires ItemOk(item)
    ensures forall i :: 0 <= i < |ItemWords(item)| ==> IsWord(ItemWords(item)[i])
  {
    hide Decimal, RangeText, IsWord;
    DecimalIsWord(item.ordinal);
    RangeIsWord(item.extractionRange);
    FixedWords();
    Labelled("n=", Decimal(item.ordinal));
    Labelled("kind=", item.sourceKind);
    Labelled("category=", item.category);
    Labelled("id=", item.identity);
    Labelled("digest=", item.digest);
    Labelled("classification=", item.classification);
    Labelled("disclosure=", item.disclosure);
    Labelled("trust=", item.trust);
    Labelled("observed=", item.observedAt);
    Labelled("lines=", RangeText(item.extractionRange));
    assert "truncated=" + "yes" == "truncated=yes" && "truncated=" + "no" == "truncated=no";
    var w := ItemWords(item);
    assert IsWord(w[0]) && IsWord(w[1]) && IsWord(w[2]) && IsWord(w[3]) && IsWord(w[4]) && IsWord(w[5]) && IsWord(w[6]);
    assert IsWord(w[7]) && IsWord(w[8]) && IsWord(w[9]) && IsWord(w[10]) && IsWord(w[11]) && IsWord(w[12]);
  }

  /** Round trip: the reader gets back every header line and every body, whatever the bodies contain. */
  lemma RenderRoundTrip(pack: RenderablePack)
    requires PackOk(pack)
    ensures Read(Encode(Render(pack))) == Some(Reading(HeaderLine(pack), FramesOf(pack.items)))
  {
    hide Blocks, Encode, Decode, ItemWords, FramesOf, ReadFrames, NewlineAt, Render;
    forall i | 0 <= i < |pack.items| ensures OneLine(Header(pack.items[i])) {
      ItemWordsAreWords(pack.items[i]);
      JoinedWords(ItemWords(pack.items[i]));
    }
    BlocksRead(pack.items);
    RenderIsBlocks(pack);
    var head := HeaderLine(pack);
    DecimalIsWord(|pack.items|);
    assert OneLine(head);
    EncodeJoin(head + "\n", Blocks(pack.items));
    LineReads(head, Encode(Blocks(pack.items)));
  }

  // Injectivity -------------------------------------------------------------------------------------------

  lemma CutAtSeparator(a: string, b: string, x: string, y: string, separator: char)
    requires a + [separator] + x == b + [separator] + y && separator !in a && separator !in b
    ensures a == b && x == y
  {
    var whole := a + [separator] + x;
    assert whole[|a|] == separator && whole[|b|] == separator;
    assert a == whole[..|a|] && b == whole[..|b|];
    assert x == whole[|a| + 1..] && y == whole[|b| + 1..];
  }

  lemma {:induction false} JoinInjective(v: seq<string>, w: seq<string>, separator: char)
    requires |v| == |w| && Join(v, separator) == Join(w, separator)
    requires forall i :: 0 <= i < |v| ==> separator !in v[i] && separator !in w[i]
    ensures v == w
  {
    if |v| > 1 {
      CutAtSeparator(v[0], w[0], Join(v[1..], separator), Join(w[1..], separator), separator);
      JoinInjective(v[1..], w[1..], separator);
      assert v == [v[0]] + v[1..] && w == [w[0]] + w[1..];
    } else if |v| == 1 {
      assert v == [v[0]] && w == [w[0]];
    }
  }

  lemma SameAfter(prefix: string, a: string, b: string)
    requires prefix + a == prefix + b
    ensures a == b
  {
    assert a == (prefix + a)[|prefix|..] && b == (prefix + b)[|prefix|..];
  }

  lemma DecimalInjective(m: nat, n: nat)
    requires Decimal(m) == Decimal(n)
    ensures m == n
  {
    DecimalRoundTrip(m);
    DecimalRoundTrip(n);
  }

  lemma RangeInjective(a: Option<(nat, nat)>, b: Option<(nat, nat)>)
    requires RangeText(a) == RangeText(b)
    ensures a == b
  {
    hide Decimal;
    if a.Some? && b.Some? {
      DecimalIsWord(a.value.0);
      DecimalIsWord(b.value.0);
      CutAtSeparator(Decimal(a.value.0), Decimal(b.value.0), Decimal(a.value.1), Decimal(b.value.1), '-');
      DecimalInjective(a.value.0, b.value.0);
      DecimalInjective(a.value.1, b.value.1);
    } else if a.Some? {
      RangeIsNotNone(a.value.0, a.value.1);
    } else if b.Some? {
      RangeIsNotNone(b.value.0, b.value.1);
    }
  }

  lemma RangeIsNotNone(m: nat, n: nat)
    ensures Decimal(m) + ['-'] + Decimal(n) != "none"
  {
    DecimalRoundTrip(m);
    var text := Decimal(m) + ['-'] + Decimal(n);
    assert text[0] == Decimal(m)[0] && Decimal(m)[0] in Decimal(m);
  }

  lemma WordsInjective(a: RenderableItem, b: RenderableItem)
    requires ItemWords(a) == ItemWords(b)
    ensures a.(byteContribution := 0, body := "") == b.(byteContribution := 0, body := "")
  {
    hide Decimal, RangeText;
    var v, w := ItemWords(a), ItemWords(b);
    SameAfter("n=", Decimal(a.ordinal), Decimal(b.ordinal)) by { assert v[1] == w[1]; }
    DecimalInjective(a.ordinal, b.ordinal);
    SameAfter("kind=", a.sourceKind, b.sourceKind) by { assert v[2] == w[2]; }
    SameAfter("category=", a.category, b.category) by { assert v[3] == w[3]; }
    SameAfter("id=", a.identity, b.identity) by { assert v[4] == w[4]; }
    SameAfter("digest=", a.digest, b.digest) by { assert v[5] == w[5]; }
    SameAfter("classification=", a.classification, b.classification) by { assert v[6] == w[6]; }
    SameAfter("disclosure=", a.disclosure, b.disclosure) by { assert v[7] == w[7]; }
    SameAfter("trust=", a.trust, b.trust) by { assert v[8] == w[8]; }
    SameAfter("observed=", a.observedAt, b.observedAt) by { assert v[9] == w[9]; }
    SameAfter("lines=", RangeText(a.extractionRange), RangeText(b.extractionRange)) by { assert v[10] == w[10]; }
    RangeInjective(a.extractionRange, b.extractionRange);
    SameAfter("truncated=", if a.truncated then "yes" else "no", if b.truncated then "yes"
        else "no") by { assert v[11] == w[11]; }
  }

  lemma ItemInjective(a: RenderableItem, b: RenderableItem)
    requires ItemOk(a) && ItemOk(b) && Header(a) == Header(b) && a.body == b.body
    ensures a == b
  {
    hide Join, ItemWords, IsWord;
    ItemWordsAreWords(a);
    ItemWordsAreWords(b);
    NoSpaces(ItemWords(a), ItemWords(b));
    assert |ItemWords(a)| == |ItemWords(b)| by { ThirteenWords(a); ThirteenWords(b); }
    JoinInjective(ItemWords(a), ItemWords(b), ' ');
    WordsInjective(a, b);
  }

  lemma ThirteenWords(item: RenderableItem)
    ensures |ItemWords(item)| == 13
  {
  }

  lemma NoSpaces(v: seq<string>, w: seq<string>)
    requires forall i :: 0 <= i < |v| ==> IsWord(v[i])
    requires forall i :: 0 <= i < |w| ==> IsWord(w[i])
    ensures forall i :: 0 <= i < |v| ==> ' ' !in v[i]
    ensures forall i :: 0 <= i < |w| ==> ' ' !in w[i]
  {
  }

  lemma {:induction false} FramesInjective(a: seq<RenderableItem>, b: seq<RenderableItem>)
    requires FramesOf(a) == FramesOf(b)
    requires forall i :: 0 <= i < |a| ==> ItemOk(a[i])
    requires forall i :: 0 <= i < |b| ==> ItemOk(b[i])
    ensures a == b
  {
    hide ItemOk, Header;
    if a != [] && b != [] {
      assert FramesOf(a)[0] == FramesOf(b)[0] && FramesOf(a)[1..] == FramesOf(b)[1..];
      ItemInjective(a[0], b[0]);
      FramesInjective(a[1..], b[1..]);
      assert a == [a[0]] + a[1..] && b == [b[0]] + b[1..];
    }
  }

  lemma HeaderLineInjective(p: RenderablePack, q: RenderablePack)
    requires p.items == q.items && HeaderLine(p) == HeaderLine(q)
    ensures p == q
  {
    hide Decimal;
    var prefix := FRAME_HEADER + " v=1 items=" + Decimal(|p.items|) + " fingerprint=";
    assert HeaderLine(p) == prefix + (p.fingerprint + ">>>") && HeaderLine(q) == prefix + (q.fingerprint + ">>>");
    SameAfter(prefix, p.fingerprint + ">>>", q.fingerprint + ">>>");
    assert p.fingerprint == (p.fingerprint + ">>>")[..|p.fingerprint + ">>>"| - 3];
    assert q.fingerprint == (q.fingerprint + ">>>")[..|q.fingerprint + ">>>"| - 3];
  }

  /** Two packs with the same rendering are the same in every rendered field and every body. */
  lemma RenderInjective(p: RenderablePack, q: RenderablePack)
    requires PackOk(p) && PackOk(q) && Render(p) == Render(q)
    ensures p == q
  {
    hide Render, Read, HeaderLine, FramesOf, Encode, IsWord, ItemOk;
    RenderRoundTrip(p);
    RenderRoundTrip(q);
    FramesInjective(p.items, q.items);
    HeaderLineInjective(p, q);
  }
}
