/** A reader of the framed rendering that recovers every field (packages/context/src/framing.ts). It spells the labels
    of the format itself.
 */
module PackReading {
  import opened Basics
  import opened Utf8
  import opened Framing

  /** The words of a line. */
  function Split(line: string, separator: char): (words: seq<string>)
    ensures words != []
  {
    if line == "" then [""]
    else
      var rest := Split(line[1..], separator);
      if line[0] == separator then [""] + rest else [[line[0]] + rest[0]] + rest[1..]
  }

  function Behind(name: string, word: string): Option<string> {
    if name <= word then Some(word[|name|..]) else None
  }

  function ReadRange(text: string): Option<Option<(nat, nat)>> {
    if text == "none" then Some(None)
    else
      var ends := Split(text, '-');
      if |ends| != 2 || ParseDecimal(ends[0]).None? || ParseDecimal(ends[1]).None? then None
      else Some(Some((ParseDecimal(ends[0]).value, ParseDecimal(ends[1]).value)))
  }

  function ReadFlag(word: string): Option<bool> {
    if word == "truncated=yes" then Some(true) else if word == "truncated=no" then Some(false) else None
  }

  function OrEmpty(field: Option<string>): string {
    if field.Some? then field.value else ""
  }

  /** A header line and the body it belongs to. */
  function ReadItem(f: Frame): Option<RenderableItem> {
    var w := Split(f.header, ' ');
    if |w| != 13 || w[0] != "<<<ADOS-ITEM" || w[12] != ">>>" then None
    else
      var ordinal := ParseDecimal(OrEmpty(Behind("n=", w[1])));
      var range := ReadRange(OrEmpty(Behind("lines=", w[10])));
      var flag := ReadFlag(w[11]);
      if ordinal.None? || range.None? || flag.None? then None
      else
        match (Behind("kind=", w[2]), Behind("category=", w[3]), Behind("id=", w[4]), Behind("digest=", w[5]),
               Behind("classification=", w[6]), Behind("disclosure=", w[7]), Behind("trust=", w[8]),
               Behind("observed=", w[9]))
        case (Some(kind), Some(category), Some(id), Some(digest), Some(classification), Some(disclosure), Some(trust),
              Some(observed)) =>
          Some(RenderableItem(ordinal.value, kind, category, id, digest, classification, disclosure, trust, observed,
                              range.value, flag.value, ByteLength(f.body), f.body))
        case _ => None
  }

  function ReadItems(frames: seq<Frame>): Option<seq<RenderableItem>> {
    if frames == [] then Some([])
    else match (ReadItem(frames[0]), ReadItems(frames[1..]))
      case (Some(item), Some(others)) => Some([item] + others)
      case _ => None
  }

  /** "<<<ADOS-CONTEXT v=1 items=N fingerprint=F>>>" */
  function ReadHeader(line: string): Option<(nat, string)> {
    var w := Split(line, ' ');
    if |w| != 4 || w[0] != "<<<ADOS-CONTEXT" || w[1] != "v=1" || |w[3]| < 3 || w[3][|w[3]| - 3..] != ">>>" then None
    else
      match (ParseDecimal(OrEmpty(Behind("items=", w[2]))), Behind("fingerprint=", w[3][..|w[3]| - 3]))
      case (Some(n), Some(fingerprint)) => Some((n, fingerprint))
      case _ => None
  }

  /** The whole rendering; the number of items must be the announced one. */
  function ReadPack(bytes: Bytes): Option<RenderablePack> {
    match Read(bytes)
    case None => None
    case Some(reading) => (
      match (ReadHeader(reading.header), ReadItems(reading.frames))
      case (Some((n, fingerprint)), Some(items)) =>
        if n == |items| then Some(RenderablePack(fingerprint, items)) else None
      case _ => None)
  }

  // Reading back what was written -------------------------------------------------------------

  lemma {:induction false} SplitWord(word: string, separator: char)
    requires separator !in word
    ensures Split(word, separator) == [word]
  {
    if word != "" {
      SplitWord(word[1..], separator);
      assert word == [word[0]] + word[1..];
    }
  }

  lemma {:induction false} SplitFirst(word: string, rest: string, separator: char)
    requires separator !in word
    ensures Split(word + [separator] + rest, separator) == [word] + Split(rest, separator)
    decreases |word|
  {
    var line := word + [separator] + rest;
    if word == "" {
      assert line[0] == separator && line[1..] == rest;
    } else {
      SplitFirst(word[1..], rest, separator);
      assert line[0] == word[0] && line[1..] == word[1..] + [separator] + rest;
      assert word == [word[0]] + word[1..];
    }
  }

  lemma {:induction false} SplitJoin(words: seq<string>, separator: char)
    requires words != [] && forall i :: 0 <= i < |words| ==> separator !in words[i]
    ensures Split(Join(words, separator), separator) == words
  {
    hide Split;
    if |words| == 1 {
      SplitWord(words[0], separator);
    } else {
      SplitJoin(words[1..], separator);
      SplitFirst(words[0], Join(words[1..], separator), separator);
      assert words == [words[0]] + words[1..];
    }
  }

  lemma BehindLabel(name: string, value: string)
    ensures Behind(name, name + value) == Some(value)
  {
    assert (name + value)[|name|..] == value;
  }

  lemma RangeReads(range: Option<(nat, nat)>)
    ensures ReadRange(RangeText(range)) == Some(range)
  {
    hide Decimal, ParseDecimal, Split;
    if range.Some? {
      var (m, n) := range.value;
      RangeIsNotNone(m, n);
      DecimalIsWord(m);
      DecimalIsWord(n);
      SplitFirst(Decimal(m), Decimal(n), '-');
      SplitWord(Decimal(n), '-');
      DecimalRoundTrip(m);
      DecimalRoundTrip(n);
    }
  }

  lemma ItemReads(item: RenderableItem)
    requires ItemOk(item)
    ensures ReadItem(Frame(Header(item), item.body)) == Some(item)
  {
    hide Split, Join, Decimal, ParseDecimal, RangeText, ReadRange, IsWord, Behind, ByteLength;
    var w := ItemWords(item);
    ItemWordsAreWords(item);
    NoSpaces(w, w);
    SplitJoin(w, ' ');
    DecimalRoundTrip(item.ordinal);
    RangeReads(item.extractionRange);
    BehindLabel("n=", Decimal(item.ordinal));
    BehindLabel("kind=", item.sourceKind);
    BehindLabel("category=", item.category);
    BehindLabel("id=", item.identity);
    BehindLabel("digest=", item.digest);
    BehindLabel("classification=", item.classification);
    BehindLabel("disclosure=", item.disclosure);
    BehindLabel("trust=", item.trust);
    BehindLabel("observed=", item.observedAt);
    BehindLabel("lines=", RangeText(item.extractionRange));
    FlagReads(item.truncated);
  }

  lemma FlagReads(truncated: bool)
    ensures ReadFlag("truncated=" + (if truncated then "yes" else "no")) == Some(truncated)
  {
    assert "truncated=" + "yes" == "truncated=yes" && "truncated=" + "no" == "truncated=no";
    assert "truncated=yes" != "truncated=no" by { assert |"truncated=yes"| != |"truncated=no"|; }
  }

  lemma {:induction false} ItemsRead(items: seq<RenderableItem>)
    requires forall i :: 0 <= i < |items| ==> ItemOk(items[i])
    ensures ReadItems(FramesOf(items)) == Some(items)
  {
    hide ReadItem, ItemOk, Header;
    if items != [] {
      ItemReads(items[0]);
      ItemsRead(items[1..]);
      assert items == [items[0]] + items[1..];
    }
  }

  lemma HeaderReads(pack: RenderablePack)
    requires IsWord(pack.fingerprint)
    ensures ReadHeader(HeaderLine(pack)) == Some((|pack.items|, pack.fingerprint))
  {
    hide Split, Decimal, ParseDecimal, Behind;
    var count, last := "items=" + Decimal(|pack.items|), "fingerprint=" + pack.fingerprint + ">>>";
    var words := [FRAME_HEADER, "v=1", count, last];
    HeaderIsJoined(pack);
    DecimalIsWord(|pack.items|);
    DecimalRoundTrip(|pack.items|);
    SplitJoin(words, ' ');
    BehindLabel("items=", Decimal(|pack.items|));
    BehindLabel("fingerprint=", pack.fingerprint);
    assert last[..|last| - 3] == "fingerprint=" + pack.fingerprint && last[|last| - 3..] == ">>>";
  }

  lemma JoinTwo(a: string, b: string)
    ensures Join([a, b], ' ') == a + [' '] + b
  {
    assert [a, b][1..] == [b];
  }

  lemma JoinFour(a: string, b: string, c: string, d: string)
    ensures Join([a, b, c, d], ' ') == a + [' '] + (b + [' '] + (c + [' '] + d))
  {
    assert [a, b, c, d][1..] == [b, c, d] && [b, c, d][1..] == [c, d];
    JoinTwo(c, d);
  }

  lemma Spaced(a: string, n: string, f: string)
    ensures a + [' '] + ("v=1" + [' '] + (("items=" + n) + [' '] + ("fingerprint=" + f)))
         == a + " v=1 items=" + n + " fingerprint=" + f
  {
    assert " v=1 items=" == [' '] + "v=1" + [' '] + "items=";
    assert " fingerprint=" == [' '] + "fingerprint=";
  }

  lemma HeaderIsJoined(pack: RenderablePack)
    ensures HeaderLine(pack)
         == Join([FRAME_HEADER, "v=1", "items=" + Decimal(|pack.items|), "fingerprint=" + pack.fingerprint + ">>>"],
                 ' ')
  {
    hide Decimal, Join;
    var n, f := Decimal(|pack.items|), pack.fingerprint + ">>>";
    JoinFour(FRAME_HEADER, "v=1", "items=" + n, "fingerprint=" + f);
    Spaced(FRAME_HEADER, n, f);
    assert "fingerprint=" + f == "fingerprint=" + pack.fingerprint + ">>>";
  }

  /** Every field of every item, and the fingerprint, can be read back from the rendering. */
  lemma PackReads(pack: RenderablePack)
    requires PackOk(pack)
    ensures ReadPack(Encode(Render(pack))) == Some(pack)
  {
    hide Render, Read, Encode, HeaderLine, ReadHeader, ReadItems, FramesOf, ItemOk, IsWord;
    RenderRoundTrip(pack);
    HeaderReads(pack);
    ItemsRead(pack.items);
  }
}
