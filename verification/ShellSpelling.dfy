/** Every way to write a list of words reads as that list: bare, escaped, in single and in double quotes, mixed. */
module ShellSpelling {
  import opened Text
  import opened ShellWords

  /** A character inside double quotes: as it is, or escaped. */
  datatype Inner = Plain(c: char) | Backslashed(c: char)

  datatype Chunk =
    | Bare(c: char)
    | Escaped(c: char)
    | Single(text: string)
    | Double(inner: seq<Inner>)

  predicate InnerOk(inner: Inner) {
    inner.Plain? ==> inner.c != '"' && inner.c != '\\'
  }

  predicate ChunkOk(chunk: Chunk) {
    match chunk
    case Bare(c) => !IsWhitespace(c) && c != '\'' && c != '"' && c != '\\'
    case Escaped(_) => true
    case Single(text) => '\'' !in text
    case Double(inner) => forall i | 0 <= i < |inner| :: InnerOk(inner[i])
  }

  function InnerSpelled(inner: seq<Inner>): string {
    if inner == [] then ""
    else (if inner[0].Plain? then [inner[0].c] else ['\\', inner[0].c]) + InnerSpelled(inner[1..])
  }

  function InnerMeant(inner: seq<Inner>): string {
    if inner == [] then "" else [inner[0].c] + InnerMeant(inner[1..])
  }

  function ChunkSpelled(chunk: Chunk): string {
    match chunk
    case Bare(c) => [c]
    case Escaped(c) => ['\\', c]
    case Single(text) => "'" + text + "'"
    case Double(inner) => "\"" + InnerSpelled(inner) + "\""
  }

  function ChunkMeant(chunk: Chunk): string {
    match chunk
    case Bare(c) => [c]
    case Escaped(c) => [c]
    case Single(text) => text
    case Double(inner) => InnerMeant(inner)
  }

  function Spelled(chunks: seq<Chunk>): string {
    if chunks == [] then "" else ChunkSpelled(chunks[0]) + Spelled(chunks[1..])
  }

  function Meant(chunks: seq<Chunk>): string {
    if chunks == [] then "" else ChunkMeant(chunks[0]) + Meant(chunks[1..])
  }

  /** A word with the blanks before it. */
  datatype Item = Item(blanks: string, chunks: seq<Chunk>)

  predicate ItemOk(item: Item) {
    && AllWhitespace(item.blanks) && item.chunks != []
    && forall i | 0 <= i < |item.chunks| :: ChunkOk(item.chunks[i])
  }

  /** Words are apart; there may be blanks before the first and after the last. */
  predicate LineOk(items: seq<Item>) {
    && (forall i | 0 <= i < |items| :: ItemOk(items[i]))
    && forall i | 0 < i < |items| :: items[i].blanks != ""
  }

  function LineSpelled(items: seq<Item>): string {
    if items == [] then ""
    else LineSpelled(items[..|items| - 1]) + (items[|items| - 1].blanks + Spelled(items[|items| - 1].chunks))
  }

  function Words(items: seq<Item>): seq<string> {
    if items == [] then [] else Words(items[..|items| - 1]) + [Meant(items[|items| - 1].chunks)]
  }

  // Reading

  /** Neither in quotes nor after a backslash. */
  predicate Open(s: Scan) {
    s.quote.None? && !s.escaped
  }

  function With(s: Scan, more: string): Scan {
    s.(current := s.current + more, started := true)
  }

  lemma {:induction false} ReadSingle(s: Scan, text: string)
    requires s.quote == Some('\'') && !s.escaped && s.started && '\'' !in text
    ensures s.ReadAll(text) == With(s, text)
    decreases |text|
  {
    if text != "" {
      assert text[0] in text && forall c :: c in text[1..] ==> c in text;
      ReadSingle(s.Read(text[0]), text[1..]);
      assert s.current + [text[0]] + text[1..] == s.current + text;
    } else {
      assert s.current + "" == s.current;
    }
  }

  lemma ReadTwo(s: Scan, a: char, b: char)
    ensures s.ReadAll([a, b]) == s.Read(a).Read(b)
  {
    assert [a, b][1..] == [b];
    ReadOne(s.Read(a), b);
  }

  lemma {:induction false} ReadDouble(s: Scan, inner: seq<Inner>)
    requires s.quote == Some('"') && !s.escaped && s.started && forall i | 0 <= i < |inner| :: InnerOk(inner[i])
    ensures s.ReadAll(InnerSpelled(inner)) == With(s, InnerMeant(inner))
    decreases |inner|
  {
    if inner != [] {
      assert InnerOk(inner[0]);
      var first := if inner[0].Plain? then [inner[0].c] else ['\\', inner[0].c];
      var next := With(s, [inner[0].c]);
      ReadOne(s, inner[0].c);
      ReadTwo(s, '\\', inner[0].c);
      assert s.ReadAll(first) == next;
      hide Scan.Read;
      ReadAllConcat(s, first, InnerSpelled(inner[1..]));
      ReadDouble(next, inner[1..]);
      assert s.current + [inner[0].c] + InnerMeant(inner[1..]) == s.current + ([inner[0].c] + InnerMeant(inner[1..]));
    } else {
      assert s.current + "" == s.current;
    }
  }

  lemma ReadQuoted(s: Scan, quote: char, text: string, more: string)
    requires Open(s) && (quote == '\'' || quote == '"')
    requires With(s, "").(quote := Some(quote)).ReadAll(text) == With(s, more).(quote := Some(quote))
    ensures s.ReadAll([quote] + text + [quote]) == With(s, more)
  {
    var inside := With(s, "").(quote := Some(quote));
    assert s.current + "" == s.current;
    ReadOne(s, quote);
    ReadOne(With(s, more).(quote := Some(quote)), quote);
    assert s.Read(quote) == inside;
    hide Scan.Read;
    ReadAllConcat(s, [quote] + text, [quote]);
    ReadAllConcat(s, [quote], text);
  }

  lemma ReadChunk(s: Scan, chunk: Chunk)
    requires Open(s) && ChunkOk(chunk)
    ensures s.ReadAll(ChunkSpelled(chunk)) == With(s, ChunkMeant(chunk))
  {
    match chunk
    case Bare(c) => ReadOne(s, c);
    case Escaped(c) => ReadTwo(s, '\\', c);
    case Single(text) =>
      var inside := With(s, "").(quote := Some('\''));
      ReadSingle(inside, text);
      assert s.current + "" + text == s.current + text;
      ReadQuoted(s, '\'', text, text);
    case Double(inner) =>
      var inside := With(s, "").(quote := Some('"'));
      ReadDouble(inside, inner);
      assert s.current + "" + InnerMeant(inner) == s.current + InnerMeant(inner);
      ReadQuoted(s, '"', InnerSpelled(inner), InnerMeant(inner));
  }

  lemma {:induction false} ReadChunks(s: Scan, chunks: seq<Chunk>)
    requires Open(s) && chunks != [] && forall i | 0 <= i < |chunks| :: ChunkOk(chunks[i])
    ensures s.ReadAll(Spelled(chunks)) == With(s, Meant(chunks))
    decreases |chunks|
  {
    hide Scan.Read, ChunkOk, ChunkSpelled, ChunkMeant;
    ReadChunk(s, chunks[0]);
    var next := With(s, ChunkMeant(chunks[0]));
    ReadAllConcat(s, ChunkSpelled(chunks[0]), Spelled(chunks[1..]));
    if |chunks| > 1 {
      ReadChunks(next, chunks[1..]);
      Assoc(s.current, ChunkMeant(chunks[0]), Meant(chunks[1..]));
    } else {
      assert chunks[1..] == [] && ChunkMeant(chunks[0]) + "" == ChunkMeant(chunks[0]);
      assert next.ReadAll("") == next;
    }
  }

  /** Blanks end a word if one was begun. */
  function Ended(s: Scan): Scan {
    if s.started then s.(values := s.values + [s.current], current := "", started := false) else s
  }

  lemma {:induction false} ReadBlanks(s: Scan, blanks: string)
    requires Open(s) && AllWhitespace(blanks) && blanks != ""
    ensures s.ReadAll(blanks) == Ended(s)
    decreases |blanks|
  {
    assert IsWhitespace(blanks[0]);
    assert s.Read(blanks[0]) == Ended(s);
    hide Scan.Read, IsWhitespace;
    if |blanks| > 1 {
      ReadBlanks(Ended(s), blanks[1..]);
    } else {
      assert blanks[1..] == "" && Ended(s).ReadAll("") == Ended(s);
    }
  }

  /** Where the splitter is after a line: all words but the last are done, the last is being read. */
  function After(items: seq<Item>): Scan {
    if items == [] then START
    else Scan(Words(items[..|items| - 1]), Meant(items[|items| - 1].chunks), None, false, true)
  }

  lemma ItemReads(s: Scan, item: Item)
    requires Open(s) && ItemOk(item) && (item.blanks == "" ==> s == START)
    requires !s.started ==> s == START
    ensures s.ReadAll(item.blanks + Spelled(item.chunks))
         == Scan(if s.started then s.values + [s.current] else [], Meant(item.chunks), None, false, true)
  {
    hide Scan.Read, Scan.ReadAll, ChunkOk, Spelled, Meant, AllWhitespace;
    ReadAllConcat(s, item.blanks, Spelled(item.chunks));
    if item.blanks != "" {
      ReadBlanks(s, item.blanks);
    } else {
      ReadNothing(s);
    }
    ReadChunks(Ended(s), item.chunks);
    assert "" + Meant(item.chunks) == Meant(item.chunks);
  }

  lemma ReadNothing(s: Scan)
    ensures s.ReadAll("") == s
  {
  }

  lemma {:induction false} LineReads(items: seq<Item>)
    requires LineOk(items)
    ensures START.ReadAll(LineSpelled(items)) == After(items)
    decreases |items|
  {
    hide Scan.Read, ItemOk, Spelled, Meant;
    if items != [] {
      var (before, last) := (items[..|items| - 1], items[|items| - 1]);
      LineReads(before);
      ReadAllConcat(START, LineSpelled(before), last.blanks + Spelled(last.chunks));
      ItemReads(After(before), last);
      assert before != [] ==> Words(before) == Words(before[..|before| - 1]) + [Meant(before[|before| - 1].chunks)];
    } else {
      assert START.ReadAll("") == START;
    }
  }

  lemma TailReads(items: seq<Item>, tail: string)
    requires LineOk(items) && AllWhitespace(tail)
    ensures START.ReadAll(LineSpelled(items) + tail) == if tail == "" then After(items) else Ended(After(items))
  {
    hide Scan.Read, IsWhitespace;
    LineReads(items);
    ReadAllConcat(START, LineSpelled(items), tail);
    if tail != "" {
      ReadBlanks(After(items), tail);
    } else {
      assert After(items).ReadAll("") == After(items);
    }
  }

  /** However the words are written, and whatever blanks are around them, the line splits into these words. */
  lemma EverySpellingSplits(items: seq<Item>, tail: string)
    requires LineOk(items) && AllWhitespace(tail)
    ensures ShellWords.Split(LineSpelled(items) + tail) == Ok(Words(items))
  {
    TailReads(items, tail);
    hide Scan.ReadAll, Scan.Read;
    assert items != [] ==> Words(items) == Words(items[..|items| - 1]) + [Meant(items[|items| - 1].chunks)];
  }

  /** A quotation that is not closed is an error, whatever comes before it; and so is a backslash at the end. */
  lemma UnclosedFails(items: seq<Item>, tail: string, text: string, inner: seq<Inner>)
    requires LineOk(items) && AllWhitespace(tail) && '\'' !in text && forall i | 0 <= i < |inner| :: InnerOk(inner[i])
    ensures ShellWords.Split(LineSpelled(items) + tail + ("'" + text))
         == Err("Browser exec command has an unclosed quote.")
    ensures ShellWords.Split(LineSpelled(items) + tail + ("\"" + InnerSpelled(inner)))
         == Err("Browser exec command has an unclosed quote.")
    ensures ShellWords.Split(LineSpelled(items) + tail + "\\")
         == Err("Browser exec command ends with an incomplete escape.")
  {
    var line := LineSpelled(items) + tail;
    TailReads(items, tail);
    var s := START.ReadAll(line);
    ReadAllConcat(START, line, "'" + text);
    ReadAllConcat(s, "'", text);
    ReadOne(s, '\'');
    ReadSingle(s.Read('\''), text);
    ReadAllConcat(START, line, "\"" + InnerSpelled(inner));
    ReadAllConcat(s, "\"", InnerSpelled(inner));
    ReadOne(s, '"');
    ReadDouble(s.Read('"'), inner);
    ReadAllConcat(START, line, "\\");
    ReadOne(s, '\\');
    hide Scan.ReadAll;
  }

  // The escaper

  const SMALL := "abcdefghijklmnopqrstuvwxyz"
  const LARGE := "ABCDEFGHIJKLMNOPQRSTUVWXYZ"
  const OTHER := "0123456789_./@:-"

  predicate Safe(c: char) {
    c in SMALL || c in LARGE || c in OTHER
  }

  lemma SmallIff(c: char)
    ensures c in SMALL <==> 'a' <= c <= 'z'
  {
    if 'a' <= c <= 'z' {
      assert SMALL[c as int - 97] == c;
    }
  }

  lemma LargeIff(c: char)
    ensures c in LARGE <==> 'A' <= c <= 'Z'
  {
    if 'A' <= c <= 'Z' {
      assert LARGE[c as int - 65] == c;
    }
  }

  lemma OtherIff(c: char)
    ensures c in OTHER <==> '0' <= c <= '9' || c == '_' || c == '.' || c == '/' || c == '@' || c == ':' || c == '-'
  {
    if '0' <= c <= '9' {
      assert OTHER[c as int - 48] == c;
    }
    assert OTHER[10] == '_' && OTHER[11] == '.' && OTHER[12] == '/' && OTHER[13] == '@' && OTHER[14] == ':';
    assert OTHER[15] == '-';
  }

  lemma SafeCharIff(c: char)
    ensures IsSafeChar(c) <==> Safe(c)
  {
    SmallIff(c);
    LargeIff(c);
    OtherIff(c);
  }

  /** A word of safe characters is written as it is, any other, and the empty one, in quotes. */
  lemma EscapesIff(word: string)
    ensures Escape(word) == word <==> word != "" && forall i | 0 <= i < |word| :: Safe(word[i])
  {
    forall c ensures IsSafeChar(c) <==> Safe(c) {
      SafeCharIff(c);
    }
    hide IsSafeChar, Safe, Replace;
    if !IsPosixSafe(word) {
      QuotedIsLonger(word);
    }
  }

  lemma QuotedIsLonger(word: string)
    ensures |"'" + Replace(word, "'", "'\\''") + "'"| > |word|
  {
    ReplaceGrows(word);
    hide Replace;
  }

  lemma {:induction false} ReplaceGrows(word: string)
    ensures |Replace(word, "'", "'\\''")| >= |word|
    decreases |word|
  {
    hide Find;
    if Find(word, "'", 0).Some? {
      ReplaceGrows(word[Find(word, "'", 0).value + 1..]);
    }
  }
}
