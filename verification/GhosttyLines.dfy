/** Every way to write a configuration file reads as its entries: blanks anywhere, comments, quotes of both kinds. */
module GhosttyLines {
  import opened Text
  import opened GhosttyConfig

  datatype Spelling = Plain(text: string) | InSingle(text: string) | InDouble(text: string)

  datatype Line =
    | Nothing(blanks: string)
    | Remark(blanks: string, text: string)
    | NoAssignment(text: string)
    | NoKey(blanks: string, text: string)
    | Assignment(before: string, key: string, gap: string, space: string, value: Spelling, after: string,
                 remark: Option<string>)

  // What is written

  function Written(value: Spelling): string {
    match value
    case Plain(text) => text
    case InSingle(text) => "'" + text + "'"
    case InDouble(text) => "\"" + text + "\""
  }

  function Tail(after: string, remark: Option<string>): string {
    if remark.Some? then after + "#" + remark.value else after
  }

  function Printed(line: Line): string {
    match line
    case Nothing(blanks) => blanks
    case Remark(blanks, text) => blanks + "#" + text
    case NoAssignment(text) => text
    case NoKey(blanks, text) => blanks + "=" + text
    case Assignment(before, key, gap, space, value, after, remark) =>
      before + (key + gap + "=" + (space + (Written(value) + Tail(after, remark))))
  }

  function FilePrinted(lines: seq<Line>): string {
    if lines == [] then "" else Printed(lines[0]) + "\n" + FilePrinted(lines[1..])
  }

  function Meant(lines: seq<Line>): seq<(string, string)> {
    if lines == [] then []
    else (if lines[0].Assignment? then [(lines[0].key, lines[0].value.text)] else []) + Meant(lines[1..])
  }

  // What may be written

  /** No blank at either end. */
  predicate Tight(text: string) {
    text != "" ==> !IsWhitespace(text[0]) && !IsWhitespace(text[|text| - 1])
  }

  predicate Blank(c: char) {
    c == ' ' || c == '\t'
  }

  predicate ValueOk(value: Spelling) {
    match value
    case Plain(text) =>
      && Tight(text) && '\'' !in text && '"' !in text
      && forall i | 0 < i < |text| :: text[i] == '#' ==> !Blank(text[i - 1])
    case InSingle(text) => '\'' !in text
    case InDouble(text) => '"' !in text
  }

  /** A comment after a value needs a blank before its hash. */
  predicate RemarkOk(value: Spelling, after: string, remark: Option<string>) {
    remark.Some? ==> Written(value) != "" && after != "" && Blank(after[|after| - 1])
  }

  predicate LineOk(line: Line) {
    && '\n' !in Printed(line)
    && match line
       case Nothing(blanks) => AllWhitespace(blanks)
       case Remark(blanks, _) => AllWhitespace(blanks)
       case NoAssignment(text) => '=' !in text
       case NoKey(blanks, _) => AllWhitespace(blanks)
       case Assignment(before, key, gap, space, value, after, remark) =>
         && AllWhitespace(before) && AllWhitespace(gap) && AllWhitespace(space) && AllWhitespace(after)
         && key != "" && Tight(key) && key[0] != '#' && '=' !in key
         && ValueOk(value) && RemarkOk(value, after, remark)
  }

  // Trimming

  lemma {:induction false} TrimStartAfter(blanks: string, text: string)
    requires AllWhitespace(blanks)
    ensures TrimStart(blanks + text) == TrimStart(text)
    decreases |blanks|
  {
    hide IsWhitespace;
    if blanks == "" {
      assert blanks + text == text;
    } else {
      assert IsWhitespace(blanks[0]);
      assert (blanks + text)[1..] == blanks[1..] + text;
      TrimStartAfter(blanks[1..], text);
    }
  }

  lemma {:induction false} TrimEndBefore(text: string, blanks: string)
    requires AllWhitespace(blanks)
    ensures TrimEnd(text + blanks) == TrimEnd(text)
    decreases |blanks|
  {
    hide IsWhitespace;
    if blanks == "" {
      assert text + blanks == text;
    } else {
      assert IsWhitespace(blanks[|blanks| - 1]);
      assert (text + blanks)[..|text + blanks| - 1] == text + blanks[..|blanks| - 1];
      TrimEndBefore(text, blanks[..|blanks| - 1]);
    }
  }

  /** What comes after a character that is no blank is trimmed on its own. */
  lemma {:induction false} TrimEndAfter(text: string, c: char, more: string)
    requires !IsWhitespace(c)
    ensures TrimEnd(text + [c] + more) == text + [c] + TrimEnd(more)
    decreases |more|
  {
    hide IsWhitespace;
    if more == "" {
      assert text + [c] + more == text + [c] && text + [c] + "" == text + [c];
    } else if IsWhitespace(more[|more| - 1]) {
      var whole := text + [c] + more;
      assert whole[..|whole| - 1] == text + [c] + more[..|more| - 1];
      TrimEndAfter(text, c, more[..|more| - 1]);
    }
  }

  lemma TrimAround(before: string, text: string, after: string)
    requires AllWhitespace(before) && AllWhitespace(after) && Tight(text)
    ensures Trim(before + (text + after)) == text
  {
    TrimStartAfter(before, text + after);
    if text != "" {
      TrimEndBefore(text, after);
    } else {
      assert text + after == after && after + "" == after;
      TrimStartAfter(after, "");
    }
    hide IsWhitespace, AllWhitespace;
  }

  // The comment

  lemma CommentInIs(value: string, at: nat)
    requires at == |value| || CommentAt(value, at)
    requires at <= |value| && forall i | 0 <= i < at :: !CommentAt(value, i)
    ensures CommentIn(value, 0) == at
  {
    hide CommentAt;
  }

  /** Which quotes are open after the first `n` characters of a written value. */
  function OpenAfter(value: Spelling, n: nat): Quote {
    if n == 0 || n == |Written(value)| || value.Plain? then Bare
    else if value.InSingle? then Single
    else Double
  }

  lemma {:induction false} QuotesOpen(value: Spelling, more: string, n: nat)
    requires ValueOk(value) && n <= |Written(value)|
    ensures QuoteAfter((Written(value) + more)[..n]) == OpenAfter(value, n)
    decreases n
  {
    var text := Written(value) + more;
    if n == 0 {
      assert text[..0] == "";
    } else {
      QuotesOpen(value, more, n - 1);
      QuoteStep(text, n - 1);
      assert text[n - 1] == Written(value)[n - 1];
      if value.Plain? {
        assert text[n - 1] in value.text;
      } else if 1 < n < |Written(value)| {
        assert text[n - 1] == value.text[n - 2] && value.text[n - 2] in value.text;
      }
    }
  }

  lemma {:induction false} BlanksOpenNothing(text: string, low: nat, high: nat)
    requires low <= high <= |text| && QuoteAfter(text[..low]) == Bare && AllWhitespace(text[low..high])
    ensures QuoteAfter(text[..high]) == Bare
    decreases high
  {
    if low < high {
      assert text[low..high - 1] == text[low..high][..high - 1 - low];
      assert text[low..high][high - 1 - low] == text[high - 1];
      BlanksOpenNothing(text, low, high - 1);
      QuoteStep(text, high - 1);
    }
  }

  lemma NoCommentInside(value: Spelling, more: string, i: nat)
    requires ValueOk(value) && i < |Written(value)|
    ensures !CommentAt(Written(value) + more, i)
  {
    QuotesOpen(value, more, i);
    hide QuoteAfter;
    var text := Written(value) + more;
    assert text[i] == Written(value)[i];
    if i > 0 {
      assert text[i - 1] == Written(value)[i - 1];
      if value.Plain? {
        assert value.text[i] == '#' ==> !Blank(value.text[i - 1]);
      }
    }
  }

  lemma NoCommentInBlanks(value: string, after: string, more: string, i: nat)
    requires AllWhitespace(after) && |value| <= i < |value| + |after|
    ensures !CommentAt(value + (after + more), i)
  {
    assert (value + (after + more))[i] == after[i - |value|];
    assert IsWhitespace(after[i - |value|]);
  }

  lemma CommentStarts(value: Spelling, after: string, more: string)
    requires ValueOk(value) && AllWhitespace(after) && RemarkOk(value, after, Some(more))
    ensures CommentAt(Written(value) + (after + ("#" + more)), |Written(value)| + |after|)
  {
    var text, at := Written(value) + (after + ("#" + more)), |Written(value)| + |after|;
    QuotesOpen(value, after + ("#" + more), |Written(value)|);
    assert text[|Written(value)|..at] == after;
    BlanksOpenNothing(text, |Written(value)|, at);
    assert text[at] == '#' && text[at - 1] == after[|after| - 1];
  }

  lemma ValueTight(value: Spelling)
    requires ValueOk(value)
    ensures Tight(Written(value))
  {
  }

  lemma UnquotesWritten(value: Spelling)
    requires ValueOk(value)
    ensures Unquote(Written(value)) == value.text
  {
    if value.Plain? && value.text != "" {
      assert value.text[0] in value.text;
    }
  }

  lemma StripsPlainly(value: Spelling)
    requires ValueOk(value)
    ensures Strip(Written(value)) == Written(value)
  {
    hide CommentIn, CommentAt, ValueOk, Trim;
    var text := Written(value);
    forall i: nat | i < |text| ensures !CommentAt(text, i) {
      NoCommentInside(value, "", i);
      assert text + "" == text;
    }
    CommentInIs(text, |text|);
    assert text[..|text|] == text && "" + (text + "") == text;
    ValueTight(value);
    TrimAround("", text, "");
  }

  lemma StripsRemark(value: Spelling, after: string, more: string)
    requires ValueOk(value) && AllWhitespace(after) && RemarkOk(value, after, Some(more))
    ensures Strip(Written(value) + (after + ("#" + more))) == Written(value)
  {
    hide CommentIn, CommentAt, ValueOk, Trim, AllWhitespace, RemarkOk, Written;
    var v := Written(value);
    var text, at := v + (after + ("#" + more)), |v| + |after|;
    forall i: nat | i < at ensures !CommentAt(text, i) {
      if i < |v| {
        NoCommentInside(value, after + ("#" + more), i);
      } else {
        NoCommentInBlanks(v, after, "#" + more, i);
      }
    }
    CommentStarts(value, after, more);
    CommentInIs(text, at);
    assert text[..at] == v + after && "" + (v + after) == v + after;
    ValueTight(value);
    NoBlanks();
    TrimAround("", v, after);
  }

  lemma NoBlanks()
    ensures AllWhitespace("")
  {
  }

  // A line

  /** What is after the equals sign reads as the value. */
  lemma ValueReads(space: string, value: Spelling, after: string, remark: Option<string>)
    requires AllWhitespace(space) && AllWhitespace(after) && ValueOk(value) && RemarkOk(value, after, remark)
    ensures var rest := space + (Written(value) + Tail(after, remark));
      Unquote(Strip(Trim(TrimEnd(rest)))) == value.text
  {
    hide ValueOk, Strip, Unquote, AllWhitespace, Written, Trim, TrimEnd, RemarkOk, Tight;
    ValueTight(value);
    UnquotesWritten(value);
    if remark.Some? {
      RemarkTrims(space, value, after, remark.value);
      RemarkKept(value, after, remark.value, TrimEnd(remark.value));
      StripsRemark(value, after, TrimEnd(remark.value));
    } else {
      PlainTrims(space, Written(value), after);
      StripsPlainly(value);
    }
  }

  lemma RemarkTrims(space: string, value: Spelling, after: string, remark: string)
    requires AllWhitespace(space) && ValueOk(value) && RemarkOk(value, after, Some(remark))
    ensures Trim(TrimEnd(space + (Written(value) + Tail(after, Some(remark)))))
         == Written(value) + (after + ("#" + TrimEnd(remark)))
  {
    hide AllWhitespace, IsWhitespace, Trim, TrimEnd, Tight, ValueOk, Written;
    var (v, more) := (Written(value), TrimEnd(remark));
    ValueTight(value);
    HashIsNoBlank();
    Pieces(space, v, after, remark);
    TrimEndAfter(space + (v + after), '#', remark);
    TightRemark(v, after, more, remark);
    Pieces(space, v, after, more);
    NoBlanks();
    var text := v + (after + ("#" + more));
    TrimAround(space, text, "");
    assert space + (text + "") == space + text;
  }

  lemma Pieces(space: string, v: string, after: string, more: string)
    ensures space + (v + (after + "#" + more)) == space + (v + after) + ['#'] + more
    ensures space + (v + (after + ("#" + more))) == space + (v + after) + ['#'] + more
  {
  }

  lemma RemarkKept(value: Spelling, after: string, text: string, more: string)
    requires RemarkOk(value, after, Some(text))
    ensures RemarkOk(value, after, Some(more)) && Written(value) != ""
  {
  }

  lemma TightRemark(v: string, after: string, more: string, whole: string)
    requires v != "" && Tight(v) && more == TrimEnd(whole)
    ensures Tight(v + (after + ("#" + more)))
  {
    hide IsWhitespace;
    HashIsNoBlank();
  }

  lemma HashIsNoBlank()
    ensures !IsWhitespace('#') && !IsWhitespace('=')
  {
  }

  lemma PlainTrims(space: string, v: string, after: string)
    requires AllWhitespace(space) && AllWhitespace(after) && Tight(v)
    ensures Trim(TrimEnd(space + (v + after))) == v
  {
    hide AllWhitespace, IsWhitespace, TrimStart, TrimEnd, Tight;
    Assoc(space, v, after);
    TrimEndBefore(space + v, after);
    if v == "" {
      assert space + v == "" + space;
      TrimEndBefore("", space);
      NothingTrims();
    } else {
      TightEnds(space, v);
      NoBlanks();
      TrimAround(space, v, "");
      assert space + (v + "") == space + v;
    }
  }

  lemma TightEnds(space: string, v: string)
    requires v != "" && Tight(v)
    ensures TrimEnd(space + v) == space + v
  {
    assert (space + v)[|space + v| - 1] == v[|v| - 1];
  }

  lemma LineTrims(before: string, key: string, gap: string, rest: string)
    requires AllWhitespace(before) && key != "" && Tight(key)
    ensures Trim(before + (key + gap + "=" + rest)) == key + gap + "=" + TrimEnd(rest)
  {
    HashIsNoBlank();
    hide IsWhitespace;
    TrimStartAfter(before, key + gap + "=" + rest);
    TrimEndAfter(key + gap, '=', rest);
  }

  lemma EntryOf(raw: string, line: string, end: nat, key: string, value: string)
    requires Trim(raw) == line && line != "" && line[0] != '#' && IndexOf(line, '=') == end < |line|
    requires key != "" && Trim(line[..end]) == key && Unquote(Strip(Trim(line[end + 1..]))) == value
    ensures LineEntry(raw) == Some((key, value))
  {
    hide Trim, Strip, Unquote, IndexOf;
  }

  lemma AssignmentReads(line: Line)
    requires LineOk(line) && line.Assignment?
    ensures LineEntry(Printed(line)) == Some((line.key, line.value.text))
  {
    hide ValueOk, RemarkOk, Trim, TrimEnd, Strip, Unquote, Tail, Written, LineEntry, Tight, IndexOf;
    var rest := line.space + (Written(line.value) + Tail(line.after, line.remark));
    LineTrims(line.before, line.key, line.gap, rest);
    ValueReads(line.space, line.value, line.after, line.remark);
    NoBlanks();
    TrimAround("", line.key, line.gap);
    var end := |line.key| + |line.gap|;
    var text := line.key + line.gap + "=" + TrimEnd(rest);
    assert "" + (line.key + line.gap) == line.key + line.gap;
    assert text[..end] == line.key + line.gap && text[end + 1..] == TrimEnd(rest) && text[end] == '=';
    NoEqualsBefore(line.key, line.gap);
    IndexOfUnique(text, '=', end);
    EntryOf(Printed(line), text, end, line.key, line.value.text);
  }

  lemma NoEqualsBefore(key: string, gap: string)
    requires '=' !in key && AllWhitespace(gap)
    ensures '=' !in key + gap
  {
    forall i | 0 <= i < |gap| ensures gap[i] != '=' {
      assert IsWhitespace(gap[i]);
    }
  }

  lemma OthersReadNothing(line: Line)
    requires LineOk(line) && !line.Assignment?
    ensures LineEntry(Printed(line)) == None
  {
    hide Trim, LineEntry, IndexOf;
    match line
    case Nothing(blanks) =>
      NoBlanks();
      NothingTrims();
      TrimAround(blanks, "", "");
      assert blanks + ("" + "") == blanks;
      NoEntry(blanks, "");
    case Remark(blanks, text) =>
      MarkTrims(blanks, '#', text);
      NoEntry(blanks + "#" + text, "#" + TrimEnd(text));
    case NoAssignment(text) =>
      var low, high := TrimIsInner(text);
      assert forall c :: c in text[low..high] ==> c in text;
      IndexOfNone(Trim(text), '=');
      NoEntry(text, Trim(text));
    case NoKey(blanks, text) =>
      MarkTrims(blanks, '=', text);
      NothingTrims();
      var line := "=" + TrimEnd(text);
      assert line[..0] == "";
      IndexOfUnique(line, '=', 0);
      NoEntry(blanks + "=" + text, line);
  }

  lemma MarkTrims(blanks: string, mark: char, text: string)
    requires AllWhitespace(blanks) && !IsWhitespace(mark)
    ensures Trim(blanks + [mark] + text) == [mark] + TrimEnd(text)
  {
    hide IsWhitespace, AllWhitespace;
    assert blanks + [mark] + text == blanks + ([mark] + text) && [mark] + text == "" + [mark] + text;
    TrimStartAfter(blanks, [mark] + text);
    TrimEndAfter("", mark, text);
    assert "" + [mark] + TrimEnd(text) == [mark] + TrimEnd(text);
  }

  lemma NoEntry(raw: string, line: string)
    requires Trim(raw) == line
    requires line == "" || line[0] == '#' || IndexOf(line, '=') == |line|
             || (IndexOf(line, '=') == 0 && Trim(line[..0]) == "")
    ensures LineEntry(raw) == None
  {
    hide Trim, Strip, Unquote, IndexOf;
  }

  lemma NothingTrims()
    ensures Trim("") == "" && TrimEnd("") == "" && TrimStart("") == ""
  {
  }

  // A file

  lemma FirstLine(line: string, rest: string)
    requires '\n' !in line
    ensures Lines(line + "\n" + rest) == [DropReturn(line)] + Lines(rest)
  {
    var contents := line + "\n" + rest;
    assert contents[..|line|] == line && contents[|line|] == '\n' && contents[|line| + 1..] == rest;
    IndexOfUnique(contents, '\n', |line|);
    hide IndexOf, DropReturn;
  }

  lemma OneLine(line: string)
    ensures Entries([line]) == if LineEntry(line).Some? then [LineEntry(line).value] else []
  {
    hide LineEntry;
    assert [line][1..] == [];
  }

  /** However a file is written, with blanks, comments and quotes of either kind, its entries are those meant, in
      order, with every character of their values. */
  lemma {:induction false} EverySpellingReads(lines: seq<Line>)
    requires forall i | 0 <= i < |lines| :: LineOk(lines[i])
    ensures Entries(Lines(FilePrinted(lines))) == Meant(lines)
  {
    hide LineOk, LineEntry, Lines, Entries, Printed;
    if lines == [] {
      NoLines();
      NoEntries();
    } else {
      var text := Printed(lines[0]);
      OkHasNoNewline(lines[0]);
      FirstLine(text, FilePrinted(lines[1..]));
      EntriesConcat([DropReturn(text)], Lines(FilePrinted(lines[1..])));
      LastLineEnded(text);
      OneLine(text);
      EverySpellingReads(lines[1..]);
      if lines[0].Assignment? {
        AssignmentReads(lines[0]);
      } else {
        OthersReadNothing(lines[0]);
      }
    }
  }

  lemma OkHasNoNewline(line: Line)
    requires LineOk(line)
    ensures '\n' !in Printed(line)
  {
    hide Printed;
  }
}
