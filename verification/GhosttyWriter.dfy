/** A configuration file written with quoted values reads back as it was. */
module GhosttyWriter {
  import opened Text
  import opened GhosttyConfig

  predicate CleanKey(key: string) {
    && key != "" && !IsWhitespace(key[0]) && !IsWhitespace(key[|key| - 1])
    && key[0] != '#' && '=' !in key && '\n' !in key
  }

  predicate CleanValue(value: string) {
    '"' !in value && '\n' !in value
  }

  function Quoted(value: string): string {
    "\"" + value + "\""
  }

  function Line(key: string, value: string): string {
    key + "=" + Quoted(value)
  }

  lemma {:induction false} InsideQuotes(value: string, n: nat)
    requires '"' !in value && 1 <= n <= |value| + 1
    ensures QuoteAfter(Quoted(value)[..n]) == Double
    decreases n
  {
    QuoteStep(Quoted(value), n - 1);
    if n == 1 {
      QuoteNone();
      assert Quoted(value)[..0] == "";
    } else {
      InsideQuotes(value, n - 1);
      assert Quoted(value)[n - 1] == value[n - 2];
    }
  }

  /** Nothing inside quotes is a comment. */
  lemma QuotedHasNoComment(value: string)
    requires '"' !in value
    ensures CommentIn(Quoted(value), 0) == |Quoted(value)|
  {
    hide CommentIn, QuoteAfter;
    forall i: nat | i < |Quoted(value)| ensures !CommentAt(Quoted(value), i) {
      if 1 <= i <= |value| {
        InsideQuotes(value, i);
      }
    }
  }

  lemma TrimKeeps(text: string)
    requires text != "" && !IsWhitespace(text[0]) && !IsWhitespace(text[|text| - 1])
    ensures Trim(text) == text
  {
  }

  lemma QuotedStrips(value: string)
    requires '"' !in value
    ensures Trim(Quoted(value)) == Quoted(value) && Strip(Quoted(value)) == Quoted(value)
    ensures Unquote(Quoted(value)) == value && !IsWhitespace(Quoted(value)[|value| + 1])
  {
    QuotedHasNoComment(value);
    TrimKeeps(Quoted(value));
    hide Trim, CommentIn;
    assert Quoted(value)[..|Quoted(value)|] == Quoted(value);
  }

  lemma EqualsSplits(key: string, rest: string)
    requires '=' !in key
    ensures IndexOf(key + "=" + rest, '=') == |key|
    ensures (key + "=" + rest)[..|key|] == key && (key + "=" + rest)[|key| + 1..] == rest
  {
    var line := key + "=" + rest;
    assert line[..|key|] == key && line[|key|] == '=';
    IndexOfUnique(line, '=', |key|);
  }

  lemma LineTrims(key: string, rest: string)
    requires key != "" && !IsWhitespace(key[0]) && rest != "" && !IsWhitespace(rest[|rest| - 1])
    ensures Trim(key + "=" + rest) == key + "=" + rest
  {
    hide IsWhitespace, Trim;
    TrimKeeps(key + "=" + rest);
  }

  lemma EntryOfParts(line: string, end: nat)
    requires Trim(line) == line && line != "" && line[0] != '#' && IndexOf(line, '=') == end < |line|
    requires end > 0 && Trim(line[..end]) == line[..end]
    ensures LineEntry(line) == Some((line[..end], Unquote(Strip(Trim(line[end + 1..])))))
  {
    hide Trim, Strip, Unquote, IndexOf;
  }

  lemma LineReads(key: string, value: string)
    requires CleanKey(key) && CleanValue(value)
    ensures LineEntry(Line(key, value)) == Some((key, value))
  {
    hide Trim, Strip, Unquote, IndexOf, LineEntry, IsWhitespace;
    var line := Line(key, value);
    QuotedStrips(value);
    EqualsSplits(key, Quoted(value));
    LineTrims(key, Quoted(value));
    assert line[0] == key[0];
    TrimKeeps(key);
    EntryOfParts(line, |key|);
  }

  function File(entries: seq<(string, string)>): string {
    if entries == [] then "" else Line(entries[0].0, entries[0].1) + "\n" + File(entries[1..])
  }

  lemma LineFirst(line: string, rest: string)
    requires '\n' !in line && line != "" && line[|line| - 1] != '\r'
    ensures Lines(line + "\n" + rest) == [line] + Lines(rest)
  {
    var contents := line + "\n" + rest;
    assert contents[..|line|] == line && contents[|line|] == '\n' && contents[|line| + 1..] == rest;
    IndexOfUnique(contents, '\n', |line|);
  }

  /** Parsing a written file gives its entries back, in order and with every character of every value. */
  lemma {:induction false} FileReads(entries: seq<(string, string)>)
    requires forall i | 0 <= i < |entries| :: CleanKey(entries[i].0) && CleanValue(entries[i].1)
    ensures Entries(Lines(File(entries))) == entries
  {
    hide Line, LineEntry, Lines, CleanKey, CleanValue, Entries;
    if entries != [] {
      var (key, value) := entries[0];
      LineReads(key, value);
      LineClean(key, value);
      FileReads(entries[1..]);
      FirstEntry(Line(key, value), key, value, File(entries[1..]));
      assert [(key, value)] + entries[1..] == entries;
    } else {
      EmptyFile();
    }
  }

  lemma EmptyFile()
    ensures Entries(Lines("")) == []
  {
  }

  lemma FirstEntry(line: string, key: string, value: string, rest: string)
    requires LineEntry(line) == Some((key, value))
    requires '\n' !in line && line != "" && line[|line| - 1] != '\r'
    ensures Entries(Lines(line + "\n" + rest)) == [(key, value)] + Entries(Lines(rest))
  {
    hide LineEntry, Lines, Entries;
    LineFirst(line, rest);
    EntriesConcat([line], Lines(rest));
    OneEntry(line, key, value);
  }

  lemma OneEntry(line: string, key: string, value: string)
    requires LineEntry(line) == Some((key, value))
    ensures Entries([line]) == [(key, value)]
  {
    hide LineEntry;
    assert [line][1..] == [];
  }

  lemma LineClean(key: string, value: string)
    requires CleanKey(key) && CleanValue(value)
    ensures var line := Line(key, value); '\n' !in line && line != "" && line[|line| - 1] != '\r'
  {
    hide Trim, IsWhitespace;
  }
}
