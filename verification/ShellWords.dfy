/** The shell-word splitter of the browser `exec` command, and the path escaper of the external
    editor launcher: the second prints what the first reads. */
module ShellWords {
  import opened Text

  /** The splitter between two characters. */
  datatype Scan = Scan(values: seq<string>, current: string, quote: Option<char>, escaped: bool, started: bool) {
    function Read(c: char): Scan {
      if escaped then this.(current := current + [c], escaped := false, started := true)
      else if c == '\\' && quote != Some('\'') then this.(escaped := true, started := true)
      else if quote.Some? then
        if c == quote.value then this.(quote := None, started := true)
        else this.(current := current + [c], started := true)
      else if c == '\'' || c == '"' then this.(quote := Some(c), started := true)
      else if IsWhitespace(c) then
        if started then this.(values := values + [current], current := "", started := false) else this
      else this.(current := current + [c], started := true)
    }

    function ReadAll(input: string): Scan
      decreases |input|
    {
      if input == "" then this else Read(input[0]).ReadAll(input[1..])
    }

    function Finish(): Result<seq<string>> {
      if escaped then Err("Browser exec command ends with an incomplete escape.")
      else if quote.Some? then Err("Browser exec command has an unclosed quote.")
      else Ok(if started then values + [current] else values)
    }

    /** Between words: nothing collected, nothing open. */
    predicate Between() {
      current == "" && quote.None? && !escaped && !started
    }
  }

  const START := Scan([], "", None, false, false)

  function Split(input: string): Result<seq<string>> {
    START.ReadAll(input).Finish()
  }

  lemma {:induction false} ReadAllConcat(s: Scan, a: string, b: string)
    ensures s.ReadAll(a + b) == s.ReadAll(a).ReadAll(b)
    decreases |a|
  {
    if a == "" {
      assert a + b == b;
    } else {
      assert (a + b)[1..] == a[1..] + b;
      ReadAllConcat(s.Read(a[0]), a[1..], b);
    }
  }

  lemma ReadOne(s: Scan, c: char)
    ensures s.ReadAll([c]) == s.Read(c)
  {
    assert [c][1..] == "";
    assert s.Read(c).ReadAll("") == s.Read(c);
  }

  method SplitCommandLine(input: string) returns (result: Result<seq<string>>)
    ensures result == Split(input)
  {
    var values: seq<string> := [];
    var current := "";
    var quote: Option<char> := None;
    var escaped, started := false, false;
    for i := 0 to |input|
      invariant START.ReadAll(input[..i]) == Scan(values, current, quote, escaped, started)
    {
      var character := input[i];
      assert input[..i + 1] == input[..i] + [character];
      ReadAllConcat(START, input[..i], [character]);
      ReadOne(START.ReadAll(input[..i]), character);
      if escaped {
        current := current + [character];
        escaped := false;
        started := true;
      } else if character == '\\' && quote != Some('\'') {
        escaped := true;
        started := true;
      } else if quote.Some? {
        if character == quote.value {
          quote := None;
        } else {
          current := current + [character];
        }
        started := true;
      } else if character == '\'' || character == '"' {
        quote := Some(character);
        started := true;
      } else if IsWhitespace(character) {
        if started {
          values := values + [current];
          current := "";
          started := false;
        }
      } else {
        current := current + [character];
        started := true;
      }
    }
    assert input[..|input|] == input;
    if escaped {
      return Err("Browser exec command ends with an incomplete escape.");
    }
    if quote.Some? {
      return Err("Browser exec command has an unclosed quote.");
    }
    if started {
      values := values + [current];
    }
    result := Ok(values);
  }

  // The printer

  predicate IsSafeChar(c: char) {
    'a' <= c <= 'z' || 'A' <= c <= 'Z' || '0' <= c <= '9' || c == '_' || c == '.' || c == '/' || c == '@' || c == ':'
        || c == '-'
  }

  predicate IsPosixSafe(word: string) {
    word != "" && forall i | 0 <= i < |word| :: IsSafeChar(word[i])
  }

  /** A word in single quotes, each inner quote closed, escaped and reopened. */
  function Escape(word: string): string {
    if IsPosixSafe(word) then word
    else "'" + Replace(word, "'", "'\\''") + "'"
  }

  function ShellCommand(command: string, path: string): string {
    command + " " + Escape(path)
  }

  function EscapeAll(words: seq<string>): (escaped: seq<string>)
    ensures |escaped| == |words|
  {
    if words == [] then []
    else EscapeAll(words[..|words| - 1]) + [Escape(words[|words| - 1])]
  }

  function PrintWords(words: seq<string>): string {
    Join(EscapeAll(words), " ")
  }

  // Reading back

  lemma {:induction false} ReadSafe(s: Scan, word: string)
    requires s.quote.None? && !s.escaped && (forall i | 0 <= i < |word| :: IsSafeChar(word[i]))
    ensures s.ReadAll(word) == s.(current := s.current + word, started := s.started || word != "")
    decreases |word|
  {
    if word == "" {
      assert s.current + word == s.current;
    } else {
      var next := s.Read(word[0]);
      assert next == s.(current := s.current + [word[0]], started := true);
      ReadSafe(next, word[1..]);
      assert s.current + [word[0]] + word[1..] == s.current + word;
    }
  }

  predicate Quoted(s: Scan) {
    s.quote == Some('\'') && !s.escaped
  }

  lemma {:induction false} ReadPlain(s: Scan, text: string)
    requires Quoted(s) && s.started && '\'' !in text
    ensures s.ReadAll(text) == s.(current := s.current + text)
    decreases |text|
  {
    if text == "" {
      assert s.current + text == s.current;
    } else {
      assert text[0] != '\'';
      ReadPlain(s.Read(text[0]), text[1..]);
      assert s.current + [text[0]] + text[1..] == s.current + text;
    }
  }

  lemma ReadEscapedQuote(s: Scan)
    requires Quoted(s) && s.started
    ensures s.ReadAll("'\\''") == s.(current := s.current + "'")
  {
    var text := "'\\''";
    assert text[1..] == "\\''" && text[1..][1..] == "''" && text[1..][1..][1..] == "'"
        && text[1..][1..][1..][1..] == "";
  }

  lemma ReadThree(s: Scan, a: string, b: string, c: string)
    ensures s.ReadAll(a + b + c) == s.ReadAll(a).ReadAll(b).ReadAll(c)
  {
    ReadAllConcat(s, a + b, c);
    ReadAllConcat(s, a, b);
  }

  lemma PlainBefore(word: string, at: nat)
    requires Find(word, "'", 0) == Some(at)
    ensures '\'' !in word[..at] && word == word[..at] + "'" + word[at + 1..]
  {
    FindIsLeftmost(word, "'", 0);
    forall i | 0 <= i < at
      ensures word[i] != '\''
    {
      assert !OccursAt(word, "'", i);
      assert word[i..i + 1] == [word[i]];
    }
    assert word[at..at + 1] == [word[at]];
  }

  lemma ReadUpToQuote(s: Scan, word: string, at: nat)
    requires Quoted(s) && s.started && Find(word, "'", 0) == Some(at)
    ensures s.ReadAll(word[..at] + "'\\''") == s.(current := s.current + word[..at + 1])
    ensures '\'' !in word[..at] && word == word[..at + 1] + word[at + 1..]
  {
    PlainBefore(word, at);
    ReadAllConcat(s, word[..at], "'\\''");
    ReadPlain(s, word[..at]);
    ReadEscapedQuote(s.(current := s.current + word[..at]));
    assert word[at] == (word[..at] + "'" + word[at + 1..])[at];
    assert s.current + word[..at] + "'" == s.current + word[..at + 1];
  }

  /** Inside single quotes, the replaced word reads back as the word. */
  lemma {:induction false} ReadQuoted(s: Scan, word: string)
    requires Quoted(s) && s.started
    ensures s.ReadAll(Replace(word, "'", "'\\''")) == s.(current := s.current + word)
    decreases |word|
  {
    match Find(word, "'", 0)
    case None =>
      FindIsLeftmost(word, "'", 0);
      forall i | 0 <= i < |word|
        ensures word[i] != '\''
      {
        assert !OccursAt(word, "'", i);
        assert word[i..i + 1] == [word[i]];
      }
      ReadPlain(s, word);
    case Some(at) =>
      var tail, before := word[at + 1..], s.(current := s.current + word[..at + 1]);
      ReadUpToQuote(s, word, at);
      ReadAllConcat(s, word[..at] + "'\\''", Replace(tail, "'", "'\\''"));
      ReadQuoted(before, tail);
      assert s.current + word[..at + 1] + tail == s.current + word;
  }

  lemma ReadEscape(s: Scan, word: string)
    requires s.Between()
    ensures s.ReadAll(Escape(word)) == s.(current := word, started := true)
  {
    if IsPosixSafe(word) {
      ReadSafe(s, word);
      assert "" + word == word;
    } else {
      var open := s.(quote := Some('\''), started := true);
      ReadThree(s, "'", Replace(word, "'", "'\\''"), "'");
      ReadOne(s, '\'');
      ReadQuoted(open, word);
      assert "" + word == word;
      ReadOne(open.(current := word), '\'');
    }
  }

  /** Nothing is collected before a word has started. */
  predicate Tidy(s: Scan) {
    !s.started ==> s.Between()
  }

  lemma {:induction false} StaysTidy(s: Scan, input: string)
    requires Tidy(s)
    ensures Tidy(s.ReadAll(input))
    decreases |input|
  {
    if input != "" {
      StaysTidy(s.Read(input[0]), input[1..]);
    }
  }

  /** Appending an escaped path to any command line that splits adds exactly that path to its words. */
  lemma SplitReadsThePathBack(command: string, path: string)
    requires Split(command).Ok?
    ensures Split(ShellCommand(command, path)) == Ok(Split(command).value + [path])
  {
    var s := START.ReadAll(command);
    StaysTidy(START, command);
    ReadThree(START, command, " ", Escape(path));
    ReadOne(s, ' ');
    ReadEscape(s.Read(' '), path);
  }

  lemma {:induction false} JoinAppend(parts: seq<string>, last: string, separator: string)
    requires parts != []
    ensures Join(parts + [last], separator) == Join(parts, separator) + separator + last
  {
    if |parts| == 1 {
      assert (parts + [last])[1..] == [last];
    } else {
      assert (parts + [last])[1..] == parts[1..] + [last];
      JoinAppend(parts[1..], last, separator);
    }
  }

  /** Splitting the escaped words, joined by blanks, gives the words back: every list of words. */
  lemma {:induction false} SplitReadsTheWordsBack(words: seq<string>)
    ensures Split(PrintWords(words)) == Ok(words)
  {
    if |words| == 1 {
      ReadEscape(START, words[0]);
      assert EscapeAll(words) == [Escape(words[0])];
      assert START.values + [words[0]] == words;
    } else if |words| > 1 {
      var first, last := words[..|words| - 1], words[|words| - 1];
      JoinAppend(EscapeAll(first), Escape(last), " ");
      SplitReadsTheWordsBack(first);
      SplitReadsThePathBack(PrintWords(first), last);
      assert words == first + [last];
    }
  }
}
