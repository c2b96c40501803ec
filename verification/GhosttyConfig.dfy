/** Reading Ghostty's configuration files: lines, comments, quotes, repeated keys, and merging files. */
module GhosttyConfig {
  import opened Text

  /** The values of each key, in the order of the file. */
  type Parsed = map<string, seq<string>>

  // Lines

  function IndexOf(text: string, c: char): (index: nat)
    ensures index <= |text| && (index < |text| ==> text[index] == c) && c !in text[..index]
  {
    if text == "" || text[0] == c then 0
    else
      var rest := IndexOf(text[1..], c);
      assert text[..1 + rest] == [text[0]] + text[1..][..rest];
      1 + rest
  }

  function DropReturn(line: string): string {
    if line != "" && line[|line| - 1] == '\r' then line[..|line| - 1] else line
  }

  /** `str::lines`. */
  function Lines(contents: string): seq<string> {
    if contents == "" then []
    else
      var end := IndexOf(contents, '\n');
      if end == |contents| then [contents] else [DropReturn(contents[..end])] + Lines(contents[end + 1..])
  }

  predicate Ended(contents: string) {
    contents == "" || contents[|contents| - 1] == '\n'
  }

  /** Two files one after the other; a line of the first is ended if need be. */
  function Append(a: string, b: string): string {
    if Ended(a) then a + b else a + "\n" + b
  }

  lemma {:induction false} IndexOfFirst(a: string, b: string, c: char)
    requires c in a
    ensures IndexOf(a + b, c) == IndexOf(a, c) < |a|
  {
    if a[0] != c {
      assert (a + b)[1..] == a[1..] + b;
      assert c in a[1..];
      IndexOfFirst(a[1..], b, c);
    }
  }

  lemma {:induction false} LinesConcat(a: string, b: string)
    requires Ended(a)
    ensures Lines(a + b) == Lines(a) + Lines(b)
    decreases |a|
  {
    hide IndexOf, Lines, DropReturn;
    if a == "" {
      assert a + b == b;
      NoLines();
    } else {
      IndexOfFirst(a, b, '\n');
      var end := IndexOf(a, '\n');
      LinesStep(a);
      LinesStep(a + b);
      assert (a + b)[..end] == a[..end] && (a + b)[end + 1..] == a[end + 1..] + b;
      LinesConcat(a[end + 1..], b);
      assert [DropReturn(a[..end])] + (Lines(a[end + 1..]) + Lines(b)) == Lines(a) + Lines(b);
    }
  }

  lemma NoLines()
    ensures Lines("") == []
  {
  }

  lemma LinesStep(contents: string)
    requires IndexOf(contents, '\n') < |contents|
    ensures var end := IndexOf(contents, '\n');
      Lines(contents) == [DropReturn(contents[..end])] + Lines(contents[end + 1..])
  {
    hide IndexOf, DropReturn;
  }

  lemma IndexOfNone(text: string, c: char)
    requires c !in text
    ensures IndexOf(text, c) == |text|
  {
  }

  // Inline comments

  datatype Quote = Bare | Single | Double

  /** Which quotes are open after `text`. */
  function QuoteAfter(text: string): Quote {
    if text == "" then Bare
    else
      var before, c := QuoteAfter(text[..|text| - 1]), text[|text| - 1];
      if c == '\'' && before != Double then (if before == Single then Bare else Single)
      else if c == '"' && before != Single then (if before == Double then Bare else Double)
      else before
  }

  /** A hash after a blank and outside quotes. */
  predicate CommentAt(value: string, i: nat) {
    && 0 < i < |value| && value[i] == '#' && (value[i - 1] == ' ' || value[i - 1] == '\t')
    && QuoteAfter(value[..i]) == Bare
  }

  /** Where the comment starts, at `from` or later; the end if there is none. */
  function CommentIn(value: string, from: nat): (start: nat)
    requires from <= |value|
    ensures from <= start <= |value|
    ensures start < |value| ==> CommentAt(value, start)
    ensures forall i | from <= i < start :: !CommentAt(value, i)
    decreases |value| - from
  {
    if from == |value| || CommentAt(value, from) then from else CommentIn(value, from + 1)
  }

  /** The value up to its first comment, trimmed. */
  function Strip(value: string): string {
    Trim(value[..CommentIn(value, 0)])
  }

  lemma QuoteStep(value: string, i: nat)
    requires i < |value|
    ensures QuoteAfter(value[..i + 1]) ==
      var before := QuoteAfter(value[..i]);
      if value[i] == '\'' && before != Double then (if before == Single then Bare else Single)
      else if value[i] == '"' && before != Single then (if before == Double then Bare else Double)
      else before
  {
    assert value[..i + 1][..i] == value[..i];
  }

  method StripInlineComment(value: string) returns (stripped: string)
    ensures stripped == Strip(value)
  {
    hide QuoteAfter;
    var single, double, previous := false, false, '\0';
    QuoteNone();
    for index := 0 to |value|
      invariant QuoteAfter(value[..index]) == if single then Single else if double then Double else Bare
      invariant !(single && double)
      invariant previous == if index == 0 then '\0' else value[index - 1]
      invariant CommentIn(value, 0) == CommentIn(value, index)
    {
      QuoteStep(value, index);
      var character := value[index];
      if character == '\'' && !double {
        single := !single;
      } else if character == '"' && !single {
        double := !double;
      } else if character == '#' && !single && !double && (previous == ' ' || previous == '\t') {
        return Trim(value[..index]);
      }
      previous := character;
    }
    assert value[..|value|] == value;
    stripped := Trim(value);
  }

  lemma QuoteNone()
    ensures QuoteAfter("") == Bare
  {
  }

  // Entries

  function Unquote(value: string): string {
    if |value| >= 2 && (value[0] == '"' || value[0] == '\'') && value[|value| - 1] == value[0]
    then value[1..|value| - 1] else value
  }

  /** The key and the value of a line, unless it is blank, a comment or no assignment. */
  function LineEntry(raw: string): Option<(string, string)> {
    var line := Trim(raw);
    var end := IndexOf(line, '=');
    if line == "" || line[0] == '#' || end == |line| || Trim(line[..end]) == "" then None
    else Some((Trim(line[..end]), Unquote(Strip(Trim(line[end + 1..])))))
  }

  function Entries(lines: seq<string>): seq<(string, string)> {
    if lines == [] then []
    else
      var entry := LineEntry(lines[0]);
      (if entry.Some? then [entry.value] else []) + Entries(lines[1..])
  }

  lemma {:induction false} EntriesConcat(a: seq<string>, b: seq<string>)
    ensures Entries(a + b) == Entries(a) + Entries(b)
  {
    if a == [] {
      assert a + b == b;
    } else {
      hide LineEntry;
      assert (a + b)[1..] == a[1..] + b;
      EntriesConcat(a[1..], b);
      var entry := LineEntry(a[0]);
      Assoc(if entry.Some? then [entry.value] else [], Entries(a[1..]), Entries(b));
    }
  }

  /** The values that the entries give to `key`. */
  function ValuesOf(entries: seq<(string, string)>, key: string): seq<string> {
    if entries == [] then []
    else (if entries[0].0 == key then [entries[0].1] else []) + ValuesOf(entries[1..], key)
  }

  lemma {:induction false} ValuesConcat(a: seq<(string, string)>, b: seq<(string, string)>, key: string)
    ensures ValuesOf(a + b, key) == ValuesOf(a, key) + ValuesOf(b, key)
  {
    if a == [] {
      assert a + b == b;
    } else {
      assert (a + b)[1..] == a[1..] + b;
      ValuesConcat(a[1..], b, key);
      Assoc(if a[0].0 == key then [a[0].1] else [], ValuesOf(a[1..], key), ValuesOf(b, key));
    }
  }

  function Get(parsed: Parsed, key: string): seq<string> {
    if key in parsed then parsed[key] else []
  }

  /** `parsed` holds exactly the values of these entries. */
  ghost predicate Holds(parsed: Parsed, entries: seq<(string, string)>) {
    forall key: string :: Get(parsed, key) == ValuesOf(entries, key)
        && (key in parsed <==> ValuesOf(entries, key) != [])
  }

  /** Entry by entry, a key's values in order. */
  function Parse(entries: seq<(string, string)>): Parsed {
    if entries == [] then map[]
    else
      var before := Parse(entries[..|entries| - 1]);
      var (key, value) := entries[|entries| - 1];
      before[key := Get(before, key) + [value]]
  }

  lemma HoldsOneMore(parsed: Parsed, entries: seq<(string, string)>, key: string, value: string)
    requires Holds(parsed, entries)
    ensures Holds(parsed[key := Get(parsed, key) + [value]], entries + [(key, value)])
  {
    var more := parsed[key := Get(parsed, key) + [value]];
    forall k: string
      ensures Get(more, k) == ValuesOf(entries + [(key, value)], k)
      ensures k in more <==> ValuesOf(entries + [(key, value)], k) != []
    {
      ValuesConcat(entries, [(key, value)], k);
      assert ValuesOf([(key, value)], k) == if k == key then [value] else [];
      assert Get(parsed, k) == ValuesOf(entries, k);
    }
  }

  lemma {:induction false} ParseHolds(entries: seq<(string, string)>)
    ensures Holds(Parse(entries), entries)
  {
    if entries != [] {
      var before := entries[..|entries| - 1];
      var (key, value) := entries[|entries| - 1];
      ParseHolds(before);
      HoldsOneMore(Parse(before), before, key, value);
      assert before + [(key, value)] == entries;
    }
  }

  lemma ParseOneMore(entries: seq<(string, string)>, key: string, value: string)
    ensures Parse(entries + [(key, value)]) == Parse(entries)[key := Get(Parse(entries), key) + [value]]
  {
    assert (entries + [(key, value)])[..|entries|] == entries;
  }

  lemma EntriesStep(lines: seq<string>, index: nat)
    requires index < |lines|
    ensures Entries(lines[..index + 1]) ==
      Entries(lines[..index]) + if LineEntry(lines[index]).Some? then [LineEntry(lines[index]).value] else []
  {
    hide LineEntry;
    assert lines[..index + 1] == lines[..index] + [lines[index]];
    EntriesConcat(lines[..index], [lines[index]]);
    assert [lines[index]][1..] == [];
  }

  method ParseConfig(contents: string) returns (parsed: Parsed)
    ensures parsed == Parse(Entries(Lines(contents)))
  {
    hide Parse, Entries, Strip, Trim, Lines, Get;
    parsed := map[];
    NoEntries();
    var lines := Lines(contents);
    for index := 0 to |lines|
      invariant parsed == Parse(Entries(lines[..index]))
    {
      EntriesStep(lines, index);
      assert Entries(lines[..index]) + [] == Entries(lines[..index]);
      var line := Trim(lines[index]);
      if line == "" || line[0] == '#' { continue; }
      var end := IndexOf(line, '=');
      if end == |line| { continue; }
      var key := Trim(line[..end]);
      if key == "" { continue; }
      var value := StripInlineComment(Trim(line[end + 1..]));
      if |value| >= 2
        && ((value[0] == '"' && value[|value| - 1] == '"') || (value[0] == '\'' && value[|value| - 1] == '\''))
      {
        value := value[1..|value| - 1];
      }
      ParseOneMore(Entries(lines[..index]), key, value);
      parsed := parsed[key := Get(parsed, key) + [value]];
    }
    assert lines[..|lines|] == lines;
  }

  lemma NoEntries()
    ensures Entries([]) == [] && Parse([]) == map[]
  {
  }

  // Merging

  /** The keys of a map, in some iteration order. */
  predicate Listing(order: seq<string>, keys: set<string>) {
    (forall k | k in order :: k in keys) && (forall k | k in keys :: k in order)
    && forall i, j | 0 <= i < j < |order| :: order[i] != order[j]
  }

  function MergedValue(target: Parsed, source: Parsed, key: string): seq<string> {
    if key == "palette" then Get(target, key) + Get(source, key)
    else if key in source then source[key] else Get(target, key)
  }

  /** Later files replace the values of a key; palette entries accumulate. */
  function Merge(target: Parsed, source: Parsed): Parsed {
    map key | key in target.Keys + source.Keys :: MergedValue(target, source, key)
  }

  /** `merged` after the keys of `done`. */
  predicate MergedSoFar(target: Parsed, source: Parsed, done: set<string>, merged: Parsed) {
    && merged.Keys == target.Keys + done
    && forall key | key in merged ::
         merged[key] == if key in done then MergedValue(target, source, key) else target[key]
  }

  lemma MergeOneMore(target: Parsed, source: Parsed, done: set<string>, merged: Parsed, key: string)
    requires MergedSoFar(target, source, done, merged) && key in source && key !in done
    ensures MergedSoFar(target, source, done + {key}, merged[key := MergedValue(target, source, key)])
    ensures Get(merged, key) == Get(target, key)
  {
    hide MergedValue;
  }

  lemma MergedAll(target: Parsed, source: Parsed, merged: Parsed)
    requires MergedSoFar(target, source, source.Keys, merged)
    ensures merged == Merge(target, source)
  {
    forall key | key in target && key !in source ensures MergedValue(target, source, key) == target[key] {
      if key == "palette" {
        assert target[key] + [] == target[key];
      }
    }
    hide MergedValue;
  }

  function ToSet(keys: seq<string>): (members: set<string>)
    ensures forall k :: k in members <==> k in keys
  {
    set k | k in keys
  }

  method MergeConfig(target: Parsed, source: Parsed, order: seq<string>) returns (merged: Parsed)
    requires Listing(order, source.Keys)
    ensures merged == Merge(target, source)
  {
    hide MergedSoFar, Get;
    merged := target;
    NoneMerged(target, source);
    for i := 0 to |order|
      invariant MergedSoFar(target, source, ToSet(order[..i]), merged)
    {
      var key := order[i];
      NextKey(order, source.Keys, i);
      MergeOneMore(target, source, ToSet(order[..i]), merged, key);
      if key == "palette" {
        merged := merged[key := Get(merged, key) + source[key]];
      } else {
        merged := merged[key := source[key]];
      }
      InSource(source, key);
    }
    assert ToSet(order[..|order|]) == source.Keys;
    MergedAll(target, source, merged);
  }

  lemma NoneMerged(target: Parsed, source: Parsed)
    ensures MergedSoFar(target, source, ToSet([]), target)
  {
  }

  lemma InSource(source: Parsed, key: string)
    requires key in source
    ensures Get(source, key) == source[key]
  {
  }

  lemma NextKey(order: seq<string>, keys: set<string>, i: nat)
    requires Listing(order, keys) && i < |order|
    ensures order[i] in keys && order[i] !in ToSet(order[..i])
    ensures ToSet(order[..i + 1]) == ToSet(order[..i]) + {order[i]}
  {
    assert order[..i + 1] == order[..i] + [order[i]];
  }

  function LastOf(values: seq<string>): string {
    if values == [] then "" else values[|values| - 1]
  }

  /** The same keys, the same last value of each, and the same palette entries: all that the mapping reads. */
  predicate Equivalent(p: Parsed, q: Parsed) {
    && p.Keys == q.Keys
    && Get(p, "palette") == Get(q, "palette")
    && forall key | key in p :: LastOf(p[key]) == LastOf(q[key])
  }

  function ParseFile(contents: string): Parsed {
    Parse(Entries(Lines(contents)))
  }

  /** Parsing the files one by one and merging them in order. */
  function MergeAll(files: seq<string>): Parsed {
    if files == [] then map[] else Merge(MergeAll(files[..|files| - 1]), ParseFile(files[|files| - 1]))
  }

  function Concat(files: seq<string>): string {
    if files == [] then "" else Append(Concat(files[..|files| - 1]), files[|files| - 1])
  }

  lemma ConcatLookup(p: Parsed, q: Parsed, all: Parsed, a: seq<(string, string)>, b: seq<(string, string)>, key: string)
    requires Holds(p, a) && Holds(q, b) && Holds(all, a + b)
    ensures Get(all, key) == Get(p, key) + Get(q, key)
    ensures key in all <==> key in p || key in q
    ensures key in q ==> q[key] != []
  {
    ValuesConcat(a, b, key);
    assert Get(p, key) == ValuesOf(a, key) && Get(q, key) == ValuesOf(b, key);
    assert Get(all, key) == ValuesOf(a + b, key);
  }

  lemma LastOfConcat(a: seq<string>, b: seq<string>)
    ensures LastOf(a + b) == if b == [] then LastOf(a) else LastOf(b)
  {
    if b == [] {
      assert a + b == a;
    }
  }

  lemma EquivalentAt(p: Parsed, q: Parsed, key: string)
    requires Equivalent(p, q)
    ensures key in p <==> key in q
    ensures LastOf(Get(p, key)) == LastOf(Get(q, key))
    ensures Get(p, "palette") == Get(q, "palette")
  {
  }

  lemma MergedKey(merged: Parsed, q: Parsed, key: string)
    ensures key in Merge(merged, q) <==> key in merged || key in q
    ensures Get(Merge(merged, q), key) == MergedValue(merged, q, key)
  {
    if key !in merged && key !in q {
      assert Get(merged, key) + Get(q, key) == [];
    }
  }

  lemma MergedLast(merged: Parsed, q: Parsed, key: string)
    requires key in q ==> q[key] != []
    ensures LastOf(Get(Merge(merged, q), key)) == LastOf(Get(merged, key) + Get(q, key))
  {
    hide Merge;
    MergedKey(merged, q, key);
    LastOfConcat(Get(merged, key), Get(q, key));
  }

  /** Merging a file into what stands for the files before it stands for all of them. */
  lemma MergeIsConcat(p: Parsed, merged: Parsed, q: Parsed, all: Parsed,
                      a: seq<(string, string)>, b: seq<(string, string)>)
    requires Holds(p, a) && Holds(q, b) && Holds(all, a + b) && Equivalent(merged, p)
    ensures Equivalent(Merge(merged, q), all)
  {
    var m := Merge(merged, q);
    forall key: string
      ensures key in m <==> key in all
      ensures LastOf(Get(m, key)) == LastOf(Get(all, key))
    {
      hide Holds, Equivalent, Merge, LastOf;
      ConcatLookup(p, q, all, a, b, key);
      EquivalentAt(merged, p, key);
      MergedKey(merged, q, key);
      MergedLast(merged, q, key);
      LastOfConcat(Get(p, key), Get(q, key));
      LastOfConcat(Get(merged, key), Get(q, key));
    }
    hide Holds, MergedValue;
    ConcatLookup(p, q, all, a, b, "palette");
    PaletteMerged(merged, q);
    SameEverywhere(m, all);
  }

  lemma PaletteMerged(merged: Parsed, q: Parsed)
    ensures Get(Merge(merged, q), "palette") == Get(merged, "palette") + Get(q, "palette")
  {
    MergedKey(merged, q, "palette");
  }

  lemma SameEverywhere(p: Parsed, q: Parsed)
    requires forall key: string :: (key in p <==> key in q) && LastOf(Get(p, key)) == LastOf(Get(q, key))
    requires Get(p, "palette") == Get(q, "palette")
    ensures Equivalent(p, q)
  {
    forall key | key in p ensures LastOf(p[key]) == LastOf(q[key]) {
      assert LastOf(Get(p, key)) == LastOf(Get(q, key));
    }
  }

  // Ended files

  /** A blank at the end changes what `TrimStart` leaves by no more than itself. */
  lemma {:induction false} TrimStartBlank(text: string)
    requires text != "" && IsWhitespace(text[|text| - 1])
    ensures var (whole, less) := (TrimStart(text), TrimStart(text[..|text| - 1]));
            if less == "" then whole == ""
            else whole != "" && whole[..|whole| - 1] == less && IsWhitespace(whole[|whole| - 1])
    decreases |text|
  {
    hide IsWhitespace;
    if |text| > 1 && IsWhitespace(text[0]) {
      TrimStartBlank(text[1..]);
      assert text[1..][..|text| - 2] == text[..|text| - 1][1..];
    }
  }

  lemma TrimDropReturn(line: string)
    ensures Trim(DropReturn(line)) == Trim(line)
  {
    if DropReturn(line) != line {
      TrimStartBlank(line);
    }
  }

  lemma LastLineEnded(line: string)
    ensures Entries([DropReturn(line)]) == Entries([line])
  {
    TrimDropReturn(line);
    hide Trim, Strip, Unquote;
    assert LineEntry(DropReturn(line)) == LineEntry(line);
    hide LineEntry;
    assert [line][1..] == [DropReturn(line)][1..] == [];
  }

  lemma LinesNone(line: string)
    requires line != "" && '\n' !in line
    ensures Lines(line) == [line] && Lines(line + "\n") == [DropReturn(line)]
  {
    IndexOfNone(line, '\n');
    var ended := line + "\n";
    IndexOfUnique(ended, '\n', |line|);
    assert ended[..|line|] == line && ended[|line| + 1..] == "";
  }

  lemma IndexOfUnique(text: string, c: char, at: nat)
    requires at < |text| && text[at] == c && c !in text[..at]
    ensures IndexOf(text, c) == at
  {
    var index := IndexOf(text, c);
    assert forall i | 0 <= i < index :: text[..index][i] == text[i];
    assert forall i | 0 <= i < at :: text[..at][i] == text[i];
  }

  /** Ending the last line adds no entry. */
  lemma {:induction false} EntriesEnded(a: string)
    requires !Ended(a)
    ensures Entries(Lines(a + "\n")) == Entries(Lines(a))
    decreases |a|
  {
    hide Entries, DropReturn;
    if '\n' in a {
      IndexOfFirst(a, "\n", '\n');
      var end := IndexOf(a, '\n');
      assert (a + "\n")[..end] == a[..end] && (a + "\n")[end + 1..] == a[end + 1..] + "\n";
      EntriesEnded(a[end + 1..]);
      EntriesConcat([DropReturn(a[..end])], Lines(a[end + 1..] + "\n"));
      EntriesConcat([DropReturn(a[..end])], Lines(a[end + 1..]));
    } else {
      LinesNone(a);
      LastLineEnded(a);
    }
  }

  /** A file appended to another adds its entries to the other's. */
  lemma EntriesAppend(a: string, b: string)
    ensures Entries(Lines(Append(a, b))) == Entries(Lines(a)) + Entries(Lines(b))
  {
    var ended := if Ended(a) then a else a + "\n";
    hide Entries, Lines;
    LinesConcat(ended, b);
    EntriesConcat(Lines(ended), Lines(b));
    if !Ended(a) {
      EntriesEnded(a);
    }
  }

  /** Merging parsed files is as good as parsing the files put one after the other. */
  lemma {:induction false} MergingIsConcatenating(files: seq<string>)
    ensures Equivalent(MergeAll(files), ParseFile(Concat(files)))
  {
    if files == [] {
      NoEntries();
    } else {
      var before, last := files[..|files| - 1], files[|files| - 1];
      hide Entries, Lines, Parse, Equivalent, Merge, Append, Holds;
      MergingIsConcatenating(before);
      EntriesAppend(Concat(before), last);
      var a, b := Entries(Lines(Concat(before))), Entries(Lines(last));
      ParseHolds(a);
      ParseHolds(b);
      ParseHolds(a + b);
      MergeIsConcat(Parse(a), MergeAll(before), Parse(b), Parse(a + b), a, b);
    }
  }
}
