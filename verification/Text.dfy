/** Optional values and the string searches of the standard library that the editor and the
    tmux emulation use: `find`, `rfind`, `matches`, `replace`. Offsets count characters. */
module Text {
  datatype Option<+T> = None | Some(value: T) {
    function GetOr(default: T): T {
      if Some? then value else default
    }
  }

  datatype Result<+T> = Ok(value: T) | Err(error: string)

  /** Unicode `White_Space`, as `char::is_whitespace`. */
  predicate IsWhitespace(c: char) {
    || '\U{9}' <= c <= '\U{D}' || c == ' ' || c == '\U{85}' || c == '\U{A0}' || c == '\U{1680}'
    || '\U{2000}' <= c <= '\U{200A}' || c == '\U{2028}' || c == '\U{2029}' || c == '\U{202F}'
    || c == '\U{205F}' || c == '\U{3000}'
  }

  predicate OccursAt(text: string, query: string, at: int) {
    0 <= at && at + |query| <= |text| && text[at..at + |query|] == query
  }

  /** `text[from..].find(query)`, as an offset into `text`. */
  function Find(text: string, query: string, from: nat): (found: Option<nat>)
    requires from <= |text|
    ensures found.Some? ==> from <= found.value && found.value + |query| <= |text|
    decreases |text| - from
  {
    if OccursAt(text, query, from) then Some(from)
    else if from + |query| >= |text| then None
    else Find(text, query, from + 1)
  }

  /** `Find` gives the leftmost occurrence at or after `from`, and nothing only when there is none. */
  lemma {:induction false} FindIsLeftmost(text: string, query: string, from: nat)
    requires from <= |text|
    ensures match Find(text, query, from)
      case Some(at) => OccursAt(text, query, at) && forall j | from <= j < at :: !OccursAt(text, query, j)
      case None => forall j | from <= j :: !OccursAt(text, query, j)
    decreases |text| - from
  {
    if !OccursAt(text, query, from) && from + |query| < |text| {
      FindIsLeftmost(text, query, from + 1);
    }
  }

  // Searching a suffix

  function Shift(found: Option<nat>, distance: nat): Option<nat> {
    if found.Some? then Some(found.value + distance) else None
  }

  lemma OccursInSuffix(text: string, query: string, from: nat, at: nat)
    requires from <= at && from <= |text|
    ensures OccursAt(text, query, at) <==> OccursAt(text[from..], query, at - from)
  {
    if at + |query| <= |text| {
      assert text[at..at + |query|] == text[from..][at - from..at - from + |query|];
    }
  }

  lemma {:induction false} FindInSuffix(text: string, query: string, from: nat, start: nat)
    requires from <= start <= |text|
    ensures Find(text, query, start) == Shift(Find(text[from..], query, start - from), from)
    decreases |text| - start
  {
    OccursInSuffix(text, query, from, start);
    if !OccursAt(text, query, start) && start + |query| < |text| {
      FindInSuffix(text, query, from, start + 1);
    }
  }

  lemma FindAfter(done: string, rest: string, query: string)
    ensures Find(done + rest, query, |done|) == Shift(Find(rest, query, 0), |done|)
  {
    FindInSuffix(done + rest, query, |done|, |done|);
    assert (done + rest)[|done|..] == rest;
  }

  lemma FindAt(text: string, query: string, from: nat, at: nat)
    requires from <= at && OccursAt(text, query, at) && forall i | from <= i < at :: !OccursAt(text, query, i)
    ensures Find(text, query, from) == Some(at)
  {
    FindIsLeftmost(text, query, from);
  }

  /** `text[..before].rfind(query)`. */
  function RFind(text: string, query: string, before: nat): (found: Option<nat>)
    requires before <= |text|
    ensures found.Some? ==> found.value + |query| <= before
  {
    if before < |query| then None
    else if OccursAt(text, query, before - |query|) then Some(before - |query|)
    else RFind(text, query, before - 1)
  }

  /** `RFind` gives the rightmost occurrence ending at or before `before`. */
  lemma {:induction false} RFindIsRightmost(text: string, query: string, before: nat)
    requires before <= |text|
    ensures match RFind(text, query, before)
      case Some(at) =>
        OccursAt(text, query, at) && forall j | at < j && j + |query| <= before :: !OccursAt(text, query, j)
      case None => forall j | j + |query| <= before :: !OccursAt(text, query, j)
  {
    if before >= |query| && !OccursAt(text, query, before - |query|) {
      RFindIsRightmost(text, query, before - 1);
    }
  }

  /** `text.matches(query).count()`: non-overlapping matches, taken from the left. */
  function Count(text: string, query: string): nat
    requires query != ""
  {
    match Find(text, query, 0)
    case None => 0
    case Some(at) => 1 + Count(text[at + |query|..], query)
  }

  /** `text.replace(query, replacement)`. */
  function Replace(text: string, query: string, replacement: string): string
    requires query != ""
  {
    match Find(text, query, 0)
    case None => text
    case Some(at) => text[..at] + replacement + Replace(text[at + |query|..], query, replacement)
  }

  lemma ReplaceStep(rest: string, query: string, replacement: string, at: nat)
    requires query != "" && Find(rest, query, 0) == Some(at)
    ensures Replace(rest, query, replacement)
         == rest[..at] + replacement + Replace(rest[at + |query|..], query, replacement)
  {
    hide Find;
  }

  function Join(parts: seq<string>, separator: string): string {
    if |parts| == 0 then ""
    else if |parts| == 1 then parts[0]
    else parts[0] + separator + Join(parts[1..], separator)
  }

  /** The pieces of the text between the non-overlapping matches of `query`. */
  function Split(text: string, query: string): (parts: seq<string>)
    requires query != ""
    ensures |parts| >= 1
  {
    match Find(text, query, 0)
    case None => [text]
    case Some(at) => [text[..at]] + Split(text[at + |query|..], query)
  }

  lemma JoinCons(first: string, rest: seq<string>, separator: string)
    requires |rest| >= 1
    ensures Join([first] + rest, separator) == first + separator + Join(rest, separator)
  {
    assert ([first] + rest)[1..] == rest;
  }

  /** What `replace` means without mentioning its own recursion: the pieces between the matches,
      joined by the replacement. */
  lemma {:induction false} ReplaceIsSplitThenJoin(text: string, query: string, replacement: string)
    requires query != ""
    ensures Replace(text, query, replacement) == Join(Split(text, query), replacement)
  {
    hide Find;
    match Find(text, query, 0)
    case None =>
    case Some(at) =>
      hide Join;
      ReplaceIsSplitThenJoin(text[at + |query|..], query, replacement);
      JoinCons(text[..at], Split(text[at + |query|..], query), replacement);
  }

  /** Joining the pieces by the query itself gives the text back, and there is one join per match. */
  lemma {:induction false} SplitJoinsBack(text: string, query: string)
    requires query != ""
    ensures Join(Split(text, query), query) == text
    ensures |Split(text, query)| == Count(text, query) + 1
  {
    hide Find, Split, Count, Join;
    FindIsLeftmost(text, query, 0);
    SplitStep(text, query);
    match Find(text, query, 0)
    case None =>
    case Some(at) =>
      SplitJoinsBack(text[at + |query|..], query);
      JoinCons(text[..at], Split(text[at + |query|..], query), query);
      assert text == text[..at] + text[at..at + |query|] + text[at + |query|..];
  }

  lemma SplitStep(text: string, query: string)
    requires query != ""
    ensures match Find(text, query, 0)
      case None => Split(text, query) == [text] && Count(text, query) == 0 && Join([text], query) == text
      case Some(at) =>
        && Split(text, query) == [text[..at]] + Split(text[at + |query|..], query)
        && Count(text, query) == 1 + Count(text[at + |query|..], query)
  {
    hide Find;
  }

  function TrimStart(text: string): (trimmed: string)
    ensures |trimmed| <= |text|
    ensures trimmed != "" ==> !IsWhitespace(trimmed[0])
  {
    if text != "" && IsWhitespace(text[0]) then TrimStart(text[1..]) else text
  }

  function TrimEnd(text: string): (trimmed: string)
    ensures |trimmed| <= |text|
    ensures trimmed != "" ==> !IsWhitespace(trimmed[|trimmed| - 1])
  {
    if text != "" && IsWhitespace(text[|text| - 1]) then TrimEnd(text[..|text| - 1]) else text
  }

  lemma {:induction false} TrimStartIsSuffix(text: string)
    ensures TrimStart(text) == text[|text| - |TrimStart(text)|..]
  {
    hide IsWhitespace;
    if text != "" && IsWhitespace(text[0]) {
      TrimStartIsSuffix(text[1..]);
    }
  }

  lemma {:induction false} TrimEndIsPrefix(text: string)
    ensures TrimEnd(text) == text[..|TrimEnd(text)|]
  {
    hide IsWhitespace;
    if text != "" && IsWhitespace(text[|text| - 1]) {
      TrimEndIsPrefix(text[..|text| - 1]);
    }
  }

  /** `str::trim`. */
  function Trim(text: string): string {
    TrimEnd(TrimStart(text))
  }

  predicate AllWhitespace(text: string) {
    forall i | 0 <= i < |text| :: IsWhitespace(text[i])
  }

  lemma {:induction false} TrimStartDropsBlanks(text: string)
    ensures AllWhitespace(text[..|text| - |TrimStart(text)|])
  {
    hide IsWhitespace;
    if text != "" && IsWhitespace(text[0]) {
      TrimStartDropsBlanks(text[1..]);
      var n := |text| - |TrimStart(text)|;
      assert text[..n] == [text[0]] + text[1..][..n - 1];
    }
  }

  lemma {:induction false} TrimEndDropsBlanks(text: string)
    ensures AllWhitespace(text[|TrimEnd(text)|..])
  {
    hide IsWhitespace;
    if text != "" && IsWhitespace(text[|text| - 1]) {
      TrimEndDropsBlanks(text[..|text| - 1]);
      var n := |TrimEnd(text)|;
      assert text[n..] == text[..|text| - 1][n..] + [text[|text| - 1]];
    }
  }

  /** Trimming drops blanks at both ends and nothing else, and all of them. */
  lemma TrimIsInner(text: string) returns (low: nat, high: nat)
    ensures low <= high <= |text| && Trim(text) == text[low..high]
    ensures AllWhitespace(text[..low]) && AllWhitespace(text[high..])
    ensures low < high ==> !IsWhitespace(text[low]) && !IsWhitespace(text[high - 1])
  {
    hide IsWhitespace;
    var begun := TrimStart(text);
    var done := TrimEnd(begun);
    low, high := |text| - |begun|, |text| - |begun| + |done|;
    TrimStartIsSuffix(text);
    TrimEndIsPrefix(begun);
    TrimStartDropsBlanks(text);
    TrimEndDropsBlanks(begun);
    assert text[low..high] == begun[..|done|] && text[high..] == begun[|done|..];
  }

  /** `to_ascii_lowercase`. */
  function Lower(text: string): string {
    if text == "" then ""
    else [if 'A' <= text[0] <= 'Z' then (text[0] as int + 32) as char else text[0]] + Lower(text[1..])
  }

  /** Letters from A to Z become small, nothing else changes. */
  lemma {:induction false} LowerAt(text: string, i: nat)
    requires i < |text|
    ensures |Lower(text)| == |text|
    ensures Lower(text)[i] == if 'A' <= text[i] <= 'Z' then (text[i] as int + 32) as char else text[i]
  {
    if i > 0 {
      LowerAt(text[1..], i - 1);
    } else if |text| > 1 {
      LowerAt(text[1..], 0);
    }
  }

  lemma Assoc<T>(a: seq<T>, b: seq<T>, c: seq<T>)
    ensures a + (b + c) == (a + b) + c
  {
  }

  /** `Iterator::position`: the first item wanted; the length if there is none. */
  function IndexWhere<T>(items: seq<T>, wanted: T -> bool): (index: nat)
    ensures index <= |items| && (index < |items| ==> wanted(items[index]))
    ensures forall i | 0 <= i < index :: !wanted(items[i])
  {
    if items == [] || wanted(items[0]) then 0 else 1 + IndexWhere(items[1..], wanted)
  }
}
