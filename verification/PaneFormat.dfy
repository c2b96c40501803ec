/** tmux format strings: known `#{key}` placeholders are filled in, all others removed. */
module PaneFormat {
  import opened Text

  /** A complete placeholder: `#{` and a `}` somewhere after it. */
  ghost predicate HasPlaceholder(text: string) {
    exists i, j :: OccursAt(text, "#{", i) && ClosesAt(text, i, j)
  }

  predicate ClosesAt(text: string, i: int, j: int) {
    0 <= i && i + 2 <= j < |text| && text[j] == '}'
  }

  /** The first `#{` with the first `}` after it, as `start..=end`. */
  function FirstPlaceholder(text: string): (found: Option<(nat, nat)>)
    ensures found.Some? ==> found.value.0 + 2 <= found.value.1 < |text|
  {
    match Find(text, "#{", 0)
    case None => None
    case Some(start) =>
      match Find(text, "}", start + 2)
      case None => None
      case Some(end) => Some((start, end))
  }

  lemma NoFirstPlaceholderIff(text: string)
    ensures FirstPlaceholder(text).None? <==> !HasPlaceholder(text)
  {
    FindIsLeftmost(text, "#{", 0);
    match Find(text, "#{", 0)
    case None =>
    case Some(start) =>
      FindIsLeftmost(text, "}", start + 2);
      match Find(text, "}", start + 2)
      case Some(end) => assert ClosesAt(text, start, end) by { assert text[end..end + 1][0] == '}'; }
      case None =>
        forall i, j | OccursAt(text, "#{", i) && ClosesAt(text, i, j)
          ensures false
        {
          assert start <= i;
          assert text[j..j + 1] == "}";
          assert OccursAt(text, "}", j);
        }
  }

  /** `rendered.replace_range(start..=end, "")` until no placeholder is left. */
  function Strip(text: string): (stripped: string)
    decreases |text|
  {
    match FirstPlaceholder(text)
    case None => text
    case Some((start, end)) => Strip(text[..start] + text[end + 1..])
  }

  function FillIn(text: string, context: seq<(string, string)>): string
    decreases |context|
  {
    if context == [] then text
    else FillIn(Replace(text, "#{" + context[0].0 + "}", context[0].1), context[1..])
  }

  function Render(format: string, context: seq<(string, string)>, fallback: string): string {
    if format == "" then fallback
    else
      var rendered := Trim(Strip(FillIn(format, context)));
      if rendered == "" then fallback else rendered
  }

  method RenderFormat(format: string, context: seq<(string, string)>, fallback: string) returns (result: string)
    ensures result == Render(format, context, fallback)
  {
    if format == "" { return fallback; }
    var rendered := format;
    for i := 0 to |context|
      invariant FillIn(format, context) == FillIn(rendered, context[i..])
    {
      assert context[i..][1..] == context[i + 1..];
      rendered := Replace(rendered, "#{" + context[i].0 + "}", context[i].1);
    }
    rendered := RemovePlaceholders(rendered);
    rendered := Trim(rendered);
    result := if rendered == "" then fallback else rendered;
  }

  method RemovePlaceholders(text: string) returns (rendered: string)
    ensures rendered == Strip(text)
  {
    rendered := text;
    var found := FirstPlaceholder(rendered);
    while found.Some?
      invariant found == FirstPlaceholder(rendered)
      invariant Strip(text) == Strip(rendered)
      decreases |rendered|
    {
      hide FirstPlaceholder;
      var (start, end) := found.value;
      rendered := rendered[..start] + rendered[end + 1..];
      found := FirstPlaceholder(rendered);
    }
  }

  lemma {:induction false} StripLeavesNone(text: string)
    ensures !HasPlaceholder(Strip(text))
    decreases |text|
  {
    hide FirstPlaceholder, HasPlaceholder;
    NoFirstPlaceholderIff(text);
    match FirstPlaceholder(text)
    case None =>
    case Some((start, end)) => StripLeavesNone(text[..start] + text[end + 1..]);
  }

  lemma OccursInWhole(text: string, query: string, low: nat, high: nat, at: nat)
    requires low <= high <= |text| && OccursAt(text[low..high], query, at)
    ensures OccursAt(text, query, low + at)
  {
    var part := text[low..high];
    forall k | 0 <= k < |query|
      ensures text[low + at + k] == query[k]
    {
      assert query[k] == part[at..at + |query|][k] == part[at + k];
    }
    assert text[low + at..low + at + |query|] == query;
  }

  lemma PartHasNone(text: string, low: nat, high: nat)
    requires low <= high <= |text| && !HasPlaceholder(text)
    ensures !HasPlaceholder(text[low..high])
  {
    forall i, j | OccursAt(text[low..high], "#{", i) && ClosesAt(text[low..high], i, j)
      ensures false
    {
      OccursInWhole(text, "#{", low, high, i);
      assert ClosesAt(text, low + i, low + j);
    }
  }

  lemma TrimLeavesNone(text: string)
    requires !HasPlaceholder(text)
    ensures !HasPlaceholder(Trim(text))
  {
    hide HasPlaceholder;
    var begun := TrimStart(text);
    var done := TrimEnd(begun);
    TrimStartIsSuffix(text);
    TrimEndIsPrefix(begun);
    assert text[|text| - |begun|..|text|] == begun && begun[0..|done|] == done;
    PartHasNone(text, |text| - |begun|, |text|);
    PartHasNone(begun, 0, |done|);
  }

  lemma TrimEdges(text: string)
    requires Trim(text) != ""
    ensures !IsWhitespace(Trim(text)[0]) && !IsWhitespace(Trim(text)[|Trim(text)| - 1])
  {
    TrimEndIsPrefix(TrimStart(text));
  }

  /** Whatever the format and the values, the result is the fallback, or a non-empty text without blanks
      around it in which no complete placeholder is left. */
  lemma RenderLeavesNoPlaceholder(format: string, context: seq<(string, string)>, fallback: string)
    ensures var r := Render(format, context, fallback);
      r == fallback || (r != "" && !HasPlaceholder(r) && !IsWhitespace(r[0]) && !IsWhitespace(r[|r| - 1]))
  {
    hide HasPlaceholder, Strip, FillIn, IsWhitespace, Trim;
    var stripped := Strip(FillIn(format, context));
    StripLeavesNone(FillIn(format, context));
    TrimLeavesNone(stripped);
    if Trim(stripped) != "" {
      TrimEdges(stripped);
    }
  }

  lemma NoKeyOccurs(format: string, key: string)
    requires !HasPlaceholder(format)
    ensures Find(format, "#{" + key + "}", 0).None?
  {
    var placeholder := "#{" + key + "}";
    FindIsLeftmost(format, placeholder, 0);
    match Find(format, placeholder, 0)
    case None =>
    case Some(at) =>
      var n := |placeholder|;
      assert placeholder[..2] == "#{" && placeholder[n - 1] == '}';
      assert format[at..at + 2] == format[at..at + n][..2];
      assert format[at + n - 1] == format[at..at + n][n - 1];
      assert OccursAt(format, "#{", at) && ClosesAt(format, at, at + n - 1);
  }

  lemma {:induction false} NothingFilledIn(format: string, context: seq<(string, string)>)
    requires !HasPlaceholder(format)
    ensures FillIn(format, context) == format
    decreases |context|
  {
    hide HasPlaceholder, Find;
    if context != [] {
      NoKeyOccurs(format, context[0].0);
      NothingFilledIn(format, context[1..]);
    }
  }

  /** Formats without complete placeholders come out as they are, up to the blanks around them, whatever values
      there are. */
  lemma PlainFormatsStay(format: string, context: seq<(string, string)>, fallback: string)
    requires !HasPlaceholder(format) && Trim(format) != ""
    ensures Render(format, context, fallback) == Trim(format)
  {
    hide HasPlaceholder, Trim, FillIn, FirstPlaceholder, TrimStart, TrimEnd;
    NothingFilledIn(format, context);
    NoFirstPlaceholderIff(format);
    TrimNothing();
  }

  lemma TrimNothing()
    ensures Trim("") == ""
  {
  }
}
