/** What a format made of texts and placeholders renders to. */
module PaneFormatPieces {
  import opened Text
  import opened PaneFormat

  datatype Piece = Literal(text: string) | Placeholder(key: string)

  predicate Clean(piece: Piece) {
    match piece
    case Literal(text) => '{' !in text
    case Placeholder(key) => '{' !in key && '}' !in key
  }

  predicate AllClean(pieces: seq<Piece>) {
    forall i | 0 <= i < |pieces| :: Clean(pieces[i])
  }

  function Written(piece: Piece): string {
    match piece case Literal(text) => text case Placeholder(key) => "#{" + key + "}"
  }

  function Printed(pieces: seq<Piece>): string {
    if pieces == [] then "" else Written(pieces[0]) + Printed(pieces[1..])
  }

  // Filling in one value

  function Put(piece: Piece, key: string, value: string): Piece {
    if piece == Placeholder(key) then Literal(value) else piece
  }

  function PutAll(pieces: seq<Piece>, key: string, value: string): (filled: seq<Piece>)
    ensures |filled| == |pieces| && forall i | 0 <= i < |pieces| :: filled[i] == Put(pieces[i], key, value)
  {
    if pieces == [] then [] else [Put(pieces[0], key, value)] + PutAll(pieces[1..], key, value)
  }

  lemma {:induction false} FindSkips(text: string, query: string, low: nat, high: nat)
    requires low <= high <= |text| && forall i | low <= i < high :: !OccursAt(text, query, i)
    ensures Find(text, query, low) == Find(text, query, high)
    decreases high - low
  {
    if low < high {
      if low + |query| < |text| {
        FindSkips(text, query, low + 1, high);
      } else {
        FindIsLeftmost(text, query, high);
      }
    }
  }

  lemma ReplaceSkips(a: string, rest: string, query: string, value: string)
    requires query != "" && forall i | 0 <= i < |a| :: !OccursAt(a + rest, query, i)
    ensures Replace(a + rest, query, value) == a + Replace(rest, query, value)
  {
    hide Find, Replace, OccursAt;
    var text := a + rest;
    FindSkips(text, query, 0, |a|);
    FindAfter(a, rest, query);
    if Find(rest, query, 0).Some? {
      var at := Find(rest, query, 0).value;
      ReplaceStep(text, query, value, |a| + at);
      ReplaceStep(rest, query, value, at);
      assert text[..|a| + at] == a + rest[..at] && text[|a| + at + |query|..] == rest[at + |query|..];
      var left := Replace(rest[at + |query|..], query, value);
      assert a + rest[..at] + value + left == a + (rest[..at] + value + left);
    } else {
      NotReplaced(text, query, value);
      NotReplaced(rest, query, value);
    }
  }

  lemma NotReplaced(text: string, query: string, value: string)
    requires query != "" && Find(text, query, 0).None?
    ensures Replace(text, query, value) == text
  {
    hide Find;
  }

  lemma {:induction false} NoBraceFirst(pieces: seq<Piece>)
    requires AllClean(pieces)
    ensures Printed(pieces) != "" ==> Printed(pieces)[0] != '{'
  {
    if pieces != [] {
      assert Clean(pieces[0]);
      NoBraceFirst(pieces[1..]);
    }
  }

  /** A placeholder starts at no character that no brace follows. */
  lemma NoPlaceholderStarts(a: string, rest: string, key: string, i: nat)
    requires i < |a| && (rest != "" ==> rest[0] != '{')
    requires forall j | i < j < |a| :: a[j] != '{'
    ensures !OccursAt(a + rest, "#{" + key + "}", i)
  {
    var (text, query) := (a + rest, "#{" + key + "}");
    if i + |query| <= |text| {
      assert text[i..i + |query|][1] == text[i + 1] && query[1] == '{';
    }
  }

  lemma OtherPlaceholder(other: string, rest: string, key: string)
    requires '}' !in other && '}' !in key && other != key
    ensures !OccursAt("#{" + other + "}" + rest, "#{" + key + "}", 0)
  {
    var (text, query) := ("#{" + other + "}" + rest, "#{" + key + "}");
    if |query| <= |text| {
      var start := text[0..|query|];
      if |key| < |other| {
        assert other[|key|] in other && start[|key| + 2] == other[|key|] && query[|key| + 2] == '}';
      } else if |other| < |key| {
        assert key[|other|] in key && start[|other| + 2] == '}' && query[|other| + 2] == key[|other|];
      } else {
        var i :| 0 <= i < |key| && other[i] != key[i];
        assert start[i + 2] == other[i] && query[i + 2] == key[i];
      }
    }
  }

  lemma ReplaceFirst(rest: string, query: string, value: string)
    requires query != ""
    ensures Replace(query + rest, query, value) == value + Replace(rest, query, value)
  {
    var text := query + rest;
    assert text[0..|query|] == query && text[..0] == "" && text[|query|..] == rest;
    assert Find(text, query, 0) == Some(0);
    hide Find;
    assert "" + value == value;
  }

  lemma {:induction false} ReplacePuts(pieces: seq<Piece>, key: string, value: string)
    requires AllClean(pieces) && Clean(Placeholder(key))
    ensures Replace(Printed(pieces), "#{" + key + "}", value) == Printed(PutAll(pieces, key, value))
  {
    hide Find, Replace;
    var query := "#{" + key + "}";
    if pieces == [] {
      NothingReplaced(query, value);
    } else {
      assert Clean(pieces[0]);
      var (first, rest) := (Written(pieces[0]), Printed(pieces[1..]));
      ReplacePuts(pieces[1..], key, value);
      NoBraceFirst(pieces[1..]);
      if pieces[0] == Placeholder(key) {
        ReplaceFirst(rest, query, value);
      } else {
        forall i | 0 <= i < |first| ensures !OccursAt(first + rest, query, i) {
          if pieces[0].Placeholder? && i == 0 {
            OtherPlaceholder(pieces[0].key, rest, key);
          } else {
            NoPlaceholderStarts(first, rest, key, i);
          }
        }
        ReplaceSkips(first, rest, query, value);
      }
    }
  }

  lemma NothingReplaced(query: string, value: string)
    requires query != ""
    ensures Replace("", query, value) == ""
  {
  }

  // Filling in all values

  predicate CleanValues(context: seq<(string, string)>) {
    forall i | 0 <= i < |context| :: Clean(Placeholder(context[i].0)) && Clean(Literal(context[i].1))
  }

  function FilledIn(pieces: seq<Piece>, context: seq<(string, string)>): (filled: seq<Piece>)
    decreases |context|
  {
    if context == [] then pieces else FilledIn(PutAll(pieces, context[0].0, context[0].1), context[1..])
  }

  lemma {:induction false} FillInPuts(pieces: seq<Piece>, context: seq<(string, string)>)
    requires AllClean(pieces) && CleanValues(context)
    ensures FillIn(Printed(pieces), context) == Printed(FilledIn(pieces, context))
        && AllClean(FilledIn(pieces, context))
    decreases |context|
  {
    hide Replace, Printed;
    if context != [] {
      assert Clean(Placeholder(context[0].0)) && Clean(Literal(context[0].1));
      ReplacePuts(pieces, context[0].0, context[0].1);
      FillInPuts(PutAll(pieces, context[0].0, context[0].1), context[1..]);
    }
  }

  // Removing the rest

  /** The texts alone. */
  function Texts(pieces: seq<Piece>): string {
    if pieces == [] then ""
    else (if pieces[0].Literal? then pieces[0].text else "") + Texts(pieces[1..])
  }

  /** How many texts come before the first placeholder. */
  function Leading(pieces: seq<Piece>): (count: nat)
    ensures count <= |pieces| && forall i | 0 <= i < count :: pieces[i].Literal?
    ensures count < |pieces| ==> pieces[count].Placeholder?
  {
    if pieces == [] || pieces[0].Placeholder? then 0 else 1 + Leading(pieces[1..])
  }

  lemma FirstPiece(first: Piece, rest: seq<Piece>)
    ensures Printed([first] + rest) == Written(first) + Printed(rest)
    ensures Texts([first] + rest) == (if first.Literal? then first.text else "") + Texts(rest)
  {
    assert ([first] + rest)[1..] == rest;
  }

  lemma NoPieces()
    ensures Printed([]) == "" && Texts([]) == ""
  {
  }

  lemma {:induction false} PrintedConcat(a: seq<Piece>, b: seq<Piece>)
    ensures Printed(a + b) == Printed(a) + Printed(b) && Texts(a + b) == Texts(a) + Texts(b)
  {
    hide Printed, Texts, Written;
    if a == [] {
      assert a + b == b;
      NoPieces();
      assert "" + Printed(b) == Printed(b) && "" + Texts(b) == Texts(b);
    } else {
      PrintedConcat(a[1..], b);
      FirstPiece(a[0], a[1..] + b);
      FirstPiece(a[0], a[1..]);
      assert a + b == [a[0]] + (a[1..] + b) && a == [a[0]] + a[1..];
      Assoc(Written(a[0]), Printed(a[1..]), Printed(b));
      Assoc(if a[0].Literal? then a[0].text else "", Texts(a[1..]), Texts(b));
    }
  }

  lemma {:induction false} OnlyTexts(pieces: seq<Piece>)
    requires AllClean(pieces) && forall i | 0 <= i < |pieces| :: pieces[i].Literal?
    ensures Printed(pieces) == Texts(pieces) && '{' !in Printed(pieces)
  {
    if pieces != [] {
      assert Clean(pieces[0]);
      OnlyTexts(pieces[1..]);
    }
  }

  lemma NoBraceNoPlaceholder(text: string)
    requires '{' !in text
    ensures Strip(text) == text
  {
    forall i | 0 <= i && i + 2 <= |text| ensures !OccursAt(text, "#{", i) {
      assert text[i + 1] in text && text[i..i + 2][1] == text[i + 1];
    }
    NoFirstPlaceholderIff(text);
    hide FirstPlaceholder;
  }

  lemma FirstIs(before: string, key: string, after: string)
    requires '{' !in before && '}' !in key
    ensures FirstPlaceholder(before + ("#{" + key + "}") + after) == Some((|before|, |before| + 2 + |key|))
  {
    hide Find;
    var text := before + ("#{" + key + "}") + after;
    var end := |before| + 2 + |key|;
    assert text[|before|..|before| + 2] == "#{";
    forall i | 0 <= i < |before| ensures !OccursAt(text, "#{", i) {
      assert text[i..i + 2][1] == text[i + 1] == if i + 1 < |before| then before[i + 1] else '#';
      assert i + 1 < |before| ==> before[i + 1] in before;
    }
    FindAt(text, "#{", 0, |before|);
    assert text[end..end + 1] == "}";
    forall i | |before| + 2 <= i < end ensures !OccursAt(text, "}", i) {
      assert text[i..i + 1][0] == text[i] == key[i - |before| - 2] && key[i - |before| - 2] in key;
    }
    FindAt(text, "}", |before| + 2, end);
  }

  lemma {:induction false} StripLeavesTexts(pieces: seq<Piece>)
    requires AllClean(pieces)
    ensures Strip(Printed(pieces)) == Texts(pieces)
    decreases |pieces|
  {
    hide Strip, FirstPlaceholder, Printed, Texts;
    var count := Leading(pieces);
    if count == |pieces| {
      OnlyTexts(pieces);
      NoBraceNoPlaceholder(Printed(pieces));
    } else {
      var (before, after) := (pieces[..count], pieces[count + 1..]);
      OneRemoved(before, pieces[count].key, after);
      assert pieces == before + ([pieces[count]] + after);
      assert AllClean(before + after) by {
        assert forall i | 0 <= i < |before + after| :: (before + after)[i] == pieces[if i < count then i else i + 1];
      }
      StripLeavesTexts(before + after);
    }
  }

  /** Removing the first placeholder of the printed pieces removes its piece. */
  lemma OneRemoved(before: seq<Piece>, key: string, after: seq<Piece>)
    requires AllClean(before) && (forall i | 0 <= i < |before| :: before[i].Literal?) && '}' !in key
    ensures var pieces := before + ([Placeholder(key)] + after);
      Strip(Printed(pieces)) == Strip(Printed(before + after)) && Texts(pieces) == Texts(before + after)
  {
    hide FirstPlaceholder, Strip, Printed, Texts, Clean;
    PlaceholderPrints(key);
    OnlyTexts(before);
    PrintedConcat(before, [Placeholder(key)] + after);
    PrintedConcat([Placeholder(key)], after);
    PrintedConcat(before, after);
    RemovedText(Printed(before), key, Printed(after));
    assert "" + Texts(after) == Texts(after);
  }

  lemma PlaceholderPrints(key: string)
    ensures Printed([Placeholder(key)]) == "#{" + key + "}" && Texts([Placeholder(key)]) == ""
  {
    assert [Placeholder(key)][1..] == [];
  }

  lemma RemovedText(before: string, key: string, after: string)
    requires '{' !in before && '}' !in key
    ensures Strip(before + ("#{" + key + "}" + after)) == Strip(before + after)
  {
    hide FirstPlaceholder, Strip;
    var placeholder := "#{" + key + "}";
    FirstIs(before, key, after);
    CutOut(before, placeholder, after);
    StripOnce(before + placeholder + after, |before|, |before| + 2 + |key|);
  }

  lemma CutOut(a: string, b: string, c: string)
    requires b != ""
    ensures a + (b + c) == a + b + c && (a + b + c)[..|a|] == a && (a + b + c)[|a| + |b|..] == c
  {
  }

  lemma StripOnce(text: string, start: nat, end: nat)
    requires FirstPlaceholder(text) == Some((start, end))
    ensures Strip(text) == Strip(text[..start] + text[end + 1..])
  {
    hide FirstPlaceholder;
  }

  // The whole

  /** The first value given for a key; nothing for an unknown one. */
  function ValueOf(context: seq<(string, string)>, key: string): string {
    if context == [] then "" else if context[0].0 == key then context[0].1 else ValueOf(context[1..], key)
  }

  /** The texts as they are, and the values in the place of their placeholders. */
  function Meaning(pieces: seq<Piece>, context: seq<(string, string)>): string {
    if pieces == [] then ""
    else
      (match pieces[0] case Literal(text) => text case Placeholder(key) => ValueOf(context, key))
      + Meaning(pieces[1..], context)
  }

  lemma {:induction false} FilledInMeans(pieces: seq<Piece>, context: seq<(string, string)>)
    ensures Texts(FilledIn(pieces, context)) == Meaning(pieces, context)
    decreases |context|
  {
    if context == [] {
      TextsMean(pieces);
    } else {
      FilledInMeans(PutAll(pieces, context[0].0, context[0].1), context[1..]);
      PutMeans(pieces, context);
    }
  }

  lemma {:induction false} TextsMean(pieces: seq<Piece>)
    ensures Texts(pieces) == Meaning(pieces, [])
  {
    if pieces != [] {
      TextsMean(pieces[1..]);
    }
  }

  lemma {:induction false} PutMeans(pieces: seq<Piece>, context: seq<(string, string)>)
    requires context != []
    ensures Meaning(PutAll(pieces, context[0].0, context[0].1), context[1..]) == Meaning(pieces, context)
  {
    if pieces != [] {
      PutMeans(pieces[1..], context);
    }
  }

  /** A format made of texts and placeholders renders to the texts with the values in their places, unknown
      placeholders leaving nothing, and the blanks around it all removed; the fallback if nothing is left. */
  lemma RendersItsMeaning(pieces: seq<Piece>, context: seq<(string, string)>, fallback: string)
    requires AllClean(pieces) && CleanValues(context)
    ensures var text := Trim(Meaning(pieces, context));
      Render(Printed(pieces), context, fallback) == if text == "" then fallback else text
  {
    hide FillIn, Strip, Trim, Printed, Meaning, Texts;
    FillInPuts(pieces, context);
    StripLeavesTexts(FilledIn(pieces, context));
    FilledInMeans(pieces, context);
    if Printed(pieces) == "" {
      NothingRendered(context);
      TrimNothing();
    }
  }

  lemma {:induction false} NothingRendered(context: seq<(string, string)>)
    ensures Strip(FillIn("", context)) == ""
    decreases |context|
  {
    if context == [] {
      NoBraceNoPlaceholder("");
    } else {
      NothingReplaced("#{" + context[0].0 + "}", context[0].1);
      NothingRendered(context[1..]);
    }
  }
}
