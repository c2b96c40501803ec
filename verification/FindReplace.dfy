/** Searching and replacing in the editor: replacing match after match amounts to replacing all. */
module FindReplace {
  import opened Text
  import opened Positions
  import opened Editor

  ghost predicate Occurs(text: string, query: string) {
    exists i :: OccursAt(text, query, i)
  }

  lemma NextMatchMissingIff(e: Editor, backwards: bool)
    requires e.document.Ready? && e.find.query != "" && e.SliceInRange(backwards)
    ensures e.NextMatch(backwards).None? <==> !Occurs(e.document.content.text, e.find.query)
  {
    var source := e.document.content.text;
    if e.NextMatch(backwards).Some? {
      NextMatchOccurs(e, backwards);
    } else if backwards {
      RFindIsRightmost(source, e.find.query, |source|);
    } else {
      FindIsLeftmost(source, e.find.query, 0);
    }
  }

  lemma NextMatchOccurs(e: Editor, backwards: bool)
    requires e.document.Ready? && e.find.query != "" && e.SliceInRange(backwards) && e.NextMatch(backwards).Some?
    ensures OccursAt(e.document.content.text, e.find.query, e.NextMatch(backwards).value)
  {
    var source := e.document.content.text;
    if backwards {
      RFindIsRightmost(source, e.find.query, |source|);
      RFindIsRightmost(source, e.find.query, if e.find.found.Some? then e.find.found.value.0 else |source|);
    } else {
      FindIsLeftmost(source, e.find.query, 0);
      FindIsLeftmost(source, e.find.query, if e.find.found.Some? then e.find.found.value.1 else 0);
    }
  }

  /** Searching fails only without a text, without a query, or when the query does not occur at all;
      otherwise the new match reads as the query and lies in the unchanged text. */
  lemma FindNextFailsIff(e: Editor, backwards: bool)
    requires e.SliceInRange(backwards)
    ensures !e.FindNext(backwards).1
       <==> !e.document.Ready? || e.find.query == "" || !Occurs(e.document.content.text, e.find.query)
    ensures e.FindNext(backwards).1 ==>
      var after := e.FindNext(backwards).0;
      && after.document.content.text == e.document.content.text
      && after.find.found.Some?
      && after.find.found.value.1 == after.find.found.value.0 + |e.find.query|
      && OccursAt(e.document.content.text, e.find.query, after.find.found.value.0)
  {
    if e.document.Ready? && e.find.query != "" {
      NextMatchMissingIff(e, backwards);
      if e.NextMatch(backwards).Some? {
        NextMatchOccurs(e, backwards);
      }
    }
  }

  /** Where the search goes on from: the end of the current match, or its start when going back. */
  function From(e: Editor, backwards: bool): nat
    requires e.document.Ready?
  {
    if backwards then (if e.find.found.Some? then e.find.found.value.0 else |e.document.content.text|)
    else (if e.find.found.Some? then e.find.found.value.1 else 0)
  }

  /** Going forward takes the leftmost occurrence after the current match; when there is none, it takes the
      leftmost of all. */
  lemma FindNextForward(e: Editor, j: nat)
    requires e.document.Ready? && e.SliceInRange(false) && e.FindNext(false).1
    requires OccursAt(e.document.content.text, e.find.query, j)
    ensures var start := e.FindNext(false).0.find.found.value.0;
      From(e, false) <= j ==> From(e, false) <= start <= j
    ensures var start := e.FindNext(false).0.find.found.value.0;
      start < From(e, false) ==> start <= j
  {
    FindIsLeftmost(e.document.content.text, e.find.query, From(e, false));
    FindIsLeftmost(e.document.content.text, e.find.query, 0);
  }

  /** Going back takes the rightmost occurrence that ends before the current match; when there is none, it
      takes the rightmost of all. */
  lemma FindNextBackward(e: Editor, j: nat)
    requires e.document.Ready? && e.SliceInRange(true) && e.FindNext(true).1
    requires OccursAt(e.document.content.text, e.find.query, j)
    ensures var (start, end) := e.FindNext(true).0.find.found.value;
      j + |e.find.query| <= From(e, true) ==> j <= start && end <= From(e, true)
    ensures var (start, end) := e.FindNext(true).0.find.found.value;
      From(e, true) < end ==> j <= start
  {
    RFindIsRightmost(e.document.content.text, e.find.query, From(e, true));
    RFindIsRightmost(e.document.content.text, e.find.query, |e.document.content.text|);
  }

  /** Where the match is not shown any more, or there is none, replacing changes no text: it shows the leftmost match
      of all, and fails exactly when there is none. */
  lemma ReplacingElsewhereFinds(e: Editor, j: nat)
    requires !e.ReplacesHere()
    ensures e.document.Ready? ==>
      var ((after, found), text) := (e.ReplaceCurrent(), e.document.content.text);
        && (found <==> e.find.query != "" && Occurs(text, e.find.query))
        && after.inactive == e.inactive
        && after.document == e.document.(content := after.document.content) && after.document.content.text == text
        && (found ==>
              && after.find.found.Some?
              && var (start, end) := after.find.found.value;
                && end == start + |e.find.query| && OccursAt(text, e.find.query, start)
                && after.document.content == SelectRange(e.document.content, start, end)
                && (OccursAt(text, e.find.query, j) ==> start <= j))
        && (!found ==> after.document == e.document && after.find.found.None?)
    ensures !e.document.Ready? ==> e.ReplaceCurrent() == (e, false)
  {
    hide Find, Count, PositionOf;
    if e.document.Ready? {
      var from := e.(find := e.find.(found := None));
      assert e.ReplaceCurrent() == from.FindNext(false);
      FindNextFailsIff(from, false);
      if from.FindNext(false).1 && OccursAt(e.document.content.text, e.find.query, j) {
        FindNextForward(from, j);
      }
    }
  }

  // When a selection made through positions is the match itself

  predicate EndsInReturn(text: string) {
    text != "" && text[|text| - 1] == '\r'
  }

  /** Replacing the matches of `text` one after the other never meets a match with an end right
      after a carriage return; `after` says whether `text` itself comes after one. */
  predicate Selectable(text: string, query: string, replacement: string, after: bool)
    requires query != ""
  {
    match Find(text, query, 0)
    case None => true
    case Some(at) =>
      && !(if at == 0 then after else text[at - 1] == '\r')
      && !EndsInReturn(query)
      && Selectable(text[at + |query|..], query, replacement, EndsInReturn(replacement))
  }

  predicate CanReplace(e: Editor) {
    e.ReplacesHere() ==> e.PasteFits()
  }

  /** The match that pressing "replace" pastes over is the range that is selected. */
  predicate SelectsItsMatch(e: Editor) {
    && CanReplace(e) && e.ReplacesHere()
    && SelectRange(e.document.content, e.find.found.value.0, e.find.found.value.1).Selected() == e.find.found.value
  }

  /** `count` presses of "replace", each of which selects its own match. */
  predicate SelectsEveryMatch(e: Editor, count: nat)
    decreases count
  {
    count == 0 || (SelectsItsMatch(e) && SelectsEveryMatch(e.ReplaceCurrent().0, count - 1))
  }

  function ReplaceTimes(e: Editor, count: nat): Option<Editor>
    decreases count
  {
    if count == 0 then Some(e)
    else if CanReplace(e) then ReplaceTimes(e.ReplaceCurrent().0, count - 1)
    else None
  }

  /** The text is `done` and `rest`, and the match shown is the first one of `rest`. */
  predicate Shows(e: Editor, done: string, rest: string) {
    && e.document.Ready? && e.find.query != "" && e.document.content.text == done + rest
    && match Find(rest, e.find.query, 0)
       case None => false
       case Some(at) => e.find.found == Some((|done| + at, |done| + at + |e.find.query|))
  }

  lemma FindNextShows(e: Editor, done: string, rest: string)
    requires e.document.Ready? && e.find.query != "" && e.document.content.text == done + rest
    requires e.SliceInRange(false) && e.find.found.Some? && e.find.found.value.1 == |done|
    ensures var next := e.FindNext(false).0;
      && next.document.Ready? && next.document.content.text == done + rest
      && next.find.query == e.find.query && next.find.replacement == e.find.replacement
      && (Find(rest, e.find.query, 0).Some? ==> Shows(next, done, rest))
  {
    FindAfter(done, rest, e.find.query);
  }

  /** The first match of `rest`, at `at`, has an end right after a carriage return. */
  predicate Spoiled(done: string, rest: string, at: nat, query: string)
    requires at <= |rest|
  {
    EndsInReturn(query) || (if at == 0 then EndsInReturn(done) else rest[at - 1] == '\r')
  }

  /** The characters before the two ends of an occurrence. */
  lemma EndsOf(done: string, rest: string, at: nat, query: string)
    requires query != "" && OccursAt(rest, query, at)
    ensures FollowsReturn(done + rest, |done| + at) || FollowsReturn(done + rest, |done| + at + |query|)
       <==> Spoiled(done, rest, at, query)
  {
    var text := done + rest;
    assert rest[at + |query| - 1] == rest[at..at + |query|][|query| - 1];
    assert text[|done| + at + |query| - 1] == query[|query| - 1];
    assert at > 0 ==> text[|done| + at - 1] == rest[at - 1];
    assert at == 0 && done != "" ==> text[|done| - 1] == done[|done| - 1];
  }

  lemma MatchEnds(e: Editor, done: string, rest: string, at: nat)
    requires Shows(e, done, rest) && Find(rest, e.find.query, 0) == Some(at)
    ensures e.MatchInRange() && e.ReplacesHere()
    ensures FollowsReturn(done + rest, |done| + at) || FollowsReturn(done + rest, |done| + at + |e.find.query|)
       <==> Spoiled(done, rest, at, e.find.query)
  {
    hide FollowsReturn, Spoiled, Find;
    var query := e.find.query;
    FindIsLeftmost(rest, query, 0);
    assert (done + rest)[|done| + at..|done| + at + |query|] == rest[at..at + |query|] == query;
    EndsOf(done, rest, at, query);
  }

  lemma PasteReplacesMatch(e: Editor, start: nat, end: nat)
    requires e.find.found == Some((start, end)) && e.ReplacesHere()
    requires !FollowsReturn(e.document.content.text, start) && !FollowsReturn(e.document.content.text, end)
    ensures SelectsItsMatch(e)
    ensures var pasted, text := e.PasteOverMatch(), e.document.content.text;
      && pasted.document.Ready? && pasted.find.found == Some((start, start + |e.find.replacement|))
      && pasted.find.query == e.find.query && pasted.find.replacement == e.find.replacement
      && pasted.document.content.text == text[..start] + e.find.replacement + text[end..]
  {
    SelectionIsExactIff(e.document.content, start, end);
    NoReturnJustBefore(e.document.content.text, start);
  }

  lemma NoReturnJustBefore(text: string, offset: nat)
    requires offset <= |text| && !FollowsReturn(text, offset)
    ensures ReturnsBefore(text, offset) == 0
  {
  }

  lemma ReplaceCurrentUnfolds(e: Editor)
    requires SelectsItsMatch(e)
    ensures e.ReplaceCurrent() == (e.PasteOverMatch().FindNext(false).0, true)
  {
  }

  function Left(e: Editor, done: string, rest: string, at: nat): string
    requires at <= |rest|
  {
    done + rest[..at] + e.find.replacement
  }

  /** `next` has the text `left` and `right` and still looks for the same, at the first match of `right` if any. */
  ghost predicate Continues(e: Editor, next: Editor, left: string, right: string) {
    && next.document.Ready? && next.document.content.text == left + right
    && next.find.query == e.find.query && next.find.replacement == e.find.replacement && e.find.query != ""
    && (Find(right, e.find.query, 0).Some? ==> Shows(next, left, right))
  }

  /** One press: the match gives way to the replacement, and the first match of what follows is shown. */
  lemma OnePress(e: Editor, done: string, rest: string, at: nat)
    requires Shows(e, done, rest) && Find(rest, e.find.query, 0) == Some(at)
    requires !Spoiled(done, rest, at, e.find.query)
    ensures SelectsItsMatch(e)
    ensures Continues(e, e.ReplaceCurrent().0, Left(e, done, rest, at), rest[at + |e.find.query|..])
  {
    MatchEnds(e, done, rest, at);
    var start, end := |done| + at, |done| + at + |e.find.query|;
    PasteReplacesMatch(e, start, end);
    ReplaceCurrentUnfolds(e);
    var right := rest[at + |e.find.query|..];
    assert (done + rest)[..start] == done + rest[..at] && (done + rest)[end..] == right;
    FindNextShows(e.PasteOverMatch(), Left(e, done, rest, at), right);
  }

  /** Every one of `count` presses selects its own match iff `selectable`, and then the text ends as `result`. */
  ghost predicate PressesGive(e: Editor, count: nat, selectable: bool, result: string) {
    && (SelectsEveryMatch(e, count) <==> selectable)
    && (selectable ==>
          && ReplaceTimes(e, count).Some? && ReplaceTimes(e, count).value.document.Ready?
          && ReplaceTimes(e, count).value.document.content.text == result)
  }

  lemma FirstPressThenRest(e: Editor, count: nat, selectable: bool, result: string)
    requires SelectsItsMatch(e) && PressesGive(e.ReplaceCurrent().0, count, selectable, result)
    ensures PressesGive(e, count + 1, selectable, result)
  {
  }

  lemma NotItsMatch(e: Editor, count: nat, result: string)
    requires !SelectsItsMatch(e) && count > 0
    ensures PressesGive(e, count, false, result)
  {
  }

  ghost predicate PressesRest(e: Editor, done: string, rest: string)
    requires e.find.query != ""
  {
    PressesGive(e, Count(rest, e.find.query),
      Selectable(rest, e.find.query, e.find.replacement, EndsInReturn(done)),
      done + Replace(rest, e.find.query, e.find.replacement))
  }

  lemma NotSelected(e: Editor, done: string, rest: string, at: nat)
    requires Shows(e, done, rest) && Find(rest, e.find.query, 0) == Some(at)
    requires Spoiled(done, rest, at, e.find.query)
    ensures !SelectsItsMatch(e)
  {
    hide Spoiled;
    MatchEnds(e, done, rest, at);
    SelectionIsExactIff(e.document.content, |done| + at, |done| + at + |e.find.query|);
  }

  lemma SpoiledNotSelectable(e: Editor, done: string, rest: string, at: nat)
    requires e.find.query != "" && Find(rest, e.find.query, 0) == Some(at)
    requires Spoiled(done, rest, at, e.find.query)
    ensures !Selectable(rest, e.find.query, e.find.replacement, EndsInReturn(done))
    ensures Count(rest, e.find.query) > 0
  {
    hide Find;
  }

  lemma SpoiledPress(e: Editor, done: string, rest: string, at: nat)
    requires Shows(e, done, rest) && Find(rest, e.find.query, 0) == Some(at)
    requires Spoiled(done, rest, at, e.find.query)
    ensures PressesRest(e, done, rest)
  {
    hide PressesGive, Selectable, Spoiled, Count, Replace, Find;
    NotSelected(e, done, rest, at);
    hide SelectsItsMatch;
    SpoiledNotSelectable(e, done, rest, at);
    NotItsMatch(e, Count(rest, e.find.query), done + Replace(rest, e.find.query, e.find.replacement));
  }

  lemma PressThenRest(e: Editor, done: string, rest: string, at: nat, next: Editor)
    requires e.find.query != "" && Find(rest, e.find.query, 0) == Some(at)
    requires SelectsItsMatch(e) && next == e.ReplaceCurrent().0
    requires !Spoiled(done, rest, at, e.find.query)
    requires Continues(e, next, Left(e, done, rest, at), rest[at + |e.find.query|..])
    requires PressesRest(next, Left(e, done, rest, at), rest[at + |e.find.query|..])
    ensures PressesRest(e, done, rest)
  {
    hide SelectsItsMatch, PressesGive, Count, Replace, Selectable, Shows;
    var query, replacement, right := e.find.query, e.find.replacement, rest[at + |e.find.query|..];
    CountStep(rest, query, at);
    ReplaceStep(rest, query, replacement, at);
    SelectableStep(rest, query, replacement, at, EndsInReturn(done));
    EndOfSum(done, rest[..at], replacement);
    var tail := Replace(right, query, replacement);
    Regroup(done, rest[..at], replacement, tail);
    FirstPressThenRest(e, Count(right, query), Selectable(right, query, replacement, EndsInReturn(replacement)),
      done + rest[..at] + replacement + tail);
  }

  /** Pressing "replace" once per match of `rest`, from the first of them. */
  lemma {:induction false} PressesReplaceRest(e: Editor, done: string, rest: string)
    requires Shows(e, done, rest)
    ensures PressesRest(e, done, rest)
    decreases |rest|
  {
    hide PressesRest, Left, Spoiled, Find, Shows, Editor.ReplaceCurrent, Editor.ReplacesHere, Editor.PasteFits;
    FirstShown(e, done, rest);
    var query, at := e.find.query, Find(rest, e.find.query, 0).value;
    if Spoiled(done, rest, at, query) {
      SpoiledPress(e, done, rest, at);
    } else {
      OnePress(e, done, rest, at);
      var next, left, right := e.ReplaceCurrent().0, Left(e, done, rest, at), rest[at + |query|..];
      if Find(right, query, 0).Some? {
        PressesReplaceRest(next, left, right);
      } else {
        NoMoreMatches(next, left, right);
      }
      PressThenRest(e, done, rest, at, next);
    }
  }

  lemma FirstShown(e: Editor, done: string, rest: string)
    requires Shows(e, done, rest)
    ensures e.find.query != "" && Find(rest, e.find.query, 0).Some?
  {
    hide Find;
  }

  lemma Regroup(a: string, b: string, c: string, d: string)
    ensures (a + b + c) + d == a + (b + c + d)
  {
  }

  lemma EndOfSum(done: string, skipped: string, replacement: string)
    requires !if skipped == "" then EndsInReturn(done) else EndsInReturn(skipped)
    ensures EndsInReturn(done + skipped + replacement) == EndsInReturn(replacement)
  {
  }

  lemma CountStep(rest: string, query: string, at: nat)
    requires query != "" && Find(rest, query, 0) == Some(at)
    ensures Count(rest, query) == Count(rest[at + |query|..], query) + 1
  {
    hide Find;
  }

  lemma SelectableStep(rest: string, query: string, replacement: string, at: nat, after: bool)
    requires query != "" && Find(rest, query, 0) == Some(at) && !EndsInReturn(query)
    requires !if at == 0 then after else rest[at - 1] == '\r'
    ensures Selectable(rest, query, replacement, after)
         == Selectable(rest[at + |query|..], query, replacement, EndsInReturn(replacement))
  {
    hide Find;
  }

  lemma NoMoreMatches(e: Editor, done: string, rest: string)
    requires e.document.Ready? && e.document.content.text == done + rest
    requires e.find.query != "" && Find(rest, e.find.query, 0).None?
    ensures PressesRest(e, done, rest)
  {
  }

  /** From the first match of the whole text: pressing "replace" as many times as there are
      non-overlapping matches selects its own match every time iff `Selectable`, and then gives
      exactly the text that replacing all at once gives. Carriage returns alone can spoil it. */
  lemma ReplacingOneByOneIsReplaceAll(e: Editor)
    requires e.document.Ready? && Shows(e, "", e.document.content.text)
    ensures PressesGive(e, e.ReplaceAll().1,
      Selectable(e.document.content.text, e.find.query, e.find.replacement, false),
      e.ReplaceAll().0.document.content.text)
  {
    var text := e.document.content.text;
    PressesReplaceRest(e, "", text);
    assert "" + Replace(text, e.find.query, e.find.replacement) == Replace(text, e.find.query, e.find.replacement);
  }

  /** Texts without carriage returns are always selectable. */
  lemma {:induction false} WithoutReturnsSelectable(text: string, query: string, replacement: string)
    requires query != "" && '\r' !in text && '\r' !in replacement
    ensures Selectable(text, query, replacement, false)
    decreases |text|
  {
    var found := Find(text, query, 0);
    if found.Some? {
      FindIsLeftmost(text, query, 0);
      assert query[|query| - 1] == text[found.value..found.value + |query|][|query| - 1];
      assert query[|query| - 1] in text;
      WithoutReturnsSelectable(text[found.value + |query|..], query, replacement);
    }
  }

  const RETURN_TEXT := "a\r\n"

  lemma ReturnPositions()
    ensures PositionOf(RETURN_TEXT, 2) == Position(0, 1) && PositionOf(RETURN_TEXT, 3) == Position(1, 0)
    ensures Resolve(RETURN_TEXT, Position(0, 1), 0) == 1 && Resolve(RETURN_TEXT, Position(1, 0), 0) == 3
  {
    var text := RETURN_TEXT;
    assert PositionOf(text, 0) == Position(0, 0);
    assert PositionOf(text, 1) == Position(0, 1);
    assert PositionOf(text, 2) == Position(0, 1);
    assert PositionOf(text, 3) == Position(1, 0);
    hide PositionOf;
    assert Resolve(text, Position(0, 1), 0) == Resolve(text, Position(0, 1), 1) == 1;
    assert Resolve(text, Position(1, 0), 0) == Resolve(text, Position(1, 0), 2) == 3;
  }

  lemma ReturnReplaced()
    ensures Find(RETURN_TEXT, "\n", 0) == Some(2) && Replace(RETURN_TEXT, "\n", "") == "a\r"
    ensures Count(RETURN_TEXT, "\n") == 1
  {
    var text := RETURN_TEXT;
    assert text[0..1] == "a" && text[1..2] == "\r" && text[2..3] == "\n";
    assert Find(text, "\n", 2) == Some(2);
    assert Find(text, "\n", 1) == Some(2);
    NotInEmpty();
    hide Find;
    assert text[3..] == "";
    assert text[..2] + "" + "" == "a\r";
  }

  lemma NotInEmpty()
    ensures Find("", "\n", 0) == None
  {
  }

  /** A match after a carriage return: the return is selected and lost with the match, and the range
      then recorded for the match lies outside the text. */
  lemma ReturnBeforeMatch()
    ensures var content := WithText(RETURN_TEXT);
      var e := Editor(Ready(Location("w", "f"), content, 0, 0, false, None, false, None), [],
                      FindBar(true, true, "\n", "", Some((2, 3)), Blank));
      && Shows(e, "", RETURN_TEXT) && e.ReplacesHere()
      && e.PasteOverMatch().document.content.text == "a"
      && e.ReplaceAll().0.document.content.text == "a\r"
      && !e.PasteOverMatch().MatchInRange()
  {
    ReturnPositions();
    ReturnReplaced();
    hide Find, Replace, Count, PositionOf, Resolve;
    assert RETURN_TEXT[2..3] == "\n";
    assert "" + RETURN_TEXT == RETURN_TEXT;
  }

  // When one press gives the right text without selecting the match

  lemma {:induction false} ShiftedReturns(a: string, r: string, k: nat)
    requires AllReturns(a) && a != "" && a + r == r + a && k < |r|
    ensures r[k] == '\r'
    decreases k
  {
    assert (a + r)[k] == (r + a)[k] == r[k];
    if k >= |a| {
      ShiftedReturns(a, r, k - |a|);
    }
  }

  /** Carriage returns move past a text exactly when there are none or the text is nothing else. */
  lemma ReturnsCommuteIff(a: string, b: string, r: string)
    requires AllReturns(a) && AllReturns(b)
    ensures a + r == r + b <==> |a| == |b| && (a == "" || AllReturns(r))
  {
    if |a| == |b| {
      assert a == b;
      if a == "" {
        assert a + r == r == r + b;
      } else if AllReturns(r) {
        assert forall k | 0 <= k < |a + r| :: (a + r)[k] == '\r' == (r + b)[k];
      } else if a + r == r + b {
        forall k | 0 <= k < |r| ensures r[k] == '\r' {
          ShiftedReturns(a, r, k);
        }
      }
    } else {
      assert |a + r| != |r + b|;
    }
  }

  lemma CutOff(front: string, x: string, y: string, tail: string)
    ensures front + x + tail == front + y + tail <==> x == y
  {
    var (a, b) := (front + x + tail, front + y + tail);
    if a == b {
      assert |x| == |y|;
      assert x == a[|front|..|front| + |x|] && y == b[|front|..|front| + |y|];
    }
  }

  lemma PastedText(e: Editor)
    requires e.ReplacesHere()
    ensures var (text, start, end) := (e.document.content.text, e.find.found.value.0, e.find.found.value.1);
      var (low, high) := (start - ReturnsBefore(text, start), end - ReturnsBefore(text, end));
      low <= high && e.PasteOverMatch().document.content.text == text[..low] + e.find.replacement + text[high..]
  {
    var (text, start, end) := (e.document.content.text, e.find.found.value.0, e.find.found.value.1);
    ResolveSkipsReturns(text, start);
    ResolveSkipsReturns(text, end);
    ResolveMonotone(text, start, end);
    hide Resolve, PositionOf, ReturnsBefore;
  }

  lemma GroupPieces(front: string, a: string, r: string, b: string, tail: string)
    ensures (front + a) + r + tail == front + (a + r) + tail
    ensures front + r + (b + tail) == front + (r + b) + tail
  {
  }

  lemma CutIsExactIff(text: string, low: nat, start: nat, high: nat, end: nat, r: string)
    requires low <= start && low <= high <= end && start <= end <= |text|
    requires AllReturns(text[low..start]) && AllReturns(text[high..end])
    ensures text[..low] + r + text[high..] == text[..start] + r + text[end..]
       <==> start - low == end - high && (start == low || AllReturns(r))
  {
    hide AllReturns;
    var (a, b) := (text[low..start], text[high..end]);
    assert text[..start] == text[..low] + a && text[high..] == b + text[end..];
    GroupPieces(text[..low], a, r, b, text[end..]);
    CutOff(text[..low], a + r, r + b, text[end..]);
    ReturnsCommuteIff(a, b, r);
  }

  /** One press gives the text with the match replaced, and no other change, exactly when as many carriage
      returns stand before the match as before its end, and either none do or the replacement is nothing else. */
  lemma OnePressIsExactIff(e: Editor)
    requires e.ReplacesHere()
    ensures var (text, start, end) := (e.document.content.text, e.find.found.value.0, e.find.found.value.1);
      e.PasteOverMatch().document.content.text == text[..start] + e.find.replacement + text[end..]
      <==> && ReturnsBefore(text, start) == ReturnsBefore(text, end)
           && (ReturnsBefore(text, start) == 0 || AllReturns(e.find.replacement))
  {
    hide Editor.PasteOverMatch, ReturnsBefore, AllReturns;
    var (text, start, end) := (e.document.content.text, e.find.found.value.0, e.find.found.value.1);
    PastedText(e);
    ReturnsBeforeIs(text, start);
    ReturnsBeforeIs(text, end);
    CutIsExactIff(text, start - ReturnsBefore(text, start), start, end - ReturnsBefore(text, end), end,
        e.find.replacement);
  }

  const SWAPPED_TEXT := "\rx\r"

  lemma SwappedReturns()
    ensures ReturnsBefore(SWAPPED_TEXT, 1) == 1 == ReturnsBefore(SWAPPED_TEXT, 3)
    ensures SWAPPED_TEXT[1..3] == "x\r" && SWAPPED_TEXT[..1] + "" + SWAPPED_TEXT[3..] == "\r"
  {
    assert ReturnsBefore(SWAPPED_TEXT, 0) == 0;
    assert ReturnsBefore(SWAPPED_TEXT, 2) == 0;
  }

  /** The texts may agree although the match is not what is selected: here another carriage return goes. */
  lemma EqualTextsWithoutSelecting()
    ensures var e := Editor(Ready(Location("w", "f"), WithText(SWAPPED_TEXT), 0, 0, false, None, false, None), [],
                            FindBar(true, true, "x\r", "", Some((1, 3)), Blank));
      && e.ReplacesHere() && e.PasteFits() && !SelectsItsMatch(e)
      && e.PasteOverMatch().document.content.text == "\r"
      && SWAPPED_TEXT[..1] + "" + SWAPPED_TEXT[3..] == "\r"
  {
    var e := Editor(Ready(Location("w", "f"), WithText(SWAPPED_TEXT), 0, 0, false, None, false, None), [],
                    FindBar(true, true, "x\r", "", Some((1, 3)), Blank));
    SwappedReturns();
    hide ReturnsBefore;
    OnePressIsExactIff(e);
    hide Editor.PasteOverMatch;
    SelectionIsExactIff(e.document.content, 1, 3);
  }
}
