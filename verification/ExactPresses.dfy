/** When replacing match after match gives the right text, whatever it selects on the way. */
module ExactPresses {
  import opened Text
  import opened Positions
  import opened Editor
  import opened FindReplace

  function ReturnsAtEnd(text: string): nat {
    ReturnsBefore(text, |text|)
  }

  /** Pressing "replace" puts the replacement in the place of the match, and changes nothing else. */
  predicate ExactPress(e: Editor) {
    && CanReplace(e) && e.ReplacesHere()
    && var (text, start, end) := (e.document.content.text, e.find.found.value.0, e.find.found.value.1);
      e.PasteOverMatch().document.content.text == text[..start] + e.find.replacement + text[end..]
  }

  predicate EveryPressExact(e: Editor, count: nat)
    decreases count
  {
    count == 0 || (ExactPress(e) && EveryPressExact(e.ReplaceCurrent().0, count - 1))
  }

  /** A match after `front` is cut out exactly: as many carriage returns stand before it as before its end, and
      either none do or the replacement is nothing else. */
  predicate CutsExactly(front: string, query: string, replacement: string) {
    && ReturnsAtEnd(front) == ReturnsAtEnd(front + query)
    && (ReturnsAtEnd(front) == 0 || AllReturns(replacement))
  }

  /** All matches of `rest` are, one after the other, when `done` stands before it. */
  predicate Exactable(done: string, rest: string, query: string, replacement: string)
    requires query != ""
    decreases |rest|
  {
    match Find(rest, query, 0)
    case None => true
    case Some(at) =>
      && CutsExactly(done + rest[..at], query, replacement)
      && Exactable(done + rest[..at] + replacement, rest[at + |query|..], query, replacement)
  }

  lemma {:induction false} ReturnsBeforePrefix(text: string, end: nat, offset: nat)
    requires offset <= end <= |text|
    ensures ReturnsBefore(text, offset) == ReturnsBefore(text[..end], offset)
  {
    if offset > 0 && text[offset - 1] == '\r' {
      ReturnsBeforePrefix(text, end, offset - 1);
    }
  }

  lemma MatchSpans(done: string, rest: string, at: nat, query: string)
    requires OccursAt(rest, query, at)
    ensures (done + rest)[..|done| + at] == done + rest[..at]
    ensures (done + rest)[..|done| + at + |query|] == done + rest[..at] + query
  {
  }

  lemma ExactPressIff(e: Editor)
    requires e.ReplacesHere()
    ensures var (text, start, end) := (e.document.content.text, e.find.found.value.0, e.find.found.value.1);
      ExactPress(e) <==> && ReturnsBefore(text, start) == ReturnsBefore(text, end)
                         && (ReturnsBefore(text, start) == 0 || AllReturns(e.find.replacement))
  {
    OnePressIsExactIff(e);
    hide Editor.PasteOverMatch, ReturnsBefore, AllReturns;
  }

  lemma ShownAt(e: Editor, done: string, rest: string, at: nat)
    requires Shows(e, done, rest) && Find(rest, e.find.query, 0) == Some(at)
    ensures e.document.Ready? && e.ReplacesHere() && OccursAt(rest, e.find.query, at)
    ensures e.document.content.text == done + rest
    ensures e.find.found == Some((|done| + at, |done| + at + |e.find.query|))
  {
    MatchEnds(e, done, rest, at);
    FindIsLeftmost(rest, e.find.query, 0);
    hide Find;
  }

  lemma FirstPressIff(e: Editor, done: string, rest: string, at: nat)
    requires Shows(e, done, rest) && Find(rest, e.find.query, 0) == Some(at)
    ensures e.ReplacesHere()
    ensures ExactPress(e) <==> CutsExactly(done + rest[..at], e.find.query, e.find.replacement)
  {
    hide ExactPress, CutsExactly, ReturnsBefore, Find, AllReturns, Shows, OccursAt, Editor.ReplacesHere;
    ShownAt(e, done, rest, at);
    MatchSpans(done, rest, at, e.find.query);
    ExactPressIff(e);
    CutsExactlyIff(done + rest, |done| + at, |done| + at + |e.find.query|,
      done + rest[..at], e.find.query, e.find.replacement);
  }

  lemma CutsExactlyIff(text: string, start: nat, end: nat, front: string, query: string, replacement: string)
    requires start <= end <= |text| && front == text[..start] && front + query == text[..end]
    ensures CutsExactly(front, query, replacement)
       <==> && ReturnsBefore(text, start) == ReturnsBefore(text, end)
            && (ReturnsBefore(text, start) == 0 || AllReturns(replacement))
  {
    hide ReturnsBefore, AllReturns;
    ReturnsBeforePrefix(text, start, start);
    ReturnsBeforePrefix(text, end, end);
  }

  /** After an exact press the first match of what follows is shown. */
  lemma ExactPressGoesOn(e: Editor, done: string, rest: string, at: nat)
    requires Shows(e, done, rest) && Find(rest, e.find.query, 0) == Some(at) && ExactPress(e)
    ensures Continues(e, e.ReplaceCurrent().0, Left(e, done, rest, at), rest[at + |e.find.query|..])
  {
    hide Find;
    var (text, start, end) := (e.document.content.text, e.find.found.value.0, e.find.found.value.1);
    var right, pasted := rest[at + |e.find.query|..], e.PasteOverMatch();
    assert text[..start] == done + rest[..at] && text[end..] == right;
    assert e.ReplaceCurrent().0 == pasted.FindNext(false).0;
    assert pasted.find.query == e.find.query && pasted.find.replacement == e.find.replacement && pasted.document.Ready?;
    hide Editor.PasteOverMatch;
    FindNextShows(pasted, Left(e, done, rest, at), right);
  }

  /** Every one of `count` presses is exact iff `exactable`, and then the text ends as `result`. */
  ghost predicate ExactlyGives(e: Editor, count: nat, exactable: bool, result: string) {
    && (EveryPressExact(e, count) <==> exactable)
    && (exactable ==>
          && ReplaceTimes(e, count).Some? && ReplaceTimes(e, count).value.document.Ready?
          && ReplaceTimes(e, count).value.document.content.text == result)
  }

  ghost predicate ExactRest(e: Editor, done: string, rest: string)
    requires e.find.query != ""
  {
    ExactlyGives(e, Count(rest, e.find.query), Exactable(done, rest, e.find.query, e.find.replacement),
      done + Replace(rest, e.find.query, e.find.replacement))
  }

  lemma NothingLeft(e: Editor, done: string, rest: string)
    requires e.document.Ready? && e.document.content.text == done + rest
    requires e.find.query != "" && Find(rest, e.find.query, 0).None?
    ensures ExactRest(e, done, rest)
  {
    hide Find;
  }

  lemma InexactPress(e: Editor, done: string, rest: string, at: nat)
    requires e.find.query != "" && Find(rest, e.find.query, 0) == Some(at)
    requires !ExactPress(e) && !CutsExactly(done + rest[..at], e.find.query, e.find.replacement)
    ensures ExactRest(e, done, rest)
  {
    hide Find, ExactPress, CutsExactly;
  }

  lemma ExactableStep(done: string, rest: string, query: string, replacement: string, at: nat)
    requires query != "" && Find(rest, query, 0) == Some(at) && CutsExactly(done + rest[..at], query, replacement)
    ensures Exactable(done, rest, query, replacement)
         == Exactable(done + rest[..at] + replacement, rest[at + |query|..], query, replacement)
  {
    hide Find, CutsExactly;
  }

  lemma ExactThenRest(e: Editor, done: string, rest: string, at: nat)
    requires e.find.query != "" && Find(rest, e.find.query, 0) == Some(at)
    requires ExactPress(e) && CutsExactly(done + rest[..at], e.find.query, e.find.replacement)
    requires var next := e.ReplaceCurrent().0;
      next.find.query == e.find.query && next.find.replacement == e.find.replacement
      && ExactRest(next, Left(e, done, rest, at), rest[at + |e.find.query|..])
    ensures ExactRest(e, done, rest)
  {
    hide Find, CutsExactly, Count, Replace, Exactable, ExactPress, Editor.ReplaceCurrent;
    var query, replacement, right := e.find.query, e.find.replacement, rest[at + |e.find.query|..];
    CountStep(rest, query, at);
    ReplaceStep(rest, query, replacement, at);
    ExactableStep(done, rest, query, replacement, at);
    Regroup(done, rest[..at], replacement, Replace(right, query, replacement));
    ExactPressCan(e);
  }

  lemma ExactPressCan(e: Editor)
    requires ExactPress(e)
    ensures CanReplace(e)
  {
  }

  lemma {:induction false} ExactPressesReplaceRest(e: Editor, done: string, rest: string)
    requires Shows(e, done, rest)
    ensures ExactRest(e, done, rest)
    decreases |rest|
  {
    hide ExactRest, Left, Find, Shows, ExactPress, CutsExactly, Editor.ReplaceCurrent, Editor.ReplacesHere,
        Editor.PasteFits;
    FirstShown(e, done, rest);
    var query, at := e.find.query, Find(rest, e.find.query, 0).value;
    FirstPressIff(e, done, rest, at);
    if ExactPress(e) {
      ExactPressGoesOn(e, done, rest, at);
      ExactPressCan(e);
      var next, left, right := e.ReplaceCurrent().0, Left(e, done, rest, at), rest[at + |query|..];
      if Find(right, query, 0).Some? {
        ExactPressesReplaceRest(next, left, right);
      } else {
        NothingLeft(next, left, right);
      }
      ExactThenRest(e, done, rest, at);
    } else {
      InexactPress(e, done, rest, at);
    }
  }

  /** From the first match of the whole text, pressing "replace" as often as there are non-overlapping matches:
      every press does what a replacement of its match should exactly when `Exactable`, which is told from the
      text alone, and then the text is that of replacing all at once, whatever was selected. */
  lemma ExactPressesAreReplaceAll(e: Editor)
    requires e.document.Ready? && Shows(e, "", e.document.content.text)
    ensures ExactlyGives(e, e.ReplaceAll().1,
      Exactable("", e.document.content.text, e.find.query, e.find.replacement),
      e.ReplaceAll().0.document.content.text)
  {
    var text := e.document.content.text;
    ExactPressesReplaceRest(e, "", text);
    assert "" + Replace(text, e.find.query, e.find.replacement) == Replace(text, e.find.query, e.find.replacement);
  }

  /** Selecting every match is a special case. */
  lemma {:induction false} SelectableIsExactable(done: string, rest: string, query: string, replacement: string)
    requires query != "" && Selectable(rest, query, replacement, EndsInReturn(done))
    ensures Exactable(done, rest, query, replacement)
    decreases |rest|
  {
    hide Find;
    if Find(rest, query, 0).Some? {
      var at := Find(rest, query, 0).value;
      var front := done + rest[..at];
      assert !EndsInReturn(front) && !EndsInReturn(front + query);
      EndOfSum(done, rest[..at], replacement);
      SelectableIsExactable(front + replacement, rest[at + |query|..], query, replacement);
    }
  }

  // The texts may agree all the same

  /** What a press leaves, told by offsets. */
  lemma PressLeaves(e: Editor, low: nat, high: nat, text: string)
    requires e.ReplacesHere() && e.PasteFits() && e.find.query != ""
    requires low == e.find.found.value.0 - ReturnsBefore(e.document.content.text, e.find.found.value.0)
    requires high == e.find.found.value.1 - ReturnsBefore(e.document.content.text, e.find.found.value.1)
    requires low <= high && text == e.document.content.text[..low] + e.find.replacement
        + e.document.content.text[high..]
    ensures var (next, end) := (e.ReplaceCurrent().0, e.find.found.value.0 + |e.find.replacement|);
      && next.document.Ready? && next.document.content.text == text && end <= |text|
      && next.find.query == e.find.query && next.find.replacement == e.find.replacement
      && (Find(text, e.find.query, end).Some? ==>
            var start := Find(text, e.find.query, end).value;
            next.find.found == Some((start, start + |e.find.query|)))
  {
    hide Find, ReturnsBefore, PositionOf, Editor.PasteOverMatch;
    PastedText(e);
    PastedShape(e);
    e.PasteFitsIff();
    NextFound(e.PasteOverMatch());
  }

  lemma PastedShape(e: Editor)
    requires e.ReplacesHere() && e.PasteFits()
    ensures var pasted := e.PasteOverMatch();
      && pasted.document.Ready? && pasted.find.query == e.find.query && pasted.find.replacement == e.find.replacement
      && pasted.find.found == Some((e.find.found.value.0, e.find.found.value.0 + |e.find.replacement|))
      && pasted.SliceInRange(false) && e.ReplaceCurrent().0 == pasted.FindNext(false).0
  {
    hide Find, ReturnsBefore, PositionOf, Editor.FindNext;
    e.PasteFitsIff();
  }

  lemma NextFound(e: Editor)
    requires e.document.Ready? && e.find.query != "" && e.find.found.Some? && e.SliceInRange(false)
    ensures var next := e.FindNext(false).0;
      var found := Find(e.document.content.text, e.find.query, e.find.found.value.1);
      && next.document.Ready? && next.document.content.text == e.document.content.text
      && next.find.query == e.find.query && next.find.replacement == e.find.replacement
      && (found.Some? ==> next.find.found == Some((found.value, found.value + |e.find.query|)))
  {
    hide Find, PositionOf;
  }

  const TWICE := "x\r\rx\rzz"

  lemma TwiceFound()
    ensures Find(TWICE, "x\r", 0) == Some(0) && Find("\r\rx\rzz", "x\r", 0) == Some(2)
    ensures Find("\rx\rzz", "x\r", 0) == Some(1) && Find("zz", "x\r", 0) == None
  {
    assert TWICE[0..2] == "x\r";
    var first := "\r\rx\rzz";
    assert first[0..2][0] == first[1..3][0] == '\r' && first[2..4] == "x\r";
    assert Find(first, "x\r", 1) == Find(first, "x\r", 2) == Some(2);
    var second := "\rx\rzz";
    assert second[0..2][0] == '\r' && second[1..3] == "x\r";
    assert Find(second, "x\r", 1) == Some(1);
    assert "zz"[0..2][0] == 'z';
  }

  lemma TwiceReplaced()
    ensures Count(TWICE, "x\r") == 2 && Replace(TWICE, "x\r", "") == "\rzz"
  {
    TwiceFound();
    hide Find;
    assert TWICE[2..] == "\rx\rzz" && "\rx\rzz"[3..] == "zz" && "\rx\rzz"[..1] == "\r";
    assert Count("\rx\rzz", "x\r") == 1 && Replace("\rx\rzz", "x\r", "") == "\r" + "" + "zz";
    assert TWICE[..0] + "" + "\rzz" == "\rzz";
  }

  /** Two presses of which neither is exact, the first losing a carriage return too few and the second one too
      many, and the text that replacing all at once gives: the text at the end does not tell. */
  lemma InexactPressesMayAgree(e: Editor)
    requires e.document.Ready? && e.document.content.text == TWICE && e.find.query == "x\r" && e.find.replacement == ""
    requires e.find.found == Some((0, 2))
    ensures Shows(e, "", TWICE) && !ExactPress(e) && CanReplace(e) && !ExactPress(e.ReplaceCurrent().0)
    ensures e.ReplaceAll().1 == 2 && e.ReplaceAll().0.document.content.text == "\rzz"
    ensures ReplaceTimes(e, 2).Some? && ReplaceTimes(e, 2).value.document.Ready?
    ensures ReplaceTimes(e, 2).value.document.content.text == "\rzz"
  {
    TwiceFound();
    TwiceReplaced();
    hide Find, Count, Replace, PositionOf;
    assert TWICE[0..2] == "x\r" && "" + TWICE == TWICE;
    assert ReturnsBefore(TWICE, 0) == 0 && ReturnsBefore(TWICE, 1) == 0 && ReturnsBefore(TWICE, 2) == 1;
    assert TWICE[..0] + "" + TWICE[1..] == "\r\rx\rzz";
    PressLeaves(e, 0, 1, "\r\rx\rzz");
    OnePressIsExactIff(e);
    SecondPress(e.ReplaceCurrent().0);
    hide Editor.ReplaceCurrent;
  }

  lemma SecondPress(e: Editor)
    requires e.document.Ready? && e.document.content.text == "\r\rx\rzz" && e.find.query == "x\r"
        && e.find.replacement == ""
    requires e.find.found == Some((2, 4))
    ensures CanReplace(e) && !ExactPress(e)
    ensures ReplaceTimes(e, 1).Some? && ReplaceTimes(e, 1).value.document.Ready?
    ensures ReplaceTimes(e, 1).value.document.content.text == "\rzz"
  {
    var text := "\r\rx\rzz";
    hide Find, PositionOf;
    assert text[2..4] == "x\r";
    assert ReturnsBefore(text, 0) == 0 && ReturnsBefore(text, 1) == 1 && ReturnsBefore(text, 2) == 2;
    assert ReturnsBefore(text, 3) == 0 && ReturnsBefore(text, 4) == 1;
    assert text[..0] + "" + text[3..] == "\rzz";
    PressLeaves(e, 0, 3, "\rzz");
    OnePressIsExactIff(e);
    hide Editor.ReplaceCurrent;
  }
}
