/** The recorded match over whole runs: it stays inside the text, and only a carriage return can drive it out. */
module EditorMatches {
  import opened Text
  import opened Positions
  import opened Editor
  import opened EditorTabs

  /** While the match is in the text, the one unsafe call is a replacement that does not fit. */
  lemma OnlyReplacingIsUnsafe(e: Editor, call: Call)
    requires MatchShown(e)
    ensures call.Safe(e) <==> !(call.ReplaceOne? && e.ReplacesHere() && !e.PasteFits())
  {
  }

  /** Over any run of safe calls the recorded match is a range of the text that is open. */
  lemma {:induction false} MatchShownInRuns(e: Editor, calls: seq<Call>)
    requires Runs(e, calls) && MatchShown(e)
    ensures MatchShown(ApplyAll(e, calls))
    decreases |calls|
  {
    hide MatchShown, Call.Safe;
    if calls != [] {
      MatchStaysShown(e, calls[0]);
      MatchShownInRuns(Apply(e, calls[0]), calls[1..]);
    }
  }

  // Without carriage returns

  predicate Plain(text: string) {
    '\r' !in text
  }

  predicate PlainDocument(d: Document) {
    d.Ready? ==> Plain(d.content.text)
  }

  /** No open text and no replacement has a carriage return. */
  predicate PlainEditor(e: Editor) {
    Plain(e.find.replacement) && forall d | d in e.Documents() :: PlainDocument(d)
  }

  /** The call brings none in. */
  predicate PlainCall(call: Call) {
    match call
    case Act(Paste(text)) => Plain(text)
    case Act(OtherEdit(content)) => Plain(content.text)
    case SetReplacement(replacement) => Plain(replacement)
    case LoadReply(_, _, Ok(LoadedText(text, _))) => Plain(text)
    case _ => true
  }

  lemma PlainPart(text: string, low: nat, high: nat)
    requires Plain(text) && low <= high <= |text|
    ensures Plain(text[low..high])
  {
  }

  lemma PlainPaste(content: Content, pasted: string)
    requires Plain(content.text) && Plain(pasted)
    ensures Plain(content.Paste(pasted).text)
  {
    hide Content.Selected, PositionOf;
    var (low, high) := content.Selected();
    PlainPart(content.text, 0, low);
    PlainPart(content.text, high, |content.text|);
    assert content.Paste(pasted).text == content.text[0..low] + pasted + content.text[high..|content.text|];
  }

  lemma {:induction false} PlainReplace(text: string, query: string, replacement: string)
    requires Plain(text) && Plain(replacement) && query != ""
    ensures Plain(Replace(text, query, replacement))
    decreases |text|
  {
    hide Find;
    match Find(text, query, 0)
    case None =>
    case Some(at) =>
      PlainPart(text, 0, at);
      PlainPart(text, at + |query|, |text|);
      PlainReplace(text[at + |query|..], query, replacement);
  }

  lemma PlainFits(e: Editor)
    requires PlainEditor(e) && e.ReplacesHere()
    ensures e.PasteFits()
  {
    var text := e.document.content.text;
    assert PlainDocument(e.document);
    NoReturnsBefore(text, e.find.found.value.0);
  }

  lemma NoReturnsBefore(text: string, offset: nat)
    requires Plain(text) && offset <= |text|
    ensures ReturnsBefore(text, offset) == 0
  {
  }

  lemma PlainCallIsSafe(e: Editor, call: Call)
    requires PlainEditor(e) && MatchShown(e)
    ensures call.Safe(e)
  {
    hide PlainEditor, Editor.PasteFits;
    OnlyReplacingIsUnsafe(e, call);
    if e.ReplacesHere() {
      PlainFits(e);
    }
  }

  /** What an editing call makes of the active text. */
  lemma PlainEdit(e: Editor, call: Call)
    requires PlainEditor(e) && PlainCall(call) && InPlace(call) && call.Safe(e)
    ensures PlainDocument(Apply(e, call).document)
  {
    hide Content.Paste;
    assert PlainDocument(e.document);
    if e.document.Ready? {
      match call {
        case Act(Paste(text)) => PlainPaste(e.document.content, text);
        case ReplaceOne => PlainReplaceOne(e);
        case ReplaceEvery =>
          if e.find.query != "" {
            PlainReplace(e.document.content.text, e.find.query, e.find.replacement);
          }
        case Search(backwards) => FindNextSameBuffer(e, backwards);
        case _ =>
      }
    } else {
      InPlaceEvolves(e, call);
    }
  }

  lemma PlainReplaceOne(e: Editor)
    requires PlainEditor(e) && ReplaceOne.Safe(e) && e.document.Ready?
    ensures PlainDocument(e.ReplaceCurrent().0.document)
  {
    hide Content.Paste;
    assert PlainDocument(e.document);
    if e.find.found.None? {
      FindNextSameBuffer(e, false);
    } else if !e.ReplacesHere() {
      FindNextSameBuffer(e.(find := e.find.(found := None)), false);
    } else {
      var (start, end) := e.find.found.value;
      PlainPaste(SelectRange(e.document.content, start, end), e.find.replacement);
      PasteEdits(e);
      e.PasteFitsIff();
      FindNextSameBuffer(e.PasteOverMatch(), false);
    }
  }

  lemma ReplacementAfter(e: Editor, call: Call)
    requires call.Safe(e)
    ensures Apply(e, call).find.replacement ==
      if call.SetReplacement? then call.replacement else e.find.replacement
  {
    if call.ReplaceOne? && e.ReplacesHere() {
      e.PasteFitsIff();
    }
  }

  lemma PlainStays(e: Editor, call: Call)
    requires PlainEditor(e) && PlainCall(call) && call.Safe(e)
    ensures PlainEditor(Apply(e, call))
  {
    ReplacementAfter(e, call);
    if InPlace(call) {
      PlainEdit(e, call);
      InPlaceEvolves(e, call);
      hide Apply, Call.Safe, Evolves;
    } else {
      forall d | d in Apply(e, call).Documents() ensures PlainDocument(d) {
        AfterCall(e, call, d);
        hide Apply, Call.Safe;
        PlainComesFrom(e, call, d);
      }
    }
  }

  lemma PlainComesFrom(e: Editor, call: Call, d: Document)
    requires PlainEditor(e) && PlainCall(call) && !InPlace(call) && ComesFrom(e, call, d)
    requires call.AskClose? ==> d in e.Documents() || d == Closed || SameBuffer(e.document, d)
    ensures PlainDocument(d)
  {
    assert PlainDocument(e.document);
  }

  /** When no text, no replacement and nothing typed, pasted or loaded has a carriage return, every call of
      every run is safe and the recorded match always lies in the text. */
  lemma {:induction false} WithoutReturnsEveryRunIsSafe(e: Editor, calls: seq<Call>)
    requires PlainEditor(e) && MatchShown(e) && forall i | 0 <= i < |calls| :: PlainCall(calls[i])
    ensures Runs(e, calls) && MatchShown(ApplyAll(e, calls))
    decreases |calls|
  {
    hide MatchShown, PlainEditor, PlainCall, Call.Safe;
    if calls != [] {
      PlainCallIsSafe(e, calls[0]);
      PlainStays(e, calls[0]);
      MatchStaysShown(e, calls[0]);
      WithoutReturnsEveryRunIsSafe(Apply(e, calls[0]), calls[1..]);
    }
  }
}
