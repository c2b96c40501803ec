/** What the editor's operations do to the set of open documents. */
module EditorTabs {
  import opened Text
  import opened Positions
  import opened Editor

  /** One call on the editor, with its arguments. */
  datatype Call =
    | Act(action: Action)
    | Search(backwards: bool)
    | ReplaceOne
    | ReplaceEvery
    | OpenBar(replace: bool)
    | CloseBar
    | SetQuery(query: string)
    | SetReplacement(replacement: string)
    | SwitchTo(at: Location)
    | AskClose
    | KeepOpen
    | Discard
    | CloseEverything
    | CloseTree(worktree: string)
    | Load(at: Location, op: OpId)
    | LoadReply(at: Location, op: OpId, loaded: Result<EditorLoad>)
    | Save(op: OpId)
    | SaveReply(at: Location, op: OpId, saved: Result<WriteOutcome>)
  {
    /** The slices that the call takes of the text are inside it: for a replacement, the range recorded after
        pasting is. */
    predicate Safe(e: Editor) {
      && (Search? ==> e.SliceInRange(backwards))
      && (ReplaceOne? ==> (e.ReplacesHere() ==> e.PasteFits()))
    }

    predicate Edits() {
      (Act? && action.IsEdit()) || ReplaceOne? || ReplaceEvery?
    }
  }

  function Apply(e: Editor, call: Call): Editor
    requires call.Safe(e)
  {
    match call
    case Act(action) => e.Perform(action)
    case Search(backwards) => e.FindNext(backwards).0
    case ReplaceOne => e.ReplaceCurrent().0
    case ReplaceEvery => e.ReplaceAll().0
    case OpenBar(replace) => e.OpenFind(replace)
    case CloseBar => e.HideFind()
    case SetQuery(query) => e.SetFindQuery(query)
    case SetReplacement(replacement) => e.SetReplacement(replacement)
    case SwitchTo(at) => e.Activate(at).0
    case AskClose => e.RequestClose().0
    case KeepOpen => e.CancelClose()
    case Discard => e.CloseActive()
    case CloseEverything => e.CloseAll()
    case CloseTree(worktree) => e.CloseWorktree(worktree)
    case Load(at, op) => e.BeginLoad(at, op)
    case LoadReply(at, op, loaded) => e.AcceptLoad(at, op, loaded).0
    case Save(op) => e.BeginSave(op).0
    case SaveReply(at, op, saved) => e.AcceptSave(at, op, saved).0
  }

  /** The same buffer, up to its caret, its close confirmation and its error message. */
  predicate SameBuffer(before: Document, after: Document)
    requires before.Ready?
  {
    && after.Ready? && after.location == before.location
    && after.signature == before.signature && after.saving == before.saving
    && after.content.text == before.content.text && after.generation == before.generation
    && after.dirty == before.dirty
  }

  /** How a call that is neither a load, a save nor a reply may change a Ready document in place. */
  predicate Evolves(before: Document, after: Document)
    requires before.Ready?
  {
    SameBuffer(before, after) || (after.Ready? && after == before.Edited(after.content))
  }

  predicate InPlace(call: Call) {
    call.Act? || call.Search? || call.ReplaceOne? || call.ReplaceEvery? || call.KeepOpen?
  }

  lemma FindNextSameBuffer(e: Editor, backwards: bool)
    requires e.SliceInRange(backwards) && e.document.Ready?
    ensures SameBuffer(e.document, e.FindNext(backwards).0.document)
    ensures e.FindNext(backwards).0.document == e.document.(content := e.FindNext(backwards).0.document.content)
    ensures e.FindNext(backwards).0.inactive == e.inactive
  {
  }

  lemma PasteEdits(e: Editor)
    requires e.ReplacesHere()
    ensures var d := e.PasteOverMatch().document; d.Ready? && d == e.document.Edited(d.content)
    ensures e.PasteOverMatch().inactive == e.inactive
  {
  }

  lemma ReplaceOneEvolves(e: Editor)
    requires ReplaceOne.Safe(e) && e.document.Ready?
    ensures Evolves(e.document, e.ReplaceCurrent().0.document)
    ensures e.ReplaceCurrent().0.inactive == e.inactive
  {
    if e.find.found.None? {
      FindNextSameBuffer(e, false);
    } else if !e.ReplacesHere() {
      FindNextSameBuffer(e.(find := e.find.(found := None)), false);
    } else {
      PasteEdits(e);
      e.PasteFitsIff();
      FindNextSameBuffer(e.PasteOverMatch(), false);
    }
  }

  /** These calls leave the inactive documents alone, and change the active one only by `Evolves`;
      without an edit the buffer stays the same. */
  lemma InPlaceEvolves(e: Editor, call: Call)
    requires InPlace(call) && call.Safe(e)
    ensures Apply(e, call).inactive == e.inactive
    ensures if e.document.Ready? then Evolves(e.document, Apply(e, call).document)
            else Apply(e, call).document == e.document
    ensures e.document.Ready? && !call.Edits() ==> SameBuffer(e.document, Apply(e, call).document)
  {
    if e.document.Ready? {
      match call {
        case ReplaceOne => ReplaceOneEvolves(e);
        case Search(backwards) => FindNextSameBuffer(e, backwards);
        case _ =>
      }
    }
  }

  /** A match is only ever shown for a text that is open, and lies inside it. */
  predicate MatchShown(e: Editor) {
    e.find.found.Some? ==> e.document.Ready? && e.MatchInRange()
  }

  lemma MatchStaysShown(e: Editor, call: Call)
    requires call.Safe(e) && MatchShown(e)
    ensures MatchShown(Apply(e, call))
  {
    match call {
      case ReplaceOne =>
        if e.ReplacesHere() {
          e.PasteFitsIff();
          hide Editor.PasteOverMatch, Editor.PasteFits;
        }
      case _ =>
    }
  }

  // Where the documents after a call come from

  predicate Waits(d: Document, at: Location, op: OpId) {
    d.Is(at) && d.Ready? && d.saving.Some? && d.saving.value.op == op
  }

  function AfterReply(d: Document, saved: Result<WriteOutcome>): Document
    requires d.Ready? && d.saving.Some?
  {
    d.Saved(d.saving.value.generation, saved)
  }

  function SaveStarted(d: Document, op: OpId): Document
    requires d.Ready?
  {
    d.(saving := Some(Saving(op, d.generation)), closeConfirmation := false, error := None)
  }

  /** The document `d` after `call` is either an old one, or what the call makes of an old one. */
  ghost predicate ComesFrom(e: Editor, call: Call, d: Document) {
    || d == Closed
    || d in e.Documents()
    || ((InPlace(call) || call.AskClose?) && e.document.Ready? && Evolves(e.document, d))
    || (call.Load? && d == Loading(call.at, call.op))
    || (call.LoadReply? && Loading(call.at, call.op) in e.Documents() && d == Loaded(call.at, call.loaded))
    || (call.Save? && e.document.Unsaved() && e.document.saving.None? && d == SaveStarted(e.document, call.op))
    || (call.SaveReply? && exists was :: was in e.Documents() && Waits(was, call.at, call.op)
                                         && d == AfterReply(was, call.saved))
  }

  lemma UpdateMembers(documents: seq<Document>, i: nat, replacement: Document, d: Document)
    requires i < |documents| && d in documents[i := replacement]
    ensures d == replacement || d in documents
  {
  }

  lemma PutMembers(e: Editor, slot: Slot, replacement: Document, d: Document)
    requires e.Has(slot) && d in e.Put(slot, replacement).Documents()
    ensures d == replacement || d in e.Documents()
    ensures e.Get(slot) in e.Documents()
  {
    if slot.Inactive? {
      assert e.inactive[slot.index] in e.inactive;
      if d in e.inactive[slot.index := replacement] {
        UpdateMembers(e.inactive, slot.index, replacement, d);
      }
    }
  }

  lemma CloseActiveMembers(e: Editor, d: Document)
    ensures d in e.CloseActive().Documents() ==> d == Closed || d in e.inactive
    ensures d in e.inactive ==> d in e.CloseActive().Documents()
  {
    if e.inactive != [] {
      var last := e.inactive[|e.inactive| - 1];
      assert e.inactive == e.inactive[..|e.inactive| - 1] + [last];
    }
  }

  lemma AfterCall(e: Editor, call: Call, d: Document)
    requires call.Safe(e) && d in Apply(e, call).Documents()
    ensures ComesFrom(e, call, d)
  {
    match call {
      case Act(_) => InPlaceEvolves(e, call);
      case Search(_) => InPlaceEvolves(e, call);
      case ReplaceOne => InPlaceEvolves(e, call);
      case ReplaceEvery => InPlaceEvolves(e, call);
      case KeepOpen => InPlaceEvolves(e, call);
      case SwitchTo(at) =>
        var index := IndexOf(e.inactive, at);
        if !e.document.Is(at) && index.Some? && d in e.inactive[index.value := e.document] {
          UpdateMembers(e.inactive, index.value, e.document, d);
        }
      case AskClose => CloseActiveMembers(e, d);
      case Discard => CloseActiveMembers(e, d);
      case CloseTree(worktree) =>
        CloseActiveMembers(e.(inactive := Retain(e.inactive, (x: Document) => !x.InWorktree(worktree))), d);
      case LoadReply(at, op, loaded) =>
        var slot := e.Lookup(at);
        if slot.Some? && e.Get(slot.value) == Loading(at, op) {
          PutMembers(e, slot.value, Loaded(at, loaded), d);
        }
      case SaveReply(at, op, saved) =>
        var slot := e.Lookup(at);
        if slot.Some? && Waits(e.Get(slot.value), at, op) {
          PutMembers(e, slot.value, AfterReply(e.Get(slot.value), saved), d);
        }
      case _ =>
    }
  }

  // Unsaved buffers are not lost

  /** Calls that may drop a document of this location. */
  predicate MayDrop(e: Editor, call: Call, at: Location) {
    || call.CloseEverything?
    || (call.Discard? && e.document.Is(at))
    || (call.CloseTree? && call.worktree == at.worktree)
    || (call.Load? && call.at == at)
  }

  /** `after` still holds the buffer of `d`: the same one, or edited by this very call, or saved. */
  predicate Holds(e: Editor, call: Call, d: Document, after: Document)
    requires d.Ready?
  {
    || SameBuffer(d, after)
    || (call.Edits() && d == e.document && after.Ready? && after == d.Edited(after.content))
    || (call.Save? && d == e.document && after == SaveStarted(d, call.op))
    || (call.SaveReply? && Waits(d, call.at, call.op) && after == AfterReply(d, call.saved))
  }

  lemma PutKeeps(e: Editor, slot: Slot, replacement: Document, d: Document)
    requires e.Has(slot) && d in e.Documents()
    ensures d in e.Put(slot, replacement).Documents() || d == e.Get(slot)
    ensures replacement in e.Put(slot, replacement).Documents()
  {
    if slot.Inactive? {
      var updated := e.inactive[slot.index := replacement];
      assert updated[slot.index] == replacement;
      if d in e.inactive && d != e.inactive[slot.index] {
        var i :| 0 <= i < |e.inactive| && e.inactive[i] == d;
        assert updated[i] == d;
      }
    }
  }

  lemma SwitchKeeps(e: Editor, at: Location, d: Document)
    requires d in e.Documents()
    ensures d in e.Activate(at).0.Documents()
  {
    var index := IndexOf(e.inactive, at);
    if !e.document.Is(at) && index.Some? {
      var swapped := e.inactive[index.value := e.document];
      assert swapped[index.value] == e.document;
      if d in e.inactive && d != e.inactive[index.value] {
        var i :| 0 <= i < |e.inactive| && e.inactive[i] == d;
        assert swapped[i] == d;
      }
    }
  }

  /** Opening, switching, searching, editing, loading, saving, replies and asking to close never lose
      an unsaved buffer: `after` is where it is now. */
  lemma UnsavedKept(e: Editor, call: Call, d: Document) returns (after: Document)
    requires call.Safe(e) && d in e.Documents() && d.Unsaved() && !MayDrop(e, call, d.location)
    ensures after in Apply(e, call).Documents() && Holds(e, call, d, after)
  {
    after := d;
    match call {
      case SwitchTo(at) => SwitchKeeps(e, at, d);
      case AskClose =>
        if e.document.Unsaved() && d == e.document {
          after := Apply(e, call).document;
        } else {
          CloseActiveMembers(e, d);
        }
      case Discard => CloseActiveMembers(e, d);
      case CloseTree(worktree) =>
        CloseActiveMembers(e.(inactive := Retain(e.inactive, (x: Document) => !x.InWorktree(worktree))), d);
      case LoadReply(at, op, loaded) =>
        var slot := e.Lookup(at);
        if slot.Some? && e.Get(slot.value) == Loading(at, op) {
          PutKeeps(e, slot.value, Loaded(at, loaded), d);
        }
      case Save(op) =>
        if d == e.document {
          after := Apply(e, call).document;
        }
      case SaveReply(at, op, saved) =>
        var slot := e.Lookup(at);
        if slot.Some? && Waits(e.Get(slot.value), at, op) {
          PutKeeps(e, slot.value, AfterReply(e.Get(slot.value), saved), d);
          if d == e.Get(slot.value) {
            after := AfterReply(d, saved);
          }
        }
      case Load(_, _) =>
      case OpenBar(_) =>
      case CloseBar =>
      case SetQuery(_) =>
      case SetReplacement(_) =>
      case CloseEverything =>
      case _ =>
        InPlaceEvolves(e, call);
        if d == e.document {
          after := Apply(e, call).document;
        }
    }
  }

  ghost predicate HasUnsaved(e: Editor, at: Location) {
    exists d: Document :: d in e.Documents() && d.Unsaved() && d.location == at
  }

  /** A run of calls that the search allows, from `e`. */
  predicate Runs(e: Editor, calls: seq<Call>)
    decreases |calls|
  {
    calls == [] || (calls[0].Safe(e) && Runs(Apply(e, calls[0]), calls[1..]))
  }

  function ApplyAll(e: Editor, calls: seq<Call>): Editor
    requires Runs(e, calls)
    decreases |calls|
  {
    if calls == [] then e else ApplyAll(Apply(e, calls[0]), calls[1..])
  }

  /** None of the calls drops a document at `at`, and no save of it is reported as written. */
  predicate NeverDrops(e: Editor, calls: seq<Call>, at: Location)
    requires Runs(e, calls)
    decreases |calls|
  {
    calls == []
    || (&& !MayDrop(e, calls[0], at)
        && !(calls[0].SaveReply? && calls[0].at == at && calls[0].saved.Ok? && calls[0].saved.value.Written?)
        && NeverDrops(Apply(e, calls[0]), calls[1..], at))
  }

  /** Over any run of calls, an unsaved buffer stays open and unsaved until it is discarded, its
      worktree closed, its location loaded anew, or a save of it reported as written. */
  lemma {:induction false} UnsavedStays(e: Editor, calls: seq<Call>, at: Location)
    requires Runs(e, calls) && NeverDrops(e, calls, at) && HasUnsaved(e, at)
    ensures HasUnsaved(ApplyAll(e, calls), at)
    decreases |calls|
  {
    if calls != [] {
      var d: Document :| d in e.Documents() && d.Unsaved() && d.location == at;
      var after := UnsavedKept(e, calls[0], d);
      assert after.Unsaved() && after.location == at;
      UnsavedStays(Apply(e, calls[0]), calls[1..], at);
    }
  }

  // How many documents are open at a location

  function CountAt(documents: seq<Document>, at: Location): nat {
    if documents == [] then 0
    else (if documents[0].Is(at) then 1 else 0) + CountAt(documents[1..], at)
  }

  lemma {:induction false} CountAtConcat(a: seq<Document>, b: seq<Document>, at: Location)
    ensures CountAt(a + b, at) == CountAt(a, at) + CountAt(b, at)
  {
    if a == [] {
      assert a + b == b;
    } else {
      assert (a + b)[1..] == a[1..] + b;
      CountAtConcat(a[1..], b, at);
    }
  }

  lemma CountAtUpdate(documents: seq<Document>, i: nat, d: Document, at: Location)
    requires i < |documents|
    ensures CountAt(documents[i := d], at)
         == CountAt(documents, at) - (if documents[i].Is(at) then 1 else 0) + (if d.Is(at) then 1 else 0)
  {
    assert documents == documents[..i] + ([documents[i]] + documents[i + 1..]);
    assert documents[i := d] == documents[..i] + ([d] + documents[i + 1..]);
    CountAtConcat(documents[..i], [documents[i]] + documents[i + 1..], at);
    CountAtConcat(documents[..i], [d] + documents[i + 1..], at);
  }

  lemma {:induction false} CountAtRetain(documents: seq<Document>, keep: Document -> bool, at: Location, kept: bool)
    requires forall d: Document :: d in documents && d.Is(at) ==> keep(d) == kept
    ensures CountAt(Retain(documents, keep), at) == if kept then CountAt(documents, at) else 0
  {
    if documents != [] {
      CountAtRetain(documents[1..], keep, at, kept);
      CountAtConcat(if keep(documents[0]) then [documents[0]] else [], Retain(documents[1..], keep), at);
    }
  }

  function One(yes: bool): nat {
    if yes then 1 else 0
  }

  lemma PutCount(e: Editor, slot: Slot, replacement: Document, at: Location)
    requires e.Has(slot) && !e.Get(slot).Closed? && replacement.Is(e.Get(slot).location)
    ensures CountAt(e.Put(slot, replacement).Documents(), at) == CountAt(e.Documents(), at)
  {
    CountAtConcat([e.document], e.inactive, at);
    CountAtConcat([replacement], e.inactive, at);
    if slot.Inactive? {
      CountAtUpdate(e.inactive, slot.index, replacement, at);
      CountAtConcat([e.document], e.inactive[slot.index := replacement], at);
    }
  }

  lemma CloseActiveCount(e: Editor, at: Location)
    ensures CountAt(e.CloseActive().Documents(), at) == CountAt(e.inactive, at)
  {
    if e.inactive != [] {
      var rest, last := e.inactive[..|e.inactive| - 1], e.inactive[|e.inactive| - 1];
      assert e.inactive == rest + [last];
      CountAtConcat(rest, [last], at);
      CountAtConcat([last], rest, at);
    }
  }

  lemma SwitchCount(e: Editor, to: Location, at: Location)
    ensures CountAt(e.Activate(to).0.Documents(), at) == CountAt(e.Documents(), at)
  {
    var index := IndexOf(e.inactive, to);
    if !e.document.Is(to) && index.Some? {
      CountAtUpdate(e.inactive, index.value, e.document, at);
    }
  }

  lemma LoadCount(e: Editor, to: Location, op: OpId, at: Location)
    ensures CountAt(e.BeginLoad(to, op).Documents(), at)
         == if at == to then 1 + One(e.document.Is(to)) else CountAt(e.Documents(), at)
  {
    CountAtRetain(e.inactive, (d: Document) => !d.Is(to), at, at != to);
    CountAtConcat(Retain(e.inactive, (d: Document) => !d.Is(to)), [e.document], at);
  }

  lemma CloseTreeCount(e: Editor, worktree: string, at: Location)
    ensures CountAt(e.CloseWorktree(worktree).Documents(), at)
         == if at.worktree == worktree then 0 else CountAt(e.Documents(), at)
  {
    var keep := (d: Document) => !d.InWorktree(worktree);
    CountAtRetain(e.inactive, keep, at, at.worktree != worktree);
    CloseActiveCount(e.(inactive := Retain(e.inactive, keep)), at);
  }

  /** How many documents are open at `at` after a call. */
  function ExpectedCount(e: Editor, call: Call, at: Location): nat
    requires call.Safe(e)
  {
    match call
    case CloseEverything => 0
    case CloseTree(worktree) => if at.worktree == worktree then 0 else CountAt(e.Documents(), at)
    case Discard => CountAt(e.inactive, at)
    case AskClose => if e.document.Unsaved() then CountAt(e.Documents(), at) else CountAt(e.inactive, at)
    case Load(to, _) => if at == to then 1 + One(e.document.Is(to)) else CountAt(e.Documents(), at)
    case _ => CountAt(e.Documents(), at)
  }

  lemma CountAfter(e: Editor, call: Call, at: Location)
    requires call.Safe(e)
    ensures CountAt(Apply(e, call).Documents(), at) == ExpectedCount(e, call, at)
  {
    match call {
      case SwitchTo(to) => SwitchCount(e, to, at);
      case AskClose => CloseActiveCount(e, at);
      case Discard => CloseActiveCount(e, at);
      case CloseTree(worktree) => CloseTreeCount(e, worktree, at);
      case Load(to, op) => LoadCount(e, to, op, at);
      case LoadReply(to, op, loaded) =>
        var slot := e.Lookup(to);
        if slot.Some? && e.Get(slot.value) == Loading(to, op) {
          PutCount(e, slot.value, Loaded(to, loaded), at);
        }
      case SaveReply(to, op, saved) =>
        var slot := e.Lookup(to);
        if slot.Some? && Waits(e.Get(slot.value), to, op) {
          PutCount(e, slot.value, AfterReply(e.Get(slot.value), saved), at);
        }
      case CloseEverything =>
      case OpenBar(_) =>
      case CloseBar =>
      case SetQuery(_) =>
      case SetReplacement(_) =>
      case Save(_) =>
      case _ => InPlaceEvolves(e, call);
    }
  }

  /** At most one document is open per location. */
  ghost predicate Distinct(e: Editor) {
    forall at :: CountAt(e.Documents(), at) <= 1
  }

  /** Every call keeps open locations distinct, except loading the active document's own location,
      which always leaves the document it replaces behind as a duplicate. */
  lemma StaysDistinctIff(e: Editor, call: Call)
    requires call.Safe(e) && Distinct(e)
    ensures Distinct(Apply(e, call)) <==> !(call.Load? && e.document.Is(call.at))
  {
    forall at
      ensures CountAt(Apply(e, call).Documents(), at) == ExpectedCount(e, call, at)
      ensures CountAt(e.inactive, at) <= CountAt(e.Documents(), at) <= 1
    {
      CountAfter(e, call, at);
      CountAtConcat([e.document], e.inactive, at);
    }
    if call.Load? {
      assert CountAt(Apply(e, call).Documents(), call.at) == 1 + One(e.document.Is(call.at));
    }
  }

  /** No call of the run loads the location of the document that is active by then. */
  predicate NeverReloadsActive(e: Editor, calls: seq<Call>)
    requires Runs(e, calls)
    decreases |calls|
  {
    calls == []
    || (!(calls[0].Load? && e.document.Is(calls[0].at)) && NeverReloadsActive(Apply(e, calls[0]), calls[1..]))
  }

  /** At most one document is open per location after the whole run and after each part of it. */
  ghost predicate AlwaysDistinct(e: Editor, calls: seq<Call>)
    requires Runs(e, calls)
    decreases |calls|
  {
    Distinct(e) && (calls == [] || AlwaysDistinct(Apply(e, calls[0]), calls[1..]))
  }

  /** Over any run: open locations are distinct all the way exactly when no call of it loads the active
      document's own location. */
  lemma {:induction false} RunsStayDistinctIff(e: Editor, calls: seq<Call>)
    requires Runs(e, calls) && Distinct(e)
    ensures AlwaysDistinct(e, calls) <==> NeverReloadsActive(e, calls)
    decreases |calls|
  {
    hide Distinct;
    if calls != [] {
      StaysDistinctIff(e, calls[0]);
      if Distinct(Apply(e, calls[0])) {
        RunsStayDistinctIff(Apply(e, calls[0]), calls[1..]);
      } else {
        DistinctNow(Apply(e, calls[0]), calls[1..]);
      }
    }
  }

  lemma DistinctNow(e: Editor, calls: seq<Call>)
    requires Runs(e, calls) && !Distinct(e)
    ensures !AlwaysDistinct(e, calls)
  {
  }
}
