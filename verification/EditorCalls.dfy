/** What each call on the editor does, told by its effect on the tabs, the buffer and the search bar. */
module EditorCalls {
  import opened Text
  import opened Positions
  import opened Editor

  predicate NoSearch(find: FindBar) {
    !find.visible && !find.replaceVisible && find.found.None? && find.status == Blank
  }

  /** The search bar goes; what was looked for is kept. */
  predicate Hides(before: FindBar, after: FindBar) {
    NoSearch(after) && after.query == before.query && after.replacement == before.replacement
  }

  // Tabs

  lemma SwapKeepsAll(e: Editor, index: nat)
    requires index < |e.inactive|
    ensures multiset([e.inactive[index]] + e.inactive[index := e.document]) == multiset([e.document] + e.inactive)
  {
    var (before, after) := ([e.document] + e.inactive, [e.inactive[index]] + e.inactive[index := e.document]);
    assert after == before[0 := before[index + 1]][index + 1 := before[0]];
  }

  /** Switching works exactly when the location is open; then its document is the active one, the one before is
      hidden in its place, and the same documents are open. */
  lemma ActivateSwitches(e: Editor, at: Location)
    ensures var (after, switched) := e.Activate(at);
      && (switched <==> exists d :: d in e.Documents() && d.Is(at))
      && (!switched || e.document.Is(at) ==> after == e)
      && (switched && !e.document.Is(at) ==>
            && after.document.Is(at) && after.document in e.inactive && e.document in after.inactive
            && multiset(after.Documents()) == multiset(e.Documents()) && Hides(e.find, after.find))
  {
    if !e.document.Is(at) && IndexOf(e.inactive, at).Some? {
      var index := IndexOf(e.inactive, at).value;
      SwapKeepsAll(e, index);
      assert e.inactive[index := e.document][index] == e.document;
      assert e.inactive[index] in e.Documents();
    } else if e.document.Is(at) {
      assert e.Documents()[0] == e.document;
    } else {
      assert forall d | d in e.Documents() :: d == e.document || d in e.inactive;
    }
  }

  /** Loading a location: it is the active one, under the new number; the document before stays, hidden, if there was
      one, and of the other hidden ones all but those of the location. */
  lemma LoadOpens(e: Editor, at: Location, op: OpId)
    ensures var after := e.BeginLoad(at, op);
      && after.document == Loading(at, op) && Hides(e.find, after.find)
      && forall d :: d in after.inactive <==> (d in e.inactive && !d.Is(at)) || (d == e.document && d != Closed)
  {
  }

  /** The document that a loaded location becomes. */
  predicate ShowsLoaded(d: Document, at: Location, result: Result<EditorLoad>) {
    match result
    case Ok(LoadedText(text, signature)) =>
      && d.Ready? && d.location == at && d.content.text == text && d.signature == signature && d.generation == 0
      && !d.dirty && d.saving.None? && !d.closeConfirmation && d.error.None?
    case Ok(LoadedBinary(size)) => d == Unavailable(at, Binary(size))
    case Ok(LoadedPreview(size, kind)) => d == Preview(at, size, kind)
    case Ok(LoadedTooLarge(limit)) => d == Unavailable(at, TooLarge(limit / 0x10_0000))
    case Err(message) => d == Unavailable(at, Failed(message))
  }

  /** A load's reply is taken exactly when the document found at the location waits for that load; then that document,
      and no other, becomes what was loaded. */
  lemma LoadReplyShows(e: Editor, at: Location, op: OpId, result: Result<EditorLoad>)
    ensures var (after, accepted) := e.AcceptLoad(at, op, result);
      && (accepted <==> e.Lookup(at).Some? && e.Get(e.Lookup(at).value) == Loading(at, op))
      && (!accepted ==> after == e)
      && (accepted ==>
            var slot := e.Lookup(at).value;
            && after.Has(slot) && ShowsLoaded(after.Get(slot), at, result) && after.find == e.find
            && |after.inactive| == |e.inactive| && (slot != Active ==> after.document == e.document)
            && forall i | 0 <= i < |e.inactive| && slot != Inactive(i) :: after.inactive[i] == e.inactive[i])
  {
  }

  /** A location is found at the active document first, then at the first hidden one. */
  lemma LookupFinds(e: Editor, at: Location)
    ensures e.Lookup(at) == Some(Active) <==> e.document.Is(at)
    ensures forall i: nat :: e.Lookup(at) == Some(Inactive(i)) <==>
      !e.document.Is(at) && i < |e.inactive| && e.inactive[i].Is(at) && forall j | 0 <= j < i :: !e.inactive[j].Is(at)
  {
    forall i: nat
      ensures IndexOf(e.inactive, at) == Some(i) <==>
        i < |e.inactive| && e.inactive[i].Is(at) && forall j | 0 <= j < i :: !e.inactive[j].Is(at)
    {
      IndexOfIsFirst(e.inactive, at, i);
    }
  }

  lemma {:induction false} IndexOfIsFirst(documents: seq<Document>, at: Location, i: nat)
    ensures IndexOf(documents, at) == Some(i) <==>
      i < |documents| && documents[i].Is(at) && forall j | 0 <= j < i :: !documents[j].Is(at)
  {
    if documents != [] && !documents[0].Is(at) && i > 0 {
      IndexOfIsFirst(documents[1..], at, i - 1);
      assert forall j | 0 < j < |documents| :: documents[j] == documents[1..][j - 1];
    }
  }

  /** Closing the active document shows the hidden one that was hidden last, if there is one. */
  lemma CloseShowsLast(e: Editor)
    ensures var after := e.CloseActive();
      && Hides(e.find, after.find)
      && (e.inactive == [] ==> after.document == Closed && after.inactive == [])
      && (e.inactive != [] ==> after.inactive + [after.document] == e.inactive)
    ensures e.CloseAll().document == Closed && e.CloseAll().inactive == [] && Hides(e.find, e.CloseAll().find)
  {
  }

  /** Asking to close an unsaved buffer closes nothing and asks back; anything else is closed. */
  lemma ClosingAsks(e: Editor)
    ensures var (after, closed) := e.RequestClose();
      && (closed <==> !(e.document.Ready? && e.document.dirty))
      && (closed ==> after == e.CloseActive())
      && (!closed ==> after == e.(document := e.document.(closeConfirmation := true)))
    ensures e.document.Ready? ==> e.CancelClose() == e.(document := e.document.(closeConfirmation := false))
    ensures !e.document.Ready? ==> e.CancelClose() == e
  {
  }

  /** Closing a worktree leaves exactly the documents of the others. */
  lemma WorktreeCloses(e: Editor, worktree: string)
    ensures var after := e.CloseWorktree(worktree);
      && (forall d :: d != Closed ==>
            (d in after.Documents() <==> d in e.Documents() && d.location.worktree != worktree))
      && (!e.document.InWorktree(worktree) ==> after.document == e.document && after.find == e.find)
  {
    var kept := Retain(e.inactive, (x: Document) => !x.InWorktree(worktree));
    forall d: Document | d != Closed
      ensures d in e.CloseWorktree(worktree).Documents() <==> d in e.Documents() && d.location.worktree != worktree
    {
      InDocuments(e, d);
      InDocuments(e.CloseWorktree(worktree), d);
      assert d in kept <==> d in e.inactive && d.location.worktree != worktree;
      if kept != [] {
        InLastAndRest(kept, d);
      }
    }
  }

  lemma InDocuments(e: Editor, d: Document)
    ensures d in e.Documents() <==> d == e.document || d in e.inactive
  {
  }

  lemma InLastAndRest(documents: seq<Document>, d: Document)
    requires documents != []
    ensures d in documents <==> d == documents[|documents| - 1] || d in documents[..|documents| - 1]
  {
  }

  // The buffer

  /** Moving the caret changes nothing but the caret; an edit makes the buffer unsaved, counts up, forgets the match,
      the confirmation and the error. Without a text nothing happens. */
  lemma ActingEdits(e: Editor, action: Action)
    ensures var after := e.Perform(action);
      && (!e.document.Ready? ==> after == e)
      && (e.document.Ready? && action.Move? ==>
            after == e.(document := e.document.(content := e.document.content.MoveTo(action.cursor))))
      && (e.document.Ready? && !action.Move? ==>
            var (d, done) := (e.document, after.document);
            && after.inactive == e.inactive && after.find == e.find.(found := None)
            && done.Ready? && done.location == d.location && done.signature == d.signature && done.saving == d.saving
            && (action.Paste? ==> done.content == d.content.Paste(action.text))
            && (action.OtherEdit? ==> done.content == action.content)
            && done.dirty && !done.closeConfirmation && done.error.None?
            && done.generation == if d.generation == 0xFFFF_FFFF_FFFF_FFFF then d.generation else d.generation + 1)
  {
  }

  /** Replacing all matches is one edit, counted; without a query, a text or a match it only says so. */
  lemma ReplacingAllEdits(e: Editor)
    ensures var (after, count) := e.ReplaceAll();
      && (e.find.query == "" || !e.document.Ready? ==> count == 0 && after.document == e.document)
      && (e.find.query != "" && e.document.Ready? ==> count == Count(e.document.content.text, e.find.query))
      && after.inactive == e.inactive && after.find.query == e.find.query
      && (count == 0 ==> after.document == e.document)
      && (count > 0 ==>
            var (d, done) := (e.document, after.document);
            && d.Ready? && done.Ready? && done.location == d.location && done.signature == d.signature
            && done.content.text == Replace(d.content.text, e.find.query, e.find.replacement)
            && done.saving == d.saving && done.dirty && done.error.None? && !done.closeConfirmation
            && done.generation == (if d.generation == 0xFFFF_FFFF_FFFF_FFFF then d.generation else d.generation + 1)
            && after.find.found.None? && after.find.status == Replaced(count))
  {
    hide Count, Replace, PositionOf;
  }

  // The search bar

  lemma BarChanges(e: Editor, replace: bool, text: string)
    ensures e.OpenFind(replace)
         == if e.document.Ready? then e.(find := e.find.(visible := true, replaceVisible := replace, status := Blank))
            else e
    ensures e.SetFindQuery(text) == e.(find := e.find.(query := text, found := None, status := Blank))
    ensures e.SetReplacement(text) == e.(find := e.find.(replacement := text))
    ensures e.HideFind().document == e.document && e.HideFind().inactive == e.inactive
        && Hides(e.find, e.HideFind().find)
  {
  }
}
