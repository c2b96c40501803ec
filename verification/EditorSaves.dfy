/** A save from its beginning to its reply: what is clean afterwards. */
module EditorSaves {
  import opened Text
  import opened Positions
  import opened Editor

  // The reply

  /** Exactly one document differs, the one in `slot`. */
  predicate OnlyAt(e: Editor, after: Editor, slot: Slot) {
    && e.Has(slot) && after.find == e.find && |after.inactive| == |e.inactive|
    && (slot != Active ==> after.document == e.document)
    && forall i | 0 <= i < |e.inactive| && slot != Inactive(i) :: after.inactive[i] == e.inactive[i]
  }

  predicate WaitsIn(e: Editor, slot: Slot, at: Location, op: OpId) {
    && e.Lookup(at) == Some(slot) && e.Get(slot).Ready?
    && e.Get(slot).saving.Some? && e.Get(slot).saving.value.op == op
  }

  /** A document that waits for the reply takes it, active or hidden, and no other document changes. Its text and
      generation stay, and it waits no more. Written, it carries the new signature, and it is clean exactly when its
      generation is the saved one; on a conflict or an error it is unsaved, keeps its signature, and says so. */
  lemma ReplyTaken(e: Editor, slot: Slot, at: Location, op: OpId, result: Result<WriteOutcome>)
    requires WaitsIn(e, slot, at, op)
    ensures var (after, accepted) := e.AcceptSave(at, op, result);
      && accepted && OnlyAt(e, after, slot) && after.Get(slot).Ready?
      && var (d, done) := (e.Get(slot), after.Get(slot));
        && done.location == d.location == at && done.content == d.content && done.generation == d.generation
        && done.saving.None?
        && match result
           case Ok(Written(signature)) =>
             && done.signature == signature && (done.dirty <==> d.generation != d.saving.value.generation)
             && !done.closeConfirmation && done.error.None?
           case Ok(StaleConflict) =>
             && done.dirty && done.signature == d.signature && done.closeConfirmation == d.closeConfirmation
             && done.error == Some("The file changed on disk. Reload it before saving again.")
           case Err(message) =>
             && done.dirty && done.signature == d.signature && done.closeConfirmation == d.closeConfirmation
             && done.error == Some(message)
  {
  }

  /** Any other reply changes nothing. */
  lemma ReplyLeft(e: Editor, at: Location, op: OpId, result: Result<WriteOutcome>)
    requires e.Lookup(at).Some? ==> !WaitsIn(e, e.Lookup(at).value, at, op)
    ensures e.AcceptSave(at, op, result) == (e, false)
  {
  }

  // From the beginning of the save

  function ActAll(e: Editor, actions: seq<Action>): Editor
    decreases |actions|
  {
    if actions == [] then e else ActAll(e.Perform(actions[0]), actions[1..])
  }

  function ContentAfter(content: Content, actions: seq<Action>): Content
    decreases |actions|
  {
    if actions == [] then content else ContentAfter(actions[0].Perform(content), actions[1..])
  }

  /** Something is typed or pasted; moving the caret is not. */
  predicate AnyEdit(actions: seq<Action>) {
    exists i :: 0 <= i < |actions| && actions[i].IsEdit()
  }

  /** Whatever is done to the text, the document goes on waiting; the generation differs from before exactly when
      something was edited and the counter was not saturated. */
  lemma {:induction false} ActingMeanwhile(e: Editor, actions: seq<Action>)
    requires e.document.Ready?
    ensures var (d, acted) := (e.document, ActAll(e, actions).document);
      && ActAll(e, actions).inactive == e.inactive
      && acted.Ready? && acted.location == d.location && acted.signature == d.signature && acted.saving == d.saving
      && acted.content == ContentAfter(d.content, actions)
      && acted.generation >= d.generation
      && (acted.generation == d.generation <==> !AnyEdit(actions) || d.generation == U64_MAX)
    decreases |actions|
  {
    if actions != [] {
      ActingMeanwhile(e.Perform(actions[0]), actions[1..]);
      assert AnyEdit(actions) <==> actions[0].IsEdit() || AnyEdit(actions[1..]) by {
        assert forall i | 0 < i < |actions| :: actions[i] == actions[1..][i - 1];
        assert forall i | 0 <= i < |actions| - 1 :: actions[1..][i] == actions[i + 1];
      }
    }
  }

  /** The save takes the text, the signature and the generation of its moment, one at a time. */
  lemma SaveBegins(e: Editor, op: OpId)
    ensures var (after, save) := e.BeginSave(op);
      && (save.Some? <==> e.document.Ready? && e.document.dirty && e.document.saving.None?)
      && (save.None? ==> after == e)
      && (save.Some? ==>
            && OnlyAt(e, after, Active) && after.document.Ready?
            && save.value.location == after.document.location == e.document.location
            && save.value.text == after.document.content.text && after.document.content == e.document.content
            && save.value.expected == after.document.signature == e.document.signature
            && save.value.op == op && after.document.saving == Some(Saving(op, e.document.generation))
            && after.document.generation == e.document.generation && after.document.dirty)
  {
  }

  /** `at` is switched to while the save is in flight. */
  function Switched(e: Editor, at: Option<Location>): Editor {
    if at.Some? then e.Activate(at.value).0 else e
  }

  /** Switching to another tab puts the document, as it is, in a hidden slot, and it is found there. */
  lemma SwitchedFinds(e: Editor, to: Option<Location>)
    requires e.document.Ready? && forall d | d in e.inactive :: !d.Is(e.document.location)
    ensures var found := Switched(e, to).Lookup(e.document.location);
      found.Some? && Switched(e, to).Get(found.value) == e.document
  {
    var at := e.document.location;
    var after := Switched(e, to);
    if after != e {
      var index := IndexOf(e.inactive, to.value).value;
      assert after.inactive[index] == e.document && after.inactive[index] in after.inactive;
      assert IndexOf(after.inactive, at).Some?;
    }
  }

  /** A save begins, anything is done to the text meanwhile, another tab may be switched to, and the reply says
      that the text was written: the buffer carries the written signature and the text as it is by then, and it
      is unsaved exactly when something was edited meanwhile and the counter was not saturated when it began. */
  lemma WrittenIsCleanIff(e: Editor, op: OpId, actions: seq<Action>, to: Option<Location>, signature: Signature)
    requires e.document.Unsaved() && e.document.saving.None?
    requires forall d | d in e.inactive :: !d.Is(e.document.location)
    ensures var at := e.document.location;
      var meanwhile := Switched(ActAll(e.BeginSave(op).0, actions), to);
      var (after, accepted) := meanwhile.AcceptSave(at, op, Ok(Written(signature)));
      && accepted && after.Lookup(at).Some? && OnlyAt(meanwhile, after, after.Lookup(at).value)
      && var done := after.Get(after.Lookup(at).value);
        && done.Ready? && done.saving.None? && done.signature == signature
        && done.content == ContentAfter(e.document.content, actions)
        && (done.dirty <==> AnyEdit(actions) && e.document.generation < U64_MAX)
  {
    hide Editor.BeginSave, Editor.AcceptSave, Editor.Activate, ActAll, AnyEdit, ContentAfter;
    SaveBegins(e, op);
    var begun := e.BeginSave(op).0;
    ActingMeanwhile(begun, actions);
    assert begun.inactive == e.inactive;
    var acted := ActAll(begun, actions);
    SwitchedFinds(acted, to);
    var meanwhile := Switched(acted, to);
    var slot := meanwhile.Lookup(e.document.location).value;
    ReplyTaken(meanwhile, slot, e.document.location, op, Ok(Written(signature)));
    var after := meanwhile.AcceptSave(e.document.location, op, Ok(Written(signature))).0;
    FoundAgain(meanwhile, after, slot, e.document.location);
  }

  /** A document that keeps its location is found where it was. */
  lemma FoundAgain(e: Editor, after: Editor, slot: Slot, at: Location)
    requires e.Lookup(at) == Some(slot) && OnlyAt(e, after, slot) && after.Get(slot).Is(at)
    ensures after.Lookup(at) == Some(slot)
  {
    if slot.Inactive? {
      FirstStays(e.inactive, after.inactive, slot.index, at);
    }
  }

  lemma {:induction false} FirstStays(before: seq<Document>, after: seq<Document>, index: nat, at: Location)
    requires IndexOf(before, at) == Some(index) && |after| == |before| && after[index].Is(at)
    requires forall i | 0 <= i < |before| && i != index :: after[i] == before[i]
    ensures IndexOf(after, at) == Some(index)
    decreases index
  {
    if index > 0 {
      FirstStays(before[1..], after[1..], index - 1, at);
    }
  }
}
