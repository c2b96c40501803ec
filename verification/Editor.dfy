/** The embedded editor: one active document, a list of inactive ones, and the find bar.
    `Editor` is the state as a value, with what each operation makes of it; `EditorState` is the
    object whose methods update it in place. */
module Editor {
  import opened Text
  import opened Positions

  type OpId = nat
  /** A signature identifies one version of one file. */
  type Signature = nat

  const U64_MAX: nat := 0xFFFF_FFFF_FFFF_FFFF
  type Generation = n: nat | n <= U64_MAX

  datatype Location = Location(worktree: string, path: string)
  datatype Saving = Saving(op: OpId, generation: Generation)
  datatype PreviewKind = Image | Pdf

  datatype EditorLoad =
    | LoadedText(text: string, signature: Signature)
    | LoadedBinary(size: nat)
    | LoadedPreview(size: nat, kind: PreviewKind)
    | LoadedTooLarge(limit: nat)

  datatype Reason = Binary(size: nat) | TooLarge(megabytes: nat) | Failed(message: string)
  datatype WriteOutcome = Written(signature: Signature) | StaleConflict
  datatype EditorSave = EditorSave(location: Location, text: string, expected: Signature, op: OpId)

  datatype Document =
    | Closed
    | Loading(location: Location, op: OpId)
    | Ready(location: Location, content: Content, signature: Signature, generation: Generation,
            dirty: bool, saving: Option<Saving>, closeConfirmation: bool, error: Option<string>)
    | Unavailable(location: Location, reason: Reason)
    | Preview(location: Location, size: nat, kind: PreviewKind)
  {
    predicate Is(at: Location) {
      !Closed? && location == at
    }

    predicate InWorktree(worktree: string) {
      !Closed? && location.worktree == worktree
    }

    predicate Unsaved() {
      Ready? && dirty
    }

    /** An edit: `saturating_add` keeps the generation at its maximum. */
    function Edited(after: Content): Document
      requires Ready?
    {
      this.(content := after, generation := if generation == U64_MAX then U64_MAX else generation + 1,
            dirty := true, closeConfirmation := false, error := None)
    }

    /** The reply to the save of generation `saved` from a document that is waiting for it. */
    function Saved(saved: Generation, result: Result<WriteOutcome>): Document
      requires Ready?
    {
      match result
      case Ok(Written(written)) =>
        this.(saving := None, signature := written, dirty := generation != saved,
              closeConfirmation := false, error := None)
      case Ok(StaleConflict) =>
        this.(saving := None, dirty := true,
              error := Some("The file changed on disk. Reload it before saving again."))
      case Err(message) =>
        this.(saving := None, dirty := true, error := Some(message))
    }
  }

  function Loaded(at: Location, result: Result<EditorLoad>): Document {
    match result
    case Ok(LoadedText(text, signature)) =>
      Ready(at, WithText(text), signature, 0, false, None, false, None)
    case Ok(LoadedBinary(size)) => Unavailable(at, Binary(size))
    case Ok(LoadedTooLarge(limit)) => Unavailable(at, TooLarge(limit / (1024 * 1024)))
    case Ok(LoadedPreview(size, kind)) => Preview(at, size, kind)
    case Err(message) => Unavailable(at, Failed(message))
  }

  datatype Action = Move(cursor: Cursor) | Paste(text: string) | OtherEdit(content: Content) {
    predicate IsEdit() {
      !Move?
    }

    function Perform(content: Content): Content {
      match this
      case Move(cursor) => content.MoveTo(cursor)
      case Paste(text) => content.Paste(text)
      case OtherEdit(after) => after
    }
  }

  datatype FindStatus = Blank | EnterText | NoMatches | Matches(total: nat) | Replaced(count: nat)

  datatype FindBar = FindBar(visible: bool, replaceVisible: bool, query: string, replacement: string,
                             found: Option<(nat, nat)>, status: FindStatus)
  {
    function Hidden(): FindBar {
      this.(visible := false, replaceVisible := false, found := None, status := Blank)
    }
  }

  function Retain(documents: seq<Document>, keep: Document -> bool): (kept: seq<Document>)
    ensures forall d :: d in kept <==> d in documents && keep(d)
  {
    if documents == [] then []
    else (if keep(documents[0]) then [documents[0]] else []) + Retain(documents[1..], keep)
  }

  /** Where a location is first found among the inactive documents. */
  function IndexOf(documents: seq<Document>, at: Location): (index: Option<nat>)
    ensures index.Some? ==> index.value < |documents| && documents[index.value].Is(at)
    ensures index.None? ==> forall d :: d in documents ==> !d.Is(at)
  {
    if documents == [] then None
    else if documents[0].Is(at) then Some(0)
    else match IndexOf(documents[1..], at)
      case None => None
      case Some(index) => Some(index + 1)
  }

  datatype Slot = Active | Inactive(index: nat)

  datatype Editor = Editor(document: Document, inactive: seq<Document>, find: FindBar) {
    function Documents(): seq<Document> {
      [document] + inactive
    }

    predicate Has(slot: Slot) {
      slot.Inactive? ==> slot.index < |inactive|
    }

    function Get(slot: Slot): Document
      requires Has(slot)
    {
      if slot.Active? then document else inactive[slot.index]
    }

    function Put(slot: Slot, replacement: Document): Editor
      requires Has(slot)
    {
      if slot.Active? then this.(document := replacement)
      else this.(inactive := inactive[slot.index := replacement])
    }

    /** `document_mut`: the active document if it is at the location, else the first inactive one. */
    function Lookup(at: Location): (slot: Option<Slot>)
      ensures slot.Some? ==> Has(slot.value) && Get(slot.value).Is(at)
      ensures slot.None? ==> forall d :: d in Documents() ==> !d.Is(at)
    {
      if document.Is(at) then Some(Active)
      else match IndexOf(inactive, at)
        case Some(index) => Some(Inactive(index))
        case None => None
    }

    function HideFind(): Editor {
      this.(find := find.Hidden())
    }

    function CloseAll(): Editor {
      Editor(Closed, [], find.Hidden())
    }

    function CloseActive(): Editor {
      if inactive == [] then Editor(Closed, [], find.Hidden())
      else Editor(inactive[|inactive| - 1], inactive[..|inactive| - 1], find.Hidden())
    }

    function BeginLoad(at: Location, op: OpId): Editor {
      var others := Retain(inactive, (d: Document) => !d.Is(at));
      Editor(Loading(at, op), if document.Closed? then others else others + [document], find.Hidden())
    }

    function AcceptLoad(at: Location, op: OpId, result: Result<EditorLoad>): (Editor, bool) {
      match Lookup(at)
      case None => (this, false)
      case Some(slot) =>
        if Get(slot) != Loading(at, op) then (this, false)
        else (Put(slot, Loaded(at, result)), true)
    }

    function Activate(at: Location): (Editor, bool) {
      if document.Is(at) then (this, true)
      else match IndexOf(inactive, at)
        case None => (this, false)
        case Some(index) => (Editor(inactive[index], inactive[index := document], find.Hidden()), true)
    }

    function Perform(action: Action): Editor {
      if !document.Ready? then this
      else if !action.IsEdit() then
        this.(document := document.(content := action.Perform(document.content)))
      else
        this.(document := document.Edited(action.Perform(document.content)), find := find.(found := None))
    }

    function OpenFind(replace: bool): Editor {
      if !document.Ready? then this
      else this.(find := find.(visible := true, replaceVisible := replace, status := Blank))
    }

    function SetFindQuery(query: string): Editor {
      this.(find := find.(query := query, found := None, status := Blank))
    }

    function SetReplacement(replacement: string): Editor {
      this.(find := find.(replacement := replacement))
    }

    predicate MatchInRange() {
      find.found.Some? && document.Ready? ==>
        find.found.value.0 <= find.found.value.1 <= |document.content.text|
    }

    /** The slice of the text that a search takes is inside the text. */
    predicate SliceInRange(backwards: bool) {
      document.Ready? && find.query != "" && find.found.Some? ==>
        (if backwards then find.found.value.0 else find.found.value.1) <= |document.content.text|
    }

    function NextMatch(backwards: bool): (at: Option<nat>)
      requires document.Ready? && find.query != "" && SliceInRange(backwards)
      ensures at.Some? ==> at.value + |find.query| <= |document.content.text|
    {
      var source := document.content.text;
      if backwards then
        var before := if find.found.Some? then find.found.value.0 else |source|;
        var first := RFind(source, find.query, before);
        if first.Some? then first else RFind(source, find.query, |source|)
      else
        var after := if find.found.Some? then find.found.value.1 else 0;
        var first := Find(source, find.query, after);
        if first.Some? then first else Find(source, find.query, 0)
    }

    /** The precondition is the one that the slice of the text has. */
    function FindNext(backwards: bool): (next: (Editor, bool))
      requires SliceInRange(backwards)
      ensures MatchInRange() || next.1 ==> next.0.MatchInRange()
    {
      if !document.Ready? then (this, false)
      else if find.query == "" then (this.(find := find.(status := EnterText)), false)
      else match NextMatch(backwards)
        case None => (this.(find := find.(found := None, status := NoMatches)), false)
        case Some(start) =>
          var end := start + |find.query|;
          (this.(document := document.(content := SelectRange(document.content, start, end)),
                 find := find.(found := Some((start, end)),
                               status := Matches(Count(document.content.text, find.query)))), true)
    }

    /** The current match is in the text and still reads as the query, so replacing will paste over it. */
    predicate ReplacesHere() {
      && find.found.Some? && document.Ready?
      && find.found.value.0 <= find.found.value.1 <= |document.content.text|
      && document.content.text[find.found.value.0..find.found.value.1] == find.query
    }

    function PasteOverMatch(): Editor
      requires ReplacesHere()
    {
      var (start, end) := find.found.value;
      var selected := this.(document := document.(content := SelectRange(document.content, start, end)));
      var pasted := selected.Perform(Paste(find.replacement));
      pasted.(find := pasted.find.(found := Some((start, start + |find.replacement|))))
    }

    /** Pasting over the match leaves the range that is then recorded for it inside the text: the carriage
        returns before the match are no more than what follows it and the returns that its end loses. */
    predicate PasteFits()
      requires ReplacesHere()
    {
      var (text, start, end) := (document.content.text, find.found.value.0, find.found.value.1);
      ReturnsBefore(text, start) <= |text| - end + ReturnsBefore(text, end)
    }

    /** `PasteFits` is exact: without it the recorded range leaves the text, and the search that follows
        slices the text outside itself. */
    lemma PasteFitsIff()
      requires ReplacesHere()
      ensures PasteFits() <==> PasteOverMatch().MatchInRange()
      ensures PasteFits() <==> PasteOverMatch().SliceInRange(false)
    {
      var (text, start, end) := (document.content.text, find.found.value.0, find.found.value.1);
      ResolveSkipsReturns(text, start);
      ResolveSkipsReturns(text, end);
      ResolveMonotone(text, start, end);
      hide Resolve, PositionOf, ReturnsBefore;
      assert SelectRange(document.content, start, end).Selected()
          == (start - ReturnsBefore(text, start), end - ReturnsBefore(text, end));
    }

    function ReplaceCurrent(): (Editor, bool)
      requires ReplacesHere() ==> PasteFits()
    {
      if find.found.None? then FindNext(false)
      else if !document.Ready? then (this, false)
      else if !ReplacesHere() then this.(find := find.(found := None)).FindNext(false)
      else
        PasteFitsIff();
        (PasteOverMatch().FindNext(false).0, true)
    }

    function ReplaceAll(): (Editor, nat) {
      if find.query == "" then (this.(find := find.(status := EnterText)), 0)
      else if !document.Ready? then (this, 0)
      else
        var source := document.content.text;
        var count := Count(source, find.query);
        if count == 0 then (this.(find := find.(status := NoMatches)), 0)
        else
          var replaced := Replace(source, find.query, find.replacement);
          (this.(document := document.Edited(WithText(replaced)),
                 find := find.(found := None, status := Replaced(count))), count)
    }

    function RequestClose(): (Editor, bool) {
      if document.Unsaved() then (this.(document := document.(closeConfirmation := true)), false)
      else (CloseActive(), true)
    }

    function CancelClose(): Editor {
      if document.Ready? then this.(document := document.(closeConfirmation := false)) else this
    }

    function BeginSave(op: OpId): (Editor, Option<EditorSave>) {
      if !document.Unsaved() || document.saving.Some? then (this, None)
      else
        (this.(document := document.(saving := Some(Saving(op, document.generation)),
                                     closeConfirmation := false, error := None)),
         Some(EditorSave(document.location, document.content.text, document.signature, op)))
    }

    function AcceptSave(at: Location, op: OpId, result: Result<WriteOutcome>): (Editor, bool) {
      match Lookup(at)
      case None => (this, false)
      case Some(slot) =>
        var d := Get(slot);
        if !d.Ready? || d.saving.None? || d.saving.value.op != op then (this, false)
        else (Put(slot, d.Saved(d.saving.value.generation, result)), true)
    }

    function CloseWorktree(worktree: string): Editor {
      var kept := this.(inactive := Retain(inactive, (d: Document) => !d.InWorktree(worktree)));
      if document.InWorktree(worktree) then kept.CloseActive() else kept
    }
  }

  class EditorState {
    var document: Document
    var inactive: seq<Document>
    var find: FindBar

    ghost function View(): Editor
      reads this
    {
      Editor(document, inactive, find)
    }

    constructor ()
      ensures View() == Editor(Closed, [], FindBar(false, false, "", "", None, Blank))
    {
      document, inactive := Closed, [];
      find := FindBar(false, false, "", "", None, Blank);
    }

    method CloseFind()
      modifies this`find
      ensures View() == old(View()).HideFind()
    {
      find := find.(visible := false, replaceVisible := false);
      find := find.(found := None, status := Blank);
    }

    method OpenFind(replace: bool)
      modifies this`find
      ensures View() == old(View()).OpenFind(replace)
    {
      if !document.Ready? { return; }
      find := find.(visible := true, replaceVisible := replace, status := Blank);
    }

    method SetFindQuery(query: string)
      modifies this`find
      ensures View() == old(View()).SetFindQuery(query)
    {
      find := find.(query := query);
      find := find.(found := None, status := Blank);
    }

    method SetReplacement(replacement: string)
      modifies this`find
      ensures View() == old(View()).SetReplacement(replacement)
    {
      find := find.(replacement := replacement);
    }

    method Close()
      modifies this
      ensures View() == old(View()).CloseAll()
    {
      document := Closed;
      inactive := [];
      CloseFind();
    }

    method CloseActive()
      modifies this
      ensures View() == old(View()).CloseActive()
    {
      if |inactive| > 0 {
        document := inactive[|inactive| - 1];
        inactive := inactive[..|inactive| - 1];
      } else {
        document := Closed;
      }
      CloseFind();
    }

    method BeginLoad(at: Location, op: OpId)
      modifies this
      ensures View() == old(View()).BeginLoad(at, op)
    {
      inactive := Retain(inactive, (d: Document) => !d.Is(at));
      var previous := document;
      document := Loading(at, op);
      if !previous.Closed? {
        inactive := inactive + [previous];
      }
      CloseFind();
    }

    /** Where `document_mut` points. */
    method LookupSlot(at: Location) returns (slot: Option<Slot>)
      ensures slot == View().Lookup(at)
    {
      if document.Is(at) { return Some(Active); }
      var index := IndexOf(inactive, at);
      slot := if index.Some? then Some(Inactive(index.value)) else None;
    }

    method Store(slot: Slot, replacement: Document)
      requires View().Has(slot)
      modifies this
      ensures View() == old(View()).Put(slot, replacement)
    {
      if slot.Active? {
        document := replacement;
      } else {
        inactive := inactive[slot.index := replacement];
      }
    }

    method AcceptLoad(at: Location, op: OpId, result: Result<EditorLoad>) returns (accepted: bool)
      modifies this
      ensures (View(), accepted) == old(View()).AcceptLoad(at, op, result)
    {
      var slot := LookupSlot(at);
      if slot.None? { return false; }
      var target := if slot.value.Active? then document else inactive[slot.value.index];
      if target != Loading(at, op) { return false; }
      Store(slot.value, Loaded(at, result));
      accepted := true;
    }

    method Activate(at: Location) returns (activated: bool)
      modifies this
      ensures (View(), activated) == old(View()).Activate(at)
    {
      if document.Is(at) { return true; }
      var index := IndexOf(inactive, at);
      if index.None? { return false; }
      var swapped := inactive[index.value];
      inactive := inactive[index.value := document];
      document := swapped;
      CloseFind();
      activated := true;
    }

    method Perform(action: Action)
      modifies this
      ensures View() == old(View()).Perform(action)
    {
      if !document.Ready? { return; }
      document := document.(content := action.Perform(document.content));
      if action.IsEdit() {
        var next := if document.generation == U64_MAX then U64_MAX else document.generation + 1;
        document := document.(generation := next);
        document := document.(dirty := true, closeConfirmation := false, error := None);
        find := find.(found := None);
      }
    }

    method Search(backwards: bool) returns (start: Option<nat>)
      requires document.Ready? && find.query != "" && View().SliceInRange(backwards)
      ensures start == View().NextMatch(backwards)
    {
      var source := document.content.text;
      if backwards {
        start := RFind(source, find.query, if find.found.Some? then find.found.value.0 else |source|);
        if start.None? {
          start := RFind(source, find.query, |source|);
        }
      } else {
        start := Find(source, find.query, if find.found.Some? then find.found.value.1 else 0);
        if start.None? {
          start := Find(source, find.query, 0);
        }
      }
    }

    method FindNext(backwards: bool) returns (found: bool)
      requires View().SliceInRange(backwards)
      modifies this
      ensures (View(), found) == old(View()).FindNext(backwards)
    {
      hide Count, PositionOf, Editor.NextMatch, Editor.MatchInRange;
      if !document.Ready? { return false; }
      if find.query == "" {
        find := find.(status := EnterText);
        return false;
      }
      var start := Search(backwards);
      if start.None? {
        find := find.(found := None, status := NoMatches);
        return false;
      }
      var source := document.content.text;
      var end := start.value + |find.query|;
      var caret := BytePosition(source, end);
      var anchor := BytePosition(source, start.value);
      document := document.(content := document.content.MoveTo(Cursor(caret, Some(anchor))));
      find := find.(found := Some((start.value, end)), status := Matches(Count(source, find.query)));
      found := true;
    }

    method ReplaceCurrent() returns (replaced: bool)
      requires View().ReplacesHere() ==> View().PasteFits()
      modifies this
      ensures (View(), replaced) == old(View()).ReplaceCurrent()
    {
      if find.found.None? {
        replaced := FindNext(false);
        return;
      }
      var (start, end) := find.found.value;
      if !document.Ready? { return false; }
      var source := document.content.text;
      if !(start <= end <= |source|) || source[start..end] != find.query {
        find := find.(found := None);
        replaced := FindNext(false);
        return;
      }
      View().PasteFitsIff();
      PasteOverMatch();
      var _ := FindNext(false);
      replaced := true;
    }

    method PasteOverMatch()
      requires View().ReplacesHere()
      modifies this
      ensures View() == old(View()).PasteOverMatch()
    {
      var (start, end) := find.found.value;
      var source := document.content.text;
      var caret := BytePosition(source, end);
      var anchor := BytePosition(source, start);
      document := document.(content := document.content.MoveTo(Cursor(caret, Some(anchor))));
      Perform(Paste(find.replacement));
      find := find.(found := Some((start, start + |find.replacement|)));
    }

    method ReplaceAll() returns (count: nat)
      modifies this
      ensures (View(), count) == old(View()).ReplaceAll()
    {
      if find.query == "" {
        find := find.(status := EnterText);
        return 0;
      }
      if !document.Ready? { return 0; }
      var source := document.content.text;
      count := Count(source, find.query);
      if count == 0 {
        find := find.(status := NoMatches);
        return;
      }
      document := document.(content := WithText(Replace(source, find.query, find.replacement)));
      var next := if document.generation == U64_MAX then U64_MAX else document.generation + 1;
      document := document.(generation := next);
      document := document.(dirty := true, closeConfirmation := false, error := None);
      find := find.(found := None, status := Replaced(count));
    }

    method RequestClose() returns (closed: bool)
      modifies this
      ensures (View(), closed) == old(View()).RequestClose()
    {
      if document.Ready? && document.dirty {
        document := document.(closeConfirmation := true);
        return false;
      }
      CloseActive();
      closed := true;
    }

    method BeginSave(op: OpId) returns (save: Option<EditorSave>)
      modifies this
      ensures (View(), save) == old(View()).BeginSave(op)
    {
      if !document.Ready? || !document.dirty || document.saving.Some? { return None; }
      document := document.(saving := Some(Saving(op, document.generation)));
      document := document.(closeConfirmation := false, error := None);
      save := Some(EditorSave(document.location, document.content.text, document.signature, op));
    }

    method AcceptSave(at: Location, op: OpId, result: Result<WriteOutcome>) returns (accepted: bool)
      modifies this
      ensures (View(), accepted) == old(View()).AcceptSave(at, op, result)
    {
      var slot := LookupSlot(at);
      if slot.None? { return false; }
      var d := if slot.value.Active? then document else inactive[slot.value.index];
      if !d.Ready? || d.saving.None? || d.saving.value.op != op { return false; }
      var saved := d.saving.value.generation;
      d := d.(saving := None);
      match result {
        case Ok(Written(written)) =>
          d := d.(signature := written);
          d := d.(dirty := d.generation != saved, closeConfirmation := false, error := None);
        case Ok(StaleConflict) =>
          d := d.(dirty := true, error := Some("The file changed on disk. Reload it before saving again."));
        case Err(message) =>
          d := d.(dirty := true, error := Some(message));
      }
      Store(slot.value, d);
      accepted := true;
    }

    method CloseWorktree(worktree: string)
      modifies this
      ensures View() == old(View()).CloseWorktree(worktree)
    {
      inactive := Retain(inactive, (d: Document) => !d.InWorktree(worktree));
      if document.InWorktree(worktree) {
        CloseActive();
      }
    }
  }
}
