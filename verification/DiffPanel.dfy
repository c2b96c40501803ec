/** The diff panel: compares and patches are asked for, and their replies may come at any later time. */
module DiffPanel {
  import opened Text

  type Op = nat

  datatype Outcome = Ready(files: seq<string>) | Cancelled | NoMergeBase | UnbornHead | InvalidBase
  datatype Failure = TooLarge(limit: nat) | Failed(message: string)
  datatype CompareResult = Compared(outcome: Outcome) | Broken(failure: Failure)

  datatype Panel =
    | Closed | Loading | Files(files: seq<string>) | Empty | NoCommonAncestor | NoCommits | BadBase
    | TooMuch(limit: nat) | Error(message: string)

  datatype Patch = Idle | Awaited | Loaded(diff: string) | Refused(message: string)

  /** What a compare's result shows; nothing for a cancelled one. */
  function PanelStateFor(result: CompareResult): Option<Panel> {
    match result
    case Compared(Cancelled) => None
    case Compared(Ready(files)) => Some(if files == [] then Empty else Files(files))
    case Compared(NoMergeBase) => Some(NoCommonAncestor)
    case Compared(UnbornHead) => Some(NoCommits)
    case Compared(InvalidBase) => Some(BadBase)
    case Broken(TooLarge(limit)) => Some(TooMuch(limit))
    case Broken(Failed(message)) => Some(Error(message))
  }

  function PatchStateFor(result: Result<string>): Patch {
    match result
    case Ok(diff) => Loaded(diff)
    case Err(message) => Refused(message)
  }

  /** A handle is named by its compare; `stopped` holds the handles whose flag is set. */
  datatype Diff = Diff(panel: Panel, worktree: Option<string>, selected: Option<string>, patch: Patch,
                       compareOp: Option<Op>, patchOp: Option<Op>, treeVisible: bool, cancel: Option<Op>,
                       stopped: set<Op>)

  const INITIAL := Diff(Closed, None, None, Idle, None, None, false, None, {})

  function StopInFlight(d: Diff): Diff {
    d.(cancel := None, stopped := d.stopped + if d.cancel.Some? then {d.cancel.value} else {})
  }

  function BeginCompare(d: Diff, worktree: string, op: Op, treeVisible: bool): Diff {
    StopInFlight(d).(panel := Loading, worktree := Some(worktree), selected := None, patch := Idle,
                     compareOp := Some(op), treeVisible := treeVisible, cancel := Some(op))
  }

  function CloseAll(d: Diff): Diff {
    StopInFlight(d).(panel := Closed, worktree := None, selected := None, patch := Idle)
  }

  predicate Accepts(d: Diff, latest: Option<Op>, worktree: string, op: Op) {
    d.worktree == Some(worktree) && latest == Some(op)
  }

  predicate Lists(d: Diff, path: string) {
    d.panel.Files? && path in d.panel.files
  }

  class DiffState {
    var panel: Panel
    var worktree: Option<string>
    var selected: Option<string>
    var patch: Patch
    var compareOp: Option<Op>
    var patchOp: Option<Op>
    var treeVisible: bool
    var cancel: Option<Op>
    var stopped: set<Op>

    ghost function View(): Diff
      reads this
    {
      Diff(panel, worktree, selected, patch, compareOp, patchOp, treeVisible, cancel, stopped)
    }

    constructor ()
      ensures View() == INITIAL
    {
      panel, worktree, selected, patch := Closed, None, None, Idle;
      compareOp, patchOp, treeVisible, cancel, stopped := None, None, false, None, {};
    }

    method CancelInFlight()
      modifies this
      ensures View() == StopInFlight(old(View()))
    {
      if cancel.Some? { stopped := stopped + {cancel.value}; }
      cancel := None;
    }

    method BeginCompareWithFileTree(id: string, op: Op, visible: bool) returns (handle: Op)
      modifies this
      ensures View() == BeginCompare(old(View()), id, op, visible) && handle == op
    {
      CancelInFlight();
      panel, worktree, selected, patch := Loading, Some(id), None, Idle;
      compareOp, treeVisible := Some(op), visible;
      handle := op;
      cancel := Some(handle);
    }

    method Close()
      modifies this
      ensures View() == CloseAll(old(View()))
    {
      CancelInFlight();
      panel, worktree, selected, patch := Closed, None, None, Idle;
    }

    method AcceptCompare(id: string, op: Op) returns (accepted: bool)
      ensures accepted == Accepts(View(), compareOp, id, op)
    {
      if worktree != Some(id) { return false; }
      accepted := compareOp == Some(op);
    }

    method ApplyCompare(state: Panel)
      modifies this
      ensures View() == old(View()).(panel := state, cancel := None)
    {
      panel, cancel := state, None;
    }

    method BeginPatch(path: string, op: Op)
      modifies this
      ensures View() == old(View()).(selected := Some(path), patch := Awaited, patchOp := Some(op))
    {
      selected, patch, patchOp := Some(path), Awaited, Some(op);
    }

    method AcceptPatch(id: string, op: Op) returns (accepted: bool)
      ensures accepted == Accepts(View(), patchOp, id, op)
    {
      if worktree != Some(id) { return false; }
      accepted := patchOp == Some(op);
    }

    method ApplyPatch(state: Patch)
      modifies this
      ensures View() == old(View()).(patch := state)
    {
      patch := state;
    }

    /** The handling of a compare's reply: accepted first, then applied unless it was cancelled. */
    method DiffLoaded(id: string, op: Op, result: CompareResult)
      modifies this
      ensures View() == AfterCompare(old(View()), id, op, result)
    {
      var accepted := AcceptCompare(id, op);
      if !accepted { return; }
      var state := PanelStateFor(result);
      if state.Some? { ApplyCompare(state.value); }
    }

    method FileDiffLoaded(id: string, op: Op, result: Result<string>)
      modifies this
      ensures View() == AfterPatch(old(View()), id, op, result)
    {
      var accepted := AcceptPatch(id, op);
      if !accepted { return; }
      ApplyPatch(PatchStateFor(result));
    }
  }

  function AfterCompare(d: Diff, worktree: string, op: Op, result: CompareResult): Diff {
    if Accepts(d, d.compareOp, worktree, op) && PanelStateFor(result).Some?
    then d.(panel := PanelStateFor(result).value, cancel := None) else d
  }

  function AfterPatch(d: Diff, worktree: string, op: Op, result: Result<string>): Diff {
    if Accepts(d, d.patchOp, worktree, op) then d.(patch := PatchStateFor(result)) else d
  }

  // Interleavings

  datatype PatchRequest = PatchRequest(worktree: string, path: string)

  /** The panel, the requests issued so far, and the replies delivered so far. */
  datatype World = World(d: Diff, next: Op, compares: map<Op, string>, compared: map<Op, CompareResult>,
                         patches: map<Op, PatchRequest>, patched: map<Op, Result<string>>)

  datatype Event =
    | Toggle(worktree: string, known: bool, op: Op, treeVisible: bool)
    | Close
    | CompareReply(compare: Op, result: CompareResult)
    | SelectFile(id: string, path: string, found: bool, request: Op)
    | PatchReply(patch: Op, diff: Result<string>)

  const START := World(INITIAL, 0, map[], map[], map[], map[])

  /** New requests get new numbers; a request is answered at most once. */
  predicate Possible(w: World, e: Event) {
    match e
    case Toggle(_, _, op, _) => w.next <= op
    case Close => true
    case CompareReply(op, _) => op in w.compares && op !in w.compared
    case SelectFile(_, _, _, op) => w.next <= op
    case PatchReply(op, _) => op in w.patches && op !in w.patched
  }

  function Step(w: World, e: Event): World
    requires Possible(w, e)
  {
    match e
    case Toggle(worktree, known, op, treeVisible) =>
      if w.d.panel != Closed && w.d.worktree == Some(worktree) then w.(d := CloseAll(w.d))
      else if !known then w
      else w.(d := BeginCompare(w.d, worktree, op, treeVisible), next := op + 1, compares := w.compares[op := worktree])
    case Close => w.(d := CloseAll(w.d))
    case CompareReply(op, result) =>
      w.(d := AfterCompare(w.d, w.compares[op], op, result), compared := w.compared[op := result])
    case SelectFile(id, path, found, op) =>
      if !Lists(w.d, path) || !found then w
      else w.(d := w.d.(selected := Some(path), patch := Awaited, patchOp := Some(op)), next := op + 1,
              patches := w.patches[op := PatchRequest(id, path)])
    case PatchReply(op, result) =>
      w.(d := AfterPatch(w.d, w.patches[op].worktree, op, result), patched := w.patched[op := result])
  }

  /** A closed panel shows no worktree and nothing else. */
  predicate ClosedIsBlank(d: Diff) {
    && (d.panel == Closed <==> d.worktree == None)
    && (d.panel == Closed ==> d.selected == None && d.patch == Idle)
  }

  /** An open panel is loading, or shows the answer to the latest compare, which is of the shown worktree. */
  predicate ShowsLatest(w: World) {
    w.d.worktree.Some? ==>
      && w.d.compareOp.Some? && w.d.compareOp.value in w.compares
      && w.compares[w.d.compareOp.value] == w.d.worktree.value
      && (w.d.panel != Loading ==> w.d.compareOp.value in w.compared
                                   && PanelStateFor(w.compared[w.d.compareOp.value]) == Some(w.d.panel))
      && (w.d.compareOp.value in w.compared && w.d.panel == Loading ==>
            PanelStateFor(w.compared[w.d.compareOp.value]) == None)
  }

  /** A compare that is neither stopped nor answered is the one that closing the panel would stop. */
  predicate RunningIsHeld(w: World) {
    && (w.d.cancel.Some? ==> w.d.cancel == w.d.compareOp)
    && forall op | op in w.compares && op !in w.d.stopped && op !in w.compared :: w.d.cancel == Some(op)
  }

  /** A patch on show answers the latest patch request, and that was for the shown worktree. */
  predicate PatchIsLatest(w: World) {
    w.d.patch.Loaded? || w.d.patch.Refused? ==>
      && w.d.patchOp.Some? && w.d.patchOp.value in w.patches && w.d.patchOp.value in w.patched
      && w.d.worktree == Some(w.patches[w.d.patchOp.value].worktree)
      && PatchStateFor(w.patched[w.d.patchOp.value]) == w.d.patch
  }

  predicate SelectedIsAskedFor(w: World) {
    w.d.selected.Some? ==>
      && w.d.patchOp.Some? && w.d.patchOp.value in w.patches && w.patches[w.d.patchOp.value].path == w.d.selected.value
      && (if w.d.patchOp.value in w.patched && w.d.worktree == Some(w.patches[w.d.patchOp.value].worktree)
          then w.d.patch == PatchStateFor(w.patched[w.d.patchOp.value]) else w.d.patch == Awaited)
  }

  predicate Numbered(w: World) {
    && (forall op | op in w.compares :: op < w.next)
    && (forall op | op in w.patches :: op < w.next)
    && w.compared.Keys <= w.compares.Keys && w.patched.Keys <= w.patches.Keys
  }

  /** The numbers kept are those of the requests issued last. */
  predicate IsLast(w: World) {
    && (w.compares != map[] ==> w.d.compareOp.Some? && w.d.compareOp.value in w.compares)
    && (w.patches != map[] ==> w.d.patchOp.Some? && w.d.patchOp.value in w.patches)
    && (forall op | op in w.compares :: w.d.compareOp.Some? && op <= w.d.compareOp.value)
    && (forall op | op in w.patches :: w.d.patchOp.Some? && op <= w.d.patchOp.value)
  }

  predicate Inv(w: World) {
    && ClosedIsBlank(w.d) && ShowsLatest(w) && RunningIsHeld(w) && PatchIsLatest(w)
    && SelectedIsAskedFor(w) && Numbered(w) && IsLast(w)
  }

  lemma CloseKeepsInv(w: World)
    requires Inv(w)
    ensures Inv(w.(d := CloseAll(w.d)))
  {
    hide PanelStateFor, PatchStateFor;
  }

  lemma BeginKeepsInv(w: World, worktree: string, op: Op, treeVisible: bool)
    requires Inv(w) && w.next <= op
    ensures Inv(w.(d := BeginCompare(w.d, worktree, op, treeVisible), next := op + 1,
                   compares := w.compares[op := worktree]))
  {
    hide PanelStateFor, PatchStateFor;
  }

  lemma ToggleKeepsInv(w: World, e: Event)
    requires Inv(w) && Possible(w, e) && (e.Toggle? || e.Close?)
    ensures Inv(Step(w, e))
  {
    hide Inv, CloseAll, BeginCompare;
    CloseKeepsInv(w);
    if e.Toggle? {
      BeginKeepsInv(w, e.worktree, e.op, e.treeVisible);
    }
  }

  lemma CompareReplyKeepsInv(w: World, e: Event)
    requires Inv(w) && Possible(w, e) && e.CompareReply?
    ensures Inv(Step(w, e))
  {
  }

  lemma PatchKeepsInv(w: World, e: Event)
    requires Inv(w) && Possible(w, e) && (e.SelectFile? || e.PatchReply?)
    ensures Inv(Step(w, e))
  {
    hide PanelStateFor;
  }

  lemma StepKeepsInv(w: World, e: Event)
    requires Inv(w) && Possible(w, e)
    ensures Inv(Step(w, e))
  {
    hide Inv, Step, Possible;
    match e
    case Toggle(_, _, _, _) => ToggleKeepsInv(w, e);
    case Close => ToggleKeepsInv(w, e);
    case CompareReply(_, _) => CompareReplyKeepsInv(w, e);
    case SelectFile(_, _, _, _) => PatchKeepsInv(w, e);
    case PatchReply(_, _) => PatchKeepsInv(w, e);
  }

  predicate PossibleRun(w: World, events: seq<Event>)
    decreases |events|
  {
    events == [] || (Possible(w, events[0]) && PossibleRun(Step(w, events[0]), events[1..]))
  }

  function Run(w: World, events: seq<Event>): World
    requires PossibleRun(w, events)
    decreases |events|
  {
    if events == [] then w else Run(Step(w, events[0]), events[1..])
  }

  lemma {:induction false} RunKeepsInv(w: World, events: seq<Event>)
    requires Inv(w) && PossibleRun(w, events)
    ensures Inv(Run(w, events))
    decreases |events|
  {
    hide Inv, Step, Possible;
    if events != [] {
      StepKeepsInv(w, events[0]);
      RunKeepsInv(Step(w, events[0]), events[1..]);
    }
  }

  /** Neither stopped nor answered. */
  predicate IsRunning(w: World, op: Op) {
    op in w.compares && op !in w.d.stopped && op !in w.compared
  }

  /** In every interleaving: the files shown answer the latest compare, of the shown worktree; at most one
      handle is neither stopped nor completed; a patch on show answers the latest patch request, which was
      for the shown worktree; and with a file selected, that request was for that file. */
  lemma EveryInterleaving(events: seq<Event>, op: Op, other: Op)
    requires PossibleRun(START, events)
    ensures var w := Run(START, events);
      && (w.d.panel.Files? ==>
            && w.d.worktree.Some? && w.d.compareOp.Some?
            && w.d.compareOp.value in w.compares && w.d.compareOp.value in w.compared
            && w.compares[w.d.compareOp.value] == w.d.worktree.value
            && w.compared[w.d.compareOp.value] == Compared(Ready(w.d.panel.files))
            && forall o | o in w.compares :: o <= w.d.compareOp.value)
      && (IsRunning(w, op) && IsRunning(w, other) ==> op == other)
      && (w.d.patch.Loaded? ==>
            && w.d.worktree.Some? && w.d.patchOp.Some?
            && w.d.patchOp.value in w.patches && w.d.patchOp.value in w.patched
            && w.patched[w.d.patchOp.value] == Ok(w.d.patch.diff)
            && w.patches[w.d.patchOp.value].worktree == w.d.worktree.value
            && (forall o | o in w.patches :: o <= w.d.patchOp.value)
            && (w.d.selected.Some? ==> w.patches[w.d.patchOp.value].path == w.d.selected.value))
  {
    RunKeepsInv(START, events);
  }

  /** The answer to the latest compare, if there is one yet. */
  function LatestAnswer(w: World): Option<CompareResult> {
    if w.d.compareOp.Some? && w.d.compareOp.value in w.compared then Some(w.compared[w.d.compareOp.value]) else None
  }

  /** What each panel stands for, in every interleaving: an open panel is loading exactly as long as the latest compare
      is not answered or was cancelled, and otherwise shows that answer, each kind by a panel of its own. */
  lemma PanelTells(events: seq<Event>)
    requires PossibleRun(START, events)
    ensures var w := Run(START, events);
      var (panel, answer) := (w.d.panel, LatestAnswer(w));
      && (panel == Closed <==> w.d.worktree.None?)
      && (w.d.worktree.Some? ==>
            && (panel == Loading <==> answer.None? || answer == Some(Compared(Cancelled)))
            && (panel == Empty <==> answer == Some(Compared(Ready([]))))
            && (panel.Files? <==> answer.Some? && answer.value.Compared? && answer.value.outcome.Ready?
                                  && answer.value.outcome.files != [])
            && (panel.Files? ==> answer == Some(Compared(Ready(panel.files))))
            && (panel == NoCommonAncestor <==> answer == Some(Compared(NoMergeBase)))
            && (panel == NoCommits <==> answer == Some(Compared(UnbornHead)))
            && (panel == BadBase <==> answer == Some(Compared(InvalidBase)))
            && (forall limit :: panel == TooMuch(limit) <==> answer == Some(Broken(TooLarge(limit))))
            && (forall message :: panel == Error(message) <==> answer == Some(Broken(Failed(message)))))
  {
    RunKeepsInv(START, events);
    hide Run, PossibleRun, RunningIsHeld, PatchIsLatest, SelectedIsAskedFor, Numbered, IsLast;
  }

  /** What the patch stands for: a text or an error is what the latest patch request was answered; and with a file
      selected, the answer is shown as soon as it is there, if it was asked for the shown worktree. */
  lemma PatchTells(events: seq<Event>)
    requires PossibleRun(START, events)
    ensures Run(START, events).d.selected.Some? ==>
      Run(START, events).d.patchOp.Some? && Run(START, events).d.patchOp.value in Run(START, events).patches
    ensures var w := Run(START, events);
      var answer := if w.d.patchOp.Some? && w.d.patchOp.value in w.patched then Some(w.patched[w.d.patchOp.value])
                    else None;
      && (w.d.patch.Loaded? ==> answer == Some(Ok(w.d.patch.diff)))
      && (w.d.patch.Refused? ==> answer == Some(Err(w.d.patch.message)))
      && (w.d.selected.Some? ==>
            if answer.Some? && w.d.worktree == Some(w.patches[w.d.patchOp.value].worktree)
            then w.d.patch == (match answer.value case Ok(diff) => Loaded(diff) case Err(message) => Refused(message))
            else w.d.patch == Awaited)
  {
    RunKeepsInv(START, events);
    hide Run, PossibleRun, RunningIsHeld, ShowsLatest, Numbered, IsLast;
  }

  /** Asking for the changes of a worktree closes the panel if that worktree is shown, does nothing if it is not
      known, and otherwise starts a compare for it, loading and with nothing selected. */
  lemma ToggleTells(w: World, worktree: string, known: bool, op: Op, treeVisible: bool)
    requires Possible(w, Toggle(worktree, known, op, treeVisible))
    ensures var after := Step(w, Toggle(worktree, known, op, treeVisible));
      if w.d.panel != Closed && w.d.worktree == Some(worktree) then
        && after.compares == w.compares && after.d.panel == Closed && after.d.worktree.None?
        && after.d.selected.None? && after.d.patch == Idle && after.d.cancel.None?
      else if !known then after == w
      else
        && after.compares == w.compares[op := worktree] && after.d.panel == Loading
        && after.d.worktree == Some(worktree) && after.d.selected.None? && after.d.patch == Idle
        && after.d.compareOp == Some(op) && after.d.cancel == Some(op) && after.d.treeVisible == treeVisible
  {
  }

  /** Selecting a listed file asks for its patch. */
  lemma SelectTells(w: World, id: string, path: string, request: Op)
    requires Possible(w, SelectFile(id, path, true, request)) && w.d.panel.Files? && path in w.d.panel.files
    ensures var after := Step(w, SelectFile(id, path, true, request));
      && after.patches == w.patches[request := PatchRequest(id, path)]
      && after.d == w.d.(selected := Some(path), patch := Awaited, patchOp := Some(request))
  {
  }

  /** No reply opens a closed panel, and only a request does. */
  lemma RepliesOpenNothing(events: seq<Event>, e: Event)
    requires PossibleRun(START, events) && Possible(Run(START, events), e) && !e.Toggle?
    requires Run(START, events).d.panel == Closed
    ensures || Step(Run(START, events), e).d == CloseAll(Run(START, events).d)
            || Step(Run(START, events), e).d == Run(START, events).d
    ensures Step(Run(START, events), e).d.panel == Closed
  {
    RunKeepsInv(START, events);
  }

  /** Over every run, a patch's reply is taken while no file is selected exactly when it answers the latest patch
      request, that was for the shown worktree, and the selection of that time is gone. */
  lemma LatePatchIff(events: seq<Event>, op: Op, result: Result<string>)
    requires PossibleRun(START, events) && Possible(Run(START, events), PatchReply(op, result))
    ensures var w := Run(START, events);
      var after := Step(w, PatchReply(op, result)).d;
      && (after != w.d && after.selected.None?
          <==> && (forall o | o in w.patches :: o <= op)
               && w.d.worktree == Some(w.patches[op].worktree)
               && w.d.selected.None?)
      && (after != w.d ==> after == w.d.(patch := PatchStateFor(result)))
  {
    RunKeepsInv(START, events);
    hide Run, ShowsLatest, RunningIsHeld, PanelStateFor;
  }

  const REOPENED: seq<Event> := [
    Toggle("w", true, 0, true), CompareReply(0, Compared(Ready(["f"]))), SelectFile("w", "f", true, 1),
    Close, Toggle("w", true, 2, true), PatchReply(1, Ok("late"))]

  lemma RunOne(w: World, events: seq<Event>)
    requires events != [] && Possible(w, events[0]) && PossibleRun(Step(w, events[0]), events[1..])
    ensures PossibleRun(w, events) && Run(w, events) == Run(Step(w, events[0]), events[1..])
  {
    hide Possible, Step;
  }

  lemma RunNone(w: World)
    ensures PossibleRun(w, []) && Run(w, []) == w
  {
  }

  /** Without a selected file the last part fails: closing the panel and opening it on the same worktree keeps
      the number of the last patch request, so a late patch is accepted while no file is selected. */
  lemma LatePatchAfterReopening()
    ensures PossibleRun(START, REOPENED)
    ensures var d := Run(START, REOPENED).d; d.patch == Loaded("late") && d.selected == None && d.panel == Loading
  {
    var w1 := Step(START, REOPENED[0]);
    var w2 := Step(w1, REOPENED[1]);
    var w3 := Step(w2, REOPENED[2]);
    var w4 := Step(w3, REOPENED[3]);
    var w5 := Step(w4, REOPENED[4]);
    var w6 := Step(w5, REOPENED[5]);
    hide Step, Run, PossibleRun, Possible;
    RunNone(w6);
    RunOne(w5, REOPENED[5..]);
    RunOne(w4, REOPENED[4..]);
    RunOne(w3, REOPENED[3..]);
    RunOne(w2, REOPENED[2..]);
    RunOne(w1, REOPENED[1..]);
    RunOne(START, REOPENED);
  }
}
