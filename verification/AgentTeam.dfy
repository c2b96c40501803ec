/** The pane topology that the tmux shim keeps for a team of agents. */
module AgentTeam {
  import opened Text
  import opened TmuxArgs
  import PaneFormat
  import SendKeys
  import Decimal

  const LEADER := "%1"
  const SESSION := "suaegi"

  datatype Direction = Horizontal | Vertical
  datatype Pane = Pane(id: string, handle: string, index: nat, splitFrom: Option<string>, direction: Option<Direction>)
  datatype Layout = Layout(mainPane: string, lastColumn: Option<string>)

  /** What the shim asks of the application, in this order. */
  datatype Request =
    | SplitTerminal(handle: string, direction: Direction, command: Option<string>, pane: string)
    | CloseTerminal(handle: string)
    | FocusTerminal(handle: string)
    | TypeInto(handle: string, text: string)

  /** The values of a format string, in the order in which they are filled in. */
  function FormatValues(pane: Pane): seq<(string, string)> {
    [("session_name", SESSION), ("session_id", "$0"), ("window_id", "@0"), ("window_index", "0"),
     ("window_name", "agent-teams"), ("window_active", "1"), ("window_flags", "*"), ("pane_id", pane.id),
     ("pane_active", if pane.id == LEADER then "1" else "0"), ("pane_index", Decimal.Print(pane.index)),
     ("pane_title", ""), ("pane_width", ""), ("pane_height", ""), ("pane_left", ""), ("pane_top", ""),
     ("window_width", ""), ("window_height", "")]
  }

  /** The answer of a split: nothing, or the new pane as the format says. */
  function Printed(parsed: ParsedArgs, pane: Pane): string {
    if 'P' !in parsed.flags then ""
    else PaneFormat.Render(parsed.Value('F').GetOr(""), FormatValues(pane), pane.id) + "\n"
  }

  function PaneId(number: nat): string {
    "%" + Decimal.Print(number)
  }

  function Remove(ids: seq<string>, id: string): (left: seq<string>)
    ensures forall x :: x in left <==> x in ids && x != id
  {
    if ids == [] then []
    else (if ids[0] != id then [ids[0]] else []) + Remove(ids[1..], id)
  }

  /** The last id that is not the leader's. */
  function LastOther(ids: seq<string>): (found: Option<string>)
    ensures found.Some? ==> found.value in ids && found.value != LEADER
    ensures found.None? ==> forall i | 0 <= i < |ids| :: ids[i] == LEADER
  {
    if ids == [] then None
    else if ids[|ids| - 1] != LEADER then Some(ids[|ids| - 1])
    else LastOther(ids[..|ids| - 1])
  }

  datatype Team = Team(panes: map<string, Pane>, order: seq<string>, next: nat, layout: Option<Layout>,
                       focused: Option<string>)
  {
    /** `team:window`, the session's name and `@window` name the window. */
    predicate IsWindowTarget(target: string) {
      ':' in target || target == SESSION || (target != "" && target[0] == '@')
    }

    function LastColumn(): Option<string> {
      if layout.Some? then layout.value.lastColumn else None
    }

    /** Which live pane is split, and how: a horizontal split goes on in the last column if there is one. */
    function SplitTarget(target: Pane, horizontal: bool): (Pane, Direction) {
      if horizontal && LastColumn().Some? && LastColumn().value in panes then (panes[LastColumn().value], Horizontal)
      else (target, if horizontal then Vertical else Horizontal)
    }

    function LayoutAfterSplit(id: string, origin: string, direction: Direction): Option<Layout> {
      if layout.Some? then Some(layout.value.(lastColumn := Some(id)))
      else if direction == Vertical && origin == LEADER then Some(Layout(LEADER, Some(id)))
      else None
    }

    /** `reply` is the handle of the new terminal, or the error of the remote call. */
    function Split(parsed: ParsedArgs, envPane: string, reply: Result<string>): (Team, Result<string>) {
      var target := parsed.Value('t').GetOr(envPane);
      if target !in panes then (this, Err("unknown pane: " + target))
      else
        var id := PaneId(next);
        var (origin, direction) := SplitTarget(panes[target], 'h' in parsed.flags);
        match reply
        case Err(error) => (this.(next := next + 1), Err(error))
        case Ok(handle) =>
          (AddPane(Pane(id, handle, |order|, Some(origin.id), Some(direction)),
                   LayoutAfterSplit(id, origin.id, direction)),
           Ok(Printed(parsed, Pane(id, handle, |order|, Some(origin.id), Some(direction)))))
    }

    function SplitAsks(parsed: ParsedArgs, envPane: string): seq<Request> {
      var target := parsed.Value('t').GetOr(envPane);
      if target !in panes then []
      else
        var (origin, direction) := SplitTarget(panes[target], 'h' in parsed.flags);
        var text := Join(parsed.positional, " ");
        [SplitTerminal(origin.handle, direction, if text == "" then None else Some(text), PaneId(next))]
    }

    function AddPane(pane: Pane, after: Option<Layout>): Team {
      this.(panes := panes[pane.id := pane], order := order + [pane.id], next := next + 1, layout := after)
    }

    /** `reply` is the replacement's handle; `closed` says whether the old terminal could be closed. */
    function Respawn(parsed: ParsedArgs, envPane: string, reply: Result<string>, closed: Result<()>)
      : (Team, Result<string>)
    {
      var target := parsed.Value('t').GetOr(envPane);
      if target !in panes then (this, Err("unknown pane: " + target))
      else if panes[target].id == LEADER then (this, Err("refusing to respawn leader pane"))
      else if Join(parsed.positional, " ") == "" then (this, Ok(""))
      else if RespawnOrigin(panes[target]).None? then (this, Err("leader pane is missing"))
      else match (reply, closed)
        case (Err(error), _) => (this, Err(error))
        case (_, Err(error)) => (this, Err(error))
        case (Ok(handle), Ok(_)) => (this.(panes := panes[target := panes[target].(handle := handle)]), Ok(""))
    }

    /** The pane that this one was split from, if it is still there, else the leader. */
    function RespawnOrigin(pane: Pane): Option<Pane> {
      if pane.splitFrom.Some? && pane.splitFrom.value in panes then Some(panes[pane.splitFrom.value])
      else if LEADER in panes then Some(panes[LEADER])
      else None
    }

    /** If the old terminal cannot be closed, the new one is closed again. */
    function RespawnAsks(parsed: ParsedArgs, envPane: string, reply: Result<string>, closed: Result<()>): seq<Request> {
      var target, text := parsed.Value('t').GetOr(envPane), Join(parsed.positional, " ");
      if target !in panes || panes[target].id == LEADER || text == "" then []
      else if RespawnOrigin(panes[target]).None? then []
      else
        var pane := panes[target];
        [SplitTerminal(RespawnOrigin(pane).value.handle, pane.direction.GetOr(Horizontal), Some(text), pane.id)]
        + (if reply.Err? then [] else [CloseTerminal(pane.handle)])
        + (if reply.Ok? && closed.Err? then [CloseTerminal(reply.value)] else [])
    }

    function SelectLayout(parsed: ParsedArgs, envPane: string): (Team, Result<string>) {
      var name := if parsed.positional != [] then parsed.positional[0] else "";
      if name == "main-vertical" then
        var target := parsed.Value('t').GetOr(envPane);
        if !IsWindowTarget(target) && target !in panes then (this, Err("unknown pane: " + target))
        else
          var chosen := if !IsWindowTarget(target) && panes[target].id != LEADER then Some(panes[target].id) else None;
          var last := if LastColumn().Some? then LastColumn() else chosen;
          (this.(layout := Some(Layout(LEADER, last))), Ok(""))
      else if name != "" then (this.(layout := None), Ok(""))
      else (this, Ok(""))
    }

    function SelectPane(parsed: ParsedArgs, envPane: string, focusReply: Result<()>): (Team, Result<string>) {
      if parsed.Value('P').Some? || parsed.Value('T').Some? then (this, Ok(""))
      else
        var target := parsed.Value('t').GetOr(envPane);
        if target !in panes then (this, Err("unknown pane: " + target))
        else match focusReply
          case Err(error) => (this.(focused := Some(envPane)), Err(error))
          case Ok(_) => (this.(focused := Some(envPane)), Ok(""))
    }

    function SelectPaneAsks(parsed: ParsedArgs, envPane: string): seq<Request> {
      var target := parsed.Value('t').GetOr(envPane);
      if parsed.Value('P').Some? || parsed.Value('T').Some? || target !in panes then []
      else [FocusTerminal(panes[target].handle)]
    }

    function Type(parsed: ParsedArgs, envPane: string, sent: Result<()>): (Team, Result<string>) {
      var target := parsed.Value('t').GetOr(envPane);
      if target !in panes then (this, Err("unknown pane: " + target))
      else if SendKeys.KeysText(parsed.positional, 'l' in parsed.flags) == "" then (this, Ok(""))
      else match sent
        case Err(error) => (this, Err(error))
        case Ok(_) => (this, Ok(""))
    }

    function TypeAsks(parsed: ParsedArgs, envPane: string): seq<Request> {
      var target, text := parsed.Value('t').GetOr(envPane), SendKeys.KeysText(parsed.positional, 'l' in parsed.flags);
      if target !in panes || text == "" then [] else [TypeInto(panes[target].handle, text)]
    }

    function KillAsks(parsed: ParsedArgs, envPane: string): seq<Request> {
      var target := parsed.Value('t').GetOr(envPane);
      if target !in panes || panes[target].id == LEADER then [] else [CloseTerminal(panes[target].handle)]
    }

    function Kill(parsed: ParsedArgs, envPane: string, closed: Result<()>): (Team, Result<string>) {
      var target := parsed.Value('t').GetOr(envPane);
      if target !in panes then (this, Err("unknown pane: " + target))
      else
        var id := panes[target].id;
        if id == LEADER then (this, Err("refusing to kill leader pane"))
        else match closed
          case Err(error) => (this, Err(error))
          case Ok(_) =>
            var left := Remove(order, id);
            (this.(panes := panes - {id}, order := left,
                   layout := if LastColumn() == Some(id) then Some(layout.value.(lastColumn := LastOther(left)))
                             else layout),
             Ok(""))
    }
  }

  const FRESH := Team(map[LEADER := Pane(LEADER, "", 0, None, None)], [LEADER], 2, None, None)

  const SPLIT_OPTIONS := Known({'c', 'F', 'l', 't'}, {'P', 'b', 'd', 'f', 'h', 'v'})
  const RESPAWN_OPTIONS := Known({'c', 'e', 't'}, {'k'})
  const SELECT_PANE_OPTIONS := Known({'P', 'T', 't'}, {})
  const TARGET_ONLY := Known({'t'}, {})

  const SEND_KEYS_OPTIONS := Known({'t'}, {'l'})

  /** A command of the shim with its arguments, the pane it is called from, and the replies of the remote calls it
      makes. Commands that only read the team are `Look`. */
  datatype Command =
    | SplitWindow(args: seq<string>, envPane: string, reply: Result<string>)
    | RespawnPane(args: seq<string>, envPane: string, reply: Result<string>, closed: Result<()>)
    | SelectLayout(args: seq<string>, envPane: string)
    | SelectPane(args: seq<string>, envPane: string, focusReply: Result<()>)
    | KillPane(args: seq<string>, envPane: string, closed: Result<()>)
    | TypeKeys(args: seq<string>, envPane: string, sent: Result<()>)
    | Look(envPane: string, answer: Result<string>)

  function Parsed(known: Known, args: seq<string>): ParsedArgs {
    ParseFrom(known, EMPTY, args)
  }

  /** The command by itself. */
  function Dispatched(team: Team, command: Command): (Team, Result<string>) {
    match command
    case SplitWindow(args, envPane, reply) => team.Split(Parsed(SPLIT_OPTIONS, args), envPane, reply)
    case RespawnPane(args, envPane, reply, closed) =>
      team.Respawn(Parsed(RESPAWN_OPTIONS, args), envPane, reply, closed)
    case SelectLayout(args, envPane) => team.SelectLayout(Parsed(TARGET_ONLY, args), envPane)
    case SelectPane(args, envPane, focusReply) =>
      team.SelectPane(Parsed(SELECT_PANE_OPTIONS, args), envPane, focusReply)
    case KillPane(args, envPane, closed) => team.Kill(Parsed(TARGET_ONLY, args), envPane, closed)
    case TypeKeys(args, envPane, sent) => team.Type(Parsed(SEND_KEYS_OPTIONS, args), envPane, sent)
    case Look(_, answer) => (team, answer)
  }

  /** What is asked of the application; reading commands may ask for the contents of a terminal. */
  function Asked(team: Team, command: Command): seq<Request> {
    match command
    case SplitWindow(args, envPane, _) => team.SplitAsks(Parsed(SPLIT_OPTIONS, args), envPane)
    case RespawnPane(args, envPane, reply, closed) =>
      team.RespawnAsks(Parsed(RESPAWN_OPTIONS, args), envPane, reply, closed)
    case SelectLayout(_, _) => []
    case SelectPane(args, envPane, _) => team.SelectPaneAsks(Parsed(SELECT_PANE_OPTIONS, args), envPane)
    case KillPane(args, envPane, _) => team.KillAsks(Parsed(TARGET_ONLY, args), envPane)
    case TypeKeys(args, envPane, _) => team.TypeAsks(Parsed(SEND_KEYS_OPTIONS, args), envPane)
    case Look(_, _) => []
  }

  /** A command is refused when the pane it is called from is not one of the team's. */
  function Do(team: Team, command: Command): (Team, Result<string>) {
    if command.envPane !in team.panes then (team, Err("unknown pane: " + command.envPane))
    else Dispatched(team, command)
  }

  function Asks(team: Team, command: Command): seq<Request> {
    if command.envPane !in team.panes then [] else Asked(team, command)
  }

  /** What is persisted after a command: its team if it succeeded, the old one if it failed. */
  function Commit(team: Team, command: Command): Team {
    if Do(team, command).1.Ok? then Do(team, command).0 else team
  }

  class AgentTeamState {
    var panes: map<string, Pane>
    var order: seq<string>
    var next: nat
    var layout: Option<Layout>
    var focused: Option<string>
    ghost var asked: seq<Request>

    ghost function View(): Team
      reads this
    {
      Team(panes, order, next, layout, focused)
    }

    constructor (leaderHandle: string)
      ensures View() == FRESH.(panes := map[LEADER := Pane(LEADER, leaderHandle, 0, None, None)]) && asked == []
    {
      panes := map[LEADER := Pane(LEADER, leaderHandle, 0, None, None)];
      order, next, layout, focused, asked := [LEADER], 2, None, None, [];
    }

    method Ask(request: Request)
      modifies `asked
      ensures asked == old(asked) + [request]
    {
      asked := asked + [request];
    }

    /** What the shim does once it has the team. */
    method Run(command: Command) returns (result: Result<string>)
      modifies this
      ensures (View(), result) == Do(old(View()), command) && asked == old(asked) + Asks(old(View()), command)
    {
      if command.envPane !in panes { return Err("unknown pane: " + command.envPane); }
      match command {
        case SplitWindow(args, envPane, reply) => result := SplitWindow(args, envPane, reply);
        case RespawnPane(args, envPane, reply, closed) => result := RespawnPane(args, envPane, reply, closed);
        case SelectLayout(args, envPane) => result := SelectLayout(args, envPane);
        case SelectPane(args, envPane, focusReply) => result := SelectPane(args, envPane, focusReply);
        case KillPane(args, envPane, closed) => result := KillPane(args, envPane, closed);
        case TypeKeys(args, envPane, sent) => result := TypeKeys(args, envPane, sent);
        case Look(_, answer) => result := answer;
      }
    }

    method SplitWindow(args: seq<string>, envPane: string, reply: Result<string>) returns (result: Result<string>)
      modifies this
      ensures (View(), result) == Dispatched(old(View()), Command.SplitWindow(args, envPane, reply))
      ensures asked == old(asked) + Asked(old(View()), Command.SplitWindow(args, envPane, reply))
    {
      hide Join, ParseFrom, PaneId, Printed, ParsedArgs.Value;
      var parsed := ParseTmuxArgs(args, SPLIT_OPTIONS);
      var target := parsed.Value('t').GetOr(envPane);
      if target !in panes { return Err("unknown pane: " + target); }
      var id := PaneId(next);
      next := next + 1;
      var origin, direction := SplitTarget(panes[target], 'h' in parsed.flags);
      var text := Join(parsed.positional, " ");
      Ask(SplitTerminal(origin.handle, direction, if text == "" then None else Some(text), id));
      if reply.Err? { return Err(reply.error); }
      var pane := Pane(id, reply.value, |order|, Some(origin.id), Some(direction));
      panes := panes[id := pane];
      order := order + [id];
      UpdateMainVertical(id, origin.id, direction);
      var printed := Print(parsed, pane);
      result := Ok(printed);
    }

    method Print(parsed: ParsedArgs, pane: Pane) returns (printed: string)
      ensures printed == Printed(parsed, pane)
    {
      hide PaneFormat.Render, FormatValues;
      if 'P' !in parsed.flags { return ""; }
      printed := PaneFormat.RenderFormat(parsed.Value('F').GetOr(""), FormatValues(pane), pane.id);
      printed := printed + "\n";
    }

    method SplitTarget(target: Pane, horizontal: bool) returns (origin: Pane, direction: Direction)
      ensures (origin, direction) == View().SplitTarget(target, horizontal)
    {
      if horizontal && layout.Some? && layout.value.lastColumn.Some? && layout.value.lastColumn.value in panes {
        return panes[layout.value.lastColumn.value], Horizontal;
      }
      origin, direction := target, if horizontal then Vertical else Horizontal;
    }

    method UpdateMainVertical(id: string, origin: string, direction: Direction)
      modifies `layout
      ensures layout == old(View()).LayoutAfterSplit(id, origin, direction)
    {
      if layout.Some? {
        layout := Some(layout.value.(lastColumn := Some(id)));
      } else if direction == Vertical && origin == LEADER {
        layout := Some(Layout(LEADER, Some(id)));
      }
    }

    method KillPane(args: seq<string>, envPane: string, closed: Result<()>) returns (result: Result<string>)
      modifies this
      ensures (View(), result) == Dispatched(old(View()), Command.KillPane(args, envPane, closed))
      ensures asked == old(asked) + Asked(old(View()), Command.KillPane(args, envPane, closed))
    {
      hide ParseFrom;
      var parsed := ParseTmuxArgs(args, TARGET_ONLY);
      var target := parsed.Value('t').GetOr(envPane);
      if target !in panes { return Err("unknown pane: " + target); }
      var id := panes[target].id;
      if id == LEADER { return Err("refusing to kill leader pane"); }
      Ask(CloseTerminal(panes[target].handle));
      if closed.Err? { return Err(closed.error); }
      panes := panes - {id};
      order := Remove(order, id);
      if layout.Some? && layout.value.lastColumn == Some(id) {
        var replacement := LastOther(order);
        layout := Some(layout.value.(lastColumn := replacement));
      }
      result := Ok("");
    }

    method RespawnPane(args: seq<string>, envPane: string, reply: Result<string>, closed: Result<()>)
      returns (result: Result<string>)
      modifies this
      ensures (View(), result) == Dispatched(old(View()), Command.RespawnPane(args, envPane, reply, closed))
      ensures asked == old(asked) + Asked(old(View()), Command.RespawnPane(args, envPane, reply, closed))
    {
      hide Join, ParseFrom;
      var parsed := ParseTmuxArgs(args, RESPAWN_OPTIONS);
      var target := parsed.Value('t').GetOr(envPane);
      if target !in panes { return Err("unknown pane: " + target); }
      var pane := panes[target];
      if pane.id == LEADER { return Err("refusing to respawn leader pane"); }
      var text := Join(parsed.positional, " ");
      if text == "" { return Ok(""); }
      var from := pane.splitFrom;
      var origin :=
        if from.Some? && from.value in panes then Some(panes[from.value])
        else if LEADER in panes then Some(panes[LEADER])
        else None;
      if origin.None? { return Err("leader pane is missing"); }
      Ask(SplitTerminal(origin.value.handle, pane.direction.GetOr(Horizontal), Some(text), pane.id));
      if reply.Err? { return Err(reply.error); }
      Ask(CloseTerminal(pane.handle));
      if closed.Err? {
        Ask(CloseTerminal(reply.value));
        return Err(closed.error);
      }
      panes := panes[target := panes[target].(handle := reply.value)];
      result := Ok("");
    }

    method SelectPane(args: seq<string>, envPane: string, focusReply: Result<()>) returns (result: Result<string>)
      modifies this
      ensures (View(), result) == Dispatched(old(View()), Command.SelectPane(args, envPane, focusReply))
      ensures asked == old(asked) + Asked(old(View()), Command.SelectPane(args, envPane, focusReply))
    {
      hide ParseFrom;
      var parsed := ParseTmuxArgs(args, SELECT_PANE_OPTIONS);
      if parsed.Value('P').Some? || parsed.Value('T').Some? { return Ok(""); }
      var target := parsed.Value('t').GetOr(envPane);
      if target !in panes { return Err("unknown pane: " + target); }
      focused := Some(envPane);
      Ask(FocusTerminal(panes[target].handle));
      result := if focusReply.Ok? then Ok("") else Err(focusReply.error);
    }

    method TypeKeys(args: seq<string>, envPane: string, sent: Result<()>) returns (result: Result<string>)
      modifies `asked
      ensures (View(), result) == Dispatched(old(View()), Command.TypeKeys(args, envPane, sent))
      ensures asked == old(asked) + Asked(old(View()), Command.TypeKeys(args, envPane, sent))
    {
      hide SendKeys.KeysText, ParseFrom;
      var parsed := ParseTmuxArgs(args, SEND_KEYS_OPTIONS);
      var target := parsed.Value('t').GetOr(envPane);
      if target !in panes { return Err("unknown pane: " + target); }
      var text := SendKeys.SendKeysText(parsed.positional, 'l' in parsed.flags);
      if text != "" {
        Ask(TypeInto(panes[target].handle, text));
        if sent.Err? { return Err(sent.error); }
      }
      result := Ok("");
    }

    method SelectLayout(args: seq<string>, envPane: string) returns (result: Result<string>)
      modifies this
      ensures (View(), result) == Dispatched(old(View()), Command.SelectLayout(args, envPane))
      ensures asked == old(asked)
    {
      hide ParseFrom;
      var parsed := ParseTmuxArgs(args, TARGET_ONLY);
      var name := if parsed.positional != [] then parsed.positional[0] else "";
      if name == "main-vertical" {
        var target := parsed.Value('t').GetOr(envPane);
        var isWindow := ':' in target || target == SESSION || (target != "" && target[0] == '@');
        if !isWindow && target !in panes { return Err("unknown pane: " + target); }
        var last := if layout.Some? then layout.value.lastColumn else None;
        if last.None? && !isWindow && panes[target].id != LEADER {
          last := Some(panes[target].id);
        }
        layout := Some(Layout(LEADER, last));
      } else if name != "" {
        layout := None;
      }
      result := Ok("");
    }
  }

  // What every command keeps

  /** An id that has been given out. */
  predicate Issued(next: nat, id: string) {
    exists n | 0 < n < next :: id == PaneId(n)
  }

  /** The pane was split from one with a smaller number (which may be gone by now). */
  predicate FromSmaller(next: nat, id: string, origin: string) {
    exists m, n | 0 < m < n < next :: id == PaneId(n) && origin == PaneId(m)
  }

  /** The order lists the panes once each, every pane is stored under its own id, the leader is first. */
  ghost predicate Listed(panes: map<string, Pane>, order: seq<string>) {
    && Distinct(order)
    && (forall id :: id in order <==> id in panes)
    && (forall id :: id in panes ==> panes[id].id == id)
    && LEADER in panes && order[0] == LEADER
  }

  ghost predicate Numbered(panes: map<string, Pane>, next: nat) {
    && (forall id :: id in panes ==> Issued(next, id))
    && (forall id :: id in panes && panes[id].splitFrom.Some? ==> FromSmaller(next, id, panes[id].splitFrom.value))
  }

  ghost predicate Consistent(team: Team) {
    && Listed(team.panes, team.order)
    && Numbered(team.panes, team.next)
    && (team.LastColumn().Some? ==> team.LastColumn().value in team.panes && team.LastColumn().value != LEADER)
  }

  lemma FreshIsConsistent()
    ensures Consistent(FRESH) && LastColumnIsLast(FRESH)
  {
    assert PaneId(1) == LEADER;
    assert Issued(FRESH.next, LEADER);
  }

  lemma NextIdIsNew(team: Team)
    ensures !Issued(team.next, PaneId(team.next))
  {
    forall n | 0 < n < team.next && PaneId(team.next) == PaneId(n)
      ensures false
    {
      assert PaneId(n)[1..] == Decimal.Print(n) && PaneId(team.next)[1..] == Decimal.Print(team.next);
      Decimal.PrintInjective(n, team.next);
    }
  }

  ghost predicate Distinct(ids: seq<string>) {
    forall i, j | 0 <= i < j < |ids| :: ids[i] != ids[j]
  }

  lemma DistinctCons(first: string, rest: seq<string>)
    requires Distinct(rest) && first !in rest
    ensures Distinct([first] + rest)
  {
  }

  lemma {:induction false} RemoveDistinct(ids: seq<string>, id: string)
    requires Distinct(ids)
    ensures Distinct(Remove(ids, id))
  {
    if ids != [] {
      var rest := Remove(ids[1..], id);
      RemoveDistinct(ids[1..], id);
      assert forall x :: x in rest ==> x in ids[1..];
      if ids[0] != id {
        DistinctCons(ids[0], rest);
      } else {
        assert [] + rest == rest;
      }
    }
  }

  lemma {:induction false} RemoveEnds(ids: seq<string>, id: string)
    ensures ids != [] && ids[0] != id ==> Remove(ids, id) != [] && Remove(ids, id)[0] == ids[0]
    ensures ids != [] && ids[|ids| - 1] != id ==>
      Remove(ids, id) != [] && Remove(ids, id)[|Remove(ids, id)| - 1] == ids[|ids| - 1]
  {
    if ids != [] {
      RemoveEnds(ids[1..], id);
    }
  }

  lemma RemoveKeeps(ids: seq<string>, id: string)
    requires Distinct(ids)
    ensures Distinct(Remove(ids, id))
    ensures ids != [] && ids[0] != id ==> Remove(ids, id) != [] && Remove(ids, id)[0] == ids[0]
    ensures ids != [] && ids[|ids| - 1] != id ==>
      Remove(ids, id) != [] && Remove(ids, id)[|Remove(ids, id)| - 1] == ids[|ids| - 1]
  {
    RemoveDistinct(ids, id);
    RemoveEnds(ids, id);
  }

  lemma NewId(next: nat, origin: string)
    requires next > 0 && Issued(next, origin)
    ensures Issued(next + 1, PaneId(next)) && FromSmaller(next + 1, PaneId(next), origin)
  {
  }

  lemma IssuedStays(before: nat, after: nat)
    requires before <= after
    ensures forall id :: Issued(before, id) ==> Issued(after, id)
    ensures forall id, origin :: FromSmaller(before, id, origin) ==> FromSmaller(after, id, origin)
  {
  }

  lemma AddNumbered(team: Team, pane: Pane, origin: string)
    requires Listed(team.panes, team.order) && Numbered(team.panes, team.next)
    requires pane.id == PaneId(team.next) && pane.splitFrom == Some(origin) && origin in team.panes
    ensures Numbered(team.panes[pane.id := pane], team.next + 1)
    ensures pane.id !in team.panes
  {
    assert team.next > 0 by {
      assert Issued(team.next, LEADER);
    }
    hide Issued, FromSmaller, PaneId, Listed, Distinct;
    IssuedStays(team.next, team.next + 1);
    NextIdIsNew(team);
    NewId(team.next, origin);
    var after := team.panes[pane.id := pane];
    forall id | id in after
      ensures Issued(team.next + 1, id)
      ensures after[id].splitFrom.Some? ==> FromSmaller(team.next + 1, id, after[id].splitFrom.value)
    {
      if id != pane.id {
        assert Issued(team.next, id) && after[id] == team.panes[id];
      }
    }
  }

  lemma AddConsistent(team: Team, pane: Pane, origin: string, after: Option<Layout>)
    requires Consistent(team) && pane.id == PaneId(team.next) && pane.splitFrom == Some(origin) && origin in team.panes
    requires after.None? || after.value.lastColumn == Some(pane.id)
    ensures Consistent(team.AddPane(pane, after))
  {
    AddNumbered(team, pane, origin);
    hide Numbered, PaneId;
    DistinctAppend(team.order, pane.id);
  }

  lemma DistinctAppend(ids: seq<string>, last: string)
    requires Distinct(ids) && last !in ids
    ensures Distinct(ids + [last])
  {
  }

  lemma SplitConsistent(team: Team, parsed: ParsedArgs, envPane: string, reply: Result<string>)
    requires Consistent(team) && team.Split(parsed, envPane, reply).1.Ok?
    ensures Consistent(team.Split(parsed, envPane, reply).0)
  {
    hide Issued, FromSmaller, PaneId;
    var target, id := parsed.Value('t').GetOr(envPane), PaneId(team.next);
    var (origin, direction) := team.SplitTarget(team.panes[target], 'h' in parsed.flags);
    AddConsistent(team, Pane(id, reply.value, |team.order|, Some(origin.id), Some(direction)), origin.id,
      team.LayoutAfterSplit(id, origin.id, direction));
  }

  lemma ListedWithout(panes: map<string, Pane>, order: seq<string>, id: string)
    requires Listed(panes, order) && id != LEADER
    ensures Listed(panes - {id}, Remove(order, id))
  {
    RemoveKeeps(order, id);
  }

  lemma KillConsistent(team: Team, parsed: ParsedArgs, envPane: string, closed: Result<()>)
    requires Consistent(team)
    ensures Consistent(team.Kill(parsed, envPane, closed).0)
  {
    hide Issued, FromSmaller;
    var target := parsed.Value('t').GetOr(envPane);
    if target in team.panes && target != LEADER {
      ListedWithout(team.panes, team.order, target);
    }
  }

  lemma RespawnConsistent(team: Team, parsed: ParsedArgs, envPane: string, reply: Result<string>, closed: Result<()>)
    requires Consistent(team)
    ensures Consistent(team.Respawn(parsed, envPane, reply, closed).0)
  {
    hide Issued, FromSmaller, Join;
  }

  lemma LayoutConsistent(team: Team, parsed: ParsedArgs, envPane: string)
    requires Consistent(team)
    ensures Consistent(team.SelectLayout(parsed, envPane).0)
  {
    hide Issued, FromSmaller;
  }

  /** `pane_order` lists the panes without repetition, every pane is stored under its own id, the leader
      is there and first, every id is issued, and the last column is a live pane other than the leader. */
  lemma CommitConsistent(team: Team, command: Command)
    requires Consistent(team)
    ensures Consistent(Commit(team, command))
  {
    hide Issued, FromSmaller, ParseFrom;
    if command.envPane !in team.panes { return; }
    match command {
      case SplitWindow(args, envPane, reply) =>
        if Do(team, command).1.Ok? {
          SplitConsistent(team, Parsed(SPLIT_OPTIONS, args), envPane, reply);
        }
      case RespawnPane(args, envPane, reply, closed) =>
        RespawnConsistent(team, Parsed(RESPAWN_OPTIONS, args), envPane, reply, closed);
      case SelectLayout(args, envPane) => LayoutConsistent(team, Parsed(TARGET_ONLY, args), envPane);
      case SelectPane(args, envPane, focusReply) =>
      case KillPane(args, envPane, closed) => KillConsistent(team, Parsed(TARGET_ONLY, args), envPane, closed);
      case TypeKeys(_, _, _) =>
      case Look(_, _) =>
    }
  }

  lemma NumbersGrow(team: Team, command: Command)
    ensures team.next <= Commit(team, command).next
  {
  }

  // Runs

  function CommitAll(team: Team, commands: seq<Command>): Team
    decreases |commands|
  {
    if commands == [] then team else CommitAll(Commit(team, commands[0]), commands[1..])
  }

  lemma {:induction false} RunsStayConsistent(team: Team, commands: seq<Command>)
    requires Consistent(team)
    ensures Consistent(CommitAll(team, commands)) && team.next <= CommitAll(team, commands).next
    decreases |commands|
  {
    if commands != [] {
      CommitConsistent(team, commands[0]);
      NumbersGrow(team, commands[0]);
      RunsStayConsistent(Commit(team, commands[0]), commands[1..]);
    }
  }

  /** A new pane always gets an id that was never issued before. */
  lemma OnlyNewIdsAppear(team: Team, command: Command, id: string)
    requires Consistent(team) && id in Commit(team, command).panes && id !in team.panes
    ensures !Issued(team.next, id)
  {
    hide Issued, PaneId, ParseFrom;
    NextIdIsNew(team);
  }

  /** Ids are never reused: once a pane is gone, no run of commands brings its id back. */
  lemma {:induction false} GoneStaysGone(team: Team, commands: seq<Command>, id: string)
    requires Consistent(team) && Issued(team.next, id) && id !in team.panes
    ensures id !in CommitAll(team, commands).panes
    decreases |commands|
  {
    if commands != [] {
      CommitConsistent(team, commands[0]);
      NumbersGrow(team, commands[0]);
      IssuedStays(team.next, Commit(team, commands[0]).next);
      if id in Commit(team, commands[0]).panes {
        OnlyNewIdsAppear(team, commands[0], id);
      }
      GoneStaysGone(Commit(team, commands[0]), commands[1..], id);
    }
  }

  // The last column

  /** Every split is horizontal, and the layout is not selected by name. */
  predicate Columns(command: Command) {
    match command
    case SplitWindow(args, _, _) => 'h' in Parsed(SPLIT_OPTIONS, args).flags
    case SelectLayout(_, _) => false
    case _ => true
  }

  /** While a pane besides the leader is live, the last column is the last pane of the order. */
  ghost predicate LastColumnIsLast(team: Team) {
    && |team.order| >= 1
    && if |team.order| > 1 then team.LastColumn() == Some(team.order[|team.order| - 1]) else team.LastColumn().None?
  }

  lemma LeaderOnly(team: Team, id: string)
    requires Consistent(team) && |team.order| <= 1 && id in team.panes
    ensures id == LEADER
  {
    assert id in team.order;
  }

  lemma LastOtherIsLast(ids: seq<string>)
    requires Distinct(ids) && ids != [] && ids[0] == LEADER
    ensures LastOther(ids) == if |ids| > 1 then Some(ids[|ids| - 1]) else None
  {
  }

  lemma SplitKeepsLast(team: Team, parsed: ParsedArgs, envPane: string, reply: Result<string>)
    requires Consistent(team) && LastColumnIsLast(team) && 'h' in parsed.flags
    ensures reply.Ok? ==> LastColumnIsLast(team.Split(parsed, envPane, reply).0)
  {
    var target := parsed.Value('t').GetOr(envPane);
    if target in team.panes && |team.order| == 1 {
      LeaderOnly(team, target);
    }
  }

  lemma KillKeepsLast(team: Team, parsed: ParsedArgs, envPane: string, closed: Result<()>)
    requires Consistent(team) && LastColumnIsLast(team)
    ensures LastColumnIsLast(team.Kill(parsed, envPane, closed).0)
  {
    var target := parsed.Value('t').GetOr(envPane);
    if target in team.panes && target != LEADER {
      RemoveKeeps(team.order, target);
      LastOtherIsLast(Remove(team.order, target));
      if team.order[|team.order| - 1] != target {
        OthersLeft(team.order, target);
      }
    }
  }

  lemma OthersLeft(ids: seq<string>, id: string)
    requires Distinct(ids) && |ids| > 1 && ids[|ids| - 1] != id && ids[0] != id
    ensures |Remove(ids, id)| > 1
  {
    assert ids[0] in Remove(ids, id) && ids[|ids| - 1] in Remove(ids, id);
  }

  lemma ColumnsKeepLast(team: Team, command: Command)
    requires Consistent(team) && LastColumnIsLast(team) && Columns(command)
    ensures LastColumnIsLast(Commit(team, command))
  {
    hide Consistent, ParseFrom;
    match command {
      case SplitWindow(args, envPane, reply) => SplitKeepsLast(team, Parsed(SPLIT_OPTIONS, args), envPane, reply);
      case KillPane(args, envPane, closed) => KillKeepsLast(team, Parsed(TARGET_ONLY, args), envPane, closed);
      case _ =>
    }
  }

  /** In any run of horizontal splits, kills and the rest, from a fresh team: as long as another pane is
      live, the next horizontal split goes to the last pane of the order, never again to the leader. */
  lemma {:induction false} SplitsGoToTheLastColumn(team: Team, commands: seq<Command>, target: string)
    requires Consistent(team) && LastColumnIsLast(team)
    requires forall i | 0 <= i < |commands| :: Columns(commands[i])
    requires target in CommitAll(team, commands).panes && |CommitAll(team, commands).order| > 1
    ensures var after := CommitAll(team, commands);
      var (origin, direction) := after.SplitTarget(after.panes[target], true);
      origin.id == after.order[|after.order| - 1] && origin.id != LEADER && direction == Horizontal
    decreases |commands|
  {
    if commands == [] {
      assert team.order[|team.order| - 1] in team.order;
    } else {
      CommitConsistent(team, commands[0]);
      ColumnsKeepLast(team, commands[0]);
      SplitsGoToTheLastColumn(Commit(team, commands[0]), commands[1..], target);
    }
  }
}
