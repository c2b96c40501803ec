/** Which pane a command means, and what it does to that pane, whatever its other arguments. */
module AgentTargets {
  import opened Text
  import opened TmuxArgs
  import opened AgentTeam
  import PaneFormat
  import SendKeys

  /** Options and words of a command, as somebody writes them. */
  predicate Written(known: Known, options: seq<Opt>) {
    known.Valid() && forall i | 0 <= i < |options| :: Printable(known, options[i])
  }

  /** The last value of an option. */
  function LastGiven(options: seq<Opt>, flag: char): Option<string> {
    var given := ValuesOf(options, flag);
    if given == [] then None else Some(given[|given| - 1])
  }

  /** The pane after the last `-t`; without one, the pane the command is called from. */
  function Meant(options: seq<Opt>, envPane: string): string {
    LastGiven(options, 't').GetOr(envPane)
  }

  function WordsGiven(options: seq<Opt>, tail: Option<seq<string>>): seq<string> {
    WordsOf(options) + tail.GetOr([])
  }

  lemma ParsedIs(known: Known, options: seq<Opt>, tail: Option<seq<string>>)
    requires Written(known, options)
    ensures var parsed := Parsed(known, Print(options, tail));
      && parsed.flags == FlagsOf(options) && parsed.positional == WordsGiven(options, tail)
      && forall flag :: parsed.Value(flag) == LastGiven(options, flag)
  {
    hide ParseFrom;
    ParseReadsPrinted(known, EMPTY, options, tail);
    var parsed := Parsed(known, Print(options, tail));
    assert {} + FlagsOf(options) == FlagsOf(options) && [] + WordsOf(options) == WordsOf(options);
    forall flag ensures parsed.Value(flag) == LastGiven(options, flag) {
      assert EMPTY.All(flag) == [] && [] + ValuesOf(options, flag) == ValuesOf(options, flag);
      assert parsed.All(flag) == ValuesOf(options, flag);
    }
  }

  /** What a consistent team says of a pane. */
  lemma PanesKnowTheirIds(team: Team)
    requires Consistent(team)
    ensures LEADER in team.panes && forall id | id in team.panes :: team.panes[id].id == id
    ensures team.LastColumn().Some? ==> team.LastColumn().value in team.panes && team.LastColumn().value != LEADER
    ensures Distinct(team.order) && forall id :: id in team.order <==> id in team.panes
  {
    hide Numbered, Distinct;
  }

  // Killing

  /** `after` is `before` without `id`, in the same order. */
  ghost predicate Drops(before: seq<string>, id: string, after: seq<string>) {
    exists a, b :: before == a + [id] + b && after == a + b
  }

  lemma {:induction false} RemoveAbsent(ids: seq<string>, id: string)
    requires id !in ids
    ensures Remove(ids, id) == ids
  {
    if ids != [] {
      RemoveAbsent(ids[1..], id);
    }
  }

  lemma {:induction false} RemoveAround(a: seq<string>, id: string, b: seq<string>)
    requires id !in a && id !in b
    ensures Remove(a + [id] + b, id) == a + b
  {
    var all := a + [id] + b;
    if a == [] {
      assert all[1..] == b;
      RemoveAbsent(b, id);
    } else {
      assert all[1..] == a[1..] + [id] + b;
      RemoveAround(a[1..], id, b);
      assert [a[0]] + (a[1..] + b) == a + b;
    }
  }

  lemma RemoveDrops(ids: seq<string>, id: string)
    requires Distinct(ids) && id in ids
    ensures Drops(ids, id, Remove(ids, id))
  {
    var k :| 0 <= k < |ids| && ids[k] == id;
    var a, b := ids[..k], ids[k + 1..];
    assert ids == a + [id] + b;
    RemoveAround(a, id, b);
  }

  /** `kill-pane` kills the pane that is meant and no other: it works exactly when that pane is live, not the
      leader, and its terminal, which is the one asked for, could be closed. */
  lemma KillsTheMeant(team: Team, options: seq<Opt>, tail: Option<seq<string>>, envPane: string, closed: Result<()>)
    requires Consistent(team) && Written(TARGET_ONLY, options) && envPane in team.panes
    ensures var (id, command) := (Meant(options, envPane), KillPane(Print(options, tail), envPane, closed));
      var (after, result) := Do(team, command);
      && (result.Ok? <==> id in team.panes && id != LEADER && closed.Ok?)
      && (result.Err? ==> after == team)
      && (result.Ok? ==> result.value == "" && after.panes == team.panes - {id} && Drops(team.order, id, after.order)
                         && after.next == team.next && after.focused == team.focused)
      && Asks(team, command) == if id in team.panes && id != LEADER then [CloseTerminal(team.panes[id].handle)] else []
  {
    hide Consistent, Parsed, Print, Drops, Remove, LastOther;
    PanesKnowTheirIds(team);
    ParsedIs(TARGET_ONLY, options, tail);
    var id := Meant(options, envPane);
    if id in team.panes {
      RemoveDrops(team.order, id);
    }
  }

  lemma TargetArgs(id: string)
    ensures Print([Valued('t', id)], None) == ["-t", id] && Meant([Valued('t', id)], "") == id
    ensures Written(TARGET_ONLY, [Valued('t', id)]) && Print([], None) == []
  {
    assert [Valued('t', id)][1..] == [];
    assert ValuesOf([Valued('t', id)], 't') == [id];
    assert "-" + ['t'] == "-t";
  }

  /** In particular `kill-pane -t id`, from any pane; and without `-t`, the pane it is called from. */
  lemma KillByTarget(team: Team, id: string, envPane: string)
    requires Consistent(team) && envPane in team.panes && id in team.panes && id != LEADER
    ensures var (after, result) := Do(team, KillPane(["-t", id], envPane, Ok(())));
      result == Ok("") && after.panes == team.panes - {id} && Drops(team.order, id, after.order)
    ensures envPane != LEADER ==>
      var (after, result) := Do(team, KillPane([], envPane, Ok(())));
      result == Ok("") && after.panes == team.panes - {envPane} && Drops(team.order, envPane, after.order)
  {
    TargetArgs(id);
    hide Do, Drops, Consistent, Print;
    KillsTheMeant(team, [Valued('t', id)], None, envPane, Ok(()));
    KillsTheMeant(team, [], None, envPane, Ok(()));
  }

  // Respawning

  /** `respawn-pane` gives the new handle to the pane that is meant and changes nothing else; it works exactly when
      that pane is live and not the leader, and, if there is something to run, the new terminal could be opened
      and the old one closed. */
  lemma RespawnsTheMeant(team: Team, options: seq<Opt>, tail: Option<seq<string>>, envPane: string,
                         reply: Result<string>, closed: Result<()>)
    requires Consistent(team) && Written(RESPAWN_OPTIONS, options) && envPane in team.panes
    ensures var id := Meant(options, envPane);
      var (after, result) := Do(team, RespawnPane(Print(options, tail), envPane, reply, closed));
      var runs := Join(WordsGiven(options, tail), " ") != "";
      && (result.Ok? <==> id in team.panes && id != LEADER && (runs ==> reply.Ok? && closed.Ok?))
      && after == (if result.Ok? && runs
                   then team.(panes := team.panes[id := team.panes[id].(handle := reply.value)]) else team)
  {
    hide Consistent, Parsed, Print, Join, Distinct;
    PanesKnowTheirIds(team);
    ParsedIs(RESPAWN_OPTIONS, options, tail);
  }

  /** The new terminal is opened beside the pane it was once split from, or beside the leader when that is gone; the
      old terminal is closed after it, and the new one again if that fails. */
  lemma RespawnAsksFor(team: Team, options: seq<Opt>, tail: Option<seq<string>>, envPane: string,
                       reply: Result<string>, closed: Result<()>)
    requires Consistent(team) && Written(RESPAWN_OPTIONS, options) && envPane in team.panes
    requires var id := Meant(options, envPane); id in team.panes && id != LEADER
    requires Join(WordsGiven(options, tail), " ") != ""
    ensures var (pane, text) := (team.panes[Meant(options, envPane)], Join(WordsGiven(options, tail), " "));
      var beside := if pane.splitFrom.Some? && pane.splitFrom.value in team.panes then pane.splitFrom.value else LEADER;
      var first := SplitTerminal(team.panes[beside].handle, pane.direction.GetOr(Horizontal), Some(text), pane.id);
      Asks(team, RespawnPane(Print(options, tail), envPane, reply, closed)) ==
        if reply.Err? then [first]
        else if closed.Ok? then [first, CloseTerminal(pane.handle)]
        else [first, CloseTerminal(pane.handle), CloseTerminal(reply.value)]
  {
    hide Consistent, Parsed, Print, Join, Distinct;
    PanesKnowTheirIds(team);
    ParsedIs(RESPAWN_OPTIONS, options, tail);
  }

  // Splitting

  /** The new pane as the format of `-F` tells it; its id without a format. */
  function Told(options: seq<Opt>, pane: Pane): string {
    PaneFormat.Render(LastGiven(options, 'F').GetOr(""), FormatValues(pane), pane.id)
  }

  /** `split-window` splits the pane that is meant, or, with `-h`, the last column if there is one; the new pane has
      the next id, the terminal that was opened, and its place at the end. */
  lemma SplitsTheMeant(team: Team, options: seq<Opt>, tail: Option<seq<string>>, envPane: string,
                       reply: Result<string>)
    requires Consistent(team) && Written(SPLIT_OPTIONS, options) && envPane in team.panes
    requires Meant(options, envPane) in team.panes
    ensures var (command, across) := (SplitWindow(Print(options, tail), envPane, reply), 'h' in FlagsOf(options));
      var (after, result) := Do(team, command);
      var (id, goesOn) := (PaneId(team.next), across && team.LastColumn().Some?);
      var origin := if goesOn then team.LastColumn().value else Meant(options, envPane);
      var direction := if across && !goesOn then Vertical else Horizontal;
      var text := Join(WordsGiven(options, tail), " ");
      && Asks(team, command) == [SplitTerminal(team.panes[origin].handle, direction,
                                               if text == "" then None else Some(text), id)]
      && (result.Ok? <==> reply.Ok?)
      && after.next == team.next + 1 && after.focused == team.focused
      && (reply.Err? ==> after.panes == team.panes && after.order == team.order && after.layout == team.layout)
      && (reply.Ok? ==>
            && after.panes == team.panes[id := Pane(id, reply.value, |team.order|, Some(origin), Some(direction))]
            && after.order == team.order + [id]
            && result.value == (if 'P' in FlagsOf(options) then Told(options, after.panes[id]) + "\n" else "")
            && after.layout == if team.layout.Some? then Some(Layout(team.layout.value.mainPane, Some(id)))
                               else if direction == Vertical && origin == LEADER then Some(Layout(LEADER, Some(id)))
                               else None)
  {
    hide Consistent, Parsed, Print, Join, Distinct, PaneId, FlagsOf, ValuesOf, WordsOf, FormatValues, PaneFormat.Render;
    PanesKnowTheirIds(team);
    ParsedIs(SPLIT_OPTIONS, options, tail);
  }

  lemma SplitUnknown(team: Team, options: seq<Opt>, tail: Option<seq<string>>, envPane: string, reply: Result<string>)
    requires Written(SPLIT_OPTIONS, options) && Meant(options, envPane) !in team.panes
    ensures var command := SplitWindow(Print(options, tail), envPane, reply);
      Do(team, command).0 == team && Do(team, command).1.Err? && Asks(team, command) == []
  {
    hide Parsed, Print;
    ParsedIs(SPLIT_OPTIONS, options, tail);
  }

  // Focus, layout, typing

  /** `select-pane` focuses the terminal of the pane that is meant and remembers where it was called; with a style or
      a title it does nothing. */
  lemma FocusesTheMeant(team: Team, options: seq<Opt>, tail: Option<seq<string>>, envPane: string, reply: Result<()>)
    requires Written(SELECT_PANE_OPTIONS, options) && envPane in team.panes
    ensures var (id, command) := (Meant(options, envPane), SelectPane(Print(options, tail), envPane, reply));
      var (after, result) := Do(team, command);
      var styled := LastGiven(options, 'P').Some? || LastGiven(options, 'T').Some?;
      && Asks(team, command) == (if styled || id !in team.panes then [] else [FocusTerminal(team.panes[id].handle)])
      && after == (if styled || id !in team.panes then team else team.(focused := Some(envPane)))
      && (result.Ok? <==> styled || (id in team.panes && reply.Ok?))
  {
    hide Parsed, Print;
    ParsedIs(SELECT_PANE_OPTIONS, options, tail);
  }

  /** `select-layout main-vertical` starts a column at the pane that is meant, unless there is a column already, the
      target is a window or it is the leader; another layout ends the columns. */
  lemma LayoutOfTheMeant(team: Team, options: seq<Opt>, tail: Option<seq<string>>, envPane: string)
    requires Consistent(team) && Written(TARGET_ONLY, options) && envPane in team.panes
    requires WordsGiven(options, tail) != []
    ensures var (id, name) := (Meant(options, envPane), WordsGiven(options, tail)[0]);
      var (after, result) := Do(team, SelectLayout(Print(options, tail), envPane));
      && (name == "main-vertical" && !team.IsWindowTarget(id) && id !in team.panes ==> after == team && result.Err?)
      && (name == "main-vertical" && (team.IsWindowTarget(id) || id in team.panes) ==>
            && result == Ok("")
            && after == team.(layout := Some(Layout(LEADER,
                 if team.LastColumn().Some? then team.LastColumn()
                 else if team.IsWindowTarget(id) || id == LEADER then None
                 else Some(id)))))
      && (name != "main-vertical" && name != "" ==> after == team.(layout := None) && result == Ok(""))
      && (name == "" ==> after == team && result == Ok(""))
  {
    hide Consistent, Parsed, Print, Distinct;
    PanesKnowTheirIds(team);
    ParsedIs(TARGET_ONLY, options, tail);
  }

  /** `send-keys` types the text of its words into the terminal of the pane that is meant, literally with `-l`. */
  lemma TypesIntoTheMeant(team: Team, options: seq<Opt>, tail: Option<seq<string>>, envPane: string, sent: Result<()>)
    requires Written(SEND_KEYS_OPTIONS, options) && envPane in team.panes
    ensures var (id, command) := (Meant(options, envPane), TypeKeys(Print(options, tail), envPane, sent));
      var (words, literal) := (WordsGiven(options, tail), 'l' in FlagsOf(options));
      var text := if literal then Join(words, " ") else SendKeys.Typed(words, false);
      && Do(team, command).0 == team
      && Asks(team, command) == (if id in team.panes && text != "" then [TypeInto(team.panes[id].handle, text)] else [])
      && (Do(team, command).1.Ok? <==> id in team.panes && (text != "" ==> sent.Ok?))
  {
    hide Parsed, Print, Join, SendKeys.Typed;
    ParsedIs(SEND_KEYS_OPTIONS, options, tail);
  }

  /** Called from a pane that is not the team's, every command is refused and does nothing. */
  lemma StrangersAreRefused(team: Team, command: Command)
    requires command.envPane !in team.panes
    ensures Do(team, command).0 == team && Do(team, command).1.Err? && Asks(team, command) == []
  {
  }
}
