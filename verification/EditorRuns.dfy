/** Runs that get somewhere: from every state a file can be opened, edited and saved, and a save that comes too late
    ends in a conflict. */
module EditorRuns {
  import opened Text
  import opened Positions
  import opened Editor
  import opened EditorTabs
  import opened EditorProtocol

  lemma RunCons(s: System, step: Step, rest: seq<Step>)
    requires Enabled(s, step) && Possible(Do(s, step), rest)
    ensures Possible(s, [step] + rest) && After(s, [step] + rest) == After(Do(s, step), rest)
  {
    hide Do, Enabled;
    assert ([step] + rest)[1..] == rest;
  }

  lemma RunEnds(s: System)
    ensures Possible(s, []) && After(s, []) == s
  {
  }

  // Opening

  function Shown(w: World, at: Location): EditorLoad
    requires at in w.disk && w.disk[at] < |w.history|
  {
    LoadedText(w.history[w.disk[at]].text, w.disk[at])
  }

  function OpenSteps(w: World, at: Location): seq<Step>
    requires at in w.disk && w.disk[at] < |w.history|
  {
    [StartLoad(at)] + ([ReadFile(LoadRequest(at, w.nextOp))]
      + ([AnswerLoad(LoadAnswer(at, w.nextOp, Ok(Shown(w, at))))] + []))
  }

  /** The document is the clean text of the version on disk. */
  predicate ShowsDisk(s: System, at: Location) {
    var (d, w) := (s.editor.document, s.world);
    && d.Ready? && d.location == at && at in w.disk && IsVersion(w.history, w.disk[at], at)
    && d.signature == w.disk[at] && d.content.text == w.history[w.disk[at]].text
    && !d.dirty && d.saving.None? && d.generation == 0
  }

  /** From every state, a file on disk can be opened. */
  lemma OpensTheFile(s: System, at: Location)
    requires at in s.world.disk && IsVersion(s.world.history, s.world.disk[at], at)
    ensures Possible(s, OpenSteps(s.world, at))
    ensures var t := After(s, OpenSteps(s.world, at));
      && ShowsDisk(t, at)
      && t.world.disk == s.world.disk && t.world.history == s.world.history && t.world.nextOp == s.world.nextOp + 1
      && LoadRequest(at, s.world.nextOp) !in t.world.loads
  {
    hide Possible, After;
    var op := s.world.nextOp;
    var request, answer := LoadRequest(at, op), LoadAnswer(at, op, Ok(Shown(s.world, at)));
    var s1 := Do(s, StartLoad(at));
    var s2 := Do(s1, ReadFile(request));
    assert s2.editor.document == Loading(at, op) && answer in s2.world.loadAnswers;
    assert ShowsDisk(Do(s2, AnswerLoad(answer)), at);
    RunEnds(Do(s2, AnswerLoad(answer)));
    RunCons(s2, AnswerLoad(answer), []);
    RunCons(s1, ReadFile(request), [AnswerLoad(answer)] + []);
    RunCons(s, StartLoad(at), [ReadFile(request)] + ([AnswerLoad(answer)] + []));
  }

  // Editing and saving

  function SaveSteps(w: World, at: Location, edited: Content, before: seq<Step>, answer: Result<WriteOutcome>)
      : seq<Step>
    requires at in w.disk
  {
    [Local(Act(OtherEdit(edited)))] + ([StartSave] + (before
      + ([WriteFile(EditorSave(at, edited.text, w.disk[at], w.nextOp))]
      + ([AnswerSave(SaveAnswer(at, w.nextOp, answer))] + []))))
  }

  lemma Types(s: System, at: Location, edited: Content)
    requires ShowsDisk(s, at)
    ensures var t := Do(s, Local(Act(OtherEdit(edited))));
      t.world == s.world && t.editor.document == Ready(at, edited, s.world.disk[at], 1, true, None, false, None)
  {
  }

  lemma Starts(s: System, d: Document)
    requires s.editor.document == d && d.Unsaved() && d.saving.None?
    ensures var (t, op) := (Do(s, StartSave), s.world.nextOp);
      && t.editor.document == d.(saving := Some(Saving(op, d.generation)), closeConfirmation := false, error := None)
      && t.world == s.world.(nextOp := op + 1,
           saves := s.world.saves + {EditorSave(d.location, d.content.text, d.signature, op)})
  {
  }

  lemma Replies(s: System, d: Document, answer: SaveAnswer)
    requires s.editor.document == d && d.Ready? && d.location == answer.at && answer in s.world.saveAnswers
    requires d.saving == Some(Saving(answer.op, d.generation))
    ensures var t := Do(s, AnswerSave(answer));
      && t.world == s.world.(saveAnswers := s.world.saveAnswers - {answer})
      && t.editor.document == d.Saved(d.generation, answer.saved)
  {
  }

  /** Undisturbed, a save of what was typed lands, and the buffer is clean. */
  lemma SavesTheText(s: System, at: Location, edited: Content)
    requires ShowsDisk(s, at)
    ensures var steps := SaveSteps(s.world, at, edited, [], Ok(Written(|s.world.history|)));
      && Possible(s, steps)
      && var t := After(s, steps);
        && t.world.history == s.world.history + [Version(at, edited.text, Some(s.world.disk[at]))]
        && t.world.disk == s.world.disk[at := |s.world.history|]
        && t.editor.document == Ready(at, edited, |s.world.history|, 1, false, None, false, None)
        && EditorSave(at, edited.text, s.world.disk[at], s.world.nextOp) !in t.world.saves
  {
    hide Apply, Possible, After;
    var (w, op) := (s.world, s.world.nextOp);
    var save := EditorSave(at, edited.text, w.disk[at], op);
    var answer := SaveAnswer(at, op, Ok(Written(|w.history|)));
    Types(s, at, edited);
    var s1 := Do(s, Local(Act(OtherEdit(edited))));
    Starts(s1, s1.editor.document);
    var s2 := Do(s1, StartSave);
    var s3 := Do(s2, WriteFile(save));
    Replies(s3, s3.editor.document, answer);
    RunEnds(Do(s3, AnswerSave(answer)));
    RunCons(s3, AnswerSave(answer), []);
    RunCons(s2, WriteFile(save), [AnswerSave(answer)] + []);
    assert [] + ([WriteFile(save)] + ([AnswerSave(answer)] + [])) == [WriteFile(save)] + ([AnswerSave(answer)] + []);
    RunCons(s1, StartSave, [WriteFile(save)] + ([AnswerSave(answer)] + []));
    RunCons(s, Local(Act(OtherEdit(edited))), [StartSave] + ([WriteFile(save)] + ([AnswerSave(answer)] + [])));
  }

  /** If another program writes the file meanwhile, its text stays on disk, and what was typed stays in the buffer,
      unsaved. */
  lemma LateSaveConflicts(s: System, at: Location, edited: Content, theirs: string)
    requires ShowsDisk(s, at)
    ensures var steps := SaveSteps(s.world, at, edited, [OtherWrites(at, theirs)], Ok(StaleConflict));
      && Possible(s, steps)
      && var t := After(s, steps);
        && t.world.history == s.world.history + [Version(at, theirs, Some(s.world.disk[at]))]
        && t.world.disk == s.world.disk[at := |s.world.history|]
        && t.editor.document.Unsaved() && t.editor.document.content == edited && t.editor.document.saving.None?
        && t.editor.document.signature == s.world.disk[at]
  {
    hide Apply, Possible, After;
    var (w, op) := (s.world, s.world.nextOp);
    var save := EditorSave(at, edited.text, w.disk[at], op);
    var (others, answer) := (OtherWrites(at, theirs), SaveAnswer(at, op, Ok(StaleConflict)));
    Types(s, at, edited);
    var s1 := Do(s, Local(Act(OtherEdit(edited))));
    Starts(s1, s1.editor.document);
    var s2 := Do(s1, StartSave);
    var s3 := Do(s2, others);
    var s4 := Do(s3, WriteFile(save));
    Replies(s4, s4.editor.document, answer);
    var last := [WriteFile(save)] + ([AnswerSave(answer)] + []);
    RunEnds(Do(s4, AnswerSave(answer)));
    RunCons(s4, AnswerSave(answer), []);
    RunCons(s3, WriteFile(save), [AnswerSave(answer)] + []);
    RunCons(s2, others, last);
    RunCons(s1, StartSave, [others] + last);
    RunCons(s, Local(Act(OtherEdit(edited))), [StartSave] + ([others] + last));
  }
}
