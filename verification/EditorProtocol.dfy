/** The editor, the files on disk and everything in flight between them: loads and saves run in the
    background, their replies arrive late and in any order, and other programs write the same files. */
module EditorProtocol {
  import opened Text
  import opened Positions
  import opened Editor
  import opened EditorTabs

  /** One version of a file; its signature is its place in the history. `replaced` is the version that
      the write found on disk. */
  datatype Version = Version(location: Location, text: string, replaced: Option<Signature>)

  datatype LoadRequest = LoadRequest(at: Location, op: OpId)
  datatype LoadAnswer = LoadAnswer(at: Location, op: OpId, loaded: Result<EditorLoad>)
  datatype SaveAnswer = SaveAnswer(at: Location, op: OpId, saved: Result<WriteOutcome>)

  datatype World = World(
    disk: map<Location, Signature>,
    history: seq<Version>,
    nextOp: OpId,
    loads: set<LoadRequest>,
    loadAnswers: set<LoadAnswer>,
    saves: set<EditorSave>,
    saveAnswers: set<SaveAnswer>)
  {
    function Write(at: Location, text: string): World {
      this.(history := history + [Version(at, text, if at in disk then Some(disk[at]) else None)],
            disk := disk[at := |history|])
    }
  }

  predicate IsVersion(history: seq<Version>, v: Signature, at: Location) {
    v < |history| && history[v].location == at
  }

  /** The disk has moved on from version `v` of the file, for good. */
  predicate MovedOn(disk: map<Location, Signature>, at: Location, v: Signature) {
    at in disk ==> v < disk[at]
  }

  datatype System = System(editor: Editor, world: World)

  datatype Step =
    | Local(call: Call)
    | StartLoad(at: Location)
    | ReadFile(request: LoadRequest)
    | FailLoad(request: LoadRequest, failure: Result<EditorLoad>)
    | AnswerLoad(load: LoadAnswer)
    | StartSave
    | WriteFile(save: EditorSave)
    | FailSave(save: EditorSave, message: string)
    | AnswerSave(answer: SaveAnswer)
    | OtherWrites(at: Location, text: string)
    | OtherDeletes(at: Location)

  predicate IsLocal(call: Call) {
    !call.Load? && !call.LoadReply? && !call.Save? && !call.SaveReply?
  }

  predicate Enabled(s: System, step: Step) {
    match step
    case Local(call) => IsLocal(call) && call.Safe(s.editor)
    case StartLoad(_) => true
    case ReadFile(request) => request in s.world.loads
    case FailLoad(request, failure) => request in s.world.loads && !(failure.Ok? && failure.value.LoadedText?)
    case AnswerLoad(load) => load in s.world.loadAnswers
    case StartSave => true
    case WriteFile(save) => save in s.world.saves
    case FailSave(save, _) => save in s.world.saves
    case AnswerSave(answer) => answer in s.world.saveAnswers
    case OtherWrites(_, _) => true
    case OtherDeletes(_) => true
  }

  /** `write_file`: compare the signature on disk with the expected one, then write. */
  predicate Lands(w: World, save: EditorSave) {
    save.location in w.disk && w.disk[save.location] == save.expected
  }

  function Compared(w: World, save: EditorSave): World {
    var rest := w.(saves := w.saves - {save});
    if Lands(w, save) then
      rest.Write(save.location, save.text).(
        saveAnswers := w.saveAnswers + {SaveAnswer(save.location, save.op, Ok(Written(|w.history|)))})
    else
      rest.(saveAnswers := w.saveAnswers + {SaveAnswer(save.location, save.op, Ok(StaleConflict))})
  }

  function ReadNow(w: World, at: Location): Result<EditorLoad> {
    if at in w.disk && w.disk[at] < |w.history| then Ok(LoadedText(w.history[w.disk[at]].text, w.disk[at]))
    else Err("No such file")
  }

  function Do(s: System, step: Step): System
    requires Enabled(s, step)
  {
    var w := s.world;
    match step
    case Local(call) => s.(editor := Apply(s.editor, call))
    case StartLoad(at) =>
      System(Apply(s.editor, Load(at, w.nextOp)),
             w.(nextOp := w.nextOp + 1, loads := w.loads + {LoadRequest(at, w.nextOp)}))
    case ReadFile(request) =>
      s.(world := w.(loads := w.loads - {request},
                     loadAnswers := w.loadAnswers + {LoadAnswer(request.at, request.op, ReadNow(w, request.at))}))
    case FailLoad(request, failure) =>
      s.(world := w.(loads := w.loads - {request},
                     loadAnswers := w.loadAnswers + {LoadAnswer(request.at, request.op, failure)}))
    case AnswerLoad(load) =>
      System(Apply(s.editor, LoadReply(load.at, load.op, load.loaded)), w.(loadAnswers := w.loadAnswers - {load}))
    case StartSave =>
      var save := s.editor.BeginSave(w.nextOp).1;
      System(Apply(s.editor, Save(w.nextOp)),
             w.(nextOp := w.nextOp + 1, saves := if save.Some? then w.saves + {save.value} else w.saves))
    case WriteFile(save) => s.(world := Compared(w, save))
    case FailSave(save, message) =>
      s.(world := w.(saves := w.saves - {save},
                     saveAnswers := w.saveAnswers + {SaveAnswer(save.location, save.op, Err(message))}))
    case AnswerSave(answer) =>
      System(Apply(s.editor, SaveReply(answer.at, answer.op, answer.saved)),
             w.(saveAnswers := w.saveAnswers - {answer}))
    case OtherWrites(at, text) => s.(world := w.Write(at, text))
    case OtherDeletes(at) => s.(world := w.(disk := w.disk - {at}))
  }

  // What holds of the world

  predicate LoadAnswerOk(history: seq<Version>, load: LoadAnswer) {
    load.loaded.Ok? && load.loaded.value.LoadedText? ==>
      && IsVersion(history, load.loaded.value.signature, load.at)
      && history[load.loaded.value.signature].text == load.loaded.value.text
  }

  predicate SaveOk(history: seq<Version>, nextOp: OpId, save: EditorSave) {
    save.op < nextOp && IsVersion(history, save.expected, save.location)
  }

  predicate SaveAnswerOk(history: seq<Version>, nextOp: OpId, answer: SaveAnswer) {
    && answer.op < nextOp
    && (answer.saved.Ok? && answer.saved.value.Written? ==> IsVersion(history, answer.saved.value.signature, answer.at))
  }

  ghost predicate WorldOk(w: World) {
    && (forall at :: at in w.disk ==> IsVersion(w.history, w.disk[at], at))
    && (forall at, v: Signature :: at in w.disk && IsVersion(w.history, v, at) ==> v <= w.disk[at])
    && (forall load :: load in w.loadAnswers ==> LoadAnswerOk(w.history, load))
    && (forall save :: save in w.saves ==> SaveOk(w.history, w.nextOp, save))
    && (forall answer :: answer in w.saveAnswers ==> SaveAnswerOk(w.history, w.nextOp, answer))
  }

  // What holds of an open document

  /** The generation has not reached the maximum, where edits would no longer raise it. */
  predicate Counted(d: Document)
    requires d.Ready?
  {
    d.generation < U64_MAX
  }

  /** No edit since the save in flight started. */
  predicate Unedited(d: Document)
    requires d.Ready? && d.saving.Some?
  {
    d.saving.value.generation == d.generation && Counted(d)
  }

  predicate SaveFits(d: Document, save: EditorSave)
    requires d.Ready? && d.saving.Some?
  {
    save.op == d.saving.value.op ==>
      && save.location == d.location && save.expected == d.signature
      && (Unedited(d) ==> save.text == d.content.text)
  }

  predicate AnswerFits(w: World, d: Document, answer: SaveAnswer)
    requires d.Ready? && d.saving.Some?
  {
    answer.op == d.saving.value.op ==>
      && answer.at == d.location
      && (answer.saved == Ok(StaleConflict) ==> MovedOn(w.disk, d.location, d.signature))
      && (answer.saved.Ok? && answer.saved.value.Written? ==>
            && IsVersion(w.history, answer.saved.value.signature, d.location)
            && (Unedited(d) ==> w.history[answer.saved.value.signature].text == d.content.text))
  }

  /** The buffer is, letter for letter, the version whose signature it carries. */
  predicate IsItsVersion(w: World, d: Document)
    requires d.Ready?
  {
    IsVersion(w.history, d.signature, d.location) && w.history[d.signature].text == d.content.text
  }

  ghost predicate SavingOk(w: World, d: Document)
    requires d.Ready? && d.saving.Some?
  {
    && d.saving.value.op < w.nextOp && d.saving.value.generation <= d.generation
    && (forall save :: save in w.saves ==> SaveFits(d, save))
    && (forall answer :: answer in w.saveAnswers ==> AnswerFits(w, d, answer))
  }

  ghost predicate DocumentOk(w: World, d: Document) {
    d.Ready? ==>
      && IsVersion(w.history, d.signature, d.location)
      && (!d.dirty && Counted(d) ==> IsItsVersion(w, d))
      && (d.saving.Some? ==> d.dirty && SavingOk(w, d))
  }

  ghost predicate Inv(s: System) {
    WorldOk(s.world) && forall d :: d in s.editor.Documents() ==> DocumentOk(s.world, d)
  }

  // The world's part of the invariant

  /** The history only grows, and the disk never returns to a version it moved on from. */
  ghost predicate Grows(w: World, next: World) {
    && w.history <= next.history && w.nextOp <= next.nextOp
    && (forall at, v: Signature :: v < |w.history| && MovedOn(w.disk, at, v) ==> MovedOn(next.disk, at, v))
  }

  lemma WriteGrows(w: World, at: Location, text: string)
    requires WorldOk(w)
    ensures Grows(w, w.Write(at, text)) && WorldOk(w.Write(at, text))
  {
    var next := w.Write(at, text);
    assert forall v: Signature, b ::
      IsVersion(w.history, v, b) ==> IsVersion(next.history, v, b) && next.history[v] == w.history[v];
    assert forall v: Signature, b ::
      IsVersion(next.history, v, b) ==> IsVersion(w.history, v, b) || (v == |w.history| && b == at);
  }

  lemma AddAnswer(w: World, saves: set<EditorSave>, answer: SaveAnswer)
    requires WorldOk(w) && saves <= w.saves && SaveAnswerOk(w.history, w.nextOp, answer)
    ensures WorldOk(w.(saves := saves, saveAnswers := w.saveAnswers + {answer}))
  {
  }

  lemma ComparedOk(w: World, save: EditorSave)
    requires WorldOk(w) && save in w.saves
    ensures WorldOk(Compared(w, save)) && Grows(w, Compared(w, save))
  {
    var rest := w.saves - {save};
    assert SaveOk(w.history, w.nextOp, save);
    if Lands(w, save) {
      var written := w.Write(save.location, save.text);
      var answer := SaveAnswer(save.location, save.op, Ok(Written(|w.history|)));
      WriteGrows(w, save.location, save.text);
      AddAnswer(written, rest, answer);
      assert Compared(w, save) == written.(saves := rest, saveAnswers := w.saveAnswers + {answer});
      assert Grows(written, Compared(w, save));
    } else {
      AddAnswer(w, rest, SaveAnswer(save.location, save.op, Ok(StaleConflict)));
    }
  }

  lemma AddLoadAnswer(w: World, request: LoadRequest, loaded: Result<EditorLoad>)
    requires WorldOk(w) && LoadAnswerOk(w.history, LoadAnswer(request.at, request.op, loaded))
    ensures var next := w.(loads := w.loads - {request},
                           loadAnswers := w.loadAnswers + {LoadAnswer(request.at, request.op, loaded)});
      WorldOk(next) && Grows(w, next)
  {
  }

  lemma StartSaveOk(s: System)
    requires Inv(s)
    ensures WorldOk(Do(s, StartSave).world) && Grows(s.world, Do(s, StartSave).world)
  {
    assert s.editor.document in s.editor.Documents();
  }

  lemma WorldStep(s: System, step: Step)
    requires Inv(s) && Enabled(s, step)
    ensures WorldOk(Do(s, step).world) && Grows(s.world, Do(s, step).world)
  {
    match step {
      case ReadFile(request) => AddLoadAnswer(s.world, request, ReadNow(s.world, request.at));
      case FailLoad(request, failure) => AddLoadAnswer(s.world, request, failure);
      case StartSave => StartSaveOk(s);
      case WriteFile(save) => ComparedOk(s.world, save);
      case FailSave(save, message) =>
        assert SaveOk(s.world.history, s.world.nextOp, save);
        AddAnswer(s.world, s.world.saves - {save}, SaveAnswer(save.location, save.op, Err(message)));
      case OtherWrites(at, text) => WriteGrows(s.world, at, text);
      case _ =>
    }
  }

  // The documents' part

  lemma DocumentStays(w: World, next: World, d: Document)
    requires DocumentOk(w, d) && Grows(w, next)
    requires d.Ready? && d.saving.Some? ==> forall save :: save in next.saves ==> save in w.saves || SaveFits(d, save)
    requires d.Ready? && d.saving.Some? ==>
      forall answer :: answer in next.saveAnswers ==> answer in w.saveAnswers || AnswerFits(next, d, answer)
    ensures DocumentOk(next, d)
  {
    if d.Ready? && d.saving.Some? {
      forall answer | answer in next.saveAnswers
        ensures AnswerFits(next, d, answer)
      {
        if answer in w.saveAnswers {
          assert AnswerFits(w, d, answer);
        }
      }
    }
  }

  lemma EvolvedStays(w: World, d: Document, after: Document)
    requires d.Ready? && DocumentOk(w, d) && Evolves(d, after)
    ensures DocumentOk(w, after)
  {
    if d.saving.Some? {
      forall save | save in w.saves
        ensures SaveFits(after, save)
      {
        assert SaveFits(d, save);
      }
      forall answer | answer in w.saveAnswers
        ensures AnswerFits(w, after, answer)
      {
        assert AnswerFits(w, d, answer);
      }
    }
  }

  lemma ComparedFits(w: World, save: EditorSave, d: Document)
    requires WorldOk(w) && save in w.saves && DocumentOk(w, d)
    ensures DocumentOk(Compared(w, save), d)
  {
    ComparedOk(w, save);
    if d.Ready? && d.saving.Some? {
      assert SaveFits(d, save);
      forall answer | answer in Compared(w, save).saveAnswers
        ensures answer in w.saveAnswers || AnswerFits(Compared(w, save), d, answer)
      {
      }
    }
    DocumentStays(w, Compared(w, save), d);
  }

  lemma RepliedOk(w: World, d: Document, answer: SaveAnswer)
    requires DocumentOk(w, d) && answer in w.saveAnswers && Waits(d, answer.at, answer.op)
    ensures DocumentOk(w, AfterReply(d, answer.saved))
  {
    assert AnswerFits(w, d, answer);
  }

  lemma StartedOk(w: World, d: Document, save: EditorSave, next: World)
    requires WorldOk(w) && DocumentOk(w, d) && d.Unsaved()
    requires save == EditorSave(d.location, d.content.text, d.signature, w.nextOp)
    requires next == w.(nextOp := w.nextOp + 1, saves := w.saves + {save})
    ensures DocumentOk(next, SaveStarted(d, w.nextOp))
  {
    var after := SaveStarted(d, w.nextOp);
    forall save' | save' in next.saves
      ensures SaveFits(after, save')
    {
      assert save' in w.saves ==> SaveOk(w.history, w.nextOp, save');
    }
    forall answer | answer in next.saveAnswers
      ensures AnswerFits(next, after, answer)
    {
      assert SaveAnswerOk(w.history, w.nextOp, answer);
    }
  }

  /** The call that a step makes on the editor, if it makes one. */
  function CallOf(s: System, step: Step): Option<Call> {
    match step
    case Local(call) => Some(call)
    case StartLoad(at) => Some(Load(at, s.world.nextOp))
    case AnswerLoad(load) => Some(LoadReply(load.at, load.op, load.loaded))
    case StartSave => Some(Save(s.world.nextOp))
    case AnswerSave(answer) => Some(SaveReply(answer.at, answer.op, answer.saved))
    case _ => None
  }

  lemma OldDocumentStep(s: System, step: Step, d: Document)
    requires Inv(s) && Enabled(s, step) && d in s.editor.Documents()
    ensures DocumentOk(Do(s, step).world, d)
  {
    WorldStep(s, step);
    match step {
      case WriteFile(save) => ComparedFits(s.world, save, d);
      case _ => DocumentStays(s.world, Do(s, step).world, d);
    }
  }

  lemma StartSaveStep(s: System)
    requires Inv(s) && s.editor.document.Unsaved() && s.editor.document.saving.None?
    ensures DocumentOk(Do(s, StartSave).world, SaveStarted(s.editor.document, s.world.nextOp))
  {
    var d := s.editor.document;
    assert d in s.editor.Documents();
    StartedOk(s.world, d, s.editor.BeginSave(s.world.nextOp).1.value, Do(s, StartSave).world);
  }

  lemma AnswerSaveStep(s: System, answer: SaveAnswer, was: Document)
    requires Inv(s) && answer in s.world.saveAnswers
    requires was in s.editor.Documents() && Waits(was, answer.at, answer.op)
    ensures DocumentOk(Do(s, AnswerSave(answer)).world, AfterReply(was, answer.saved))
  {
    RepliedOk(s.world, was, answer);
    WorldStep(s, AnswerSave(answer));
    DocumentStays(s.world, Do(s, AnswerSave(answer)).world, AfterReply(was, answer.saved));
  }

  lemma LocalStep(s: System, call: Call, d: Document)
    requires Inv(s) && IsLocal(call) && call.Safe(s.editor) && ComesFrom(s.editor, call, d)
    ensures DocumentOk(s.world, d)
  {
    if s.editor.document.Ready? && Evolves(s.editor.document, d) {
      assert s.editor.document in s.editor.Documents();
      EvolvedStays(s.world, s.editor.document, d);
    }
  }

  lemma DocumentStep(s: System, step: Step, d: Document)
    requires Inv(s) && Enabled(s, step) && d in Do(s, step).editor.Documents()
    ensures DocumentOk(Do(s, step).world, d)
  {
    if d in s.editor.Documents() {
      OldDocumentStep(s, step, d);
    } else {
      AfterCall(s.editor, CallOf(s, step).value, d);
      match step {
        case Local(call) => LocalStep(s, call, d);
        case AnswerLoad(load) => assert LoadAnswerOk(s.world.history, load);
        case StartSave =>
          if d != Closed {
            StartSaveStep(s);
          }
        case AnswerSave(answer) =>
          if d != Closed {
            var was :| was in s.editor.Documents() && Waits(was, answer.at, answer.op)
                && d == AfterReply(was, answer.saved);
            AnswerSaveStep(s, answer, was);
          }
        case _ =>
      }
    }
  }

  lemma InvStep(s: System, step: Step)
    requires Inv(s) && Enabled(s, step)
    ensures Inv(Do(s, step))
  {
    WorldStep(s, step);
    forall d | d in Do(s, step).editor.Documents()
      ensures DocumentOk(Do(s, step).world, d)
    {
      DocumentStep(s, step, d);
    }
  }

  // Runs

  /** Any files may be on disk at first; nothing is open and nothing is in flight. */
  ghost predicate Initial(s: System) {
    && s.editor.document == Closed && s.editor.inactive == []
    && WorldOk(s.world)
    && s.world.loads == {} && s.world.loadAnswers == {} && s.world.saves == {} && s.world.saveAnswers == {}
  }

  predicate Possible(s: System, steps: seq<Step>)
    decreases |steps|
  {
    steps == [] || (Enabled(s, steps[0]) && Possible(Do(s, steps[0]), steps[1..]))
  }

  function After(s: System, steps: seq<Step>): System
    requires Possible(s, steps)
    decreases |steps|
  {
    if steps == [] then s else After(Do(s, steps[0]), steps[1..])
  }

  lemma {:induction false} InvAfter(s: System, steps: seq<Step>)
    requires Inv(s) && Possible(s, steps)
    ensures Inv(After(s, steps))
    decreases |steps|
  {
    if steps != [] {
      InvStep(s, steps[0]);
      InvAfter(Do(s, steps[0]), steps[1..]);
    }
  }

  /** In every interleaving of edits, tab switches, saves, late replies and writes by other programs:
      a clean buffer is letter for letter the version whose signature it carries, a buffer being saved
      is unsaved until its reply, and a save in flight is for the version its buffer carries. */
  lemma CleanBufferIsItsVersion(s: System, steps: seq<Step>, d: Document)
    requires Initial(s) && Possible(s, steps) && d in After(s, steps).editor.Documents() && d.Ready?
    ensures !d.dirty && Counted(d) ==> IsItsVersion(After(s, steps).world, d)
    ensures d.saving.Some? ==> d.dirty
    ensures d.saving.Some? ==> forall save :: save in After(s, steps).world.saves ==> SaveFits(d, save)
  {
    InvAfter(s, steps);
    assert DocumentOk(After(s, steps).world, d);
  }

  /** A save that lands for a waiting buffer replaces exactly the version the buffer was based on, and
      nothing else on disk changes. */
  lemma LandedSaveReplacesItsBase(s: System, steps: seq<Step>, save: EditorSave, d: Document)
    requires Initial(s) && Possible(s, steps) && save in After(s, steps).world.saves
    requires Lands(After(s, steps).world, save)
    requires d in After(s, steps).editor.Documents() && Waits(d, save.location, save.op)
    ensures var w := After(s, steps).world; var next := Do(After(s, steps), WriteFile(save)).world;
      && next.history == w.history + [Version(d.location, save.text, Some(d.signature))]
      && next.disk == w.disk[d.location := |w.history|]
  {
    InvAfter(s, steps);
    var w := After(s, steps).world;
    assert DocumentOk(w, d);
    assert SaveFits(d, save);
  }

  // After a conflict

  /** The disk moved on from the version that the buffer is based on, and no success is on its way to it. */
  ghost predicate BlockedDocument(w: World, d: Document)
    requires d.Ready?
  {
    && MovedOn(w.disk, d.location, d.signature)
    && (d.saving.Some? ==>
          forall answer :: answer in w.saveAnswers && answer.op == d.saving.value.op ==>
            !(answer.saved.Ok? && answer.saved.value.Written?))
  }

  /** A reply with a conflict finds the disk moved on from the version of the buffer it is for, and leaves that
      buffer blocked, however many documents are open at the location. */
  lemma ConflictBlocks(s: System, answer: SaveAnswer, was: Document)
    requires Inv(s) && answer in s.world.saveAnswers && answer.saved == Ok(StaleConflict)
    requires was in s.editor.Documents() && Waits(was, answer.at, answer.op)
    ensures MovedOn(Do(s, AnswerSave(answer)).world.disk, answer.at, was.signature)
    ensures BlockedDocument(Do(s, AnswerSave(answer)).world, AfterReply(was, answer.saved))
  {
    assert DocumentOk(s.world, was);
    assert AnswerFits(s.world, was, answer);
  }

  lemma BlockedWrite(s: System, save: EditorSave, d: Document)
    requires Inv(s) && save in s.world.saves && d in s.editor.Documents() && d.Ready?
    requires BlockedDocument(s.world, d)
    ensures Waits(d, d.location, save.op) ==> !Lands(s.world, save)
    ensures BlockedDocument(Do(s, WriteFile(save)).world, d)
  {
    assert DocumentOk(s.world, d);
    ComparedOk(s.world, save);
    if d.saving.Some? {
      assert SaveFits(d, save);
    }
  }

  lemma OldStaysBlocked(s: System, step: Step, d: Document)
    requires Inv(s) && Enabled(s, step) && d in s.editor.Documents() && d.Ready?
    requires BlockedDocument(s.world, d)
    ensures BlockedDocument(Do(s, step).world, d)
  {
    assert DocumentOk(s.world, d);
    WorldStep(s, step);
    match step {
      case WriteFile(save) => BlockedWrite(s, save, d);
      case _ =>
    }
  }

  /** After the step, `after` holds the buffer that `d` held before it. A reload makes a new buffer. */
  predicate Follows(s: System, step: Step, d: Document, after: Document)
    requires d.Ready?
  {
    match CallOf(s, step)
    case None => after == d
    case Some(call) => Holds(s.editor, call, d, after)
  }

  /** A blocked buffer stays blocked, and based on the same version, under every step. */
  lemma BlockedStep(s: System, step: Step, d: Document, after: Document)
    requires Inv(s) && Enabled(s, step) && d in s.editor.Documents() && d.Ready?
    requires BlockedDocument(s.world, d) && Follows(s, step, d, after)
    ensures after.Ready? && after.location == d.location && after.signature == d.signature
    ensures BlockedDocument(Do(s, step).world, after)
  {
    OldStaysBlocked(s, step, d);
    match step {
      case StartSave =>
        assert forall answer :: answer in s.world.saveAnswers ==> SaveAnswerOk(s.world.history, s.world.nextOp, answer);
      case _ =>
    }
  }

  /** `buffers` are the documents that hold one buffer, from state to state. */
  ghost predicate Keeps(s: System, steps: seq<Step>, buffers: seq<Document>)
    requires Possible(s, steps)
    decreases |steps|
  {
    && |buffers| == |steps| + 1 && buffers[0] in s.editor.Documents() && buffers[0].Ready?
    && (steps != [] ==>
          && Follows(s, steps[0], buffers[0], buffers[1])
          && Keeps(Do(s, steps[0]), steps[1..], buffers[1..]))
  }

  lemma {:induction false} BlockedBuffer(s: System, steps: seq<Step>, buffers: seq<Document>)
    requires Inv(s) && Possible(s, steps) && Keeps(s, steps, buffers) && BlockedDocument(s.world, buffers[0])
    ensures var (last, end) := (buffers[|steps|], After(s, steps));
      && last in end.editor.Documents() && last.Ready? && BlockedDocument(end.world, last)
      && last.location == buffers[0].location && last.signature == buffers[0].signature
    decreases |steps|
  {
    hide Inv, BlockedDocument, Follows, Enabled, Do;
    if steps != [] {
      BlockedStep(s, steps[0], buffers[0], buffers[1]);
      InvStep(s, steps[0]);
      BlockedBuffer(Do(s, steps[0]), steps[1..], buffers[1..]);
    }
  }

  /** A conflict is on its way to the document that waits for it. */
  predicate Conflicts(s: System, answer: SaveAnswer, was: Document) {
    && answer in s.world.saveAnswers && answer.saved == Ok(StaleConflict)
    && was in s.editor.Documents() && Waits(was, answer.at, answer.op)
  }

  lemma NothingLandsAfter(s: System, answer: SaveAnswer, was: Document, steps: seq<Step>, buffers: seq<Document>,
                          save: EditorSave)
    requires Inv(s) && Conflicts(s, answer, was)
    requires var replied := Do(s, AnswerSave(answer));
      && Possible(replied, steps) && Keeps(replied, steps, buffers) && buffers[0] == AfterReply(was, answer.saved)
      && save in After(replied, steps).world.saves && Waits(buffers[|steps|], answer.at, save.op)
    ensures !Lands(After(Do(s, AnswerSave(answer)), steps).world, save)
  {
    assert |buffers| == |steps| + 1;
    hide Inv, BlockedDocument, Keeps, Lands, Possible, After;
    ConflictBlocks(s, answer, was);
    InvStep(s, AnswerSave(answer));
    var replied := Do(s, AnswerSave(answer));
    hide Do, Enabled;
    BlockedBuffer(replied, steps, buffers);
    InvAfter(replied, steps);
    BlockedWrite(After(replied, steps), save, buffers[|steps|]);
  }

  /** From any files on disk, in every interleaving: after a conflict, and as long as the buffer is not reloaded,
      no save that the buffer waits for changes the disk. */
  lemma NothingLandsUntilReload(start: System, before: seq<Step>, answer: SaveAnswer, was: Document,
                                steps: seq<Step>, buffers: seq<Document>, save: EditorSave)
    requires Initial(start) && Possible(start, before) && Conflicts(After(start, before), answer, was)
    requires var replied := Do(After(start, before), AnswerSave(answer));
      && Possible(replied, steps) && Keeps(replied, steps, buffers) && buffers[0] == AfterReply(was, answer.saved)
      && save in After(replied, steps).world.saves && Waits(buffers[|steps|], answer.at, save.op)
    ensures !Lands(After(Do(After(start, before), AnswerSave(answer)), steps).world, save)
  {
    hide BlockedDocument, Keeps, Lands, Possible, After, Do, Enabled, DocumentOk, WorldOk;
    InvStart(start);
    InvAfter(start, before);
    hide Inv;
    NothingLandsAfter(After(start, before), answer, was, steps, buffers, save);
  }

  lemma InvStart(s: System)
    requires Initial(s)
    ensures Inv(s)
  {
  }

  lemma {:induction false} MovedOnForGood(s: System, steps: seq<Step>, at: Location, v: Signature)
    requires Inv(s) && Possible(s, steps) && MovedOn(s.world.disk, at, v) && v < |s.world.history|
    ensures MovedOn(After(s, steps).world.disk, at, v)
    decreases |steps|
  {
    hide Inv, MovedOn, Enabled, Do;
    if steps != [] {
      WorldStep(s, steps[0]);
      InvStep(s, steps[0]);
      MovedOnForGood(Do(s, steps[0]), steps[1..], at, v);
    }
  }

  /** And whoever makes it, reload or not: no save of the file that is based on the buffer's version, or on an
      older one, ever changes the disk again. */
  lemma StaleSavesNeverLand(start: System, before: seq<Step>, answer: SaveAnswer, was: Document,
                            steps: seq<Step>, save: EditorSave)
    requires Initial(start) && Possible(start, before) && Conflicts(After(start, before), answer, was)
    requires Possible(Do(After(start, before), AnswerSave(answer)), steps)
    requires save.location == answer.at && save.expected <= was.signature
    ensures !Lands(After(Do(After(start, before), AnswerSave(answer)), steps).world, save)
  {
    InvStart(start);
    InvAfter(start, before);
    var s := After(start, before);
    ConflictBlocks(s, answer, was);
    InvStep(s, AnswerSave(answer));
    assert DocumentOk(s.world, was);
    hide Inv, DocumentOk, After, Possible, BlockedDocument;
    MovedOnForGood(Do(s, AnswerSave(answer)), steps, answer.at, was.signature);
  }

  // Where the generation counter is saturated

  function EditAll(d: Document, edits: seq<Content>): (edited: Document)
    requires d.Ready?
    ensures edited.Ready? && edited.saving == d.saving
    decreases |edits|
  {
    if edits == [] then d else EditAll(d.Edited(edits[0]), edits[1..])
  }

  lemma {:induction false} EditsRaise(d: Document, edits: seq<Content>)
    requires d.Ready?
    ensures EditAll(d, edits).generation >= d.generation
    ensures edits != [] && d.generation < U64_MAX ==> EditAll(d, edits).generation > d.generation
    ensures d.generation == U64_MAX ==> EditAll(d, edits).generation == U64_MAX
    decreases |edits|
  {
    if edits != [] {
      EditsRaise(d.Edited(edits[0]), edits[1..]);
    }
  }

  /** Edits made while a save is in flight keep the buffer unsaved after its success exactly when the
      generation counter had not been saturated when the save began. */
  lemma EditsDuringSaveStayUnsavedIff(d: Document, op: OpId, edits: seq<Content>, written: Signature)
    requires d.Ready? && edits != []
    ensures AfterReply(EditAll(SaveStarted(d, op), edits), Ok(Written(written))).dirty <==> d.generation < U64_MAX
  {
    EditsRaise(SaveStarted(d, op), edits);
  }
}
