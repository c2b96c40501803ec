/** Suspending, resuming and destroying a machine: the writes around the command, and what a crash leaves on disk. */
module VmLifecycle {
  import opened Text
  import opened VmStore

  datatype Mode = Suspend | Resume | Destroy

  /** A command that could not be run to its end, one that failed, or one that succeeded with this result. */
  datatype Process = NotRun(error: string) | Failing(error: string) | Success(parsed: Result<string>)

  /** What the surroundings answer: the directory, the two writes, the command, and the clock before and after. */
  datatype Answers = Answers(pathOk: bool, firstWrite: bool, lastWrite: bool, process: Process, started: nat,
                             ended: nat)

  function IndexOf(store: Store, id: string): (index: nat)
    ensures index <= |store| && (index < |store| ==> store[index].id == id)
    ensures forall i | 0 <= i < index :: store[i].id != id
  {
    IndexWhere(store, (r: Record) => r.id == id)
  }

  function Command(record: Record, mode: Mode): Option<string> {
    match mode
    case Suspend => record.recipe.suspend
    case Resume => record.recipe.resume
    case Destroy => if record.recipe.destroyDisabled then None else record.recipe.destroy
  }

  /** What is written before a machine is destroyed. */
  function Pending(record: Record, now: nat): Record {
    record.(status := CleanupPending, cleanup := if record.recipe.destroyDisabled then Disabled else InProgress,
            lastAttempt := Some(now))
  }

  function AfterNothing(record: Record, mode: Mode, now: nat): Record {
    record.(status := if mode.Destroy? then Cleaned else record.status, updatedAt := now)
  }

  function AfterFailure(record: Record, mode: Mode, error: string, now: nat): Record {
    var status :=
      match mode
      case Suspend => SuspendFailed
      case Resume => ResumeFailed
      case Destroy => CleanupFailed;
    var failed := record.(status := status, updatedAt := now);
    if mode.Destroy? then failed.(cleanup := Unsuccessful, lastError := Some(error)) else failed
  }

  /** A resumed machine's result is read anew, which may fail. */
  function AfterSuccess(record: Record, mode: Mode, parsed: Result<string>, now: nat): Result<Record> {
    match mode
    case Suspend => Ok(record.(status := Suspended, updatedAt := now))
    case Resume =>
      if parsed.Err? then Err(parsed.error)
      else Ok(record.(outcome := parsed.value, status := Running, updatedAt := now))
    case Destroy => Ok(record.(status := Cleaned, cleanup := Succeeded, lastError := None, updatedAt := now))
  }

  /** The stores written before the command, whether it was started, the stores written after it, and the result. */
  datatype Trace = Trace(before: seq<Store>, started: bool, after: seq<Store>, result: Result<Record>)

  /** The last write of a call, whose result is `result` if it succeeds. */
  function Finish(store: Store, before: seq<Store>, started: bool, record: Record, result: Result<Record>,
          writable: bool): Trace
  {
    match Upserted(store, record, writable)
    case Ok(written) => Trace(before, started, [written], result)
    case Err(error) => Trace(before, started, [], Err(error))
  }

  /** From the command on; `store` is on disk and `record` its record. */
  function Execute(store: Store, before: seq<Store>, record: Record, mode: Mode, a: Answers): Trace {
    if Command(record, mode).None? then
      Finish(store, before, false, AfterNothing(record, mode, a.ended), Ok(AfterNothing(record, mode, a.ended)),
          a.lastWrite)
    else match a.process
      case NotRun(error) => Trace(before, true, [], Err(error))
      case Failing(error) =>
        Finish(store, before, true, AfterFailure(record, mode, error, a.ended), Err(error), a.lastWrite)
      case Success(parsed) =>
        match AfterSuccess(record, mode, parsed, a.ended)
        case Err(error) => Trace(before, true, [], Err(error))
        case Ok(final) => Finish(store, before, true, final, Ok(final), a.lastWrite)
  }

  const NO_DIRECTORY := "VM recipe repository path is not a directory."
  const UNKNOWN := "Unknown ephemeral VM runtime."

  /** What is on disk, what was written, and the record, when it comes to the command. */
  datatype Prepared = Prepared(store: Store, before: seq<Store>, record: Record)

  function Prepare(store: Store, record: Record, mode: Mode, a: Answers): Result<Prepared> {
    if mode != Destroy then Ok(Prepared(store, [], record))
    else match Upserted(store, Pending(record, a.started), a.firstWrite)
      case Err(error) => Err(error)
      case Ok(written) => Ok(Prepared(written, [written], Pending(record, a.started)))
  }

  function Lifecycle(store: Store, id: string, mode: Mode, a: Answers): Trace {
    if !a.pathOk then Trace([], false, [], Err(NO_DIRECTORY))
    else
      var i := IndexOf(store, id);
      if i == |store| then Trace([], false, [], Err(UNKNOWN))
      else match Prepare(store, store[i], mode, a)
        case Err(error) => Trace([], false, [], Err(error))
        case Ok(p) => Execute(p.store, p.before, p.record, mode, a)
  }

  function LastStore(store: Store, written: seq<Store>): Store {
    if written == [] then store else written[|written| - 1]
  }

  /** Everything that is on disk at some moment between the start of the command and the return of the call. */
  function OnDiskWhile(store: Store, t: Trace): seq<Store> {
    if t.started then [LastStore(store, t.before)] + t.after else []
  }

  method Write(file: StoreFile, record: Record, result: Result<Record>, writable: bool)
    returns (final: Result<Record>, ghost written: seq<Store>)
    modifies file
    ensures var t := Finish(old(file.disk), [], true, record, result, writable);
      final == t.result && written == t.after
      && file.history == old(file.history) + written && file.disk == LastStore(old(file.disk), written)
  {
    hide Upserted;
    var done := file.Upsert(record, writable);
    if done.Err? { return Err(done.error), []; }
    final, written := result, [file.disk];
  }

  /** From the command on. `during` is what is on disk from its start on; `written` what is written after it. */
  method ExecuteCommand(file: StoreFile, record: Record, mode: Mode, a: Answers)
    returns (result: Result<Record>, ghost written: seq<Store>, ghost during: seq<Store>)
    modifies file
    ensures var t := Execute(old(file.disk), [], record, mode, a);
      && result == t.result && written == t.after && during == (if t.started then [old(file.disk)] + t.after else [])
      && file.history == old(file.history) + written && file.disk == LastStore(old(file.disk), written)
  {
    hide Upserted;
    written, during := [], [];
    if Command(record, mode).None? {
      var done := record;
      if mode == Destroy { done := done.(status := Cleaned); }
      done := done.(updatedAt := a.ended);
      result, written := Write(file, done, Ok(done), a.lastWrite);
      return;
    }
    during := [file.disk];
    match a.process {
      case NotRun(error) => result := Err(error);
      case Failing(error) =>
        result, written := Write(file, AfterFailure(record, mode, error, a.ended), Err(error), a.lastWrite);
      case Success(parsed) =>
        var final := AfterSuccess(record, mode, parsed, a.ended);
        if final.Err? { return Err(final.error), written, during; }
        result, written := Write(file, final.value, final, a.lastWrite);
    }
    during := during + written;
  }

  lemma ExecuteBefore(store: Store, before: seq<Store>, record: Record, mode: Mode, a: Answers)
    ensures Execute(store, before, record, mode, a) == Execute(store, [], record, mode, a).(before := before)
  {
    hide Upserted;
  }

  lemma LastStoreConcat(store: Store, a: seq<Store>, b: seq<Store>)
    ensures LastStore(store, a + b) == LastStore(LastStore(store, a), b)
  {
    if b == [] {
      assert a + b == a;
    }
  }

  method PrepareCommand(file: StoreFile, record: Record, mode: Mode, a: Answers) returns (result: Result<Record>)
    modifies file
    ensures match Prepare(old(file.disk), record, mode, a)
      case Err(error) => result == Err(error) && file.disk == old(file.disk) && file.history == old(file.history)
      case Ok(p) => result == Ok(p.record) && file.disk == p.store == LastStore(old(file.disk), p.before)
                    && file.history == old(file.history) + p.before
  {
    hide Upserted;
    var prepared := record;
    if mode == Destroy {
      prepared := prepared.(status := CleanupPending,
                            cleanup := if record.recipe.destroyDisabled then Disabled else InProgress,
                            lastAttempt := Some(a.started));
      var done := file.Upsert(prepared, a.firstWrite);
      if done.Err? { return Err(done.error); }
    }
    result := Ok(prepared);
  }

  /** `during` is what was on disk from the start of the command on. */
  method Run(file: StoreFile, id: string, mode: Mode, a: Answers)
    returns (result: Result<Record>, ghost during: seq<Store>)
    modifies file
    ensures var t := Lifecycle(old(file.disk), id, mode, a);
      && result == t.result
      && file.history == old(file.history) + (t.before + t.after)
      && file.disk == LastStore(old(file.disk), t.before + t.after)
      && during == OnDiskWhile(old(file.disk), t)
  {
    hide Upserted, Execute, Prepare, LastStore;
    during := [];
    EmptyTrace(file.disk);
    if !a.pathOk { return Err(NO_DIRECTORY), during; }
    var i := IndexOf(file.disk, id);
    if i == |file.disk| { return Err(UNKNOWN), during; }
    var prepared := PrepareCommand(file, file.disk[i], mode, a);
    if prepared.Err? { return Err(prepared.error), during; }
    ghost var p := Prepare(old(file.disk), old(file.disk)[i], mode, a).value;
    ghost var written: seq<Store>;
    ExecuteBefore(p.store, p.before, p.record, mode, a);
    result, written, during := ExecuteCommand(file, prepared.value, mode, a);
    LastStoreConcat(old(file.disk), p.before, written);
    assert old(file.history) + (p.before + written) == old(file.history) + p.before + written;
  }

  lemma EmptyTrace(store: Store)
    ensures LastStore(store, []) == store && LastStore(store, [] + []) == store
  {
  }
}
