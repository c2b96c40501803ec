/** What a lifecycle call leaves in the store and what it answers, told by how the command went. */
module VmOutcomes {
  import opened Text
  import opened VmStore
  import opened VmLifecycle
  import opened VmRuns

  /** The recipe has a command for this. */
  predicate HasCommand(recipe: Recipe, mode: Mode) {
    || (mode == Suspend && recipe.suspend.Some?)
    || (mode == Resume && recipe.resume.Some?)
    || (mode == Destroy && recipe.destroy.Some? && !recipe.destroyDisabled)
  }

  /** The call gets as far as the command, or as the place where it would be. */
  predicate Arrives(store: Store, id: string, mode: Mode, a: Answers) {
    && a.pathOk && (exists r :: r in store && r.id == id)
    && (mode == Destroy ==> a.firstWrite)
  }

  /** The command has been run to its end, with a result that can be used; or there is none. */
  predicate Ends(recipe: Recipe, mode: Mode, process: Process) {
    !HasCommand(recipe, mode) || process.Failing? || (process.Success? && (mode == Resume ==> process.parsed.Ok?))
  }

  predicate Fails(recipe: Recipe, mode: Mode, process: Process) {
    HasCommand(recipe, mode) && process.Failing?
  }

  predicate Succeeds(recipe: Recipe, mode: Mode, process: Process) {
    HasCommand(recipe, mode) && process.Success?
  }

  /** The record that is stored at the end, compared with the one before the call. */
  predicate Leaves(before: Record, after: Record, mode: Mode, a: Answers) {
    var (failed, succeeded) := (Fails(before.recipe, mode, a.process), Succeeds(before.recipe, mode, a.process));
    && SameMachine(before, after) && after.updatedAt == a.ended && after.cleanupDisabled == before.cleanupDisabled
    && (mode != Destroy ==> after.lastAttempt == before.lastAttempt)
    && match mode
       case Suspend =>
         && after.outcome == before.outcome && after.cleanup == before.cleanup && after.lastError == before.lastError
         && after.status == if succeeded then Suspended else if failed then SuspendFailed else before.status
       case Resume =>
         && after.cleanup == before.cleanup && after.lastError == before.lastError
         && (succeeded ==> a.process.parsed == Ok(after.outcome)) && (!succeeded ==> after.outcome == before.outcome)
         && after.status == if succeeded then Running else if failed then ResumeFailed else before.status
       case Destroy =>
         && after.outcome == before.outcome && after.lastAttempt == Some(a.started)
         && (after.status == Cleaned <==> !failed) && (after.status == CleanupFailed <==> failed)
         && after.cleanup == (if failed then Unsuccessful else if succeeded then Succeeded
                              else if before.recipe.destroyDisabled then Disabled else InProgress)
         && after.lastError == if failed then Some(a.process.error) else if succeeded then None else before.lastError
  }

  /** What is stored before a destroy command. */
  predicate Announces(before: Record, pending: Record, a: Answers) {
    && SameMachine(before, pending) && pending.status == CleanupPending && pending.lastAttempt == Some(a.started)
    && pending.cleanup == (if before.recipe.destroyDisabled then Disabled else InProgress)
    && pending.outcome == before.outcome && pending.lastError == before.lastError
    && pending.updatedAt == before.updatedAt && pending.cleanupDisabled == before.cleanupDisabled
  }

  lemma KnownId(store: Store, id: string)
    ensures IndexOf(store, id) < |store| <==> exists r :: r in store && r.id == id
  {
    if IndexOf(store, id) < |store| {
      assert store[IndexOf(store, id)] in store;
    }
  }

  lemma Prepares(store: Store, i: nat, mode: Mode, a: Answers)
    requires Valid(store) && i < |store|
    ensures match Prepare(store, store[i], mode, a)
      case Err(_) => mode == Destroy && !a.firstWrite
      case Ok(p) =>
        && (mode == Destroy ==> a.firstWrite && Announces(store[i], p.record, a) && p.store == store[i := p.record]
                                && p.before == [p.store])
        && (mode != Destroy ==> p == Prepared(store, [], store[i]))
        && Valid(p.store) && i < |p.store| && p.store[i] == p.record
  {
    hide Upserted, Ordered, UniqueIds;
    Written(store, i, Pending(store[i], a.started), a.firstWrite);
  }

  /** From the command on, when the record before the call was `first`. */
  lemma Executes(store: Store, i: nat, before: seq<Store>, first: Record, mode: Mode, a: Answers)
    requires Valid(store) && i < |store|
    requires if mode == Destroy then Announces(first, store[i], a) else store[i] == first
    ensures var t := Execute(store, before, store[i], mode, a);
      && (t.started <==> HasCommand(first.recipe, mode))
      && (t.after != [] <==> a.lastWrite && Ends(first.recipe, mode, a.process))
      && (t.after != [] ==>
            && |t.after| == 1 && i < |t.after[0]| && t.after[0] == store[i := t.after[0][i]]
            && Leaves(first, t.after[0][i], mode, a)
            && t.result == if Fails(first.recipe, mode, a.process) then Err(a.process.error) else Ok(t.after[0][i]))
      && (t.after == [] ==> t.result.Err?)
  {
    hide Upserted, Valid;
    var record := store[i];
    Written(store, i, AfterNothing(record, mode, a.ended), a.lastWrite);
    if a.process.Failing? {
      Written(store, i, AfterFailure(record, mode, a.process.error, a.ended), a.lastWrite);
    }
    if a.process.Success? && AfterSuccess(record, mode, a.process.parsed, a.ended).Ok? {
      Written(store, i, AfterSuccess(record, mode, a.process.parsed, a.ended).value, a.lastWrite);
    }
  }

  /** For every store, call and answers: what a call has stored at its end, when it stores anything, and what it
      answers. A destroyed machine is Cleaned exactly when its command succeeded or there is none, and CleanupFailed
      with the error exactly when the command failed; a suspended or resumed one alike. Nothing else changes. */
  lemma OutcomeIsStored(store: Store, id: string, mode: Mode, a: Answers)
    requires Valid(store)
    ensures var (t, i) := (Lifecycle(store, id, mode, a), IndexOf(store, id));
      && (!Arrives(store, id, mode, a) ==> t.before == [] && t.after == [] && !t.started && t.result.Err?)
      && (Arrives(store, id, mode, a) ==>
            var first := store[i];
            && first.id == id && (t.started <==> HasCommand(first.recipe, mode))
            && |t.before| == (if mode == Destroy then 1 else 0)
            && (mode == Destroy ==> i < |t.before[0]| && Announces(first, t.before[0][i], a)
                                    && t.before[0] == store[i := t.before[0][i]])
            && (t.after != [] <==> a.lastWrite && Ends(first.recipe, mode, a.process))
            && (t.after == [] ==> t.result.Err?)
            && (t.after != [] ==>
                  && |t.after| == 1 && i < |t.after[0]| && t.after[0] == store[i := t.after[0][i]]
                  && Leaves(first, t.after[0][i], mode, a)
                  && t.result == if Fails(first.recipe, mode, a.process) then Err(a.process.error)
                                 else Ok(t.after[0][i])))
  {
    hide Upserted, Valid, Prepare, Execute, Leaves, Announces, HasCommand, Ends, Fails;
    var i := IndexOf(store, id);
    KnownId(store, id);
    if a.pathOk && i < |store| {
      Prepares(store, i, mode, a);
      if Prepare(store, store[i], mode, a).Ok? {
        var p := Prepare(store, store[i], mode, a).value;
        Executes(p.store, i, p.before, store[i], mode, a);
        KeepsBefore(p, mode, a);
      }
    }
  }

  lemma KeepsBefore(p: Prepared, mode: Mode, a: Answers)
    ensures Execute(p.store, p.before, p.record, mode, a).before == p.before
  {
    hide Upserted;
  }
}
