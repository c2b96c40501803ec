/** What every run of provisioning and lifecycle calls keeps, and what is on disk while a machine is destroyed. */
module VmRuns {
  import opened Text
  import opened VmStore
  import opened VmLifecycle

  /** The same machine: its id, its recipe and its creation time. */
  predicate SameMachine(r: Record, s: Record) {
    r.id == s.id && r.recipeId == s.recipeId && r.recipe == s.recipe && r.createdAt == s.createdAt
  }

  /** `after` is `store`, in the same order, with at most the record at `i` replaced by one of the same machine. */
  predicate UpdatesOnly(store: Store, i: nat, after: Store) {
    i < |store| && |after| == |store| && SameMachine(store[i], after[i])
    && forall k | 0 <= k < |store| && k != i :: after[k] == store[k]
  }

  lemma UpdateKeepsValid(store: Store, i: nat, record: Record)
    requires Valid(store) && i < |store| && SameMachine(store[i], record)
    ensures Valid(store[i := record]) && UpdatesOnly(store, i, store[i := record])
  {
    hide Below;
    var after := store[i := record];
    forall j, k | 0 <= j < k < |after| ensures Before(after[j], after[k]) && after[j].id != after[k].id {
      assert Before(store[j], store[k]) && store[j].id != store[k].id;
    }
  }

  lemma Written(store: Store, i: nat, record: Record, writable: bool)
    requires Valid(store) && i < |store| && SameMachine(store[i], record)
    ensures Upserted(store, record, writable) == if writable then Ok(store[i := record]) else Err(UNWRITABLE)
    ensures Valid(store[i := record]) && UpdatesOnly(store, i, store[i := record])
  {
    hide Upserted, Ordered, UniqueIds;
    UpdateInPlace(store, i, record, writable);
    UpdateKeepsValid(store, i, record);
  }

  // What the command leaves

  predicate Doomed(r: Record) {
    r.status == CleanupPending || r.status == CleanupFailed || r.status == Cleaned
  }

  /** Everything written by and after the command, in terms of the store before it. */
  lemma ExecuteWrites(store: Store, i: nat, before: seq<Store>, record: Record, mode: Mode, a: Answers)
    requires Valid(store) && i < |store| && SameMachine(store[i], record)
    ensures var t := Execute(store, before, record, mode, a);
      && t.before == before && |t.after| <= 1
      && (t.started <==> Command(record, mode).Some?)
      && forall s: Store | s in t.after :: Valid(s) && UpdatesOnly(store, i, s) && (mode == Destroy ==> Doomed(s[i]))
  {
    hide Upserted, Valid, UpdatesOnly;
    Written(store, i, AfterNothing(record, mode, a.ended), a.lastWrite);
    if a.process.Failing? {
      Written(store, i, AfterFailure(record, mode, a.process.error, a.ended), a.lastWrite);
    }
    if a.process.Success? && AfterSuccess(record, mode, a.process.parsed, a.ended).Ok? {
      Written(store, i, AfterSuccess(record, mode, a.process.parsed, a.ended).value, a.lastWrite);
    }
  }

  lemma UpdatesTwice(store: Store, i: nat, middle: Store, after: Store)
    requires UpdatesOnly(store, i, middle) && UpdatesOnly(middle, i, after)
    ensures UpdatesOnly(store, i, after)
  {
  }

  lemma PrepareWrites(store: Store, i: nat, mode: Mode, a: Answers)
    requires Valid(store) && i < |store|
    ensures match Prepare(store, store[i], mode, a)
      case Err(error) => mode == Destroy && !a.firstWrite
      case Ok(p) => && Valid(p.store) && UpdatesOnly(store, i, p.store) && SameMachine(p.store[i], p.record)
                    && p.before == (if mode == Destroy then [p.store] else []) && (mode != Destroy ==> p.store == store)
                    && (mode == Destroy ==> Doomed(p.store[i]))
  {
    hide Upserted, Ordered, UniqueIds;
    Written(store, i, Pending(store[i], a.started), a.firstWrite);
  }

  /** A lifecycle call only ever updates its own record, in its place: id, recipe and creation time stay, nothing
      else changes, and the list is never reordered. */
  lemma LifecycleUpdatesOnly(store: Store, id: string, mode: Mode, a: Answers, s: Store)
    requires Valid(store)
    requires s in Lifecycle(store, id, mode, a).before + Lifecycle(store, id, mode, a).after
    ensures Valid(s) && UpdatesOnly(store, IndexOf(store, id), s) && s[IndexOf(store, id)].id == id
  {
    hide Upserted, Valid, UpdatesOnly, Prepare, Execute, Doomed;
    var i := IndexOf(store, id);
    PrepareWrites(store, i, mode, a);
    var p := Prepare(store, store[i], mode, a).value;
    KeepsPlace(store, i, p.store);
    ExecuteWrites(p.store, i, p.before, p.record, mode, a);
    if s in Execute(p.store, p.before, p.record, mode, a).after {
      UpdatesTwice(store, i, p.store, s);
    }
    KeepsPlace(store, i, s);
  }

  lemma KeepsPlace(store: Store, i: nat, after: Store)
    requires UpdatesOnly(store, i, after)
    ensures i < |after| == |store| && after[i].id == store[i].id
  {
  }

  /** From the start of a destroy command until the call returns, whenever the process dies, the stored status
      is CleanupPending, CleanupFailed or Cleaned; and something is stored. */
  lemma DestroyIsNeverForgotten(store: Store, id: string, a: Answers)
    requires Valid(store)
    ensures var t := Lifecycle(store, id, Destroy, a);
      && (t.started ==> OnDiskWhile(store, t) != [])
      && forall s: Store | s in OnDiskWhile(store, t) ::
           IndexOf(store, id) < |s| && s[IndexOf(store, id)].id == id && Doomed(s[IndexOf(store, id)])
  {
    hide Upserted, Valid, UpdatesOnly, Prepare, Execute, Doomed;
    var i := IndexOf(store, id);
    if a.pathOk && i < |store| {
      PrepareWrites(store, i, Destroy, a);
      if Prepare(store, store[i], Destroy, a).Ok? {
        var p := Prepare(store, store[i], Destroy, a).value;
        KeepsPlace(store, i, p.store);
        ExecuteWrites(p.store, i, p.before, p.record, Destroy, a);
        var t := Execute(p.store, p.before, p.record, Destroy, a);
        forall s: Store | s in t.after ensures i < |s| && s[i].id == id && Doomed(s[i]) {
          KeepsPlace(p.store, i, s);
        }
      }
    }
  }

  // Runs

  /** Provisioning and pairing save a whole record; the rest are lifecycle calls. */
  datatype Call = Save(record: Record, writable: bool) | Manage(id: string, mode: Mode, answers: Answers)

  /** The stores that a call writes, one after the other. */
  function Writes(store: Store, call: Call): seq<Store> {
    match call
    case Save(record, writable) =>
      (match Upserted(store, record, writable) case Ok(after) => [after] case Err(_) => [])
    case Manage(id, mode, a) => Lifecycle(store, id, mode, a).before + Lifecycle(store, id, mode, a).after
  }

  function History(store: Store, calls: seq<Call>): seq<Store>
    decreases |calls|
  {
    if calls == [] then []
    else
      var written := Writes(store, calls[0]);
      written + History(LastStore(store, written), calls[1..])
  }

  lemma CallKeepsValid(store: Store, call: Call, s: Store)
    requires Valid(store) && s in Writes(store, call)
    ensures Valid(s)
  {
    hide Upserted, Valid, Lifecycle;
    match call
    case Save(record, writable) => UpsertChangesItsOwn(store, record, writable);
    case Manage(id, mode, a) => LifecycleUpdatesOnly(store, id, mode, a, s);
  }

  lemma {:induction false} HistoryValid(store: Store, calls: seq<Call>, s: Store)
    requires Valid(store) && s in History(store, calls)
    ensures Valid(s)
    decreases |calls|
  {
    hide Valid, Writes;
    var written := Writes(store, calls[0]);
    if s in written {
      CallKeepsValid(store, calls[0], s);
    } else {
      if written != [] {
        CallKeepsValid(store, calls[0], written[|written| - 1]);
      }
      HistoryValid(LastStore(store, written), calls[1..], s);
    }
  }

  /** From the empty store, every store ever written by every run is sorted, unique by id and of at most 256 records. */
  lemma EveryRunKeepsTheStore(calls: seq<Call>, s: Store)
    requires s in History([], calls)
    ensures Ordered(s) && UniqueIds(s) && |s| <= MAX_RUNTIMES
  {
    assert Valid([]);
    HistoryValid([], calls, s);
  }
}
