/** The durable store of provisioned machines: one list, rewritten as a whole, sorted and bounded. */
module VmStore {
  import opened Text

  const MAX_RUNTIMES := 256

  datatype Recipe = Recipe(suspend: Option<string>, resume: Option<string>, destroy: Option<string>,
                           destroyDisabled: bool)
  datatype Status =
    | Provisioning | Running | Suspended | SuspendFailed | ResumeFailed | Failed
    | CleanupPending | CleanupFailed | Cleaned
  datatype Cleanup = NotStarted | Disabled | InProgress | Succeeded | Unsuccessful

  /** A record, without the fields that no step here reads. */
  datatype Record = Record(id: string, recipeId: string, recipe: Recipe, status: Status, cleanup: Cleanup,
                           cleanupDisabled: bool, lastAttempt: Option<nat>, lastError: Option<string>, createdAt: nat,
                           updatedAt: nat, outcome: string)

  type Store = seq<Record>

  // Order

  /** The order of strings. */
  predicate Below(a: string, b: string) {
    b != "" && (a == "" || a[0] < b[0] || (a[0] == b[0] && Below(a[1..], b[1..])))
  }

  /** Newest first; by id among those of one time. */
  predicate Before(r: Record, s: Record) {
    r.createdAt > s.createdAt || (r.createdAt == s.createdAt && Below(r.id, s.id))
  }

  lemma {:induction false} BelowIsStrict(a: string, b: string, c: string)
    ensures !(Below(a, b) && Below(b, a))
    ensures Below(a, b) && Below(b, c) ==> Below(a, c)
    ensures Below(a, b) || Below(b, a) || a == b
    decreases a
  {
    if a != "" && b != "" && a[0] == b[0] {
      BelowIsStrict(a[1..], b[1..], if c == "" then "" else c[1..]);
      assert a == [a[0]] + a[1..] && b == [b[0]] + b[1..];
    }
  }

  lemma BeforeIsStrict(r: Record, s: Record, t: Record)
    ensures !(Before(r, s) && Before(s, r))
    ensures Before(r, s) && Before(s, t) ==> Before(r, t)
    ensures Before(r, s) || Before(s, r) || (r.createdAt == s.createdAt && r.id == s.id)
  {
    hide Below;
    BelowIsStrict(r.id, s.id, t.id);
  }

  predicate Ordered(store: Store) {
    forall i, j | 0 <= i < j < |store| :: Before(store[i], store[j])
  }

  predicate UniqueIds(store: Store) {
    forall i, j | 0 <= i < j < |store| :: store[i].id != store[j].id
  }

  /** What every persisted store is. */
  predicate Valid(store: Store) {
    Ordered(store) && UniqueIds(store) && |store| <= MAX_RUNTIMES
  }

  // Upsert

  function Retain(store: Store, id: string): (kept: Store)
    ensures forall r :: r in kept <==> r in store && r.id != id
  {
    if store == [] then []
    else (if store[0].id != id then [store[0]] else []) + Retain(store[1..], id)
  }

  /** The place of a record in a sorted list: before the first that comes after it. */
  function Insert(store: Store, record: Record): Store {
    if store == [] then [record]
    else if Before(record, store[0]) then [record] + store
    else [store[0]] + Insert(store[1..], record)
  }

  /** A stable sort. */
  function Sort(store: Store): Store {
    if store == [] then [] else Insert(Sort(store[..|store| - 1]), store[|store| - 1])
  }

  const FULL := "Ephemeral VM runtime store reached its durable capacity."
  const UNWRITABLE := "Could not publish the store."

  /** `writable` says whether the new list could be encoded and published. */
  function Upserted(store: Store, record: Record, writable: bool): Result<Store> {
    var sorted := Sort(Retain(store, record.id) + [record]);
    if |sorted| > MAX_RUNTIMES then Err(FULL) else if !writable then Err(UNWRITABLE) else Ok(sorted)
  }

  lemma {:induction false} InsertBetween(a: Store, b: Store, record: Record)
    requires forall i | 0 <= i < |a| :: !Before(record, a[i])
    requires b != [] ==> Before(record, b[0])
    ensures Insert(a + b, record) == a + [record] + b
  {
    hide Before;
    if a == [] {
      assert a + b == b;
    } else {
      assert (a + b)[1..] == a[1..] + b;
      InsertBetween(a[1..], b, record);
    }
  }

  lemma {:induction false} InsertMembers(store: Store, record: Record)
    ensures forall r :: r in Insert(store, record) <==> r == record || r in store
    ensures |Insert(store, record)| == |store| + 1
  {
    hide Before;
    if store != [] {
      InsertMembers(store[1..], record);
      assert store == [store[0]] + store[1..];
    }
  }

  lemma ConsOrdered(first: Record, rest: Store)
    requires Ordered(rest) && forall r | r in rest :: Before(first, r)
    ensures Ordered([first] + rest)
  {
    hide Before;
  }

  lemma ConsUnique(first: Record, rest: Store)
    requires UniqueIds(rest) && forall r | r in rest :: first.id != r.id
    ensures UniqueIds([first] + rest)
  {
  }

  lemma {:induction false} InsertOrdered(store: Store, record: Record)
    requires Ordered(store) && forall r | r in store :: r.id != record.id
    ensures Ordered(Insert(store, record))
  {
    hide Before;
    if store != [] {
      assert forall r | r in store[1..] :: r in store;
      InsertMembers(store[1..], record);
      BeforeIsStrict(record, store[0], store[0]);
      if Before(record, store[0]) {
        forall r | r in store ensures Before(record, r) {
          BeforeIsStrict(record, store[0], r);
        }
        ConsOrdered(record, store);
      } else {
        InsertOrdered(store[1..], record);
        assert forall r | r in store[1..] :: Before(store[0], r);
        ConsOrdered(store[0], Insert(store[1..], record));
      }
    }
  }

  lemma {:induction false} InsertUnique(store: Store, record: Record)
    requires UniqueIds(store) && forall r | r in store :: r.id != record.id
    ensures UniqueIds(Insert(store, record))
  {
    hide Before;
    if store != [] {
      assert forall r | r in store[1..] :: r in store;
      InsertMembers(store[1..], record);
      if Before(record, store[0]) {
        ConsUnique(record, store);
      } else {
        InsertUnique(store[1..], record);
        ConsUnique(store[0], Insert(store[1..], record));
      }
    }
  }

  lemma OrderedPart(store: Store, low: nat, high: nat)
    requires Ordered(store) && low <= high <= |store|
    ensures Ordered(store[low..high])
  {
    hide Before;
  }

  /** Sorting leaves a sorted list as it is. */
  lemma {:induction false} SortOrdered(store: Store)
    requires Ordered(store)
    ensures Sort(store) == store
  {
    hide Before;
    if store != [] {
      var before, last := store[..|store| - 1], store[|store| - 1];
      OrderedPart(store, 0, |store| - 1);
      SortOrdered(before);
      forall i | 0 <= i < |before| ensures !Before(last, before[i]) {
        BeforeIsStrict(last, before[i], last);
      }
      InsertBetween(before, [], last);
      assert before + [] == before && before + [last] + [] == store;
    }
  }

  lemma {:induction false} RetainValid(store: Store, id: string)
    requires Ordered(store) && UniqueIds(store)
    ensures Ordered(Retain(store, id)) && UniqueIds(Retain(store, id))
    ensures |Retain(store, id)| <= |store|
  {
    hide Before;
    if store != [] {
      OrderedPart(store, 1, |store|);
      RetainValid(store[1..], id);
      var kept := Retain(store[1..], id);
      forall r | r in kept ensures Before(store[0], r) && store[0].id != r.id {
        var j :| 0 <= j < |store[1..]| && store[1..][j] == r;
        assert store[j + 1] == r;
      }
      if store[0].id != id {
        ConsOrdered(store[0], kept);
        ConsUnique(store[0], kept);
      }
    }
  }

  /** On a sorted store, `upsert` puts the record in its place among the others. */
  lemma UpsertInserts(store: Store, record: Record)
    requires Valid(store)
    ensures Sort(Retain(store, record.id) + [record]) == Insert(Retain(store, record.id), record)
  {
    hide Before, Retain, Insert;
    var kept := Retain(store, record.id);
    RetainValid(store, record.id);
    SortOrdered(kept);
    assert (kept + [record])[..|kept|] == kept;
  }

  predicate Knows(store: Store, id: string) {
    exists r | r in store :: r.id == id
  }

  /** `upsert` changes only its own id; what it writes is sorted, unique and bounded. It is refused for want of
      room exactly when the store is full and does not know the id. */
  lemma UpsertChangesItsOwn(store: Store, record: Record, writable: bool)
    requires Valid(store)
    ensures Upserted(store, record, writable) == Err(FULL) <==> |store| == MAX_RUNTIMES && !Knows(store, record.id)
    ensures Upserted(store, record, writable).Ok? ==>
      var after := Upserted(store, record, writable).value;
      Valid(after) && forall r :: r in after <==> r == record || (r in store && r.id != record.id)
  {
    hide Before, Sort, Insert, Ordered, UniqueIds;
    var kept := Retain(store, record.id);
    UpsertInserts(store, record);
    RetainValid(store, record.id);
    KnownIdShrinks(store, record.id);
    InsertMembers(kept, record);
    assert forall r | r in kept :: r.id != record.id;
    InsertOrdered(kept, record);
    InsertUnique(kept, record);
    if !Knows(store, record.id) {
      RetainOthers(store, record.id);
    }
  }

  lemma {:induction false} KnownIdShrinks(store: Store, id: string)
    ensures |Retain(store, id)| <= |store|
    ensures Knows(store, id) ==> |Retain(store, id)| < |store|
  {
    if store != [] {
      KnownIdShrinks(store[1..], id);
      if r :| r in store && r.id == id && store[0].id != id {
        assert r in store[1..];
      }
    }
  }

  lemma {:induction false} RetainOthers(store: Store, id: string)
    requires forall r | r in store :: r.id != id
    ensures Retain(store, id) == store
  {
    if store != [] {
      assert forall r | r in store[1..] :: r in store;
      RetainOthers(store[1..], id);
      assert [store[0]] + store[1..] == store;
    }
  }

  lemma {:induction false} RetainConcat(a: Store, b: Store, id: string)
    ensures Retain(a + b, id) == Retain(a, id) + Retain(b, id)
  {
    if a == [] {
      assert a + b == b;
    } else {
      assert (a + b)[1..] == a[1..] + b;
      RetainConcat(a[1..], b, id);
      var first := if a[0].id != id then [a[0]] else [];
      assert first + (Retain(a[1..], id) + Retain(b, id)) == first + Retain(a[1..], id) + Retain(b, id);
    }
  }

  lemma RetainHead(first: Record, rest: Store)
    ensures Retain([first] + rest, first.id) == Retain(rest, first.id)
  {
    assert ([first] + rest)[1..] == rest;
  }

  lemma OthersDiffer(store: Store, i: nat)
    requires UniqueIds(store) && i < |store|
    ensures forall r | r in store[..i] + store[i + 1..] :: r.id != store[i].id
  {
    var others := store[..i] + store[i + 1..];
    assert forall k | 0 <= k < |others| :: others[k] == store[if k < i then k else k + 1];
  }

  lemma SplitAround(store: Store, i: nat)
    requires i < |store|
    ensures store == store[..i] + ([store[i]] + store[i + 1..])
  {
  }

  lemma RetainAllBut(store: Store, i: nat)
    requires UniqueIds(store) && i < |store|
    ensures Retain(store, store[i].id) == store[..i] + store[i + 1..]
  {
    hide Retain, UniqueIds;
    var a, b, id := store[..i], store[i + 1..], store[i].id;
    OthersDiffer(store, i);
    SplitAround(store, i);
    RetainConcat(a, [store[i]] + b, id);
    RetainHead(store[i], b);
    RetainConcat(a, b, id);
    RetainOthers(a + b, id);
  }

  /** A record that keeps its id and its time is updated where it is: the list is not reordered, nothing else
      changes, and capacity is never the reason for a failure. */
  lemma UpdateInPlace(store: Store, i: nat, record: Record, writable: bool)
    requires Valid(store) && i < |store| && store[i].id == record.id && store[i].createdAt == record.createdAt
    ensures Upserted(store, record, writable) == if writable then Ok(store[i := record]) else Err(UNWRITABLE)
  {
    hide Before, Sort, Insert, Retain;
    UpsertInserts(store, record);
    RetainAllBut(store, i);
    var a, b := store[..i], store[i + 1..];
    forall k | 0 <= k < |store| && k != i
      ensures Before(store[k], record) == Before(store[k], store[i])
          && Before(record, store[k]) == Before(store[i], store[k])
    {
      SameKey(store[i], record, store[k]);
    }
    forall k | 0 <= k < |a| ensures !Before(record, a[k]) {
      BeforeIsStrict(store[k], store[i], store[i]);
    }
    InsertBetween(a, b, record);
    assert a + [record] + b == store[i := record];
  }

  lemma SameKey(r: Record, s: Record, t: Record)
    requires r.id == s.id && r.createdAt == s.createdAt
    ensures Before(t, r) == Before(t, s) && Before(r, t) == Before(s, t)
  {
  }

  // The file

  lemma RetainStep(before: Store, store: Store, i: nat, id: string)
    requires i < |store|
    ensures before + Retain(store[i..], id)
         == (if store[i].id != id then before + [store[i]] else before) + Retain(store[i + 1..], id)
  {
    assert store[i..][1..] == store[i + 1..];
  }

  class StoreFile {
    var disk: Store
    ghost var history: seq<Store>

    constructor ()
      ensures disk == [] && history == []
    {
      disk, history := [], [];
    }

    method RetainOtherIds(id: string) returns (kept: Store)
      ensures kept == Retain(disk, id)
    {
      hide Retain;
      kept := [];
      assert disk[0..] == disk;
      for i := 0 to |disk|
        invariant Retain(disk, id) == kept + Retain(disk[i..], id)
      {
        RetainStep(kept, disk, i, id);
        if disk[i].id != id { kept := kept + [disk[i]]; }
      }
      assert disk[|disk|..] == [];
      NoneRetained(id);
      assert kept + [] == kept;
    }

    method Upsert(record: Record, writable: bool) returns (result: Result<()>)
      modifies this
      ensures match Upserted(old(disk), record, writable)
        case Ok(after) => result == Ok(()) && disk == after && history == old(history) + [after]
        case Err(error) => result == Err(error) && disk == old(disk) && history == old(history)
    {
      hide Retain, Sort;
      var runtimes := RetainOtherIds(record.id);
      runtimes := runtimes + [record];
      runtimes := Sort(runtimes);
      if |runtimes| > MAX_RUNTIMES { return Err(FULL); }
      if !writable { return Err(UNWRITABLE); }
      disk := runtimes;
      history := history + [runtimes];
      result := Ok(());
    }
  }

  lemma NoneRetained(id: string)
    ensures Retain([], id) == []
  {
  }
}
