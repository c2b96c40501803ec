/** The explorer's rows in every run: their order, their depth, and what collapsing keeps. */
module ExplorerRuns {
  import opened Text
  import opened FileExplorer
  import opened ExplorerRows

  // Preorder

  /** Row `j` is a child of `directory`, or follows its parent's row with only rows under the parent between. */
  predicate Placed(rows: seq<Row>, directory: string, j: nat)
    requires j < |rows|
  {
    || Parent(rows[j].path) == directory
    || exists i | 0 <= i < j :: rows[i].path == Parent(rows[j].path)
                                && forall k | i < k <= j :: Under(rows[i].path, rows[k].path)
  }

  predicate Preorder(rows: seq<Row>, directory: string) {
    forall j: nat | j < |rows| :: Placed(rows, directory, j)
  }

  lemma PlacedLater(a: seq<Row>, b: seq<Row>, directory: string, j: nat)
    requires j < |b| && Placed(b, directory, j)
    ensures Placed(a + b, directory, |a| + j)
  {
    var c := a + b;
    if Parent(b[j].path) != directory {
      var i :| 0 <= i < j && b[i].path == Parent(b[j].path) && forall k | i < k <= j :: Under(b[i].path, b[k].path);
      assert c[|a| + i] == b[i];
      forall k | |a| + i < k <= |a| + j ensures Under(b[i].path, c[k].path) {
        assert c[k] == b[k - |a|];
      }
    }
  }

  lemma PreorderConcat(a: seq<Row>, b: seq<Row>, directory: string)
    requires Preorder(a, directory) && Preorder(b, directory)
    ensures Preorder(a + b, directory)
  {
    forall j: nat | j < |a + b| ensures Placed(a + b, directory, j) {
      if j < |a| {
        assert Placed(a, directory, j);
        assert forall k | 0 <= k <= j :: (a + b)[k] == a[k];
      } else {
        PlacedLater(a, b, directory, j - |a|);
      }
    }
  }

  lemma PreorderUnderRow(row: Row, rows: seq<Row>, directory: string)
    requires Parent(row.path) == directory && Preorder(rows, row.path) && AllUnder(rows, row.path)
    ensures Preorder([row] + rows, directory)
  {
    var all := [row] + rows;
    hide Under;
    forall j: nat | j < |all| ensures Placed(all, directory, j) {
      if j > 0 {
        var p := Parent(rows[j - 1].path);
        if p == row.path {
          assert all[0].path == p;
          forall k | 0 < k <= j ensures Under(row.path, all[k].path) {
            assert all[k] == rows[k - 1];
          }
        } else {
          assert Placed(rows, row.path, j - 1);
          var i :| 0 <= i < j - 1 && rows[i].path == p
            && forall k | i < k <= j - 1 :: Under(rows[i].path, rows[k].path);
          assert all[i + 1] == rows[i];
          forall k | i + 1 < k <= j ensures Under(rows[i].path, all[k].path) {
            assert all[k] == rows[k - 1];
          }
        }
      }
    }
  }

  lemma {:induction false} RowsPreorder(directories: Directories, expanded: set<string>, directory: string, depth: nat)
    requires WellFormed(directories)
    ensures Preorder(RowsOf(directories, expanded, directory, depth), directory)
    decreases AtLeastAsDeep(directories, directory), 1, 0
  {
    hide Preorder;
    if IsReady(directories, directory) {
      RowsAreEntryRows(directories, expanded, directory, depth);
      EntriesPreorder(directories, expanded, directory, directories[directory].entries, depth);
    } else {
      NoRowsPreorder(directory);
    }
  }

  lemma NoRowsPreorder(directory: string)
    ensures Preorder([], directory)
  {
  }

  lemma {:induction false} BelowPreorder(directories: Directories, expanded: set<string>, directory: string,
          entry: Entry, depth: nat)
    requires WellFormed(directories) && directory in directories && EntryOf(directory, entry)
    ensures Preorder(Below(directories, expanded, directory, entry, depth), directory)
    decreases AtLeastAsDeep(directories, directory), 0, 0
  {
    ParentOfJoin(directory, entry.name);
    hide RowsOf, WellFormed, Preorder, AllUnder;
    var row := RowOf(directories, expanded, entry, depth);
    if IsExpanded(expanded, entry) {
      Deeper(directories, directory, entry);
      RowsPreorder(directories, expanded, entry.path, depth + 1);
      RowsUnder(directories, expanded, entry.path, depth + 1);
      PreorderUnderRow(row, RowsOf(directories, expanded, entry.path, depth + 1), directory);
    } else {
      NoRowsUnder(row);
      PreorderUnderRow(row, [], directory);
      assert [row] + [] == [row];
    }
  }

  lemma NoRowsUnder(row: Row)
    ensures Preorder([], row.path) && AllUnder([], row.path)
  {
  }

  lemma {:induction false} EntriesPreorder(directories: Directories, expanded: set<string>, directory: string,
          entries: seq<Entry>, depth: nat)
    requires WellFormed(directories) && directory in directories && ListingOf(directory, entries)
    ensures Preorder(EntryRows(directories, expanded, directory, entries, depth), directory)
    decreases AtLeastAsDeep(directories, directory), 0, |entries|
  {
    hide Below, WellFormed, Preorder;
    if entries != [] {
      BelowPreorder(directories, expanded, directory, entries[0], depth);
      EntriesPreorder(directories, expanded, directory, entries[1..], depth);
      PreorderConcat(Below(directories, expanded, directory, entries[0], depth),
                     EntryRows(directories, expanded, directory, entries[1..], depth), directory);
    } else {
      NoRows(directories, expanded, directory, depth);
      NoRowsPreorder(directory);
    }
  }

  // Siblings

  /** The paths of the rows whose parent is `directory`, in their order. */
  function ChildrenOf(rows: seq<Row>, directory: string): seq<string> {
    if rows == [] then []
    else (if Parent(rows[0].path) == directory then [rows[0].path] else []) + ChildrenOf(rows[1..], directory)
  }

  function PathsOf(entries: seq<Entry>): seq<string> {
    if entries == [] then [] else [entries[0].path] + PathsOf(entries[1..])
  }

  lemma {:induction false} ChildrenConcat(a: seq<Row>, b: seq<Row>, directory: string)
    ensures ChildrenOf(a + b, directory) == ChildrenOf(a, directory) + ChildrenOf(b, directory)
  {
    hide Parent;
    if a == [] {
      assert a + b == b;
    } else {
      assert (a + b)[1..] == a[1..] + b;
      ChildrenConcat(a[1..], b, directory);
      var first := if Parent(a[0].path) == directory then [a[0].path] else [];
      Assoc(first, ChildrenOf(a[1..], directory), ChildrenOf(b, directory));
    }
  }

  /** The parent of what is under a directory is the directory or under it. */
  lemma {:induction false} ParentUnder(top: string, path: string)
    requires top != "" && Under(top, path)
    ensures AtOrUnder(top, Parent(path))
    decreases |path|
  {
    var before := path[..|path| - 1];
    assert before[..|top|] == path[..|top|];
    if path[|path| - 1] != '/' {
      assert before[|top|] == '/';
      ParentUnder(top, before);
    }
  }

  lemma {:induction false} NoChildren(rows: seq<Row>, directory: string)
    requires forall i | 0 <= i < |rows| :: Parent(rows[i].path) != directory
    ensures ChildrenOf(rows, directory) == []
  {
    if rows != [] {
      assert forall i | 0 <= i < |rows[1..]| :: rows[1..][i] == rows[i + 1];
      NoChildren(rows[1..], directory);
    }
  }

  /** Rows under an entry have no parent outside it. */
  lemma NoChildrenOutside(rows: seq<Row>, top: string, directory: string)
    requires top != "" && AllUnder(rows, top) && !AtOrUnder(top, directory)
    ensures ChildrenOf(rows, directory) == []
  {
    forall i | 0 <= i < |rows| ensures Parent(rows[i].path) != directory {
      ParentUnder(top, rows[i].path);
    }
    NoChildren(rows, directory);
  }

  lemma NotAbove(directory: string, entry: Entry)
    requires EntryOf(directory, entry)
    ensures entry.path != "" && !AtOrUnder(entry.path, directory) && Parent(entry.path) == directory
  {
    ParentOfJoin(directory, entry.name);
  }

  lemma BelowIs(directories: Directories, expanded: set<string>, directory: string, entry: Entry, depth: nat,
          of: string)
    requires WellFormed(directories) && directory in directories && EntryOf(directory, entry)
    ensures ChildrenOf(Below(directories, expanded, directory, entry, depth), of) ==
      (if of == directory then [entry.path] else [])
      + (if IsExpanded(expanded, entry) then ChildrenOf(RowsOf(directories, expanded, entry.path, depth + 1), of)
          else [])
  {
    NotAbove(directory, entry);
    hide RowsOf, WellFormed, Parent, AtOrUnder;
    var row := RowOf(directories, expanded, entry, depth);
    assert [row][1..] == [];
    if IsExpanded(expanded, entry) {
      ChildrenConcat([row], RowsOf(directories, expanded, entry.path, depth + 1), of);
    }
  }

  /** The rows directly in a directory are the entries of its listing, all of them, in the listing's order. */
  lemma {:induction false} DirectChildren(directories: Directories, expanded: set<string>, directory: string,
          entries: seq<Entry>, depth: nat)
    requires WellFormed(directories) && directory in directories && ListingOf(directory, entries)
    ensures ChildrenOf(EntryRows(directories, expanded, directory, entries, depth), directory) == PathsOf(entries)
    decreases |entries|
  {
    hide Below, WellFormed, Parent, AtOrUnder, ChildrenOf;
    if entries != [] {
      var entry := entries[0];
      var below := Below(directories, expanded, directory, entry, depth);
      BelowIs(directories, expanded, directory, entry, depth, directory);
      NotAbove(directory, entry);
      if IsExpanded(expanded, entry) {
        RowsUnder(directories, expanded, entry.path, depth + 1);
        NoChildrenOutside(RowsOf(directories, expanded, entry.path, depth + 1), entry.path, directory);
      }
      assert ChildrenOf(below, directory) == [entry.path];
      ChildrenConcat(below, EntryRows(directories, expanded, directory, entries[1..], depth), directory);
      DirectChildren(directories, expanded, directory, entries[1..], depth);
    } else {
      NoRows(directories, expanded, directory, depth);
      ChildrenNone(directory);
    }
  }

  lemma ChildrenNone(directory: string)
    ensures ChildrenOf([], directory) == []
  {
  }

  /** None of the rows is directly in `of`, or all entries of its listing are, in order. */
  predicate InOrder(directories: Directories, rows: seq<Row>, of: string) {
    ChildrenOf(rows, of) == [] || (IsReady(directories, of) && ChildrenOf(rows, of) == PathsOf(directories[of].entries))
  }

  lemma {:induction false} RowsInOrder(directories: Directories, expanded: set<string>, directory: string, depth: nat,
          of: string)
    requires WellFormed(directories)
    ensures InOrder(directories, RowsOf(directories, expanded, directory, depth), of)
    decreases AtLeastAsDeep(directories, directory), 1, 0
  {
    hide ChildrenOf;
    if IsReady(directories, directory) {
      var entries := directories[directory].entries;
      RowsAreEntryRows(directories, expanded, directory, depth);
      if of == directory {
        DirectChildren(directories, expanded, directory, entries, depth);
      } else {
        EntriesInOrder(directories, expanded, directory, entries, depth, of);
      }
    } else {
      ChildrenNone(of);
    }
  }

  /** Rows of these entries have parents at or under one of them only. */
  lemma {:induction false} NoneOfOthers(directories: Directories, expanded: set<string>, directory: string,
          entries: seq<Entry>, depth: nat, of: string)
    requires WellFormed(directories) && directory in directories && ListingOf(directory, entries) && of != directory
    requires forall k | 0 <= k < |entries| :: !AtOrUnder(entries[k].path, of)
    ensures ChildrenOf(EntryRows(directories, expanded, directory, entries, depth), of) == []
    decreases |entries|
  {
    hide Below, WellFormed, Parent, AtOrUnder, ChildrenOf;
    if entries != [] {
      var entry := entries[0];
      BelowIs(directories, expanded, directory, entry, depth, of);
      NotAbove(directory, entry);
      if IsExpanded(expanded, entry) {
        RowsUnder(directories, expanded, entry.path, depth + 1);
        NoChildrenOutside(RowsOf(directories, expanded, entry.path, depth + 1), entry.path, of);
      }
      assert forall k | 0 <= k < |entries[1..]| :: entries[1..][k] == entries[k + 1];
      NoneOfOthers(directories, expanded, directory, entries[1..], depth, of);
      ChildrenConcat(Below(directories, expanded, directory, entry, depth),
                     EntryRows(directories, expanded, directory, entries[1..], depth), of);
    } else {
      NoRows(directories, expanded, directory, depth);
      ChildrenNone(of);
    }
  }

  lemma OthersApart(directory: string, entries: seq<Entry>, of: string)
    requires ListingOf(directory, entries) && entries != [] && AtOrUnder(entries[0].path, of)
    ensures forall k | 0 <= k < |entries[1..]| :: !AtOrUnder(entries[1..][k].path, of)
  {
    hide AtOrUnder, EntryOf;
    forall k | 0 <= k < |entries[1..]| ensures !AtOrUnder(entries[1..][k].path, of) {
      if AtOrUnder(entries[k + 1].path, of) {
        SiblingsDisjoint(directory, entries[0], entries[k + 1], of);
      }
    }
  }

  lemma {:induction false} EntriesInOrder(directories: Directories, expanded: set<string>, directory: string,
          entries: seq<Entry>, depth: nat, of: string)
    requires WellFormed(directories) && directory in directories && ListingOf(directory, entries) && of != directory
    ensures InOrder(directories, EntryRows(directories, expanded, directory, entries, depth), of)
    decreases AtLeastAsDeep(directories, directory), 0, |entries|
  {
    hide Below, WellFormed, Parent, AtOrUnder, ChildrenOf, IsReady, PathsOf;
    if entries != [] {
      var entry := entries[0];
      BelowIs(directories, expanded, directory, entry, depth, of);
      NotAbove(directory, entry);
      ChildrenConcat(Below(directories, expanded, directory, entry, depth),
                     EntryRows(directories, expanded, directory, entries[1..], depth), of);
      if AtOrUnder(entry.path, of) {
        OthersApart(directory, entries, of);
        NoneOfOthers(directories, expanded, directory, entries[1..], depth, of);
        if IsExpanded(expanded, entry) {
          Deeper(directories, directory, entry);
          RowsInOrder(directories, expanded, entry.path, depth + 1, of);
        }
      } else {
        if IsExpanded(expanded, entry) {
          RowsUnder(directories, expanded, entry.path, depth + 1);
          NoChildrenOutside(RowsOf(directories, expanded, entry.path, depth + 1), entry.path, of);
        }
        EntriesInOrder(directories, expanded, directory, entries[1..], depth, of);
      }
    } else {
      NoRows(directories, expanded, directory, depth);
      ChildrenNone(of);
    }
  }

  // Depth

  function Slashes(path: string): nat {
    if path == "" then 0 else (if path[0] == '/' then 1 else 0) + Slashes(path[1..])
  }

  lemma {:induction false} SlashesConcat(a: string, b: string)
    ensures Slashes(a + b) == Slashes(a) + Slashes(b)
  {
    if a == "" {
      assert a + b == b;
    } else {
      assert (a + b)[1..] == a[1..] + b;
      SlashesConcat(a[1..], b);
    }
  }

  lemma {:induction false} NoSlashes(name: string)
    requires '/' !in name
    ensures Slashes(name) == 0
  {
    if name != "" {
      assert name[0] != '/' && forall c :: c in name[1..] ==> c in name;
      NoSlashes(name[1..]);
    }
  }

  function Level(directory: string): nat {
    if directory == "" then 0 else Slashes(directory) + 1
  }

  lemma EntryLevel(directory: string, entry: Entry)
    requires EntryOf(directory, entry)
    ensures Slashes(entry.path) == Level(directory) && Level(entry.path) == Level(directory) + 1
  {
    NoSlashes(entry.name);
    if directory != "" {
      assert directory + "/" + entry.name == directory + ("/" + entry.name);
      SlashesConcat(directory, "/" + entry.name);
      SlashesConcat("/", entry.name);
    }
  }

  predicate DepthsRight(rows: seq<Row>) {
    forall i | 0 <= i < |rows| :: rows[i].depth == Slashes(rows[i].path)
  }

  lemma {:induction false} RowsDepth(directories: Directories, expanded: set<string>, directory: string)
    requires WellFormed(directories)
    ensures DepthsRight(RowsOf(directories, expanded, directory, Level(directory)))
    decreases AtLeastAsDeep(directories, directory), 1, 0
  {
    if IsReady(directories, directory) {
      RowsAreEntryRows(directories, expanded, directory, Level(directory));
      EntriesDepth(directories, expanded, directory, directories[directory].entries);
    }
  }

  lemma {:induction false} EntriesDepth(directories: Directories, expanded: set<string>, directory: string,
          entries: seq<Entry>)
    requires WellFormed(directories) && directory in directories && ListingOf(directory, entries)
    ensures DepthsRight(EntryRows(directories, expanded, directory, entries, Level(directory)))
    decreases AtLeastAsDeep(directories, directory), 0, |entries|
  {
    hide RowsOf, Slashes, WellFormed, Level;
    if entries != [] {
      EntryLevel(directory, entries[0]);
      if IsExpanded(expanded, entries[0]) {
        Deeper(directories, directory, entries[0]);
        RowsDepth(directories, expanded, entries[0].path);
      }
      EntriesDepth(directories, expanded, directory, entries[1..]);
    }
  }

  // Runs

  function Run(s: Explorer, calls: seq<Call>): Explorer
    decreases |calls|
  {
    if calls == [] then s else Run(Apply(s, calls[0]), calls[1..])
  }

  predicate Possible(calls: seq<Call>) {
    forall i | 0 <= i < |calls| :: calls[i].Possible()
  }

  lemma {:induction false} RunWellFormed(s: Explorer, calls: seq<Call>)
    requires WellFormed(s.directories) && Possible(calls)
    ensures WellFormed(Run(s, calls).directories)
    decreases |calls|
  {
    if calls != [] {
      assert calls[0].Possible();
      RunWellFormed(Apply(s, calls[0]), calls[1..]);
    }
  }

  ghost function Rows(s: Explorer): seq<Row>
    requires WellFormed(s.directories)
  {
    RowsOf(s.directories, s.expanded, "", 0)
  }

  /** In every run of calls and late replies: each path is listed once, in preorder and at its depth, siblings
      are all listed in the order of their listing or not at all, and a path is listed exactly when its parent
      lists it and every ancestor directory is listed as such, expanded and loaded. */
  lemma EveryRun(calls: seq<Call>, path: string)
    requires Possible(calls)
    ensures var s := Run(CLOSED, calls);
            && WellFormed(s.directories)
            && NoneTwice(Rows(s)) && Preorder(Rows(s), "") && DepthsRight(Rows(s))
            && InOrder(s.directories, Rows(s), path)
            && (HasPath(Rows(s), path) <==>
                path != "" && Listed(s.directories, path, false)
                && forall i | 0 <= i < |path| && path[i] == '/' :: Open(s.directories, s.expanded, path[..i]))
  {
    RunWellFormed(CLOSED, calls);
    var s := Run(CLOSED, calls);
    hide Run, RowsOf, WellFormed, NoneTwice, Preorder, DepthsRight, InOrder, HasPath, Listed, Open;
    RowsNoneTwice(s.directories, s.expanded, "", 0);
    RowsPreorder(s.directories, s.expanded, "", 0);
    RowsDepth(s.directories, s.expanded, "");
    RowsInOrder(s.directories, s.expanded, "", 0, path);
    RowsShow(s.directories, s.expanded, "", 0, path);
  }

  const X := Entry("x", "a/x", false, false, false)
  const A := Entry("a", "a", true, false, false)
  const DROPPED: seq<Call> := [Begin("w", 1), Accept("w", "", 1, Ok([A])), Toggle("a", 2), Accept("w", "a", 2, Ok([X])),
                               Refresh("", 3), Accept("w", "", 3, Ok([]))]

  lemma Dropped()
    ensures Run(CLOSED, DROPPED) == Explorer(Some("w"), map["" := Ready([]), "a" := Ready([X])], {"", "a"},
        map["" := 3, "a" := 2])
  {
    var s1 := Explorer(Some("w"), map["" := Loading], {""}, map["" := 1]);
    var s2 := s1.(directories := map["" := Ready([A])]);
    var s3 := Explorer(Some("w"), map["" := Ready([A]), "a" := Loading], {"", "a"}, map["" := 1, "a" := 2]);
    var s4 := s3.(directories := map["" := Ready([A]), "a" := Ready([X])]);
    var s5 := s4.(ops := map["" := 3, "a" := 2]);
    var s6 := s5.(directories := map["" := Ready([]), "a" := Ready([X])]);
    assert Apply(CLOSED, DROPPED[0]) == s1;
    assert Apply(s1, DROPPED[1]) == s2;
    assert Apply(s2, DROPPED[2]) == s3;
    assert Apply(s3, DROPPED[3]) == s4;
    assert Apply(s4, DROPPED[4]) == s5;
    assert Apply(s5, DROPPED[5]) == s6;
    hide Apply, Run;
    RunOne(CLOSED, DROPPED);
    RunOne(s1, DROPPED[1..]);
    RunOne(s2, DROPPED[2..]);
    RunOne(s3, DROPPED[3..]);
    RunOne(s4, DROPPED[4..]);
    RunOne(s5, DROPPED[5..]);
  }

  lemma RunOne(s: Explorer, calls: seq<Call>)
    requires calls != []
    ensures Run(s, calls) == if |calls| == 1 then Apply(s, calls[0]) else Run(Apply(s, calls[0]), calls[1..])
  {
    hide Apply;
    assert Run(s, calls) == Run(Apply(s, calls[0]), calls[1..]);
  }

  /** Expanded and loaded ancestors are not enough: a refresh that no longer lists a directory hides what is
      under it, although both the directory and its listing are still there. */
  lemma DroppedDirectoryHides()
    ensures Possible(DROPPED)
    ensures var s := Run(CLOSED, DROPPED);
            && "a" in s.expanded && IsReady(s.directories, "a") && Listed(s.directories, "a/x", false)
            && WellFormed(s.directories) && !HasPath(Rows(s), "a/x")
  {
    Dropped();
    ParentOfJoin("a", "x");
    EveryRun(DROPPED, "a/x");
    var s := Run(CLOSED, DROPPED);
    assert s.directories["a"].entries[0] == X;
    assert "a/x"[..1] == "a" && Parent("a") == "";
  }

  /** Calls that neither expand nor collapse anything. */
  predicate Quiet(calls: seq<Call>) {
    forall i | 0 <= i < |calls| :: calls[i].Refresh? || calls[i].Accept?
  }

  lemma {:induction false} QuietRun(s: Explorer, expanded: set<string>, calls: seq<Call>)
    requires Quiet(calls)
    ensures Run(s.(expanded := expanded), calls) == Run(s, calls).(expanded := expanded)
    ensures Run(s, calls).expanded == s.expanded
    decreases |calls|
  {
    if calls != [] {
      assert calls[0].Refresh? || calls[0].Accept?;
      QuietRun(Apply(s, calls[0]), expanded, calls[1..]);
    }
  }

  /** A directory that is collapsed, whatever refreshes and replies come meanwhile, and expanded again: it
      needs a load exactly when it is not loaded by then, and otherwise everything, and so every row, is as
      if it had never been collapsed. */
  lemma CollapseAndExpand(s: Explorer, path: string, collapse: Op, meanwhile: seq<Call>, expand: Op)
    requires path in s.expanded && Quiet(meanwhile)
    ensures var kept := Run(s, meanwhile);
            var collapsed := Run(Apply(s, Toggle(path, collapse)), meanwhile);
            && !NeedsLoad(s, path)
            && (NeedsLoad(collapsed, path) <==> !IsReady(kept.directories, path))
            && (IsReady(kept.directories, path) ==> Apply(collapsed, Toggle(path, expand)) == kept)
  {
    QuietRun(s, s.expanded - {path}, meanwhile);
    assert s.expanded - {path} + {path} == s.expanded;
  }
}
