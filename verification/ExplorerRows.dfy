/** What the explorer shows: which paths, how often, how deep and in which order. */
module ExplorerRows {
  import opened Text
  import opened FileExplorer

  // Paths

  lemma {:induction false} ParentSkips(path: string, n: nat)
    requires n <= |path| && '/' !in path[n..]
    ensures Parent(path) == Parent(path[..n])
    decreases |path|
  {
    if n < |path| {
      assert path[|path| - 1] == path[n..][|path| - 1 - n];
      assert path[..|path| - 1][n..] == path[n..][..|path| - 1 - n];
      assert path[..|path| - 1][..n] == path[..n];
      ParentSkips(path[..|path| - 1], n);
    } else {
      assert path[..n] == path;
    }
  }

  lemma ParentOfJoin(directory: string, name: string)
    requires GoodName(name)
    ensures Parent(JoinRel(directory, name)) == directory
    ensures Under(directory, JoinRel(directory, name))
  {
    var path := JoinRel(directory, name);
    if directory == "" {
      assert path[0..] == name && path[..0] == "";
      ParentSkips(path, 0);
    } else {
      var n := |directory| + 1;
      assert path[n..] == name && path[..n] == directory + "/" && path[..n][..n - 1] == directory;
      ParentSkips(path, n);
    }
  }

  predicate AtOrUnder(top: string, path: string) {
    path == top || Under(top, path)
  }

  lemma UnderEntry(directory: string, entry: Entry, path: string)
    requires EntryOf(directory, entry) && AtOrUnder(entry.path, path)
    ensures Under(directory, path)
  {
    if directory != "" && path != entry.path {
      assert path[..|directory|] == path[..|entry.path|][..|directory|];
      assert path[|directory|] == path[..|entry.path|][|directory|];
    }
  }

  /** No slash of an entry's path lies in its name. */
  lemma NoSlashInName(directory: string, entry: Entry)
    requires EntryOf(directory, entry)
    ensures forall i | (if directory == "" then 0 else |directory| + 1) <= i < |entry.path| :: entry.path[i] != '/'
  {
    var n := if directory == "" then 0 else |directory| + 1;
    assert forall i | n <= i < |entry.path| :: entry.path[i] == entry.name[i - n];
  }

  lemma EntryPrefix(directory: string, entry: Entry, path: string)
    requires EntryOf(directory, entry) && AtOrUnder(entry.path, path)
    ensures |directory| < |entry.path| <= |path| && path[..|entry.path|] == entry.path
    ensures |entry.path| < |path| ==>
      path[|entry.path|] == '/' && (if directory == "" then 0 else |directory| + 1) <= |entry.path|
  {
  }

  lemma NotShorter(directory: string, a: Entry, b: Entry, path: string)
    requires EntryOf(directory, a) && EntryOf(directory, b)
    requires AtOrUnder(a.path, path) && AtOrUnder(b.path, path)
    ensures |a.path| >= |b.path|
  {
    EntryPrefix(directory, a, path);
    EntryPrefix(directory, b, path);
    NoSlashInName(directory, b);
    assert forall i | 0 <= i < |b.path| :: path[i] == path[..|b.path|][i] == b.path[i];
  }

  /** What is at or under two entries of one directory is at or under one entry. */
  lemma SiblingsDisjoint(directory: string, a: Entry, b: Entry, path: string)
    requires EntryOf(directory, a) && EntryOf(directory, b)
    requires AtOrUnder(a.path, path) && AtOrUnder(b.path, path)
    ensures a.name == b.name
  {
    NotShorter(directory, a, b, path);
    NotShorter(directory, b, a, path);
    EntryPrefix(directory, a, path);
    EntryPrefix(directory, b, path);
    var n := if directory == "" then 0 else |directory| + 1;
    assert a.name == a.path[n..] && b.name == b.path[n..];
  }

  // Where rows are

  predicate AllUnder(rows: seq<Row>, directory: string) {
    forall i | 0 <= i < |rows| :: Under(directory, rows[i].path)
  }

  predicate AllAtOrUnder(rows: seq<Row>, top: string) {
    forall i | 0 <= i < |rows| :: AtOrUnder(top, rows[i].path)
  }

  lemma {:induction false} RowsUnder(directories: Directories, expanded: set<string>, directory: string, depth: nat)
    requires WellFormed(directories)
    ensures AllUnder(RowsOf(directories, expanded, directory, depth), directory)
    decreases AtLeastAsDeep(directories, directory), 1, 0
  {
    if directory in directories && directories[directory].Ready? {
      RowsAreEntryRows(directories, expanded, directory, depth);
      EntriesUnder(directories, expanded, directory, directories[directory].entries, depth);
    }
  }

  lemma {:induction false} BelowAtOrUnder(directories: Directories, expanded: set<string>, directory: string,
          entry: Entry, depth: nat)
    requires WellFormed(directories) && directory in directories && EntryOf(directory, entry)
    ensures AllAtOrUnder(Below(directories, expanded, directory, entry, depth), entry.path)
    decreases AtLeastAsDeep(directories, directory), 0, 0
  {
    hide RowsOf, WellFormed, Under;
    if IsExpanded(expanded, entry) {
      Deeper(directories, directory, entry);
      RowsUnder(directories, expanded, entry.path, depth + 1);
    }
  }

  lemma {:induction false} EntriesUnder(directories: Directories, expanded: set<string>, directory: string,
          entries: seq<Entry>, depth: nat)
    requires WellFormed(directories) && directory in directories && ListingOf(directory, entries)
    ensures AllUnder(EntryRows(directories, expanded, directory, entries, depth), directory)
    decreases AtLeastAsDeep(directories, directory), 0, |entries|
  {
    if entries != [] {
      var below := Below(directories, expanded, directory, entries[0], depth);
      BelowAtOrUnder(directories, expanded, directory, entries[0], depth);
      forall i | 0 <= i < |below| ensures Under(directory, below[i].path) {
        UnderEntry(directory, entries[0], below[i].path);
      }
      hide Below, WellFormed, Under;
      EntriesUnder(directories, expanded, directory, entries[1..], depth);
    }
  }

  /** Each row that `entries` makes is at or under one of them. */
  predicate Covered(rows: seq<Row>, entries: seq<Entry>) {
    forall i | 0 <= i < |rows| :: exists k | 0 <= k < |entries| :: AtOrUnder(entries[k].path, rows[i].path)
  }

  lemma {:induction false} EntriesCover(directories: Directories, expanded: set<string>, directory: string,
          entries: seq<Entry>, depth: nat)
    requires WellFormed(directories) && directory in directories && ListingOf(directory, entries)
    ensures Covered(EntryRows(directories, expanded, directory, entries, depth), entries)
    decreases |entries|
  {
    if entries != [] {
      var below := Below(directories, expanded, directory, entries[0], depth);
      var rest := EntryRows(directories, expanded, directory, entries[1..], depth);
      BelowAtOrUnder(directories, expanded, directory, entries[0], depth);
      EntriesCover(directories, expanded, directory, entries[1..], depth);
      hide Below, WellFormed, AtOrUnder;
      var both := below + rest;
      forall i | 0 <= i < |both| ensures exists k | 0 <= k < |entries| :: AtOrUnder(entries[k].path, both[i].path)
      {
        if i < |below| {
          assert AtOrUnder(entries[0].path, below[i].path);
        } else {
          var k :| 0 <= k < |entries[1..]| && AtOrUnder(entries[1..][k].path, rest[i - |below|].path);
          assert AtOrUnder(entries[k + 1].path, both[i].path);
        }
      }
    }
  }

  // Each path once

  predicate NoneTwice(rows: seq<Row>) {
    forall i, j | 0 <= i < j < |rows| :: rows[i].path != rows[j].path
  }

  predicate Apart(a: seq<Row>, b: seq<Row>) {
    forall i, j | 0 <= i < |a| && 0 <= j < |b| :: a[i].path != b[j].path
  }

  lemma NoneTwiceConcat(a: seq<Row>, b: seq<Row>)
    requires NoneTwice(a) && NoneTwice(b) && Apart(a, b)
    ensures NoneTwice(a + b)
  {
    var c := a + b;
    forall i, j | 0 <= i < j < |c| ensures c[i].path != c[j].path {
      if i < |a| <= j {
        assert a[i].path != b[j - |a|].path;
      }
    }
  }

  lemma SiblingRowsApart(directories: Directories, expanded: set<string>, directory: string, entries: seq<Entry>,
          depth: nat)
    requires WellFormed(directories) && directory in directories && ListingOf(directory, entries) && entries != []
    ensures Apart(Below(directories, expanded, directory, entries[0], depth),
                  EntryRows(directories, expanded, directory, entries[1..], depth))
  {
    var below := Below(directories, expanded, directory, entries[0], depth);
    var rest := EntryRows(directories, expanded, directory, entries[1..], depth);
    BelowAtOrUnder(directories, expanded, directory, entries[0], depth);
    EntriesCover(directories, expanded, directory, entries[1..], depth);
    hide Below, EntryRows, WellFormed, AtOrUnder, EntryOf;
    forall i, j | 0 <= i < |below| && 0 <= j < |rest| ensures below[i].path != rest[j].path {
      var k :| 0 <= k < |entries[1..]| && AtOrUnder(entries[1..][k].path, rest[j].path);
      if below[i].path == rest[j].path {
        SiblingsDisjoint(directory, entries[0], entries[k + 1], below[i].path);
      }
    }
  }

  lemma {:induction false} RowsNoneTwice(directories: Directories, expanded: set<string>, directory: string, depth: nat)
    requires WellFormed(directories)
    ensures NoneTwice(RowsOf(directories, expanded, directory, depth))
    decreases AtLeastAsDeep(directories, directory), 1, 0
  {
    if directory in directories && directories[directory].Ready? {
      RowsAreEntryRows(directories, expanded, directory, depth);
      EntriesNoneTwice(directories, expanded, directory, directories[directory].entries, depth);
    }
  }

  lemma {:induction false} BelowNoneTwice(directories: Directories, expanded: set<string>, directory: string,
          entry: Entry, depth: nat)
    requires WellFormed(directories) && directory in directories && EntryOf(directory, entry)
    ensures NoneTwice(Below(directories, expanded, directory, entry, depth))
    decreases AtLeastAsDeep(directories, directory), 0, 0
  {
    hide RowsOf, WellFormed;
    if IsExpanded(expanded, entry) {
      Deeper(directories, directory, entry);
      RowsNoneTwice(directories, expanded, entry.path, depth + 1);
      RowsUnder(directories, expanded, entry.path, depth + 1);
      NoneTwiceConcat([RowOf(directories, expanded, entry, depth)],
          RowsOf(directories, expanded, entry.path, depth + 1));
    }
  }

  lemma {:induction false} EntriesNoneTwice(directories: Directories, expanded: set<string>, directory: string,
          entries: seq<Entry>, depth: nat)
    requires WellFormed(directories) && directory in directories && ListingOf(directory, entries)
    ensures NoneTwice(EntryRows(directories, expanded, directory, entries, depth))
    decreases AtLeastAsDeep(directories, directory), 0, |entries|
  {
    if entries != [] {
      SiblingRowsApart(directories, expanded, directory, entries, depth);
      hide Below, WellFormed, Apart, NoneTwice;
      BelowNoneTwice(directories, expanded, directory, entries[0], depth);
      EntriesNoneTwice(directories, expanded, directory, entries[1..], depth);
      NoneTwiceConcat(Below(directories, expanded, directory, entries[0], depth),
                      EntryRows(directories, expanded, directory, entries[1..], depth));
    } else {
      NoRows(directories, expanded, directory, depth);
    }
  }

  // Which paths are shown

  predicate HasPath(rows: seq<Row>, path: string) {
    exists i | 0 <= i < |rows| :: rows[i].path == path
  }

  lemma HasPathConcat(a: seq<Row>, b: seq<Row>, path: string)
    ensures HasPath(a + b, path) <==> HasPath(a, path) || HasPath(b, path)
  {
    var c := a + b;
    if HasPath(a, path) {
      var i :| 0 <= i < |a| && a[i].path == path;
      assert c[i].path == path;
    }
    if HasPath(b, path) {
      var i :| 0 <= i < |b| && b[i].path == path;
      assert c[|a| + i].path == path;
    }
  }

  predicate IsReady(directories: Directories, directory: string) {
    directory in directories && directories[directory].Ready?
  }

  /** The parent's listing has this path (as a directory). */
  predicate Listed(directories: Directories, path: string, asDirectory: bool) {
    && IsReady(directories, Parent(path))
    && var entries := directories[Parent(path)].entries;
       exists k | 0 <= k < |entries| :: entries[k].path == path && (asDirectory ==> entries[k].isDir)
  }

  predicate Open(directories: Directories, expanded: set<string>, directory: string) {
    directory in expanded && IsReady(directories, directory) && Listed(directories, directory, true)
  }

  /** Every ancestor of `path` that is at least `n` long is open. */
  predicate OpenFrom(directories: Directories, expanded: set<string>, n: nat, path: string) {
    forall i | n <= i < |path| && path[i] == '/' :: Open(directories, expanded, path[..i])
  }

  function Start(directory: string): nat {
    if directory == "" then 0 else |directory| + 1
  }

  predicate Shown(directories: Directories, expanded: set<string>, directory: string, path: string) {
    Under(directory, path) && Listed(directories, path, false)
        && OpenFrom(directories, expanded, Start(directory), path)
  }

  predicate ShownVia(directories: Directories, expanded: set<string>, entry: Entry, path: string) {
    path == entry.path || (IsExpanded(expanded, entry) && Shown(directories, expanded, entry.path, path))
  }

  function NextSlash(path: string, n: nat): (i: nat)
    requires n <= |path|
    ensures n <= i <= |path| && (i < |path| ==> path[i] == '/')
    ensures forall k | n <= k < i :: path[k] != '/'
    decreases |path| - n
  {
    if n == |path| || path[n] == '/' then n else NextSlash(path, n + 1)
  }

  /** The parent of the first component below a directory is that directory. */
  lemma ParentOfTop(directory: string, path: string, i: nat)
    requires Under(directory, path) && i <= |path| && i == NextSlash(path, Start(directory))
    ensures Parent(path[..i]) == directory
  {
    var n := Start(directory);
    var top := path[..i];
    assert forall k | 0 <= k < i - n :: top[n..][k] == path[n + k];
    ParentSkips(top, n);
    if directory != "" {
      assert top[..n][..n - 1] == path[..|directory|];
    }
  }

  /** What is shown under a directory is shown by one of its entries. */
  lemma ShownViaSome(directories: Directories, expanded: set<string>, directory: string, path: string) returns (k: nat)
    requires WellFormed(directories) && Shown(directories, expanded, directory, path)
    ensures IsReady(directories, directory) && k < |directories[directory].entries|
    ensures ShownVia(directories, expanded, directories[directory].entries[k], path)
  {
    var i := NextSlash(path, Start(directory));
    var top := path[..i];
    ParentOfTop(directory, path, i);
    if i == |path| {
      assert top == path;
      k :| 0 <= k < |directories[directory].entries| && directories[directory].entries[k].path == path;
    } else {
      assert Open(directories, expanded, top);
      k :| 0 <= k < |directories[directory].entries| && directories[directory].entries[k].path == top
           && directories[directory].entries[k].isDir;
      assert EntryOf(directory, directories[directory].entries[k]);
      assert Under(top, path);
      assert OpenFrom(directories, expanded, Start(top), path);
    }
  }

  lemma OpenThrough(directories: Directories, expanded: set<string>, directory: string, entry: Entry, path: string)
    requires EntryOf(directory, entry) && AtOrUnder(entry.path, path)
    requires path == entry.path ||
             (Open(directories, expanded, entry.path) && OpenFrom(directories, expanded, Start(entry.path), path))
    ensures OpenFrom(directories, expanded, Start(directory), path)
  {
    hide Open;
    NoSlashInName(directory, entry);
    EntryPrefix(directory, entry, path);
    assert forall i | 0 <= i < |entry.path| :: path[i] == path[..|entry.path|][i];
  }

  lemma ShownByEntry(directories: Directories, expanded: set<string>, directory: string, k: nat, path: string)
    requires WellFormed(directories) && IsReady(directories, directory) && k < |directories[directory].entries|
    requires ShownVia(directories, expanded, directories[directory].entries[k], path)
    ensures Shown(directories, expanded, directory, path)
  {
    var entry := directories[directory].entries[k];
    assert EntryOf(directory, entry);
    ParentOfJoin(directory, entry.name);
    UnderEntry(directory, entry, path);
    assert Listed(directories, entry.path, false);
    if path != entry.path {
      var _ := ShownViaSome(directories, expanded, entry.path, path);
      assert Listed(directories, entry.path, true);
      assert Open(directories, expanded, entry.path);
    }
    OpenThrough(directories, expanded, directory, entry, path);
  }

  lemma {:induction false} RowsShow(directories: Directories, expanded: set<string>, directory: string, depth: nat,
          path: string)
    requires WellFormed(directories)
    ensures HasPath(RowsOf(directories, expanded, directory, depth), path)
        <==> Shown(directories, expanded, directory, path)
    decreases AtLeastAsDeep(directories, directory), 1, 0
  {
    hide Shown, ShownVia, HasPath;
    if IsReady(directories, directory) {
      var entries := directories[directory].entries;
      RowsAreEntryRows(directories, expanded, directory, depth);
      EntriesShow(directories, expanded, directory, entries, depth, path);
      if Shown(directories, expanded, directory, path) {
        var k := ShownViaSome(directories, expanded, directory, path);
      }
      if k: nat :| k < |entries| && ShownVia(directories, expanded, entries[k], path) {
        ShownByEntry(directories, expanded, directory, k, path);
      }
    } else {
      NoPath(path);
      if Shown(directories, expanded, directory, path) {
        var _ := ShownViaSome(directories, expanded, directory, path);
      }
    }
  }

  lemma HasPathOne(row: Row, path: string)
    ensures HasPath([row], path) <==> row.path == path
  {
    assert [row][0] == row;
  }

  lemma NoPath(path: string)
    ensures !HasPath([], path)
  {
  }

  lemma {:induction false} BelowShows(directories: Directories, expanded: set<string>, directory: string, entry: Entry,
          depth: nat, path: string)
    requires WellFormed(directories) && directory in directories && EntryOf(directory, entry)
    ensures HasPath(Below(directories, expanded, directory, entry, depth), path)
        <==> ShownVia(directories, expanded, entry, path)
    decreases AtLeastAsDeep(directories, directory), 0, 0
  {
    hide RowsOf, WellFormed, Shown, HasPath;
    var row := RowOf(directories, expanded, entry, depth);
    HasPathOne(row, path);
    if IsExpanded(expanded, entry) {
      Deeper(directories, directory, entry);
      RowsShow(directories, expanded, entry.path, depth + 1, path);
      HasPathConcat([row], RowsOf(directories, expanded, entry.path, depth + 1), path);
    } else {
      assert Below(directories, expanded, directory, entry, depth) == [row];
    }
  }

  lemma {:induction false} EntriesShow(directories: Directories, expanded: set<string>, directory: string,
          entries: seq<Entry>, depth: nat, path: string)
    requires WellFormed(directories) && directory in directories && ListingOf(directory, entries)
    ensures HasPath(EntryRows(directories, expanded, directory, entries, depth), path)
       <==> exists k: nat | k < |entries| :: ShownVia(directories, expanded, entries[k], path)
    decreases AtLeastAsDeep(directories, directory), 0, |entries|
  {
    hide Below, WellFormed, ShownVia, HasPath;
    if entries == [] {
      NoPath(path);
    } else {
      var below := Below(directories, expanded, directory, entries[0], depth);
      var rest := EntryRows(directories, expanded, directory, entries[1..], depth);
      BelowShows(directories, expanded, directory, entries[0], depth, path);
      EntriesShow(directories, expanded, directory, entries[1..], depth, path);
      HasPathConcat(below, rest, path);
      if HasPath(rest, path) {
        var k: nat :| k < |entries[1..]| && ShownVia(directories, expanded, entries[1..][k], path);
        assert ShownVia(directories, expanded, entries[k + 1], path);
      }
      if k: nat :| k < |entries| && ShownVia(directories, expanded, entries[k], path) && k > 0 {
        assert ShownVia(directories, expanded, entries[1..][k - 1], path);
      }
    }
  }
}
