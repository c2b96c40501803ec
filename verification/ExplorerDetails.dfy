/** What a row says of its entry, which entries are listed, and what collapsing leaves. */
module ExplorerDetails {
  import opened Text
  import opened FileExplorer

  // Listings

  lemma {:induction false} EntriesConcat(parent: string, a: seq<DirEntry>, b: seq<DirEntry>, hides: set<string>)
    ensures EntriesWithPaths(parent, a + b, hides)
        == EntriesWithPaths(parent, a, hides) + EntriesWithPaths(parent, b, hides)
    decreases |a|
  {
    if a == [] {
      assert a + b == b;
    } else {
      assert (a + b)[1..] == a[1..] + b;
      EntriesConcat(parent, a[1..], b, hides);
    }
  }

  function PathOf(parent: string, name: string): string {
    if parent == "" then name else parent + "/" + name
  }

  /** A listing keeps every name that is not hidden, in its place, with its kind and its path, and no other: entries
      are listed one by one. */
  lemma EntryIsListed(parent: string, before: seq<DirEntry>, e: DirEntry, after: seq<DirEntry>, hides: set<string>)
    ensures EntriesWithPaths(parent, before + [e] + after, hides)
         == EntriesWithPaths(parent, before, hides)
            + (if e.name in hides then [] else [Entry(e.name, PathOf(parent, e.name), e.isDir, e.isSymlink, false)])
            + EntriesWithPaths(parent, after, hides)
    ensures EntriesWithPaths(parent, [], hides) == []
  {
    EntriesConcat(parent, before + [e], after, hides);
    EntriesConcat(parent, before, [e], hides);
    assert [e][1..] == [];
  }

  // Rows

  /** The row shows the entry as it is listed in the directory above it, whether it is expanded, and whether it is
      being loaded. */
  predicate Tells(directories: Directories, expanded: set<string>, row: Row, entry: Entry) {
    && row.path == entry.path && row.name == entry.name && row.isDir == entry.isDir
    && row.isSymlink == entry.isSymlink && row.ignored == entry.ignored
    && (row.expanded <==> entry.isDir && entry.path in expanded)
    && (row.loading <==> entry.isDir && entry.path in directories && directories[entry.path] == Loading)
  }

  /** Some loaded directory lists what the row tells. */
  ghost predicate IsListed(directories: Directories, expanded: set<string>, row: Row) {
    exists d, i :: d in directories && directories[d].Ready? && 0 <= i < |directories[d].entries|
                   && Tells(directories, expanded, row, directories[d].entries[i])
  }

  ghost predicate AllListed(directories: Directories, expanded: set<string>, rows: seq<Row>) {
    forall i | 0 <= i < |rows| :: IsListed(directories, expanded, rows[i])
  }

  lemma AllListedConcat(directories: Directories, expanded: set<string>, a: seq<Row>, b: seq<Row>)
    requires AllListed(directories, expanded, a) && AllListed(directories, expanded, b)
    ensures AllListed(directories, expanded, a + b)
  {
    hide IsListed;
  }

  lemma {:induction false} RowsTell(directories: Directories, expanded: set<string>, directory: string, depth: nat)
    requires WellFormed(directories)
    ensures AllListed(directories, expanded, RowsOf(directories, expanded, directory, depth))
    decreases AtLeastAsDeep(directories, directory), 1, 0
  {
    hide AllListed;
    if directory in directories && directories[directory].Ready? {
      RowsAreEntryRows(directories, expanded, directory, depth);
      hide RowsOf, EntryRows, ListingOf, WellFormed;
      ListedRowsTell(directories, expanded, directory, 0, depth);
      assert directories[directory].entries[0..] == directories[directory].entries;
    } else {
      NoneListed(directories, expanded);
    }
  }

  lemma NoneListed(directories: Directories, expanded: set<string>)
    ensures AllListed(directories, expanded, [])
  {
  }

  lemma {:induction false} ListedRowsTell(directories: Directories, expanded: set<string>, directory: string, from: nat,
                                          depth: nat)
    requires WellFormed(directories) && directory in directories && directories[directory].Ready?
    requires from <= |directories[directory].entries|
    requires ListingOf(directory, directories[directory].entries[from..])
    ensures AllListed(directories, expanded,
                      EntryRows(directories, expanded, directory, directories[directory].entries[from..], depth))
    decreases AtLeastAsDeep(directories, directory), 0, |directories[directory].entries| - from
  {
    hide AllListed, WellFormed, RowOf, Below, EntryRows, RowsOf, ListingOf;
    var entries := directories[directory].entries;
    if from == |entries| {
      assert entries[from..] == [];
      NoRows(directories, expanded, directory, depth);
      NoneListed(directories, expanded);
    } else {
      var entry := entries[from];
      FirstRows(directories, expanded, directory, entries, from, depth, []);
      BelowRows(directories, expanded, directory, entry, depth, []);
      ListedRowsTell(directories, expanded, directory, from + 1, depth);
      RowTells(directories, expanded, directory, from, depth);
      Deeper(directories, directory, entry);
      var row := [RowOf(directories, expanded, entry, depth)];
      if IsExpanded(expanded, entry) {
        RowsTell(directories, expanded, entry.path, depth + 1);
        AllListedConcat(directories, expanded, row, RowsOf(directories, expanded, entry.path, depth + 1));
      }
      var below := Below(directories, expanded, directory, entry, depth);
      assert [] + below == below && [] + row == row;
      AllListedConcat(directories, expanded, below,
          EntryRows(directories, expanded, directory, entries[from + 1..], depth));
      var rest := EntryRows(directories, expanded, directory, entries[from..], depth);
      assert [] + rest == rest;
    }
  }

  lemma RowTells(directories: Directories, expanded: set<string>, directory: string, i: nat, depth: nat)
    requires directory in directories && directories[directory].Ready? && i < |directories[directory].entries|
    ensures AllListed(directories, expanded, [RowOf(directories, expanded, directories[directory].entries[i], depth)])
  {
    var row := RowOf(directories, expanded, directories[directory].entries[i], depth);
    assert Tells(directories, expanded, row, directories[directory].entries[i]);
  }

  // Collapsing

  /** The rows of entries none of which is expanded. */
  function FlatRows(directories: Directories, entries: seq<Entry>, depth: nat): (rows: seq<Row>)
    ensures |rows| == |entries| && forall i | 0 <= i < |rows| :: rows[i] == RowOf(directories, {}, entries[i], depth)
  {
    if entries == [] then []
    else [RowOf(directories, {}, entries[0], depth)] + FlatRows(directories, entries[1..], depth)
  }

  lemma {:induction false} RootRowsAreFlat(directories: Directories, entries: seq<Entry>, i: nat)
    requires WellFormed(directories) && "" in directories && i <= |entries| && ListingOf("", entries[i..])
    ensures EntryRows(directories, {""}, "", entries[i..], 0) == FlatRows(directories, entries[i..], 0)
    decreases |entries| - i
  {
    if i == |entries| {
      assert entries[i..] == [];
      NoRows(directories, {""}, "", 0);
    } else {
      FirstRows(directories, {""}, "", entries, i, 0, []);
      BelowRows(directories, {""}, "", entries[i], 0, []);
      assert !IsExpanded({""}, entries[i]) && !IsExpanded({}, entries[i]);
      assert RowOf(directories, {""}, entries[i], 0) == RowOf(directories, {}, entries[i], 0);
      RootRowsAreFlat(directories, entries, i + 1);
      hide EntryRows, Below, RowOf, WellFormed, ListingOf;
      var rest := EntryRows(directories, {""}, "", entries[i..], 0);
      assert [] + rest == rest;
      assert entries[i..][1..] == entries[i + 1..];
      assert [] + Below(directories, {""}, "", entries[i], 0) == Below(directories, {""}, "", entries[i], 0);
    }
  }

  /** After collapsing everything the rows are those of the root's entries alone, in their order, none expanded; the
      listings stay loaded, so nothing has to be loaded again. */
  lemma CollapsedShowsTheRoot(s: Explorer)
    requires WellFormed(s.directories)
    ensures var after := Apply(s, CollapseAll);
      && after.directories == s.directories && after.worktree == s.worktree && after.ops == s.ops
      && var rows := RowsOf(after.directories, after.expanded, "", 0);
        if "" in s.directories && s.directories[""].Ready? then
          && |rows| == |s.directories[""].entries|
          && forall i | 0 <= i < |rows| :: rows[i].path == s.directories[""].entries[i].path && !rows[i].expanded
        else rows == []
  {
    var directories := s.directories;
    if "" in directories && directories[""].Ready? {
      var entries := directories[""].entries;
      assert entries[0..] == entries;
      RowsAreEntryRows(directories, {""}, "", 0);
      RootRowsAreFlat(directories, entries, 0);
    }
  }
}
