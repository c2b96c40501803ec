/** The file explorer: directories loaded one level at a time, and the rows that they make together. */
module FileExplorer {
  import opened Text

  datatype DirEntry = DirEntry(name: string, isDir: bool, isSymlink: bool)
  datatype Entry = Entry(name: string, path: string, isDir: bool, isSymlink: bool, ignored: bool)
  datatype DirectoryState = Loading | Ready(entries: seq<Entry>) | Failed(error: string)
  datatype Row = Row(name: string, path: string, depth: nat, isDir: bool, isSymlink: bool, expanded: bool,
                     loading: bool, ignored: bool)

  type Op = nat
  type Directories = map<string, DirectoryState>

  // Paths

  function JoinRel(parent: string, name: string): string {
    if parent == "" then name else parent + "/" + name
  }

  predicate GoodName(name: string) {
    name != "" && '/' !in name
  }

  /** Everything before the last slash; the root if there is none. */
  function Parent(path: string): string {
    if path == "" then ""
    else if path[|path| - 1] == '/' then path[..|path| - 1]
    else Parent(path[..|path| - 1])
  }

  /** `path` is strictly below `directory`. */
  predicate Under(directory: string, path: string) {
    if directory == "" then path != ""
    else |directory| < |path| && path[..|directory|] == directory && path[|directory|] == '/'
  }

  // Listings

  /** What a directory listing becomes: some names are hidden, the others get their path. */
  function EntriesWithPaths(parent: string, entries: seq<DirEntry>, hides: set<string>): seq<Entry> {
    if entries == [] then []
    else
      var rest := EntriesWithPaths(parent, entries[1..], hides);
      var e := entries[0];
      if e.name in hides then rest else [Entry(e.name, JoinRel(parent, e.name), e.isDir, e.isSymlink, false)] + rest
  }

  /** What a directory's file system promises: proper names, each once. */
  predicate GoodEntries(entries: seq<DirEntry>) {
    && (forall i | 0 <= i < |entries| :: GoodName(entries[i].name))
    && (forall i, j | 0 <= i < j < |entries| :: entries[i].name != entries[j].name)
  }

  predicate EntryOf(directory: string, entry: Entry) {
    GoodName(entry.name) && entry.path == JoinRel(directory, entry.name)
  }

  predicate ListingOf(directory: string, entries: seq<Entry>) {
    && (forall i | 0 <= i < |entries| :: EntryOf(directory, entries[i]))
    && (forall i, j | 0 <= i < j < |entries| :: entries[i].name != entries[j].name)
  }

  predicate WellFormed(directories: Directories) {
    forall d | d in directories && directories[d].Ready? :: ListingOf(d, directories[d].entries)
  }

  lemma {:induction false} NamesKept(parent: string, entries: seq<DirEntry>, hides: set<string>, i: nat)
    requires i < |EntriesWithPaths(parent, entries, hides)|
    ensures exists k | 0 <= k < |entries| :: entries[k].name == EntriesWithPaths(parent, entries, hides)[i].name
    decreases |entries|
  {
    if entries[0].name in hides {
      NamesKept(parent, entries[1..], hides, i);
      var k :| 0 <= k < |entries| - 1 && entries[1..][k].name == EntriesWithPaths(parent, entries, hides)[i].name;
      assert entries[k + 1].name == EntriesWithPaths(parent, entries, hides)[i].name;
    } else if i > 0 {
      NamesKept(parent, entries[1..], hides, i - 1);
      var k :| 0 <= k < |entries| - 1 && entries[1..][k].name == EntriesWithPaths(parent, entries, hides)[i].name;
      assert entries[k + 1].name == EntriesWithPaths(parent, entries, hides)[i].name;
    } else {
      assert entries[0].name == EntriesWithPaths(parent, entries, hides)[0].name;
    }
  }

  /** A loaded directory is a listing of its own path. */
  lemma {:induction false} LoadedIsListing(parent: string, entries: seq<DirEntry>, hides: set<string>)
    requires GoodEntries(entries)
    ensures ListingOf(parent, EntriesWithPaths(parent, entries, hides))
    decreases |entries|
  {
    if entries != [] {
      LoadedIsListing(parent, entries[1..], hides);
      var rest := EntriesWithPaths(parent, entries[1..], hides);
      forall j | 0 <= j < |rest| ensures rest[j].name != entries[0].name {
        NamesKept(parent, entries[1..], hides, j);
      }
    }
  }

  // Rows

  /** The directories that a visit of `directory` may still meet. */
  ghost function AtLeastAsDeep(directories: Directories, directory: string): set<string> {
    set d | d in directories && |d| >= |directory|
  }

  predicate IsExpanded(expanded: set<string>, entry: Entry) {
    entry.isDir && entry.path in expanded
  }

  function RowOf(directories: Directories, expanded: set<string>, entry: Entry, depth: nat): Row {
    Row(entry.name, entry.path, depth, entry.isDir, entry.isSymlink, IsExpanded(expanded, entry),
        entry.isDir && entry.path in directories && directories[entry.path].Loading?, entry.ignored)
  }

  lemma Deeper(directories: Directories, directory: string, entry: Entry)
    requires directory in directories && EntryOf(directory, entry)
    ensures AtLeastAsDeep(directories, entry.path) < AtLeastAsDeep(directories, directory)
  {
    assert directory in AtLeastAsDeep(directories, directory);
    assert directory !in AtLeastAsDeep(directories, entry.path);
  }

  /** The rows of a directory; it ends because paths lengthen and only finitely many are loaded. */
  ghost function RowsOf(directories: Directories, expanded: set<string>, directory: string, depth: nat): seq<Row>
    requires WellFormed(directories)
    decreases AtLeastAsDeep(directories, directory), 1, 0
  {
    if directory in directories && directories[directory].Ready? then
      EntryRows(directories, expanded, directory, directories[directory].entries, depth)
    else []
  }

  ghost function EntryRows(directories: Directories, expanded: set<string>, directory: string, entries: seq<Entry>,
          depth: nat)
    : seq<Row>
    requires WellFormed(directories) && directory in directories && ListingOf(directory, entries)
    decreases AtLeastAsDeep(directories, directory), 0, |entries|
  {
    if entries == [] then []
    else
      Below(directories, expanded, directory, entries[0], depth)
      + EntryRows(directories, expanded, directory, entries[1..], depth)
  }

  /** An entry's row and, if it is expanded, those under it. */
  ghost function Below(directories: Directories, expanded: set<string>, directory: string, entry: Entry,
          depth: nat): seq<Row>
    requires WellFormed(directories) && directory in directories && EntryOf(directory, entry)
    decreases AtLeastAsDeep(directories, directory), 0, 0
  {
    Deeper(directories, directory, entry);
    [RowOf(directories, expanded, entry, depth)]
    + if IsExpanded(expanded, entry) then RowsOf(directories, expanded, entry.path, depth + 1) else []
  }

  lemma RowsAreEntryRows(directories: Directories, expanded: set<string>, directory: string, depth: nat)
    requires WellFormed(directories) && directory in directories && directories[directory].Ready?
    ensures ListingOf(directory, directories[directory].entries)
    ensures RowsOf(directories, expanded, directory, depth)
         == EntryRows(directories, expanded, directory, directories[directory].entries, depth)
  {
    hide EntryRows, ListingOf;
  }

  lemma FirstRows(directories: Directories, expanded: set<string>, directory: string, entries: seq<Entry>, i: nat,
                  depth: nat, out: seq<Row>)
    requires WellFormed(directories) && directory in directories && i < |entries| && ListingOf(directory, entries[i..])
    ensures EntryOf(directory, entries[i]) && ListingOf(directory, entries[i + 1..])
    ensures out + EntryRows(directories, expanded, directory, entries[i..], depth)
         == (out + Below(directories, expanded, directory, entries[i], depth))
            + EntryRows(directories, expanded, directory, entries[i + 1..], depth)
  {
    hide WellFormed, Below, EntryOf;
    assert entries[i..][1..] == entries[i + 1..];
  }

  lemma BelowRows(directories: Directories, expanded: set<string>, directory: string, entry: Entry, depth: nat,
          out: seq<Row>)
    requires WellFormed(directories) && directory in directories && EntryOf(directory, entry)
    ensures out + Below(directories, expanded, directory, entry, depth)
         == if IsExpanded(expanded, entry) then
              (out + [RowOf(directories, expanded, entry, depth)])
              + RowsOf(directories, expanded, entry.path, depth + 1)
            else out + [RowOf(directories, expanded, entry, depth)]
  {
    hide WellFormed, EntryOf, RowsOf, IsExpanded, RowOf;
  }

  lemma NoRows(directories: Directories, expanded: set<string>, directory: string, depth: nat)
    requires WellFormed(directories) && directory in directories
    ensures EntryRows(directories, expanded, directory, [], depth) == []
  {
  }

  // The state

  datatype Explorer = Explorer(worktree: Option<string>, directories: Directories, expanded: set<string>,
                               ops: map<string, Op>)

  const CLOSED := Explorer(None, map[], {}, map[])

  datatype Call =
    | Close
    | Begin(id: string, op: Op)
    | Toggle(path: string, op: Op)
    | CollapseAll
    | Refresh(path: string, op: Op)
    | Accept(id: string, path: string, op: Op, result: Result<seq<Entry>>)
  {
    /** A reply lists the directory it was asked for. */
    predicate Possible() {
      Accept? && result.Ok? ==> ListingOf(path, result.value)
    }
  }

  predicate Current(s: Explorer, id: string, path: string, op: Op) {
    s.worktree == Some(id) && path in s.ops && s.ops[path] == op
  }

  function Apply(s: Explorer, call: Call): Explorer {
    match call
    case Close => CLOSED
    case Begin(id, op) => Explorer(Some(id), map["" := Loading], {""}, map["" := op])
    case Toggle(path, op) =>
      if path in s.expanded then s.(expanded := s.expanded - {path})
      else if path in s.directories && s.directories[path].Ready? then s.(expanded := s.expanded + {path})
      else s.(expanded := s.expanded + {path}, directories := s.directories[path := Loading], ops := s.ops[path := op])
    case CollapseAll => s.(expanded := {""})
    case Refresh(path, op) => s.(ops := s.ops[path := op])
    case Accept(id, path, op, result) =>
      if !Current(s, id, path, op) then s
      else s.(directories := s.directories[path := match result case Ok(entries) => Ready(entries)
                                                              case Err(error) => Failed(error)])
  }

  predicate NeedsLoad(s: Explorer, path: string) {
    path !in s.expanded && !(path in s.directories && s.directories[path].Ready?)
  }

  class FileExplorerState {
    var worktree: Option<string>
    var directories: Directories
    var expanded: set<string>
    var ops: map<string, Op>

    ghost function View(): Explorer
      reads this
    {
      Explorer(worktree, directories, expanded, ops)
    }

    constructor ()
      ensures View() == CLOSED
    {
      worktree, directories, expanded, ops := None, map[], {}, map[];
    }

    method Close()
      modifies this
      ensures View() == Apply(old(View()), Call.Close)
    {
      worktree, directories, expanded, ops := None, map[], {}, map[];
    }

    method Begin(id: string, op: Op)
      modifies this
      ensures View() == Apply(old(View()), Call.Begin(id, op))
    {
      Close();
      worktree := Some(id);
      expanded := expanded + {""};
      directories := directories["" := Loading];
      ops := ops["" := op];
    }

    method ToggleDirectory(path: string, op: Op) returns (needsLoad: bool)
      modifies this
      ensures View() == Apply(old(View()), Call.Toggle(path, op))
      ensures needsLoad == NeedsLoad(old(View()), path)
    {
      if path in expanded {
        expanded := expanded - {path};
        return false;
      }
      expanded := expanded + {path};
      if path in directories && directories[path].Ready? { return false; }
      directories := directories[path := Loading];
      ops := ops[path := op];
      needsLoad := true;
    }

    method CollapseAll()
      modifies this
      ensures View() == Apply(old(View()), Call.CollapseAll)
    {
      expanded := {};
      expanded := expanded + {""};
    }

    method BeginDirectoryRefresh(path: string, op: Op)
      modifies this
      ensures View() == Apply(old(View()), Call.Refresh(path, op))
    {
      ops := ops[path := op];
    }

    method AcceptDirectory(id: string, path: string, op: Op, result: Result<seq<Entry>>) returns (accepted: bool)
      modifies this
      ensures View() == Apply(old(View()), Call.Accept(id, path, op, result))
      ensures accepted == Current(old(View()), id, path, op)
    {
      if worktree != Some(id) || path !in ops || ops[path] != op { return false; }
      var state := match result case Ok(entries) => Ready(entries) case Err(error) => Failed(error);
      directories := directories[path := state];
      accepted := true;
    }

    method Rows() returns (rows: seq<Row>)
      requires WellFormed(directories)
      ensures rows == RowsOf(directories, expanded, "", 0)
    {
      rows := AppendRows("", 0, []);
    }

    method AppendRows(directory: string, depth: nat, before: seq<Row>) returns (out: seq<Row>)
      requires WellFormed(directories)
      ensures out == before + RowsOf(directories, expanded, directory, depth)
      decreases AtLeastAsDeep(directories, directory)
    {
      out := before;
      if directory !in directories || !directories[directory].Ready? { return; }
      var entries := directories[directory].entries;
      assert entries[0..] == entries;
      assert ListingOf(directory, entries);
      RowsAreEntryRows(directories, expanded, directory, depth);
      hide RowsOf, EntryRows, Below, ListingOf, WellFormed;
      for i := 0 to |entries|
        invariant ListingOf(directory, entries[i..])
        invariant before + RowsOf(directories, expanded, directory, depth)
               == out + EntryRows(directories, expanded, directory, entries[i..], depth)
      {
        var entry := entries[i];
        FirstRows(directories, expanded, directory, entries, i, depth, out);
        BelowRows(directories, expanded, directory, entry, depth, out);
        out := out + [RowOf(directories, expanded, entry, depth)];
        Deeper(directories, directory, entry);
        if IsExpanded(expanded, entry) {
          out := AppendRows(entry.path, depth + 1, out);
        }
      }
      NoRows(directories, expanded, directory, depth);
      assert entries[|entries|..] == [];
      assert out + [] == out;
    }
  }
}
