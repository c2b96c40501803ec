/** Renaming a fresh branch after its first work: the search for a free name and the checks around it. */
module BranchRename {
  import opened Text
  import Decimal

  // Names

  /** What is before the last slash, and what is after it. */
  function SplitLast(branch: string): Option<(string, string)> {
    if branch == "" then None
    else
      var last := branch[|branch| - 1];
      if last == '/' then Some((branch[..|branch| - 1], ""))
      else match SplitLast(branch[..|branch| - 1])
        case None => None
        case Some((prefix, leaf)) => Some((prefix, leaf + [last]))
  }

  function Leaf(branch: string): string {
    match SplitLast(branch) case None => branch case Some((_, leaf)) => leaf
  }

  function Prefix(branch: string): Option<string> {
    match SplitLast(branch) case None => None case Some((prefix, _)) => Some(prefix)
  }

  function ApplyPrefix(prefix: Option<string>, leaf: string): string {
    if prefix.Some? then prefix.value + "/" + leaf else leaf
  }

  /** A branch is its prefix and its leaf, and a leaf has no slash. */
  lemma {:induction false} PrefixAndLeaf(branch: string)
    ensures ApplyPrefix(Prefix(branch), Leaf(branch)) == branch
    ensures '/' !in Leaf(branch)
    decreases |branch|
  {
    if branch != "" {
      var before, last := branch[..|branch| - 1], branch[|branch| - 1];
      assert branch == before + [last];
      if last != '/' {
        PrefixAndLeaf(before);
        if SplitLast(before).Some? {
          var (prefix, leaf) := SplitLast(before).value;
          assert prefix + "/" + leaf + [last] == prefix + "/" + (leaf + [last]);
        }
      }
    }
  }

  /** A name keeps its prefix, whatever leaf it gets. */
  lemma {:induction false} NewLeafKeepsPrefix(prefix: Option<string>, leaf: string)
    requires '/' !in leaf
    ensures prefix.Some? ==> SplitLast(ApplyPrefix(prefix, leaf)) == Some((prefix.value, leaf))
    ensures prefix.None? ==> SplitLast(ApplyPrefix(prefix, leaf)) == None
    decreases |leaf|
  {
    var branch := ApplyPrefix(prefix, leaf);
    if leaf == "" {
      if prefix.Some? {
        assert branch == prefix.value + "/" && branch[..|branch| - 1] == prefix.value;
      }
    } else {
      var before, last := leaf[..|leaf| - 1], leaf[|leaf| - 1];
      assert last in leaf && forall c :: c in before ==> c in leaf;
      NewLeafKeepsPrefix(prefix, before);
      assert branch[..|branch| - 1] == ApplyPrefix(prefix, before) && branch[|branch| - 1] == last;
      assert before + [last] == leaf;
    }
  }

  /** The names tried, in order: the base, then the suffixes from 2 up. */
  function Candidate(slug: string, k: nat): string
    requires k >= 1
  {
    if k == 1 then slug else slug + "-" + Decimal.Print(k)
  }

  lemma CandidatesDiffer(prefix: Option<string>, slug: string, j: nat, k: nat)
    requires 1 <= j < k
    ensures ApplyPrefix(prefix, Candidate(slug, j)) != ApplyPrefix(prefix, Candidate(slug, k))
  {
    hide Decimal.Print;
    var a, b := Candidate(slug, j), Candidate(slug, k);
    if a == b {
      assert b[|slug| + 1..] == Decimal.Print(k);
      assert j > 1 ==> a[|slug| + 1..] == Decimal.Print(j);
      Decimal.PrintInjective(if j > 1 then j else k, k);
    }
    SamePrefix(prefix, a, b);
  }

  lemma SamePrefix(prefix: Option<string>, a: string, b: string)
    requires a != b
    ensures ApplyPrefix(prefix, a) != ApplyPrefix(prefix, b)
  {
    if prefix.Some? {
      var n := |prefix.value| + 1;
      assert ApplyPrefix(prefix, a)[n..] == a && ApplyPrefix(prefix, b)[n..] == b;
    }
  }

  // The search

  /** The names tried before the `k`th. */
  function Tried(prefix: Option<string>, slug: string, k: nat): set<string> {
    set j: nat | 1 <= j < k :: ApplyPrefix(prefix, Candidate(slug, j))
  }

  lemma TriedOneMore(prefix: Option<string>, slug: string, k: nat)
    requires k >= 1
    ensures Tried(prefix, slug, k + 1) == Tried(prefix, slug, k) + {ApplyPrefix(prefix, Candidate(slug, k))}
    ensures ApplyPrefix(prefix, Candidate(slug, k)) !in Tried(prefix, slug, k)
  {
    forall j: nat | 1 <= j < k
      ensures ApplyPrefix(prefix, Candidate(slug, j)) != ApplyPrefix(prefix, Candidate(slug, k))
    {
      CandidatesDiffer(prefix, slug, j, k);
    }
    hide ApplyPrefix, Candidate;
  }

  /** The smallest free name; nothing if the `k`th question to git fails. The search ends because names that
      were tried are different branches, and there are only finitely many. */
  method ChooseName(branches: set<string>, prefix: Option<string>, slug: string, fails: nat -> bool)
    returns (leaf: string, resolved: Option<string>, k: nat)
    ensures k >= 1 && forall j | 1 <= j < k :: ApplyPrefix(prefix, Candidate(slug, j)) in branches
    ensures k <= |branches| + 1
    ensures resolved.None? <==> fails(k)
    ensures resolved.Some? ==> resolved.value !in branches && resolved.value == ApplyPrefix(prefix, leaf)
                               && leaf == Candidate(slug, k)
    ensures forall j | 1 <= j < k :: !fails(j)
  {
    hide ApplyPrefix, Candidate, AllTaken;
    leaf := slug;
    FirstCandidate(branches, prefix, slug);
    var name := ApplyPrefix(prefix, leaf);
    var suffix := 2;
    while true
      invariant suffix >= 2 && leaf == Candidate(slug, suffix - 1) && name == ApplyPrefix(prefix, leaf)
      invariant AllTaken(branches, prefix, slug, suffix - 1)
      invariant forall j | 1 <= j < suffix - 1 :: !fails(j)
      decreases |branches| + 2 - suffix
    {
      TakenNames(branches, prefix, slug, suffix - 1);
      if fails(suffix - 1) { return leaf, None, suffix - 1; }
      if name !in branches { return leaf, Some(name), suffix - 1; }
      TakenOneMore(branches, prefix, slug, suffix - 1);
      NextCandidate(slug, suffix);
      leaf := slug + "-" + Decimal.Print(suffix);
      name := ApplyPrefix(prefix, leaf);
      suffix := suffix + 1;
    }
  }

  /** The names before the `k`th are all taken, and they are as many different ones. */
  predicate AllTaken(branches: set<string>, prefix: Option<string>, slug: string, k: nat)
    requires k >= 1
  {
    Tried(prefix, slug, k) <= branches && |Tried(prefix, slug, k)| == k - 1
  }

  lemma TakenNames(branches: set<string>, prefix: Option<string>, slug: string, k: nat)
    requires k >= 1 && AllTaken(branches, prefix, slug, k)
    ensures k <= |branches| + 1
    ensures forall j | 1 <= j < k :: ApplyPrefix(prefix, Candidate(slug, j)) in branches
  {
    hide ApplyPrefix, Candidate;
    AtMostAll(Tried(prefix, slug, k), branches);
  }

  lemma TakenOneMore(branches: set<string>, prefix: Option<string>, slug: string, k: nat)
    requires k >= 1 && AllTaken(branches, prefix, slug, k) && ApplyPrefix(prefix, Candidate(slug, k)) in branches
    ensures AllTaken(branches, prefix, slug, k + 1) && k + 1 <= |branches| + 1
  {
    hide ApplyPrefix, Candidate, Tried;
    TriedOneMore(prefix, slug, k);
    AtMostAll(Tried(prefix, slug, k + 1), branches);
  }

  lemma FirstCandidate(branches: set<string>, prefix: Option<string>, slug: string)
    ensures Candidate(slug, 1) == slug && AllTaken(branches, prefix, slug, 1)
  {
    assert Tried(prefix, slug, 1) == {};
  }

  lemma NextCandidate(slug: string, k: nat)
    requires k >= 2
    ensures Candidate(slug, k) == slug + "-" + Decimal.Print(k)
  {
  }

  /** The pigeonhole principle, as far as it is needed. */
  lemma AtMostAll(part: set<string>, all: set<string>)
    requires part <= all
    ensures |part| <= |all| && (|part| == |all| ==> part == all)
    decreases part
  {
    if x :| x in part {
      AtMostAll(part - {x}, all - {x});
    }
  }

  // The repository

  /** What is checked out, the branches, and those that have an upstream. */
  datatype Repo = Repo(head: string, branches: set<string>, published: set<string>)

  /** What somebody else does to the repository, between two of this program's commands. */
  datatype Act =
    | CheckOut(branch: string)
    | Create(branch: string)
    | Delete(branch: string)
    | Move(branch: string, name: string)
    | Publish(branch: string)

  /** A branch takes its upstream with it. */
  function AfterMove(published: set<string>, branch: string, name: string): set<string> {
    if branch in published then published - {branch} + {name} else published
  }

  function Do(repo: Repo, act: Act): Repo {
    match act
    case CheckOut(branch) => if branch in repo.branches then repo.(head := branch) else repo
    case Create(branch) => repo.(branches := repo.branches + {branch})
    case Delete(branch) =>
      if branch == repo.head then repo
      else repo.(branches := repo.branches - {branch}, published := repo.published - {branch})
    case Move(branch, name) =>
      if branch !in repo.branches || name in repo.branches then repo
      else
        repo.(head := if repo.head == branch then name else repo.head, branches := repo.branches - {branch} + {name},
              published := AfterMove(repo.published, branch, name))
    case Publish(branch) => repo.(published := repo.published + {branch})
  }

  /** What each of these does: a checkout of a branch that exists; a creation; a deletion of a branch that is not
      checked out, with its upstream; a renaming to a free name, which takes the upstream and the head along. */
  lemma ActChanges(repo: Repo, act: Act, branch: string)
    ensures var after := Do(repo, act);
      var moves := act.Move? && act.branch in repo.branches && act.name !in repo.branches;
      var deletes := act.Delete? && act.branch != repo.head;
      && (branch in after.branches <==>
            || (act.Create? && branch == act.branch) || (moves && branch == act.name)
            || (branch in repo.branches && !((moves || deletes) && branch == act.branch)))
      && (branch in after.published <==>
            || (act.Publish? && branch == act.branch) || (moves && branch == act.name && act.branch in repo.published)
            || (branch in repo.published && !((moves || deletes) && branch == act.branch)))
      && after.head == (if act.CheckOut? && act.branch in repo.branches then act.branch
                        else if moves && repo.head == act.branch then act.name
                        else repo.head)
  {
  }

  function DoAll(repo: Repo, acts: seq<Act>): Repo
    decreases |acts|
  {
    if acts == [] then repo else DoAll(Do(repo, acts[0]), acts[1..])
  }

  /** A renaming that this program made. */
  datatype Renaming = Renaming(before: string, after: string)

  /** `git branch -m`: it renames what is checked out now, and refuses a name that is taken. */
  function RenameHead(repo: Repo, name: string, works: bool): (Repo, Option<Renaming>) {
    if !works || repo.head !in repo.branches || name in repo.branches then (repo, None)
    else
      (Repo(name, repo.branches - {repo.head} + {name}, AfterMove(repo.published, repo.head, name)),
       Some(Renaming(repo.head, name)))
  }

  /** The last checks and the renaming, with what others do between the two checks and before the renaming. */
  function Finish(repo: Repo, current: string, name: string, a: Answers): (Repo, Option<Renaming>) {
    if !a.headKnownAgain || repo.head != current then (repo, None)
    else
      var checked := DoAll(repo, a.between);
      if !a.upstreamKnownAgain || current in checked.published then (checked, None)
      else RenameHead(DoAll(checked, a.last), name, a.renames)
  }

  lemma {:induction false} DoConcat(repo: Repo, a: seq<Act>, b: seq<Act>)
    ensures DoAll(repo, a + b) == DoAll(DoAll(repo, a), b)
    decreases |a|
  {
    hide Do;
    if a == [] {
      assert a + b == b;
    } else {
      assert (a + b)[0] == a[0] && (a + b)[1..] == a[1..] + b;
      DoConcat(Do(repo, a[0]), a[1..], b);
    }
  }

  /** The branch that is renamed is the checked one exactly when what others did since the check leaves it
      checked out. */
  lemma RenamesTheCheckedIff(repo: Repo, current: string, name: string, a: Answers)
    requires Finish(repo, current, name, a).1.Some?
    ensures Finish(repo, current, name, a).1.value.before == current
       <==> DoAll(repo, a.between + a.last).head == current
    ensures repo.head == current && current !in DoAll(repo, a.between).published
  {
    hide DoAll;
    DoConcat(repo, a.between, a.last);
  }

  /** Nobody checks anything out or renames a branch. */
  predicate LeavesHead(acts: seq<Act>) {
    forall i | 0 <= i < |acts| :: !acts[i].CheckOut? && !acts[i].Move?
  }

  lemma {:induction false} HeadStays(repo: Repo, acts: seq<Act>)
    requires LeavesHead(acts)
    ensures DoAll(repo, acts).head == repo.head
    decreases |acts|
  {
    if acts != [] {
      assert !acts[0].CheckOut? && !acts[0].Move?;
      HeadStays(Do(repo, acts[0]), acts[1..]);
    }
  }

  /** In particular when nobody checks anything out or renames a branch meanwhile. */
  lemma WithoutCheckoutRenamesTheChecked(repo: Repo, current: string, name: string, a: Answers)
    requires Finish(repo, current, name, a).1.Some? && LeavesHead(a.between) && LeavesHead(a.last)
    ensures Finish(repo, current, name, a).1 == Some(Renaming(current, name))
  {
    HeadStays(repo, a.between);
    HeadStays(DoAll(repo, a.between), a.last);
    hide DoAll;
  }

  lemma {:induction false} PublishedIff(repo: Repo, acts: seq<Act>)
    requires LeavesHead(acts)
    ensures repo.head in DoAll(repo, acts).published <==> repo.head in repo.published || Publish(repo.head) in acts
    decreases |acts|
  {
    if acts != [] {
      assert !acts[0].CheckOut? && !acts[0].Move?;
      assert acts == [acts[0]] + acts[1..];
      PublishedIff(Do(repo, acts[0]), acts[1..]);
    }
  }

  /** The renamed branch is what the others leave checked out, published or not. As long as nobody checks anything
      out or renames a branch, it is a published one exactly when somebody publishes it after the last check. */
  lemma RenamesUnpublishedIff(repo: Repo, current: string, name: string, a: Answers)
    requires Finish(repo, current, name, a).1.Some?
    ensures var left := DoAll(repo, a.between + a.last);
      && Finish(repo, current, name, a).1.value.before == left.head
      && (LeavesHead(a.between) && LeavesHead(a.last) ==>
            (Finish(repo, current, name, a).1.value.before in left.published <==> Publish(current) in a.last))
  {
    DoConcat(repo, a.between, a.last);
    if LeavesHead(a.between) && LeavesHead(a.last) {
      HeadStays(repo, a.between);
      HeadStays(DoAll(repo, a.between), a.last);
      PublishedIff(DoAll(repo, a.between), a.last);
    }
    hide DoAll, LeavesHead;
  }

  /** A run in which a published branch is renamed. */
  lemma PublishedBranchIsRenamed(a: Answers)
    requires a.headKnownAgain && a.upstreamKnownAgain && a.renames && a.between == [] && a.last == [Publish("wren")]
    ensures Finish(Repo("wren", {"wren"}, {}), "wren", "fix-login", a)
         == (Repo("fix-login", {"fix-login"}, {"fix-login"}), Some(Renaming("wren", "fix-login")))
  {
    var repo := Repo("wren", {"wren"}, {});
    assert DoAll(repo, []) == repo;
    assert [Publish("wren")][1..] == [];
    assert DoAll(repo, [Publish("wren")]) == repo.(published := {"wren"});
    assert "wren"[0] != "fix-login"[0];
    assert {"wren"} - {"wren"} + {"fix-login"} == {"fix-login"};
  }

  /** A checkout after the last check has another branch renamed, and the checked one keeps its name. */
  lemma CheckoutRenamesAnother(a: Answers)
    requires a.headKnownAgain && a.upstreamKnownAgain && a.renames && a.between == [] && a.last == [CheckOut("main")]
    ensures Finish(Repo("wren", {"wren", "main"}, {}), "wren", "fix-login", a)
         == (Repo("fix-login", {"wren", "fix-login"}, {}), Some(Renaming("main", "fix-login")))
  {
    var repo := Repo("wren", {"wren", "main"}, {});
    assert DoAll(repo, []) == repo;
    assert [CheckOut("main")][1..] == [];
    assert DoAll(repo, [CheckOut("main")]) == repo.(head := "main");
    assert "wren"[0] != "main"[0] && "main"[0] != "fix-login"[0] && "wren"[0] != "fix-login"[0];
    assert {"wren", "main"} - {"main"} + {"fix-login"} == {"wren", "fix-login"};
  }

  datatype Outcome =
    | Renamed(before: string, after: string, leaf: string)
    | Settled(reason: string)
    | Retry(reason: string)

  /** How git and the name generator answer: which commands work, which names were generated by the program,
      the slug made of the first prompt; and what others do before each step, the last two of them between the last
      two checks and before the renaming. */
  datatype Answers = Answers(headKnown: bool, upstreamKnown: bool, creature: string -> bool, slug: string,
                             fails: nat -> bool,
                             headKnownAgain: bool, upstreamKnownAgain: bool, renames: bool,
                             first: seq<Act>, second: seq<Act>, third: seq<Act>, fourth: seq<Act>,
                             between: seq<Act>, last: seq<Act>)

  class Worktree {
    var head: string
    var branches: set<string>
    var published: set<string>
    ghost var renamings: seq<Renaming>

    ghost function View(): Repo
      reads this
    {
      Repo(head, branches, published)
    }

    method OthersDo(acts: seq<Act>)
      modifies `head, `branches, `published
      ensures View() == DoAll(old(View()), acts)
    {
      for i := 0 to |acts|
        invariant DoAll(old(View()), acts) == DoAll(View(), acts[i..])
      {
        assert acts[i..][1..] == acts[i + 1..];
        match acts[i] {
          case CheckOut(branch) => if branch in branches { head := branch; }
          case Create(branch) => branches := branches + {branch};
          case Delete(branch) =>
            if branch != head { branches, published := branches - {branch}, published - {branch}; }
          case Move(branch, name) =>
            if branch in branches && name !in branches {
              branches, published := branches - {branch} + {name}, AfterMove(published, branch, name);
              if head == branch { head := name; }
            }
          case Publish(branch) => published := published + {branch};
        }
      }
    }

    method RenameCheckedOut(name: string, works: bool) returns (ok: bool)
      modifies this
      ensures var (repo, renaming) := RenameHead(old(View()), name, works);
        && View() == repo && ok == renaming.Some?
        && renamings == old(renamings) + if renaming.Some? then [renaming.value] else []
    {
      ok := works && head in branches && name !in branches;
      if ok {
        renamings := renamings + [Renaming(head, name)];
        branches, published := branches - {head} + {name}, AfterMove(published, head, name);
        head := name;
      }
    }

    /** The last checks and the renaming. */
    method CheckAndRename(current: string, name: string, a: Answers) returns (refusal: Option<string>)
      modifies this
      ensures var (repo, renaming) := Finish(old(View()), current, name, a);
        && View() == repo && refusal.None? == renaming.Some?
        && renamings == old(renamings) + if renaming.Some? then [renaming.value] else []
    {
      hide DoAll;
      if !a.headKnownAgain || head != current { return Some("branch changed during generation"); }
      OthersDo(a.between);
      if !a.upstreamKnownAgain || current in published { return Some("published during generation"); }
      OthersDo(a.last);
      var ok := RenameCheckedOut(name, a.renames);
      refusal := if ok then None else Some("git refused");
    }

    /** `free` are the branches when the name is chosen, `checked` the repository when it is checked again. */
    method RenameFromFirstWork(expected: string, a: Answers)
      returns (outcome: Outcome, ghost free: set<string>, ghost checked: Repo)
      modifies this
      ensures outcome.Renamed? <==> renamings != old(renamings)
      ensures outcome.Renamed? ==>
        && outcome.before == expected && a.creature(Leaf(expected)) && a.slug != ""
        && Finish(checked, expected, outcome.after, a).1.Some?
        && renamings == old(renamings) + [Finish(checked, expected, outcome.after, a).1.value]
        && outcome.after !in free && outcome.after == ApplyPrefix(Prefix(expected), outcome.leaf)
        && exists k :: k >= 1 && outcome.leaf == Candidate(a.slug, k)
                       && forall j | 1 <= j < k :: ApplyPrefix(Prefix(expected), Candidate(a.slug, j)) in free
      ensures forall k | IsFirstFree(Named(old(View()), a).branches, Prefix(expected), a.slug, k) ::
        Ends(old(View()), expected, k, a, outcome)
    {
      hide ApplyPrefix, Candidate, Leaf, Prefix, Finish, DoAll, IsFirstFree;
      ghost var start := View();
      free, checked := {}, Repo("", {}, {});
      OthersDo(a.first);
      if !a.headKnown || head == "" || head == "HEAD" { return Retry("no checked-out branch"), free, checked; }
      var current := head;
      if current != expected { return Retry("branch changed before rename"), free, checked; }
      if !a.creature(Leaf(current)) { return Settled("not an auto-generated creature"), free, checked; }
      OthersDo(a.second);
      if !a.upstreamKnown { return Retry("upstream unknown"), free, checked; }
      if current in published { return Settled("already published"), free, checked; }
      if a.slug == "" { return Settled("first prompt produced no safe branch name"), free, checked; }
      OthersDo(a.third);
      free := branches;
      var leaf, resolved, asked := ChooseName(branches, Prefix(current), a.slug, a.fails);
      ChosenIsFirstFree(branches, Prefix(current), a, resolved, asked);
      if resolved.None? { return Retry("branches unknown"), free, checked; }
      if resolved.value == current { return Settled("generated branch is unchanged"), free, checked; }
      OthersDo(a.fourth);
      checked := View();
      var refusal := CheckAndRename(current, resolved.value, a);
      if refusal.Some? { return Retry(refusal.value), free, checked; }
      outcome := Renamed(current, resolved.value, leaf);
    }
  }

  // When a branch is renamed

  /** The `k`th name is the first that is free. */
  predicate IsFirstFree(branches: set<string>, prefix: Option<string>, slug: string, k: nat) {
    && k >= 1 && ApplyPrefix(prefix, Candidate(slug, k)) !in branches
    && forall j | 1 <= j < k :: ApplyPrefix(prefix, Candidate(slug, j)) in branches
  }

  /** The repository when the head is looked at, when the upstream is, and when the name is chosen. */
  function Looked(repo: Repo, a: Answers): Repo {
    DoAll(repo, a.first)
  }

  function Asked(repo: Repo, a: Answers): Repo {
    DoAll(Looked(repo, a), a.second)
  }

  function Named(repo: Repo, a: Answers): Repo {
    DoAll(Asked(repo, a), a.third)
  }

  predicate HeadIs(repo: Repo, expected: string, a: Answers) {
    a.headKnown && Looked(repo, a).head == expected && expected != "" && expected != "HEAD"
  }

  /** Everything up to the choice of a name goes well. */
  predicate ComesToNames(repo: Repo, expected: string, a: Answers) {
    && HeadIs(repo, expected, a) && a.creature(Leaf(expected))
    && a.upstreamKnown && expected !in Asked(repo, a).published && a.slug != ""
  }

  predicate NamesKnown(a: Answers, k: nat) {
    forall j | 1 <= j <= k :: !a.fails(j)
  }

  /** How an attempt ends, when `k` is the number of the first free name. */
  predicate Ends(repo: Repo, expected: string, k: nat, a: Answers, outcome: Outcome)
    requires k >= 1
  {
    var name := ApplyPrefix(Prefix(expected), Candidate(a.slug, k));
    var checked := DoAll(Named(repo, a), a.fourth);
    && (outcome.Renamed? <==> && ComesToNames(repo, expected, a) && NamesKnown(a, k) && name != expected
                              && Finish(checked, expected, name, a).1.Some?)
    && (outcome.Renamed? ==> outcome == Renamed(expected, name, Candidate(a.slug, k)))
    && (outcome.Settled? <==> && HeadIs(repo, expected, a)
                              && (|| !a.creature(Leaf(expected))
                                  || (a.upstreamKnown && (expected in Asked(repo, a).published || a.slug == ""))
                                  || (ComesToNames(repo, expected, a) && NamesKnown(a, k) && name == expected)))
  }

  /** There is one first free name, and it is the one chosen unless git fails before. */
  lemma ChosenIsFirstFree(branches: set<string>, prefix: Option<string>, a: Answers, resolved: Option<string>,
          asked: nat)
    requires asked >= 1 && forall j | 1 <= j < asked :: ApplyPrefix(prefix, Candidate(a.slug, j)) in branches
    requires forall j | 1 <= j < asked :: !a.fails(j)
    requires resolved.None? <==> a.fails(asked)
    requires resolved.Some? ==>
      resolved.value !in branches && resolved.value == ApplyPrefix(prefix, Candidate(a.slug, asked))
    ensures forall k | IsFirstFree(branches, prefix, a.slug, k) ::
      && asked <= k && (resolved.Some? <==> NamesKnown(a, k)) && (resolved.Some? ==> k == asked)
  {
    hide ApplyPrefix, Candidate;
  }

  lemma {:induction false} LongerNames(branches: set<string>, prefix: Option<string>, slug: string, k: nat)
    requires k >= 1 && AllTaken(branches, prefix, slug, k)
    ensures exists n :: IsFirstFree(branches, prefix, slug, n)
    decreases |branches| + 1 - k
  {
    hide ApplyPrefix, Candidate, Tried;
    TakenNames(branches, prefix, slug, k);
    if ApplyPrefix(prefix, Candidate(slug, k)) in branches {
      TakenOneMore(branches, prefix, slug, k);
      LongerNames(branches, prefix, slug, k + 1);
    } else {
      assert IsFirstFree(branches, prefix, slug, k);
    }
  }

  /** Among finitely many branches there always is a first free name, and only one. */
  lemma OneFirstFree(branches: set<string>, prefix: Option<string>, slug: string, j: nat, k: nat)
    ensures exists n :: IsFirstFree(branches, prefix, slug, n)
    ensures IsFirstFree(branches, prefix, slug, j) && IsFirstFree(branches, prefix, slug, k) ==> j == k
  {
    hide ApplyPrefix, Candidate;
    FirstCandidate(branches, prefix, slug);
    LongerNames(branches, prefix, slug, 1);
  }
}
