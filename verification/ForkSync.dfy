/** Fast-forwarding a fork's default branch: the commit graph, the checks in their order, and the push. */
module ForkSync {
  import opened Text

  // The commit graph

  /** A commit is named by its contents, which include its parents; so no commit is its own ancestor. */
  datatype Commit = Commit(id: nat, parents: seq<Commit>)

  /** Everything reachable from a commit, itself included. */
  function History(c: Commit): set<Commit> {
    {c} + set i, x | 0 <= i < |c.parents| && x in History(c.parents[i]) :: x
  }

  ghost function Height(c: Commit): nat
    decreases c
  {
    1 + Tallest(c.parents)
  }

  ghost function Tallest(cs: seq<Commit>): nat
    decreases cs
  {
    if cs == [] then 0 else var (a, b) := (Height(cs[0]), Tallest(cs[1..])); if a > b then a else b
  }

  lemma {:induction false} ParentIsLower(cs: seq<Commit>, i: nat)
    requires i < |cs|
    ensures Height(cs[i]) <= Tallest(cs)
  {
    if i > 0 {
      ParentIsLower(cs[1..], i - 1);
    }
  }

  /** A proper ancestor is lower, so ancestry has no cycle. */
  lemma {:induction false} AncestorIsLower(a: Commit, c: Commit)
    requires a in History(c)
    ensures a == c || Height(a) < Height(c)
    decreases c
  {
    if a != c {
      var i :| 0 <= i < |c.parents| && a in History(c.parents[i]);
      ParentIsLower(c.parents, i);
      AncestorIsLower(a, c.parents[i]);
    }
  }

  lemma {:induction false} HistoryGrows(a: Commit, c: Commit)
    requires a in History(c)
    ensures History(a) <= History(c)
    decreases c
  {
    if a != c {
      var i :| 0 <= i < |c.parents| && a in History(c.parents[i]);
      HistoryGrows(a, c.parents[i]);
    }
  }

  /** `rev-list --left-right --count origin...upstream`. */
  function Ahead(origin: Commit, upstream: Commit): nat {
    |History(origin) - History(upstream)|
  }

  function Behind(origin: Commit, upstream: Commit): nat {
    |History(upstream) - History(origin)|
  }

  /** Nothing is ahead exactly when origin's commit is an ancestor of upstream's. */
  lemma {:induction false} AheadIsZeroIff(origin: Commit, upstream: Commit)
    ensures Ahead(origin, upstream) == 0 <==> origin in History(upstream)
  {
    if origin in History(upstream) {
      HistoryGrows(origin, upstream);
      assert History(origin) - History(upstream) == {};
    } else {
      assert origin in History(origin) - History(upstream);
    }
  }

  /** Both counts are zero exactly when the commits are equal. */
  lemma BothZeroIff(origin: Commit, upstream: Commit)
    ensures Ahead(origin, upstream) == 0 && Behind(origin, upstream) == 0 <==> origin == upstream
  {
    AheadIsZeroIff(origin, upstream);
    AheadIsZeroIff(upstream, origin);
    if origin in History(upstream) && upstream in History(origin) {
      AncestorIsLower(origin, upstream);
      AncestorIsLower(upstream, origin);
    }
  }

  // The synchronisation

  datatype Repository = Repository(owner: string, repo: string)

  datatype Reason =
    | MissingOrigin | MissingUpstream | UpstreamMismatch | MissingUpstreamDefaultBranch | MissingOriginBranch | Diverged

  datatype Status = UpToDate | Synced | Blocked(reason: Reason)
  datatype SyncResult = SyncResult(status: Status, branch: Option<string>, ahead: nat, behind: nat)

  // The clone and its remotes

  /** The branches of the two remotes, and what the clone has tracked of them. */
  datatype Refs = Refs(upstream: map<string, Commit>, origin: map<string, Commit>,
                       trackedUpstream: map<string, Commit>, trackedOrigin: map<string, Commit>)

  datatype Place = Upstream | Origin | TrackedUpstream | TrackedOrigin

  /** What somebody else does between two commands: a branch somewhere is moved, created or deleted. */
  datatype Act = Act(place: Place, branch: string, commit: Option<Commit>)

  function Put(refs: map<string, Commit>, branch: string, commit: Option<Commit>): map<string, Commit> {
    if commit.Some? then refs[branch := commit.value] else refs - {branch}
  }

  function Do(r: Refs, act: Act): Refs {
    match act.place
    case Upstream => r.(upstream := Put(r.upstream, act.branch, act.commit))
    case Origin => r.(origin := Put(r.origin, act.branch, act.commit))
    case TrackedUpstream => r.(trackedUpstream := Put(r.trackedUpstream, act.branch, act.commit))
    case TrackedOrigin => r.(trackedOrigin := Put(r.trackedOrigin, act.branch, act.commit))
  }

  function DoAll(r: Refs, acts: seq<Act>): Refs
    decreases |acts|
  {
    if acts == [] then r else DoAll(Do(r, acts[0]), acts[1..])
  }

  datatype Moment = BeforeUpstream | BeforeOrigin | BeforeUpstreamRef | BeforeOriginRef | BeforePush | AfterPush

  /** How git answers: what is configured, and which commands work; and what others do before each command.
      Whatever the graph decides is not here. */
  datatype Answers = Answers(
    hasOrigin: bool, hasUpstream: bool, identity: Option<Repository>, defaultBranch: Option<string>, validName: bool,
    upstreamOnline: bool, originOnline: bool, upstreamResolves: bool, originResolves: bool, counts: bool,
    ancestry: bool,
    pushOnline: bool, pushReported: bool, refetch: bool, meanwhile: Moment -> seq<Act>)

  /** What a push of this process did to origin. */
  datatype Push = Push(branch: string, before: Option<Commit>, after: Commit)

  predicate Blank(r: Repository) {
    Trim(r.owner) == "" || Trim(r.repo) == ""
  }

  predicate Matches(identity: Option<Repository>, expected: Repository) {
    && identity.Some?
    && Lower(identity.value.owner) == Lower(Trim(expected.owner))
    && Lower(identity.value.repo) == Lower(Trim(expected.repo))
  }

  function Refuse(reason: Reason, branch: Option<string>, ahead: nat, behind: nat): Result<SyncResult> {
    Ok(SyncResult(Blocked(reason), branch, ahead, behind))
  }

  /** The refusals that need no commit, in the order of the checks. */
  function Refusal(expected: Repository, a: Answers): Option<Result<SyncResult>> {
    if Blank(expected) then Some(Err("Invalid expected upstream."))
    else if !a.hasOrigin then Some(Refuse(MissingOrigin, None, 0, 0))
    else if !a.hasUpstream then Some(Refuse(MissingUpstream, None, 0, 0))
    else if !Matches(a.identity, expected) then Some(Refuse(UpstreamMismatch, None, 0, 0))
    else if a.defaultBranch.None? then Some(Refuse(MissingUpstreamDefaultBranch, None, 0, 0))
    else if !a.validName then Some(Err("The upstream default branch name is invalid."))
    else None
  }

  const NOT_COMPARED := "Could not compare the fork with upstream."
  const NOT_PUSHED := "Fork sync failed while updating origin."

  function At(refs: map<string, Commit>, branch: string): Option<Commit> {
    if branch in refs then Some(refs[branch]) else None
  }

  /** The push rule: a branch may be created, or moved to a commit that has all it had. */
  predicate FastForward(before: Option<Commit>, after: Commit) {
    before.Some? ==> before.value in History(after)
  }

  // The commands

  function FetchedUpstream(r: Refs, branch: string, online: bool): (Refs, bool) {
    if online && branch in r.upstream then
      (r.(trackedUpstream := r.trackedUpstream[branch := r.upstream[branch]]), true)
    else (r, false)
  }

  function FetchedOrigin(r: Refs, branch: string, online: bool): (Refs, bool) {
    if online && branch in r.origin then (r.(trackedOrigin := r.trackedOrigin[branch := r.origin[branch]]), true)
    else (r, false)
  }

  /** A push without force. */
  function PushTo(r: Refs, branch: string, commit: Commit, online: bool): (Refs, Option<Push>) {
    if online && FastForward(At(r.origin, branch), commit) then
      (r.(origin := r.origin[branch := commit]), Some(Push(branch, At(r.origin, branch), commit)))
    else (r, None)
  }

  /** What a synchronisation reports and leaves, what it pushed, and the commits it saw: origin's and upstream's. */
  datatype Report = Report(result: Result<SyncResult>, refs: Refs, push: Option<Push>, seen: Option<(Commit, Commit)>)

  function Stopped(result: Result<SyncResult>, r: Refs): Report {
    Report(result, r, None, None)
  }

  function Synchronised(r: Refs, expected: Repository, a: Answers): Report {
    if Refusal(expected, a).Some? then Stopped(Refusal(expected, a).value, r)
    else
      var branch := a.defaultBranch.value;
      var (r1, fetched) := FetchedUpstream(DoAll(r, a.meanwhile(BeforeUpstream)), branch, a.upstreamOnline);
      if !fetched then Stopped(Refuse(MissingUpstreamDefaultBranch, Some(branch), 0, 0), r1)
      else
        var (r2, fetchedToo) := FetchedOrigin(DoAll(r1, a.meanwhile(BeforeOrigin)), branch, a.originOnline);
        if !fetchedToo then Stopped(Refuse(MissingOriginBranch, Some(branch), 0, 0), r2)
        else Resolve(r2, branch, a)
  }

  function Resolve(r: Refs, branch: string, a: Answers): Report
    requires a.defaultBranch == Some(branch)
  {
    var r1 := DoAll(r, a.meanwhile(BeforeUpstreamRef));
    if !a.upstreamResolves || branch !in r1.trackedUpstream then
      Stopped(Refuse(MissingUpstreamDefaultBranch, Some(branch), 0, 0), r1)
    else
      var r2 := DoAll(r1, a.meanwhile(BeforeOriginRef));
      if !a.originResolves || branch !in r2.trackedOrigin then
        Stopped(Refuse(MissingOriginBranch, Some(branch), 0, 0), r2)
      else Compare(r2, branch, r2.trackedOrigin[branch], r1.trackedUpstream[branch], a)
  }

  /** The comparison of the two commits, and the push that it may call for. */
  function Compare(r: Refs, branch: string, origin: Commit, upstream: Commit, a: Answers): Report
    requires a.defaultBranch == Some(branch)
  {
    if !a.counts || !ToPush(a, origin, upstream) then
      Report(Verdict(a, origin, upstream, false), r, None, Some((origin, upstream)))
    else
      var (pushed, push) := PushTo(DoAll(r, a.meanwhile(BeforePush)), branch, upstream, a.pushOnline);
      var ok := push.Some? && a.pushReported;
      var after := if ok then FetchedOrigin(DoAll(pushed, a.meanwhile(AfterPush)), branch, a.refetch).0 else pushed;
      Report(Verdict(a, origin, upstream, ok), after, push, Some((origin, upstream)))
  }

  /** A clone with its two remotes. Others may push to the remotes, and fetch, between any two commands. */
  class Git {
    var upstream: map<string, Commit>
    var origin: map<string, Commit>
    var trackedUpstream: map<string, Commit>
    var trackedOrigin: map<string, Commit>
    ghost var pushes: seq<Push>

    ghost function View(): Refs
      reads this
    {
      Refs(upstream, origin, trackedUpstream, trackedOrigin)
    }

    method OthersDo(acts: seq<Act>)
      modifies `upstream, `origin, `trackedUpstream, `trackedOrigin
      ensures View() == DoAll(old(View()), acts)
    {
      for i := 0 to |acts|
        invariant DoAll(old(View()), acts) == DoAll(View(), acts[i..])
      {
        assert acts[i..][1..] == acts[i + 1..];
        var Act(place, branch, commit) := acts[i];
        match place {
          case Upstream => upstream := Put(upstream, branch, commit);
          case Origin => origin := Put(origin, branch, commit);
          case TrackedUpstream => trackedUpstream := Put(trackedUpstream, branch, commit);
          case TrackedOrigin => trackedOrigin := Put(trackedOrigin, branch, commit);
        }
      }
    }

    method FetchUpstream(branch: string, online: bool) returns (ok: bool)
      modifies `trackedUpstream
      ensures (View(), ok) == FetchedUpstream(old(View()), branch, online)
    {
      ok := online && branch in upstream;
      if ok { trackedUpstream := trackedUpstream[branch := upstream[branch]]; }
    }

    method FetchOrigin(branch: string, online: bool) returns (ok: bool)
      modifies `trackedOrigin
      ensures (View(), ok) == FetchedOrigin(old(View()), branch, online)
    {
      ok := online && branch in origin;
      if ok { trackedOrigin := trackedOrigin[branch := origin[branch]]; }
    }

    /** A push without force. It may reach origin and yet be reported as failed. */
    method PushToOrigin(branch: string, commit: Commit, online: bool, reported: bool)
      returns (ok: bool, ghost moved: bool)
      modifies this
      ensures ok == (moved && reported)
      ensures !moved ==> pushes == old(pushes) && View() == old(View())
      ensures moved ==> pushes == old(pushes) + [Push(branch, At(old(origin), branch), commit)]
                        && FastForward(At(old(origin), branch), commit)
                        && origin == old(origin)[branch := commit] && View() == old(View()).(origin := origin)
      ensures moved <==> online && FastForward(At(old(origin), branch), commit)
    {
      moved := online && FastForward(At(origin, branch), commit);
      if online && FastForward(At(origin, branch), commit) {
        pushes := pushes + [Push(branch, At(origin, branch), commit)];
        origin := origin[branch := commit];
        ok := reported;
      } else {
        ok := false;
      }
    }

    /** `report` tells everything that the call does. */
    method SyncDefaultBranch(expected: Repository, a: Answers)
      returns (result: Result<SyncResult>, ghost report: Report)
      modifies this
      ensures report == Synchronised(old(View()), expected, a) && result == report.result && View() == report.refs
      ensures pushes == old(pushes) + if report.push.Some? then [report.push.value] else []
    {
      hide Matches, Blank, DoAll, Compare, Refuse;
      report := Synchronised(View(), expected, a);
      if Blank(expected) { return Err("Invalid expected upstream."), report; }
      if !a.hasOrigin { return Refuse(MissingOrigin, None, 0, 0), report; }
      if !a.hasUpstream { return Refuse(MissingUpstream, None, 0, 0), report; }
      if !Matches(a.identity, expected) { return Refuse(UpstreamMismatch, None, 0, 0), report; }
      if a.defaultBranch.None? { return Refuse(MissingUpstreamDefaultBranch, None, 0, 0), report; }
      var branch := a.defaultBranch.value;
      if !a.validName { return Err("The upstream default branch name is invalid."), report; }
      OthersDo(a.meanwhile(BeforeUpstream));
      var fetched := FetchUpstream(branch, a.upstreamOnline);
      if !fetched { return Refuse(MissingUpstreamDefaultBranch, Some(branch), 0, 0), report; }
      OthersDo(a.meanwhile(BeforeOrigin));
      fetched := FetchOrigin(branch, a.originOnline);
      if !fetched { return Refuse(MissingOriginBranch, Some(branch), 0, 0), report; }
      result := ResolveAndPush(branch, a);
    }

    method ResolveAndPush(branch: string, a: Answers) returns (result: Result<SyncResult>)
      requires a.defaultBranch == Some(branch)
      modifies this
      ensures var report := Resolve(old(View()), branch, a);
        && result == report.result && View() == report.refs
        && pushes == old(pushes) + if report.push.Some? then [report.push.value] else []
    {
      hide DoAll, Compare, Refuse;
      OthersDo(a.meanwhile(BeforeUpstreamRef));
      if !a.upstreamResolves || branch !in trackedUpstream {
        return Refuse(MissingUpstreamDefaultBranch, Some(branch), 0, 0);
      }
      var upstreamOid := trackedUpstream[branch];
      OthersDo(a.meanwhile(BeforeOriginRef));
      if !a.originResolves || branch !in trackedOrigin { return Refuse(MissingOriginBranch, Some(branch), 0, 0); }
      var originOid := trackedOrigin[branch];
      result := CompareAndPush(branch, originOid, upstreamOid, a);
    }

    method CompareAndPush(branch: string, originOid: Commit, upstreamOid: Commit, a: Answers)
      returns (result: Result<SyncResult>)
      requires a.defaultBranch == Some(branch)
      modifies this
      ensures var report := Compare(old(View()), branch, originOid, upstreamOid, a);
        && result == report.result && View() == report.refs
        && pushes == old(pushes) + if report.push.Some? then [report.push.value] else []
    {
      hide History, Ahead, Behind, FastForward, DoAll;
      if !a.counts { return Err(NOT_COMPARED); }
      var ahead, behind := Ahead(originOid, upstreamOid), Behind(originOid, upstreamOid);
      var ancestor := a.ancestry && originOid in History(upstreamOid);
      if ahead > 0 || !ancestor { return Refuse(Diverged, Some(branch), ahead, behind); }
      if behind == 0 { return Ok(SyncResult(UpToDate, Some(branch), ahead, behind)); }
      OthersDo(a.meanwhile(BeforePush));
      var ok: bool;
      ghost var moved: bool;
      ok, moved := PushToOrigin(branch, upstreamOid, a.pushOnline, a.pushReported);
      if !ok { return Err(NOT_PUSHED); }
      OthersDo(a.meanwhile(AfterPush));
      var _ := FetchOrigin(branch, a.refetch);
      result := Ok(SyncResult(Synced, Some(branch), ahead, behind));
    }
  }

  predicate ToPush(a: Answers, origin: Commit, upstream: Commit) {
    a.ancestry && origin in History(upstream) && Ahead(origin, upstream) == 0 && Behind(origin, upstream) > 0
  }

  /** What is reported once both commits are known. */
  function Verdict(a: Answers, origin: Commit, upstream: Commit, pushed: bool): Result<SyncResult> {
    var ahead, behind := Ahead(origin, upstream), Behind(origin, upstream);
    if !a.counts then Err(NOT_COMPARED)
    else if ahead > 0 || !(a.ancestry && origin in History(upstream)) then
      Refuse(Diverged, a.defaultBranch, ahead, behind)
    else if behind == 0 then Ok(SyncResult(UpToDate, a.defaultBranch, 0, 0))
    else if !pushed then Err(NOT_PUSHED)
    else Ok(SyncResult(Synced, a.defaultBranch, 0, behind))
  }

  /** The counts and the ancestry test never disagree, so each outcome is a fact about the two commits. */
  lemma VerdictMeans(a: Answers, origin: Commit, upstream: Commit, pushed: bool)
    requires a.counts && a.ancestry
    ensures var r := Verdict(a, origin, upstream, pushed);
      && (r.Ok? && r.value.status == UpToDate <==> origin == upstream)
      && (r.Ok? && r.value.status == Blocked(Diverged) <==> origin !in History(upstream))
      && (ToPush(a, origin, upstream) <==> origin in History(upstream) && origin != upstream)
      && (r.Ok? && r.value.status == Synced <==> ToPush(a, origin, upstream) && pushed)
  {
    hide History, Ahead, Behind;
    AheadIsZeroIff(origin, upstream);
    BothZeroIff(origin, upstream);
    SelfReachable(origin);
  }

  lemma SelfReachable(c: Commit)
    ensures c in History(c)
  {
  }

  /** Whatever a push moved, everything reachable from the branch before is reachable after. */
  lemma {:induction false} NothingIsLost(before: Option<Commit>, after: Commit)
    requires FastForward(before, after)
    ensures before.Some? ==> History(before.value) <= History(after)
  {
    if before.Some? {
      HistoryGrows(before.value, after);
    }
  }

  // Before any commit is looked at

  /** Up to the blanks around the expected names and the case of letters, upstream is the repository expected. */
  predicate SameRepository(identity: Repository, expected: Repository) {
    Lower(identity.owner) == Lower(Trim(expected.owner)) && Lower(identity.repo) == Lower(Trim(expected.repo))
  }

  /** The first check that fails tells the refusal; a synchronisation goes on exactly when none does: both names are
      given, both remotes exist, upstream is the repository expected, and its default branch is known and valid. */
  lemma RefusalIff(expected: Repository, a: Answers)
    ensures var refusal := Refusal(expected, a);
      var named := Trim(expected.owner) != "" && Trim(expected.repo) != "";
      var remotes := a.hasOrigin && a.hasUpstream;
      var same := a.identity.Some? && SameRepository(a.identity.value, expected);
      && (refusal.None? <==> named && remotes && same && a.defaultBranch.Some? && a.validName)
      && (!named ==> refusal == Some(Err("Invalid expected upstream.")))
      && (named && !a.hasOrigin ==> refusal == Some(Refused(MissingOrigin)))
      && (named && a.hasOrigin && !a.hasUpstream ==> refusal == Some(Refused(MissingUpstream)))
      && (named && remotes && !same ==> refusal == Some(Refused(UpstreamMismatch)))
      && (named && remotes && same && a.defaultBranch.None? ==> refusal == Some(Refused(MissingUpstreamDefaultBranch)))
      && (named && remotes && same && a.defaultBranch.Some? && !a.validName ==>
            refusal == Some(Err("The upstream default branch name is invalid.")))
    ensures Refusal(expected, a).Some? ==>
      forall r :: Synchronised(r, expected, a) == Report(Refusal(expected, a).value, r, None, None)
  {
    hide Trim, Lower, DoAll;
  }

  /** Blocked before a branch is known. */
  function Refused(reason: Reason): Result<SyncResult> {
    Ok(SyncResult(Blocked(reason), None, 0, 0))
  }

  function AfterAct(act: Act, place: Place, branch: string, before: Option<Commit>): Option<Commit> {
    if act.place == place && act.branch == branch then act.commit else before
  }

  /** What others do to one place changes that branch there, and nothing else. */
  lemma ActChanges(r: Refs, act: Act, branch: string)
    ensures At(Do(r, act).upstream, branch) == AfterAct(act, Upstream, branch, At(r.upstream, branch))
    ensures At(Do(r, act).origin, branch) == AfterAct(act, Origin, branch, At(r.origin, branch))
    ensures At(Do(r, act).trackedUpstream, branch)
         == AfterAct(act, TrackedUpstream, branch, At(r.trackedUpstream, branch))
    ensures At(Do(r, act).trackedOrigin, branch)
         == AfterAct(act, TrackedOrigin, branch, At(r.trackedOrigin, branch))
  {
  }

  // What a synchronisation does

  /** Whatever others do: origin is left alone, or its branch is moved to the upstream commit that was seen, by one
      fast-forward, and only when that is called for; and the report is the verdict on the commits that were seen. */
  lemma PushesOneFastForward(r: Refs, expected: Repository, a: Answers)
    ensures var report := Synchronised(r, expected, a);
      && (report.push.Some? ==>
            && report.seen.Some? && a.counts && ToPush(a, report.seen.value.0, report.seen.value.1)
            && a.defaultBranch == Some(report.push.value.branch) && report.push.value.after == report.seen.value.1
            && FastForward(report.push.value.before, report.push.value.after))
      && (report.seen.Some? ==>
            report.result == Verdict(a, report.seen.value.0, report.seen.value.1, report.push.Some? && a.pushReported))
  {
    hide History, Ahead, Behind, DoAll, Blank, Matches, FastForward, Verdict;
    NotPushed(a);
  }

  lemma NotPushed(a: Answers)
    ensures forall origin, upstream, pushed: bool ::
      !a.counts || !ToPush(a, origin, upstream) ==>
        Verdict(a, origin, upstream, pushed) == Verdict(a, origin, upstream, false)
  {
    hide History, Ahead, Behind;
  }

  /** The refs when the two branches are fetched, and when they are resolved. */
  function Moments(r: Refs, branch: string, a: Answers): (Refs, Refs, Refs, Refs) {
    var r1 := DoAll(r, a.meanwhile(BeforeUpstream));
    var r2 := DoAll(FetchedUpstream(r1, branch, a.upstreamOnline).0, a.meanwhile(BeforeOrigin));
    var r3 := DoAll(FetchedOrigin(r2, branch, a.originOnline).0, a.meanwhile(BeforeUpstreamRef));
    (r1, r2, r3, DoAll(r3, a.meanwhile(BeforeOriginRef)))
  }

  /** Both commits are seen exactly when both fetches work and both branches resolve, and they are those of the
      tracked branches at that moment. Otherwise the report says which of the two is missing. */
  lemma SeenIff(r: Refs, expected: Repository, a: Answers)
    requires Refusal(expected, a).None?
    ensures var (branch, report) := (a.defaultBranch.value, Synchronised(r, expected, a));
      var (r1, r2, r3, r4) := Moments(r, branch, a);
      var (fetchesUpstream, fetchesOrigin) :=
        (a.upstreamOnline && branch in r1.upstream, a.originOnline && branch in r2.origin);
      var (resolvesUpstream, resolvesOrigin) :=
        (a.upstreamResolves && branch in r3.trackedUpstream, a.originResolves && branch in r4.trackedOrigin);
      && (report.seen.Some? <==> fetchesUpstream && fetchesOrigin && resolvesUpstream && resolvesOrigin)
      && (report.seen.Some? ==> report.seen.value == (r4.trackedOrigin[branch], r3.trackedUpstream[branch]))
      && (Missing(report, MissingUpstreamDefaultBranch, branch)
          <==> !fetchesUpstream || (fetchesOrigin && !resolvesUpstream))
      && (Missing(report, MissingOriginBranch, branch)
          <==> fetchesUpstream && (!fetchesOrigin || (resolvesUpstream && !resolvesOrigin)))
  {
    hide History, Ahead, Behind, DoAll, FastForward;
    NotMissing(a);
  }

  predicate Missing(report: Report, reason: Reason, branch: string) {
    report.result == Ok(SyncResult(Blocked(reason), Some(branch), 0, 0))
  }

  lemma NotMissing(a: Answers)
    ensures forall origin, upstream, pushed: bool :: var result := Verdict(a, origin, upstream, pushed);
      result.Ok? && result.value.status.Blocked? ==> result.value.status.reason == Diverged
  {
    hide History, Ahead, Behind;
  }

  // When nobody interferes

  /** Nobody touches this branch meanwhile, at either remote or in the clone. */
  predicate Leaves(acts: seq<Act>, branch: string) {
    forall i | 0 <= i < |acts| :: acts[i].branch != branch
  }

  ghost predicate Quiet(a: Answers, branch: string) {
    forall moment :: Leaves(a.meanwhile(moment), branch)
  }

  /** The branch at the four places. */
  function Here(r: Refs, branch: string): (Option<Commit>, Option<Commit>, Option<Commit>, Option<Commit>) {
    (At(r.upstream, branch), At(r.origin, branch), At(r.trackedUpstream, branch), At(r.trackedOrigin, branch))
  }

  lemma {:induction false} LeftAlone(r: Refs, acts: seq<Act>, branch: string)
    requires Leaves(acts, branch)
    ensures Here(DoAll(r, acts), branch) == Here(r, branch)
    decreases |acts|
  {
    if acts != [] {
      assert acts[0].branch != branch;
      ActElsewhere(r, acts[0], branch);
      hide Do, Here;
      LeftAlone(Do(r, acts[0]), acts[1..], branch);
    }
  }

  lemma ActElsewhere(r: Refs, act: Act, branch: string)
    requires act.branch != branch
    ensures Here(Do(r, act), branch) == Here(r, branch)
  {
  }

  lemma QuietMoments(r: Refs, branch: string, a: Answers)
    requires Quiet(a, branch)
    ensures var (r1, r2, r3, r4) := Moments(r, branch, a);
      var (u, o) := (At(r.upstream, branch), At(r.origin, branch));
      && At(r1.upstream, branch) == u && At(r2.origin, branch) == o
      && (a.upstreamOnline && u.Some? ==> At(r3.trackedUpstream, branch) == u)
      && (a.originOnline && o.Some? ==> At(r4.trackedOrigin, branch) == o)
      && At(r4.origin, branch) == o && At(r4.upstream, branch) == u
  {
    hide DoAll;
    var r1 := DoAll(r, a.meanwhile(BeforeUpstream));
    var f1 := FetchedUpstream(r1, branch, a.upstreamOnline).0;
    var r2 := DoAll(f1, a.meanwhile(BeforeOrigin));
    var f2 := FetchedOrigin(r2, branch, a.originOnline).0;
    var r3 := DoAll(f2, a.meanwhile(BeforeUpstreamRef));
    LeftAlone(r, a.meanwhile(BeforeUpstream), branch);
    LeftAlone(f1, a.meanwhile(BeforeOrigin), branch);
    LeftAlone(f2, a.meanwhile(BeforeUpstreamRef), branch);
    LeftAlone(r3, a.meanwhile(BeforeOriginRef), branch);
  }

  /** When nobody touches the branch meanwhile, and every command but perhaps the push works: origin's branch ends as
      upstream's exactly when its commit was an ancestor of upstream's and the push worked, or they were equal; and
      the report says so. */
  lemma QuietSyncIff(r: Refs, expected: Repository, a: Answers)
    requires Refusal(expected, a).None? && Quiet(a, a.defaultBranch.value)
    requires a.upstreamOnline && a.originOnline && a.upstreamResolves && a.originResolves && a.counts && a.ancestry
    requires a.defaultBranch.value in r.upstream && a.defaultBranch.value in r.origin
    ensures var (branch, report) := (a.defaultBranch.value, Synchronised(r, expected, a));
      var (origin, upstream) := (r.origin[branch], r.upstream[branch]);
      var status := if report.result.Ok? then Some(report.result.value.status) else None;
      && report.seen == Some((origin, upstream))
      && At(report.refs.upstream, branch) == Some(upstream)
      && At(report.refs.origin, branch)
         == (if origin in History(upstream) && a.pushOnline then Some(upstream) else Some(origin))
      && (status == Some(Synced) && a.refetch ==> At(report.refs.trackedOrigin, branch) == Some(upstream))
      && (status == Some(UpToDate) <==> origin == upstream)
      && (status == Some(Blocked(Diverged)) <==> origin !in History(upstream))
      && (status == Some(Synced)
          <==> origin in History(upstream) && origin != upstream && a.pushOnline && a.pushReported)
  {
    var branch := a.defaultBranch.value;
    var (origin, upstream) := (r.origin[branch], r.upstream[branch]);
    QuietMoments(r, branch, a);
    var (_, _, _, r4) := Moments(r, branch, a);
    VerdictMeans(a, origin, upstream, false);
    VerdictMeans(a, origin, upstream, a.pushOnline && a.pushReported);
    QuietCompare(r4, branch, origin, upstream, a);
    hide History, Ahead, Behind, DoAll, FastForward, Verdict, ToPush, Compare;
  }

  lemma QuietCompare(r: Refs, branch: string, origin: Commit, upstream: Commit, a: Answers)
    requires a.defaultBranch == Some(branch) && Quiet(a, branch) && a.counts && a.ancestry
    requires At(r.origin, branch) == Some(origin) && At(r.upstream, branch) == Some(upstream)
    ensures var report := Compare(r, branch, origin, upstream, a);
      && report.seen == Some((origin, upstream))
      && report.result == Verdict(a, origin, upstream,
                                  origin in History(upstream) && origin != upstream && a.pushOnline && a.pushReported)
      && At(report.refs.upstream, branch) == Some(upstream)
      && At(report.refs.origin, branch)
         == (if origin in History(upstream) && a.pushOnline then Some(upstream) else Some(origin))
      && (origin in History(upstream) && origin != upstream && a.pushOnline && a.pushReported && a.refetch ==>
            At(report.refs.trackedOrigin, branch) == Some(upstream))
  {
    VerdictMeans(a, origin, upstream, false);
    SelfReachable(origin);
    NotPushed(a);
    hide History, Ahead, Behind, DoAll, Verdict, ToPush;
    if ToPush(a, origin, upstream) {
      var before := DoAll(r, a.meanwhile(BeforePush));
      LeftAlone(r, a.meanwhile(BeforePush), branch);
      assert FastForward(At(before.origin, branch), upstream);
      var pushed := PushTo(before, branch, upstream, a.pushOnline).0;
      LeftAlone(pushed, a.meanwhile(AfterPush), branch);
    }
  }
}
