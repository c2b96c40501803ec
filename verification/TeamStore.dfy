/** Processes that run shim commands on one persisted team: lock, read, act, write, unlock. The lock is the lock
    file in its single steps. */
module TeamStore {
  import opened Text
  import opened AgentTeam
  import L = LockFile

  /** Where a process is in `with_team`. The log of the store gets its command when it takes the lock, and
      loses it again if the team cannot be read, or cannot be written after the action, or the process dies
      before it has written. */
  datatype Phase =
    | Waiting(command: Command)
    | Locked(command: Command)
    | Loaded(command: Command, team: Team)
    | Acted(command: Command, team: Team, result: Result<string>)
    | Stored(command: Command)
    | Abandoned(command: Command)
  {
    predicate Holds() {
      !Waiting?
    }

    predicate Finished() {
      Stored? || Abandoned?
    }
  }

  datatype Store = Store(lock: L.Lock, disk: Team, running: map<L.Pid, Phase>, log: seq<Command>) {
    predicate Is(pid: L.Pid, phase: Phase -> bool) {
      pid in running && phase(running[pid])
    }
  }

  datatype Step =
    | Start(pid: L.Pid, command: Command)
    | GiveUp(pid: L.Pid)
    | OnLock(step: L.Step)
    | ReadTeam(pid: L.Pid)
    | Act(pid: L.Pid)
    | WriteTeam(pid: L.Pid)
    | Fail(pid: L.Pid)

  /** Who does something about the lock: only those that wait try for it, only those that are done release it. */
  predicate MayLock(s: Store, step: L.Step) {
    match step
    case WritePid(pid) => s.Is(pid, (p: Phase) => p.Holds())
    case Release(pid) => s.Is(pid, (p: Phase) => p.Finished())
    case Die(pid) => pid in s.running
    case _ => s.Is(step.pid, (p: Phase) => p.Waiting?)
  }

  predicate Enabled(s: Store, step: Step) {
    match step
    case Start(pid, _) => pid !in s.running && pid !in s.lock.dead
    case GiveUp(pid) => s.Is(pid, (p: Phase) => p.Waiting?) && L.Idle(s.lock, pid)
    case OnLock(step) => L.Enabled(s.lock, step) && MayLock(s, step)
    case ReadTeam(pid) => s.Is(pid, (p: Phase) => p.Locked?)
    case Act(pid) => s.Is(pid, (p: Phase) => p.Loaded?)
    case WriteTeam(pid) => s.Is(pid, (p: Phase) => p.Acted?)
    case Fail(pid) => s.Is(pid, (p: Phase) => p.Locked? || (p.Acted? && p.result.Ok?))
  }

  function WithoutLast(log: seq<Command>): seq<Command> {
    if log == [] then [] else log[..|log| - 1]
  }

  /** What a step of the lock means for the process that makes it. */
  function Follow(s: Store, step: L.Step): Store
    requires MayLock(s, step)
  {
    match step
    case Create(pid) => Enter(s, pid)
    case CreateWritten(pid) => Enter(s, pid)
    case Release(pid) => s.(running := s.running - {pid})
    case Die(pid) =>
      s.(running := s.running - {pid},
         log := if s.running[pid].Waiting? || s.running[pid].Finished() then s.log else WithoutLast(s.log))
    case _ => s
  }

  function Enter(s: Store, pid: L.Pid): Store
    requires s.Is(pid, (p: Phase) => p.Waiting?)
  {
    s.(running := s.running[pid := Locked(s.running[pid].command)], log := s.log + [s.running[pid].command])
  }

  function Next(s: Store, step: Step): Store
    requires Enabled(s, step)
  {
    match step
    case Start(pid, command) => s.(running := s.running[pid := Waiting(command)])
    case GiveUp(pid) => s.(running := s.running - {pid})
    case OnLock(step) => Follow(s, step).(lock := L.Next(s.lock, step))
    case ReadTeam(pid) => s.(running := s.running[pid := Loaded(s.running[pid].command, s.disk)])
    case Act(pid) =>
      var p := s.running[pid];
      var (team, result) := Do(p.team, p.command);
      s.(running := s.running[pid := Acted(p.command, team, result)])
    case WriteTeam(pid) =>
      var p := s.running[pid];
      s.(disk := if p.result.Ok? then p.team else s.disk, running := s.running[pid := Stored(p.command)])
    case Fail(pid) => s.(running := s.running[pid := Abandoned(s.running[pid].command)], log := WithoutLast(s.log))
  }

  // What the holder of the lock keeps

  /** What the holder has done so far, given the team the earlier commands left. */
  predicate OnTrack(phase: Phase, before: Team, disk: Team) {
    match phase
    case Waiting(_) => false
    case Locked(_) => disk == before
    case Loaded(_, team) => disk == before && team == before
    case Acted(command, team, result) => disk == before && (team, result) == Do(before, command)
    case Stored(command) => disk == Commit(before, command)
    case Abandoned(_) => false
  }

  ghost predicate InTurn(s: Store, initial: Team, phase: Phase) {
    if phase.Abandoned? then s.disk == CommitAll(initial, s.log)
    else
      && s.log != [] && s.log[|s.log| - 1] == phase.command
      && OnTrack(phase, CommitAll(initial, WithoutLast(s.log)), s.disk)
  }

  /** The holders of the lock are the processes between taking and releasing it. */
  ghost predicate HoldersRun(s: Store) {
    forall pid :: pid in s.lock.holders <==> pid in s.running && s.running[pid].Holds()
  }

  ghost predicate Inv(s: Store, initial: Team) {
    && L.Held(s.lock) && HoldersRun(s)
    && (s.lock.holders == {} ==> s.disk == CommitAll(initial, s.log))
    && forall pid :: pid in s.lock.holders ==> InTurn(s, initial, s.running[pid])
  }

  lemma {:induction false} CommitAllAppend(team: Team, commands: seq<Command>, last: Command)
    ensures CommitAll(team, commands + [last]) == Commit(CommitAll(team, commands), last)
    decreases |commands|
  {
    if commands == [] {
      assert commands + [last] == [last];
      assert CommitAll(Commit(team, last), []) == Commit(team, last);
    } else {
      assert (commands + [last])[1..] == commands[1..] + [last];
      CommitAllAppend(Commit(team, commands[0]), commands[1..], last);
    }
  }

  lemma CommitUnfolds(team: Team, command: Command)
    ensures Commit(team, command) == if Do(team, command).1.Ok? then Do(team, command).0 else team
  {
  }

  /** The only holder. */
  lemma Alone(s: Store, pid: L.Pid)
    requires L.Held(s.lock) && HoldersRun(s) && s.Is(pid, (p: Phase) => p.Holds())
    ensures s.lock.holders == {pid} && s.lock.file.Some? && s.lock.file.value.owner == pid
  {
    assert pid in s.lock.holders;
  }

  lemma FinishedDisk(s: Store, initial: Team, pid: L.Pid)
    requires Inv(s, initial) && s.Is(pid, (p: Phase) => p.Finished())
    ensures s.disk == CommitAll(initial, s.log)
  {
    hide Do, Commit, CommitAll;
    assert pid in s.lock.holders;
    if s.running[pid].Stored? {
      CommitAllAppend(initial, WithoutLast(s.log), s.running[pid].command);
      assert s.log == WithoutLast(s.log) + [s.running[pid].command];
    }
  }

  lemma EnterKeepsInv(s: Store, initial: Team, step: L.Step)
    requires Inv(s, initial) && Enabled(s, OnLock(step)) && (step.Create? || step.CreateWritten?)
    ensures Inv(Next(s, OnLock(step)), initial)
  {
    hide Do, Commit, CommitAll;
    assert s.lock.holders == {};
    assert WithoutLast(s.log + [s.running[step.pid].command]) == s.log;
  }

  lemma ReleaseKeepsInv(s: Store, initial: Team, pid: L.Pid)
    requires Inv(s, initial) && Enabled(s, OnLock(L.Release(pid)))
    ensures Inv(Next(s, OnLock(L.Release(pid))), initial)
  {
    Alone(s, pid);
    FinishedDisk(s, initial, pid);
    hide Do, Commit, CommitAll, InTurn;
  }

  /** A process that dies before it has written takes its command with it; the file is left behind. */
  lemma DieKeepsInv(s: Store, initial: Team, pid: L.Pid)
    requires Inv(s, initial) && Enabled(s, OnLock(L.Die(pid)))
    ensures Inv(Next(s, OnLock(L.Die(pid))), initial)
  {
    hide Do, Commit, CommitAll;
    if s.running[pid].Holds() {
      Alone(s, pid);
      if s.running[pid].Finished() {
        FinishedDisk(s, initial, pid);
      }
    }
  }

  lemma LockKeepsInv(s: Store, initial: Team, step: L.Step)
    requires Inv(s, initial) && Enabled(s, OnLock(step)) && !L.Harms(s.lock, step)
    ensures Inv(Next(s, OnLock(step)), initial)
  {
    match step {
      case Create(_) => EnterKeepsInv(s, initial, step);
      case CreateWritten(_) => EnterKeepsInv(s, initial, step);
      case Release(pid) => ReleaseKeepsInv(s, initial, pid);
      case Die(pid) => DieKeepsInv(s, initial, pid);
      case _ =>
        hide InTurn, CommitAll;
        L.StepKeepsHeldIff(s.lock, step);
    }
  }

  /** Each step keeps the persisted team what the commands committed so far make of the initial one, unless it
      removes the lock file from under its holder. */
  lemma StepKeepsInv(s: Store, step: Step, initial: Team)
    requires Inv(s, initial) && Enabled(s, step) && (step.OnLock? ==> !L.Harms(s.lock, step.step))
    ensures Inv(Next(s, step), initial)
  {
    hide Do, Commit, CommitAll;
    match step {
      case OnLock(step) => LockKeepsInv(s, initial, step);
      case Start(_, _) =>
      case GiveUp(_) =>
      case ReadTeam(pid) => Alone(s, pid);
      case Act(pid) => Alone(s, pid);
      case WriteTeam(pid) =>
        Alone(s, pid);
        CommitUnfolds(CommitAll(initial, WithoutLast(s.log)), s.running[pid].command);
      case Fail(pid) => Alone(s, pid);
    }
  }

  // Runs

  predicate Possible(s: Store, steps: seq<Step>)
    decreases |steps|
  {
    steps == [] || (Enabled(s, steps[0]) && Possible(Next(s, steps[0]), steps[1..]))
  }

  function After(s: Store, steps: seq<Step>): Store
    requires Possible(s, steps)
    decreases |steps|
  {
    if steps == [] then s else After(Next(s, steps[0]), steps[1..])
  }

  /** What a run does to the lock file. */
  function LockSteps(steps: seq<Step>): seq<L.Step> {
    if steps == [] then []
    else (if steps[0].OnLock? then [steps[0].step] else []) + LockSteps(steps[1..])
  }

  /** The lock file goes its way through the run. */
  lemma {:induction false} LockRuns(s: Store, steps: seq<Step>)
    requires Possible(s, steps)
    ensures L.Possible(s.lock, LockSteps(steps)) && After(s, steps).lock == L.After(s.lock, LockSteps(steps))
    decreases |steps|
  {
    if steps != [] {
      LockRuns(Next(s, steps[0]), steps[1..]);
      hide Do;
      if steps[0].OnLock? {
        assert LockSteps(steps)[1..] == LockSteps(steps[1..]);
      } else {
        assert LockSteps(steps) == LockSteps(steps[1..]);
      }
    }
  }

  predicate NeverHarms(s: Store, steps: seq<Step>)
    requires Possible(s, steps)
  {
    LockRuns(s, steps);
    L.NeverHarms(s.lock, LockSteps(steps))
  }

  lemma NeverHarmsStep(s: Store, steps: seq<Step>)
    requires steps != [] && Possible(s, steps) && NeverHarms(s, steps)
    ensures NeverHarms(Next(s, steps[0]), steps[1..])
    ensures steps[0].OnLock? ==> !L.Harms(s.lock, steps[0].step)
  {
    hide Do;
    if steps[0].OnLock? {
      assert LockSteps(steps)[1..] == LockSteps(steps[1..]);
    } else {
      assert LockSteps(steps) == LockSteps(steps[1..]);
    }
  }

  lemma {:induction false} RunKeepsInv(s: Store, steps: seq<Step>, initial: Team)
    requires Inv(s, initial) && Possible(s, steps) && NeverHarms(s, steps)
    ensures Inv(After(s, steps), initial)
    decreases |steps|
  {
    hide Inv, NeverHarms, Enabled, Next;
    if steps != [] {
      NeverHarmsStep(s, steps);
      StepKeepsInv(s, steps[0], initial);
      RunKeepsInv(Next(s, steps[0]), steps[1..], initial);
    }
  }

  function Begun(initial: Team): Store {
    Store(L.FREE, initial, map[], [])
  }

  /** Concurrent commands are serializable as long as no removal takes the lock file from under its holder,
      whoever dies or fails on the way: whenever no process is between taking and releasing the lock, the
      persisted team is the one that the commands give one after the other, in the order they took the lock;
      those that failed, whose team could not be read or written, or whose process died before writing, changed
      nothing. At any time at most one process is between taking and releasing the lock. */
  lemma CommandsAreSerializable(initial: Team, steps: seq<Step>)
    requires Possible(Begun(initial), steps) && NeverHarms(Begun(initial), steps)
    ensures var s := After(Begun(initial), steps);
      && ((forall p :: p in s.running ==> !s.running[p].Holds()) ==> s.disk == CommitAll(initial, s.log))
      && (forall p, q :: p in s.running && q in s.running && s.running[p].Holds() && s.running[q].Holds() ==> p == q)
  {
    RunKeepsInv(Begun(initial), steps, initial);
    var s := After(Begun(initial), steps);
    hide CommitAll, InTurn;
    if forall p :: p in s.running ==> !s.running[p].Holds() {
      assert s.lock.holders == {};
    }
  }

  /** So they are under the three assumptions about the lock file, and then no lock is ever taken for stale. */
  lemma AssumptionsGiveSerializability(initial: Team, steps: seq<Step>)
    requires Possible(Begun(initial), steps) && L.Possible(L.FREE, LockSteps(steps))
    requires L.Assumed(L.FREE, LockSteps(steps), L.EVERYTHING)
    ensures NeverHarms(Begun(initial), steps) && L.Exclusive(After(Begun(initial), steps).lock)
    ensures var s := After(Begun(initial), steps);
      s.lock.file.None? ==> s.disk == CommitAll(initial, s.log)
  {
    LockRuns(Begun(initial), steps);
    L.AssumedNeverHarms(L.FREE, LockSteps(steps));
    L.AssumptionsGiveExclusion(L.FREE, LockSteps(steps));
    RunKeepsInv(Begun(initial), steps, initial);
  }

  // Without exclusion

  lemma RunOne(s: Store, step: Step, steps: seq<Step>)
    requires Enabled(s, step) && Possible(Next(s, step), steps)
    ensures Possible(s, [step] + steps) && After(s, [step] + steps) == After(Next(s, step), steps)
  {
    hide Enabled, Next;
    assert ([step] + steps)[1..] == steps;
  }

  /** Acting on the team that was read, and writing what comes of it. */
  function Written(s: Store, pid: L.Pid): Store
    requires s.Is(pid, (x: Phase) => x.Loaded?)
  {
    var p := s.running[pid];
    s.(running := s.running[pid := Stored(p.command)],
       disk := if Do(p.team, p.command).1.Ok? then Do(p.team, p.command).0 else s.disk)
  }

  lemma RunFinish(s: Store, pid: L.Pid, steps: seq<Step>)
    requires s.Is(pid, (x: Phase) => x.Loaded?) && Possible(Written(s, pid), steps)
    ensures var run := [Act(pid)] + ([WriteTeam(pid)] + steps);
      Possible(s, run) && After(s, run) == After(Written(s, pid), steps)
  {
    hide Do, Possible, After;
    var acted := Next(s, Act(pid));
    assert Next(acted, WriteTeam(pid)) == Written(s, pid);
    RunOne(acted, WriteTeam(pid), steps);
    RunOne(s, Act(pid), [WriteTeam(pid)] + steps);
  }

  function Overlapping(p: L.Pid, q: L.Pid): seq<Step> {
    [ReadTeam(p)] + ([ReadTeam(q)] + ([Act(p)] + ([WriteTeam(p)] + ([Act(q)] + ([WriteTeam(q)] + [])))))
  }

  /** Two processes that hold the lock at once: whatever the first of them commits, the second overwrites. */
  lemma OverlapLosesACommand(s: Store, p: L.Pid, q: L.Pid)
    requires p != q && s.Is(p, (x: Phase) => x.Locked?) && s.Is(q, (x: Phase) => x.Locked?)
    requires Do(s.disk, s.running[q].command).1.Ok?
    ensures Possible(s, Overlapping(p, q)) && After(s, Overlapping(p, q)).disk == Commit(s.disk, s.running[q].command)
    ensures After(s, Overlapping(p, q)).log == s.log
  {
    var read := Next(s, ReadTeam(p));
    var both := Next(read, ReadTeam(q));
    var first := Written(both, p);
    var last := Written(first, q);
    assert Possible(last, []) && After(last, []) == last;
    CommitUnfolds(s.disk, s.running[q].command);
    hide Do, Commit, Possible, After;
    RunFinish(first, q, []);
    RunFinish(both, p, [Act(q)] + ([WriteTeam(q)] + []));
    RunOne(read, ReadTeam(q), [Act(p)] + ([WriteTeam(p)] + ([Act(q)] + ([WriteTeam(q)] + []))));
    RunOne(s, ReadTeam(p), [ReadTeam(q)] + ([Act(p)] + ([WriteTeam(p)] + ([Act(q)] + ([WriteTeam(q)] + [])))));
  }

  function Harming(p: L.Pid, q: L.Pid): seq<Step> {
    [OnLock(L.RemoveFile(q))] + ([OnLock(L.CreateWritten(q))] + Overlapping(p, q))
  }

  /** A removal that harms does lose a command: the holder `p` commits, and `q`, which removed its file, writes over
      it what its own command makes of the team before. */
  lemma HarmLosesACommand(s: Store, p: L.Pid, q: L.Pid)
    requires p != q && s.Is(p, (x: Phase) => x.Locked?) && s.Is(q, (x: Phase) => x.Waiting?)
    requires L.Enabled(s.lock, L.RemoveFile(q)) && q !in s.lock.holders && q !in s.lock.found
    requires Do(s.disk, s.running[q].command).1.Ok?
    ensures Possible(s, Harming(p, q))
    ensures After(s, Harming(p, q)).disk == Commit(s.disk, s.running[q].command)
    ensures After(s, Harming(p, q)).log == s.log + [s.running[q].command]
  {
    hide Do, Commit, Possible, After;
    var removed := Next(s, OnLock(L.RemoveFile(q)));
    var entered := Next(removed, OnLock(L.CreateWritten(q)));
    OverlapLosesACommand(entered, p, q);
    RunOne(removed, OnLock(L.CreateWritten(q)), Overlapping(p, q));
    RunOne(s, OnLock(L.RemoveFile(q)), [OnLock(L.CreateWritten(q))] + Overlapping(p, q));
  }

  // Runs without anybody else

  function Undisturbed(pid: L.Pid, command: Command): seq<Step> {
    [Start(pid, command)] + ([OnLock(L.Create(pid))] + ([OnLock(L.WritePid(pid))] + ([ReadTeam(pid)]
      + ([Act(pid)] + ([WriteTeam(pid)] + ([OnLock(L.Release(pid))] + []))))))
  }

  /** With the lock free, a process alone commits its command and leaves the lock as it found it. */
  lemma UndisturbedCommits(s: Store, pid: L.Pid, command: Command)
    requires s.lock.file.None? && L.Idle(s.lock, pid) && pid !in s.lock.dead && pid !in s.running
    ensures Possible(s, Undisturbed(pid, command))
    ensures After(s, Undisturbed(pid, command)) == s.(disk := Commit(s.disk, command), log := s.log + [command])
  {
    var begun := Next(s, Start(pid, command));
    var locked := Next(begun, OnLock(L.Create(pid)));
    var written := Next(locked, OnLock(L.WritePid(pid)));
    var read := Next(written, ReadTeam(pid));
    var done := Written(read, pid);
    var last := Next(done, OnLock(L.Release(pid)));
    assert Possible(last, []) && After(last, []) == last;
    CommitUnfolds(s.disk, command);
    hide Do, Commit, Possible, After;
    assert last == s.(disk := Commit(s.disk, command), log := s.log + [command]);
    var release := [OnLock(L.Release(pid))] + [];
    RunOne(done, OnLock(L.Release(pid)), []);
    RunFinish(read, pid, release);
    var finish := [Act(pid)] + ([WriteTeam(pid)] + release);
    RunOne(written, ReadTeam(pid), finish);
    RunOne(locked, OnLock(L.WritePid(pid)), [ReadTeam(pid)] + finish);
    RunOne(begun, OnLock(L.Create(pid)), [OnLock(L.WritePid(pid))] + ([ReadTeam(pid)] + finish));
    RunOne(s, Start(pid, command),
           [OnLock(L.Create(pid))] + ([OnLock(L.WritePid(pid))] + ([ReadTeam(pid)] + finish)));
  }

  /** A process that dies before it has written takes its command with it, and leaves the file. */
  lemma DeathLeavesTheFile(s: Store, pid: L.Pid)
    requires s.Is(pid, (p: Phase) => p.Locked? || p.Loaded? || p.Acted?) && pid !in s.lock.dead
    ensures Enabled(s, OnLock(L.Die(pid)))
    ensures var t := Next(s, OnLock(L.Die(pid)));
      && t.disk == s.disk && t.log == WithoutLast(s.log) && t.lock.file == s.lock.file && pid !in t.running
  {
  }

  // The persisted team by itself

  /** Everything persisted or about to be persisted is consistent. */
  ghost predicate AllConsistent(s: Store) {
    && Consistent(s.disk)
    && forall pid :: pid in s.running ==> PhaseConsistent(s.running[pid])
  }

  ghost predicate PhaseConsistent(phase: Phase) {
    && (phase.Loaded? ==> Consistent(phase.team))
    && (phase.Acted? && phase.result.Ok? ==> Consistent(phase.team))
  }

  lemma StepKeepsConsistent(s: Store, step: Step)
    requires AllConsistent(s) && Enabled(s, step)
    ensures AllConsistent(Next(s, step))
  {
    hide Do, Commit, Consistent;
    if step.Act? {
      var p := s.running[step.pid];
      assert PhaseConsistent(p);
      CommitConsistent(p.team, p.command);
      CommitUnfolds(p.team, p.command);
    } else if step.WriteTeam? {
      assert PhaseConsistent(s.running[step.pid]);
    }
  }

  lemma {:induction false} RunKeepsConsistent(s: Store, steps: seq<Step>)
    requires AllConsistent(s) && Possible(s, steps)
    ensures AllConsistent(After(s, steps))
    decreases |steps|
  {
    hide AllConsistent, Enabled, Next;
    if steps != [] {
      StepKeepsConsistent(s, steps[0]);
      RunKeepsConsistent(Next(s, steps[0]), steps[1..]);
    }
  }

  /** At every moment of every run, whether the lock excludes or not, the persisted team is consistent. */
  lemma PersistedTeamsAreConsistent(steps: seq<Step>)
    requires Possible(Begun(FRESH), steps)
    ensures Consistent(After(Begun(FRESH), steps).disk)
  {
    FreshIsConsistent();
    RunKeepsConsistent(Begun(FRESH), steps);
  }
}
