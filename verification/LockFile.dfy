/** The lock file in its single steps: creating it, writing the pid into it, finding it there, judging it stale
    by what can be read of it, and removing it. */
module LockFile {
  import opened Text

  type Pid = nat

  datatype File = File(owner: Pid, written: bool)

  /** `holders` are the processes that went on after creating the file; `found` those whose creation failed
      because it was there, and that have not read it yet; `judged` those that took it for stale and are about
      to remove it. */
  datatype Lock = Lock(file: Option<File>, holders: set<Pid>, found: set<Pid>, judged: set<Pid>, dead: set<Pid>)

  datatype Step =
    | Create(pid: Pid)
    | WritePid(pid: Pid)
    | CreateWritten(pid: Pid)
    | Find(pid: Pid)
    | Wait(pid: Pid)
    | Judge(pid: Pid)
    | RemoveFile(pid: Pid)
    | Release(pid: Pid)
    | Die(pid: Pid)

  predicate Idle(s: Lock, pid: Pid) {
    pid !in s.holders && pid !in s.found && pid !in s.judged
  }

  /** A file that is gone, or has no pid in it, has no owner alive. */
  predicate OwnerAlive(s: Lock) {
    s.file.Some? && s.file.value.written && s.file.value.owner !in s.dead
  }

  predicate Enabled(s: Lock, step: Step) {
    && step.pid !in s.dead
    && match step
       case Create(pid) => s.file.None? && Idle(s, pid)
       case WritePid(pid) => s.file == Some(File(pid, false))
       case CreateWritten(pid) => s.file.None? && Idle(s, pid)
       case Find(pid) => s.file.Some? && Idle(s, pid)
       case Wait(pid) => pid in s.found && OwnerAlive(s)
       case Judge(pid) => pid in s.found && !OwnerAlive(s)
       case RemoveFile(pid) => pid in s.judged
       case Release(pid) => pid in s.holders
       case Die(_) => true
  }

  function Next(s: Lock, step: Step): Lock
    requires Enabled(s, step)
  {
    match step
    case Create(pid) => s.(file := Some(File(pid, false)), holders := s.holders + {pid})
    case WritePid(pid) => s.(file := Some(File(pid, true)))
    case CreateWritten(pid) => s.(file := Some(File(pid, true)), holders := s.holders + {pid})
    case Find(pid) => s.(found := s.found + {pid})
    case Wait(pid) => s.(found := s.found - {pid})
    case Judge(pid) => s.(found := s.found - {pid}, judged := s.judged + {pid})
    case RemoveFile(pid) => s.(file := None, judged := s.judged - {pid})
    case Release(pid) => s.(file := None, holders := s.holders - {pid})
    case Die(pid) =>
      s.(holders := s.holders - {pid}, found := s.found - {pid}, judged := s.judged - {pid}, dead := s.dead + {pid})
  }

  const FREE := Lock(None, {}, {}, {}, {})

  predicate Possible(s: Lock, steps: seq<Step>)
    decreases |steps|
  {
    steps == [] || (Enabled(s, steps[0]) && Possible(Next(s, steps[0]), steps[1..]))
  }

  function After(s: Lock, steps: seq<Step>): Lock
    requires Possible(s, steps)
    decreases |steps|
  {
    if steps == [] then s else After(Next(s, steps[0]), steps[1..])
  }

  // When the lock excludes

  /** There is at most one holder, and the file names it. */
  predicate Held(s: Lock) {
    s.holders <= if s.file.Some? then {s.file.value.owner} else {}
  }

  /** A removal that takes the file away from under a live holder. */
  predicate Harms(s: Lock, step: Step) {
    step.RemoveFile? && s.file.Some? && s.file.value.owner in s.holders
  }

  /** One step keeps the lock held by the one the file names exactly when it is not such a removal. */
  lemma StepKeepsHeldIff(s: Lock, step: Step)
    requires Held(s) && Enabled(s, step)
    ensures Held(Next(s, step)) <==> !Harms(s, step)
  {
    if s.file.Some? && s.file.value.owner in s.holders {
      assert s.holders == {s.file.value.owner};
    }
  }

  predicate NeverHarms(s: Lock, steps: seq<Step>)
    requires Possible(s, steps)
    decreases |steps|
  {
    steps == [] || (!Harms(s, steps[0]) && NeverHarms(Next(s, steps[0]), steps[1..]))
  }

  predicate AlwaysHeld(s: Lock, steps: seq<Step>)
    requires Possible(s, steps)
    decreases |steps|
  {
    Held(s) && (steps == [] || AlwaysHeld(Next(s, steps[0]), steps[1..]))
  }

  /** Over any run: the lock excludes all the way, with the file naming its holder, exactly when no removal takes
      the file away from under a live holder. */
  lemma {:induction false} RunIsHeldIff(s: Lock, steps: seq<Step>)
    requires Held(s) && Possible(s, steps)
    ensures AlwaysHeld(s, steps) <==> NeverHarms(s, steps)
    decreases |steps|
  {
    hide Held, Enabled, Next, Harms;
    if steps != [] {
      StepKeepsHeldIff(s, steps[0]);
      if Held(Next(s, steps[0])) {
        RunIsHeldIff(Next(s, steps[0]), steps[1..]);
      } else {
        HeldNow(Next(s, steps[0]), steps[1..]);
      }
    }
  }

  lemma HeldNow(s: Lock, steps: seq<Step>)
    requires Possible(s, steps) && !Held(s)
    ensures !AlwaysHeld(s, steps)
  {
  }

  // The assumptions

  datatype Assumption = CreatedWritten | HoldersLive | FoundStays

  /** Creating the file and writing the pid is one step; no holder dies; and a file that was found is still
      there, or another one, when its pid is read. */
  predicate Meets(s: Lock, step: Step, assumption: Assumption) {
    match assumption
    case CreatedWritten => !step.Create?
    case HoldersLive => step.Die? ==> step.pid !in s.holders
    case FoundStays => step.Judge? ==> s.file.Some?
  }

  predicate Assumed(s: Lock, steps: seq<Step>, assumptions: set<Assumption>)
    requires Possible(s, steps)
    decreases |steps|
  {
    steps == []
    || ((forall a | a in assumptions :: Meets(s, steps[0], a)) && Assumed(Next(s, steps[0]), steps[1..], assumptions))
  }

  const EVERYTHING := {CreatedWritten, HoldersLive, FoundStays}

  /** The file names the only holder, and nobody takes it for stale. */
  predicate Exclusive(s: Lock) {
    && s.judged == {} && s.holders !! s.dead
    && s.holders == (if s.file.Some? then {s.file.value.owner} else {})
    && (s.file.Some? ==> s.file.value.written)
  }

  lemma StepKeepsExclusive(s: Lock, step: Step)
    requires Exclusive(s) && Enabled(s, step) && forall a | a in EVERYTHING :: Meets(s, step, a)
    ensures Exclusive(Next(s, step)) && !Harms(s, step)
  {
    assert Meets(s, step, CreatedWritten) && Meets(s, step, HoldersLive) && Meets(s, step, FoundStays);
  }

  /** Under the assumptions the lock excludes, over every run. */
  lemma {:induction false} AssumptionsGiveExclusion(s: Lock, steps: seq<Step>)
    requires Exclusive(s) && Possible(s, steps) && Assumed(s, steps, EVERYTHING)
    ensures Exclusive(After(s, steps))
    decreases |steps|
  {
    hide Exclusive, Enabled, Next, Meets;
    if steps != [] {
      StepKeepsExclusive(s, steps[0]);
      AssumptionsGiveExclusion(Next(s, steps[0]), steps[1..]);
    }
  }

  /** Under the assumptions nothing is ever removed, so the condition holds. */
  lemma {:induction false} AssumedNeverHarms(s: Lock, steps: seq<Step>)
    requires Exclusive(s) && Possible(s, steps) && Assumed(s, steps, EVERYTHING)
    ensures NeverHarms(s, steps) && AlwaysHeld(s, steps)
    decreases |steps|
  {
    assert Held(s);
    hide Held, Exclusive, Enabled, Next, Meets, Harms;
    RunIsHeldIff(s, steps);
    if steps != [] {
      StepKeepsExclusive(s, steps[0]);
      AssumedNeverHarms(Next(s, steps[0]), steps[1..]);
    }
  }

  // Runs without exclusion

  /** Two live processes hold the lock after this run. */
  predicate Breaks(s: Lock, steps: seq<Step>) {
    Possible(s, steps) && |After(s, steps).holders| >= 2 && After(s, steps).holders !! After(s, steps).dead
  }

  /** Each step leads from one state to the next, within the assumptions. */
  predicate Leads(states: seq<Lock>, steps: seq<Step>, assumptions: set<Assumption>) {
    && |states| == |steps| + 1
    && forall i | 0 <= i < |steps| ::
         && Enabled(states[i], steps[i]) && Next(states[i], steps[i]) == states[i + 1]
         && forall a | a in assumptions :: Meets(states[i], steps[i], a)
  }

  lemma LeadsOn(a: seq<Lock>, first: seq<Step>, b: seq<Lock>, second: seq<Step>, assumptions: set<Assumption>)
    requires Leads(a, first, assumptions) && Leads([a[|a| - 1]] + b, second, assumptions)
    ensures Leads(a + b, first + second, assumptions)
  {
    hide Enabled, Next, Meets;
    var states, last := a + b, [a[|a| - 1]] + b;
    forall i | 0 <= i < |first + second|
      ensures Enabled(states[i], (first + second)[i]) && Next(states[i], (first + second)[i]) == states[i + 1]
      ensures forall x | x in assumptions :: Meets(states[i], (first + second)[i], x)
    {
      if i >= |first| {
        assert states[i] == last[i - |first|] && states[i + 1] == last[i - |first| + 1];
      }
    }
  }

  /** A run written down with the states it goes through. */
  lemma {:induction false} RunIsTrace(states: seq<Lock>, steps: seq<Step>, assumptions: set<Assumption>)
    requires Leads(states, steps, assumptions)
    ensures Possible(states[0], steps) && After(states[0], steps) == states[|steps|]
    ensures Assumed(states[0], steps, assumptions)
    decreases |steps|
  {
    hide Enabled, Next, Meets;
    if steps != [] {
      RunIsTrace(states[1..], steps[1..], assumptions);
    }
  }

  /** After any removal that harms, whoever comes next takes the lock as well. */
  lemma HarmBreaksExclusion(s: Lock, remover: Pid, next: Pid)
    requires Held(s) && s.holders !! s.dead
    requires Enabled(s, RemoveFile(remover)) && Harms(s, RemoveFile(remover))
    requires next !in s.dead && Idle(Next(s, RemoveFile(remover)), next)
    ensures Breaks(s, [RemoveFile(remover), CreateWritten(next)])
  {
    var removed := Next(s, RemoveFile(remover));
    var created := Next(removed, CreateWritten(next));
    RunIsTrace([s, removed, created], [RemoveFile(remover), CreateWritten(next)], {});
    assert s.holders == {s.file.value.owner};
    assert created.holders == {s.file.value.owner, next};
  }

  const UNWRITTEN := [Create(1), Find(2), Judge(2), RemoveFile(2), CreateWritten(2)]

  /** Without the first assumption alone: a file whose pid is not written yet is judged stale. */
  lemma UnwrittenPidBreaksExclusion()
    ensures Breaks(FREE, UNWRITTEN) && Assumed(FREE, UNWRITTEN, EVERYTHING - {CreatedWritten})
  {
    hide Possible, After, Assumed;
    var created := FREE.(file := Some(File(1, false)), holders := {1});
    var last := Lock(Some(File(2, true)), {1, 2}, {}, {}, {});
    var states := [FREE, created, created.(found := {2}), created.(judged := {2}), created.(file := None), last];
    RunIsTrace(states, UNWRITTEN, EVERYTHING - {CreatedWritten});
    assert |last.holders| == 2;
  }

  const ABANDONED := [CreateWritten(1), Die(1), Find(2), Find(3), Judge(2), Judge(3),
                      RemoveFile(2), CreateWritten(2), RemoveFile(3), CreateWritten(3)]

  const LEFT := Lock(Some(File(1, true)), {}, {}, {}, {1})

  const JUDGED := [FREE, LEFT.(holders := {1}, dead := {}), LEFT, LEFT.(found := {2}), LEFT.(found := {2, 3}),
                   LEFT.(found := {3}, judged := {2}), LEFT.(judged := {2, 3})]

  const REMOVED := [LEFT.(file := None, judged := {3}), Lock(Some(File(2, true)), {2}, {}, {3}, {1}),
                    Lock(None, {2}, {}, {}, {1}), Lock(Some(File(3, true)), {2, 3}, {}, {}, {1})]

  lemma BothJudge()
    ensures Leads(JUDGED, ABANDONED[..6], EVERYTHING - {HoldersLive})
  {
  }

  lemma BothRemove()
    ensures Leads([LEFT.(judged := {2, 3})] + REMOVED, ABANDONED[6..], EVERYTHING - {HoldersLive})
  {
  }

  /** Without the second alone: two processes judge the file of a dead holder stale; the slower one removes the
      file of the faster one. */
  lemma DeadHolderBreaksExclusion()
    ensures Breaks(FREE, ABANDONED) && Assumed(FREE, ABANDONED, EVERYTHING - {HoldersLive})
  {
    BothJudge();
    BothRemove();
    hide Leads, Possible, After, Assumed;
    LeadsOn(JUDGED, ABANDONED[..6], REMOVED, ABANDONED[6..], EVERYTHING - {HoldersLive});
    assert ABANDONED == ABANDONED[..6] + ABANDONED[6..];
    RunIsTrace(JUDGED + REMOVED, ABANDONED, EVERYTHING - {HoldersLive});
    assert |{2, 3}| == 2;
  }

  const RELEASED := [CreateWritten(1), Find(2), Release(1), Judge(2), CreateWritten(3), RemoveFile(2), CreateWritten(2)]

  /** Without the third alone: the holder releases between a failed creation and the reading of its pid; the file
      that is then removed as stale is the next holder's. */
  lemma ReleaseBeforeReadingBreaksExclusion()
    ensures Breaks(FREE, RELEASED) && Assumed(FREE, RELEASED, EVERYTHING - {FoundStays})
  {
    hide Possible, After, Assumed;
    var held := Lock(Some(File(1, true)), {1}, {}, {}, {});
    var next := Lock(Some(File(3, true)), {3}, {}, {2}, {});
    var last := Lock(Some(File(2, true)), {2, 3}, {}, {}, {});
    var states := [FREE, held, held.(found := {2}), FREE.(found := {2}), FREE.(judged := {2}), next,
                   FREE.(holders := {3}), last];
    RunIsTrace(states, RELEASED, EVERYTHING - {FoundStays});
    assert |last.holders| == 2;
  }
}
