/** Waking the idle loops of one process: a generation read before looking for work and
    compared before going to sleep. */
module Wakeups {
  /** The worker looks at `stop` again after reading the generation; the scheduler does not. */
  datatype Kind = Worker | Scheduler

  /** Head: about to test `stop`. Entered: past the test. Read: the generation read.
      Checked: a worker past its second test. Looked: found nothing, with `saw` commits
      there to find. Waiting: in wait(), asleep as long as the generation is `seen`. */
  datatype Phase =
    | Head
    | Entered
    | Read(seen: nat)
    | Checked(seen: nat)
    | Looked(seen: nat, saw: nat)
    | Waiting(seen: nat, saw: nat)
    | Ended

  datatype Loop = Loop(kind: Kind, phase: Phase)

  /** generation is wakeup.py's own, read and moved on under its condition's lock;
      commits numbers the commits of new work; woken is the latest of them followed by its wake(). */
  datatype State = State(generation: nat, commits: nat, woken: nat, stop: bool, stopWoken: bool, loops: seq<Loop>)

  ghost predicate Initial(s: State) {
    && s == State(0, 0, 0, false, false, s.loops)
    && forall i | 0 <= i < |s.loops| :: s.loops[i].phase == Head
  }

  datatype Step =
    | CommitWork
    | WakeFor(commit: nat)
    | Stop
    | WakeStop
    | Test(i: nat)
    | ReadGeneration(i: nat)
    | TestAgain(i: nat)
    | Look(i: nat)
    | Found(i: nat)
    | Sleep(i: nat)
    | Rouse(i: nat)

  ghost predicate Enabled(s: State, step: Step) {
    match step
    case CommitWork => true
    // what made the work calls wake() once it has committed
    case WakeFor(c) => c <= s.commits
    case Stop => true
    case WakeStop => s.stop
    case Test(i) => i < |s.loops| && s.loops[i].phase == Head
    case ReadGeneration(i) => i < |s.loops| && s.loops[i].phase == Entered
    case TestAgain(i) => i < |s.loops| && s.loops[i].phase.Read? && s.loops[i].kind.Worker?
    case Look(i) => i < |s.loops| && (s.loops[i].phase.Checked? || (s.loops[i].phase.Read? && s.loops[i].kind.Scheduler?))
    case Found(i) => i < |s.loops| && s.loops[i].phase.Looked?
    case Sleep(i) => i < |s.loops| && s.loops[i].phase.Looked?
    // woken, or the time it slept for has passed
    case Rouse(i) => i < |s.loops| && s.loops[i].phase.Waiting?
  }

  function At(s: State, i: nat, phase: Phase): State
    requires i < |s.loops|
  {
    s.(loops := s.loops[i := s.loops[i].(phase := phase)])
  }

  function Apply(s: State, step: Step): State
    requires Enabled(s, step)
  {
    match step
    case CommitWork => s.(commits := s.commits + 1)
    case WakeFor(c) => s.(generation := s.generation + 1, woken := if c > s.woken then c else s.woken)
    case Stop => s.(stop := true)
    case WakeStop => s.(generation := s.generation + 1, stopWoken := true)
    case Test(i) => At(s, i, if s.stop then Ended else Entered)
    case ReadGeneration(i) => At(s, i, Read(s.generation))
    case TestAgain(i) => At(s, i, if s.stop then Ended else Checked(s.loops[i].phase.seen))
    case Look(i) => At(s, i, Looked(s.loops[i].phase.seen, s.commits))
    case Found(i) => At(s, i, Head)
    case Sleep(i) => At(s, i, Waiting(s.loops[i].phase.seen, s.loops[i].phase.saw))
    case Rouse(i) => At(s, i, Head)
  }

  ghost predicate Path(trace: seq<State>, steps: seq<Step>) {
    && |trace| == |steps| + 1
    && forall i | 0 <= i < |steps| :: Enabled(trace[i], steps[i]) && trace[i + 1] == Apply(trace[i], steps[i])
  }

  ghost predicate Run(trace: seq<State>, steps: seq<Step>) {
    Path(trace, steps) && Initial(trace[0])
  }

  /** In wait() with nothing to end it but a timeout. */
  predicate Asleep(s: State, i: nat)
    requires i < |s.loops|
  {
    s.loops[i].phase.Waiting? && s.loops[i].phase.seen == s.generation
  }

  predicate Slumber(s: State, l: Loop, seen: nat, saw: nat) {
    && seen <= s.generation
    && saw <= s.commits
    && (seen == s.generation ==> s.woken <= saw)
    && (seen == s.generation && s.stopWoken ==> l.kind.Scheduler?)
  }

  predicate LoopInv(s: State, l: Loop) {
    match l.phase
    case Head => true
    case Ended => true
    case Entered => true
    case Read(seen) => seen <= s.generation
    case Checked(seen) => seen <= s.generation && l.kind.Worker? && (seen == s.generation ==> !s.stopWoken)
    case Looked(seen, saw) => Slumber(s, l, seen, saw)
    case Waiting(seen, saw) => Slumber(s, l, seen, saw)
  }

  ghost predicate Inv(s: State) {
    && s.woken <= s.commits && (s.stopWoken ==> s.stop)
    && forall i | 0 <= i < |s.loops| :: LoopInv(s, s.loops[i])
  }

  lemma StepKeepsInv(s: State, step: Step)
    requires Inv(s) && Enabled(s, step)
    ensures Inv(Apply(s, step))
  {}

  lemma {:induction false} PathKeepsInv(trace: seq<State>, steps: seq<Step>, i: nat)
    requires Path(trace, steps) && Inv(trace[0]) && i < |trace|
    ensures Inv(trace[i])
  {
    hide Enabled, Apply;
    if i > 0 {
      PathKeepsInv(trace, steps, i - 1);
      StepKeepsInv(trace[i - 1], steps[i - 1]);
    }
  }

  /** Main result: however commits, wakes and loops interleave, no loop is asleep that has
      not looked since the latest commit to be followed by a wake(). */
  lemma NoLostWakeup(trace: seq<State>, steps: seq<Step>, i: nat, l: nat)
    requires Run(trace, steps) && i < |trace| && l < |trace[i].loops| && Asleep(trace[i], l)
    ensures trace[i].woken <= trace[i].loops[l].phase.saw <= trace[i].commits
  {
    PathKeepsInv(trace, steps, i);
    assert LoopInv(trace[i], trace[i].loops[l]);
  }

  /** What made the work can always wake the loops, and then none is left asleep. */
  lemma WakeEndsSleep(s: State, c: nat, i: nat)
    requires Inv(s) && c <= s.commits && i < |s.loops|
    ensures Enabled(s, WakeFor(c)) && Enabled(s, CommitWork) && Apply(s, CommitWork).commits == s.commits + 1
    ensures c <= Apply(s, WakeFor(c)).woken && |Apply(s, WakeFor(c)).loops| == |s.loops|
    ensures !Asleep(Apply(s, WakeFor(c)), i)
  {
    assert LoopInv(s, s.loops[i]);
  }

  // ---------- stopping ----------

  /** Once a stop has been woken for: where a loop is asleep, or goes to sleep if nothing
      else happens. */
  predicate MaySleep(s: State, i: nat)
    requires i < |s.loops|
  {
    match s.loops[i].phase
    case Head => false
    case Entered => s.loops[i].kind.Scheduler?
    case Read(seen) => s.loops[i].kind.Scheduler? && seen == s.generation
    case Checked(_) => false
    case Looked(seen, _) => seen == s.generation
    case Waiting(seen, _) => seen == s.generation
    case Ended => false
  }

  predicate OwnStep(step: Step, i: nat) {
    step == Test(i) || step == ReadGeneration(i) || step == TestAgain(i) || step == Look(i) || step == Found(i)
    || step == Sleep(i) || step == Rouse(i)
  }

  lemma {:induction false} FallsAsleep(s: State, i: nat) returns (trace: seq<State>, steps: seq<Step>)
    requires i < |s.loops| && MaySleep(s, i)
    ensures Path(trace, steps) && trace[0] == s && forall step <- steps :: OwnStep(step, i)
    ensures i < |trace[|steps|].loops| && Asleep(trace[|steps|], i)
    ensures trace[|steps|] == At(s, i, trace[|steps|].loops[i].phase)
    decreases match s.loops[i].phase case Entered => 3 case Read(_) => 2 case Looked(_, _) => 1 case _ => 0
  {
    if s.loops[i].phase.Waiting? {
      trace, steps := [s], [];
    } else {
      var step := match s.loops[i].phase case Entered => ReadGeneration(i) case Read(_) => Look(i) case _ => Sleep(i);
      trace, steps := FallsAsleep(Apply(s, step), i);
      trace, steps := [s] + trace, [step] + steps;
    }
  }

  /** Once a stop has been woken for, no step of any thread brings a loop to where it may sleep. */
  lemma StepKeepsAwake(s: State, step: Step, i: nat)
    requires Inv(s) && s.stopWoken && Enabled(s, step) && i < |s.loops| && !MaySleep(s, i)
    ensures var t := Apply(s, step); t.stopWoken && i < |t.loops| && !MaySleep(t, i)
  {
    assert LoopInv(s, s.loops[i]);
  }

  lemma {:induction false} PathKeepsAwake(trace: seq<State>, steps: seq<Step>, k: nat, i: nat)
    requires Path(trace, steps) && k < |trace| && i < |trace[0].loops|
    requires Inv(trace[0]) && trace[0].stopWoken && !MaySleep(trace[0], i)
    ensures trace[k].stopWoken && i < |trace[k].loops| && !MaySleep(trace[k], i)
  {
    hide Enabled, Apply, Inv, MaySleep;
    if k > 0 {
      PathKeepsAwake(trace, steps, k - 1, i);
      PathKeepsInv(trace, steps, k - 1);
      StepKeepsAwake(trace[k - 1], steps[k - 1], i);
    }
  }

  /** From this state, loop i is asleep now or later. */
  ghost predicate SleepsLater(s: State, i: nat) {
    exists trace: seq<State>, steps: seq<Step> ::
      Path(trace, steps) && trace[0] == s && i < |trace[|steps|].loops| && Asleep(trace[|steps|], i)
  }

  lemma SleeperIsScheduler(s: State, i: nat)
    requires Inv(s) && s.stopWoken && i < |s.loops| && MaySleep(s, i)
    ensures s.loops[i].kind.Scheduler?
  {
    assert LoopInv(s, s.loops[i]);
  }

  lemma AsleepMaySleep(s: State, i: nat)
    requires i < |s.loops| && Asleep(s, i)
    ensures MaySleep(s, i)
  {}

  /** Main result: once stop has been set and wake() called, a loop is asleep or can yet
      fall asleep, whatever it and the rest of the process do, exactly at these places,
      and it is then a scheduler. */
  lemma StopIsHeard(s: State, i: nat)
    requires Inv(s) && s.stopWoken && i < |s.loops|
    ensures SleepsLater(s, i) <==> MaySleep(s, i)
    ensures MaySleep(s, i) ==> s.loops[i].kind.Scheduler?
  {
    hide Enabled, Apply, Inv, MaySleep;
    if MaySleep(s, i) {
      var trace, steps := FallsAsleep(s, i);
      SleeperIsScheduler(s, i);
    } else {
      forall trace: seq<State>, steps: seq<Step> | Path(trace, steps) && trace[0] == s && i < |trace[|steps|].loops|
        ensures !Asleep(trace[|steps|], i)
      {
        PathKeepsAwake(trace, steps, |steps|, i);
        if Asleep(trace[|steps|], i) {
          AsleepMaySleep(trace[|steps|], i);
        }
      }
    }
  }

  /** Main result: the wake() of a stop goes unheard by exactly the schedulers that are
      past their test of `stop` and have not yet read the generation. */
  lemma StopIsMissed(s: State, i: nat)
    requires Inv(s) && s.stop && i < |s.loops|
    ensures SleepsLater(Apply(s, WakeStop), i) <==> s.loops[i] == Loop(Scheduler, Entered)
  {
    StepKeepsInv(s, WakeStop);
    StopIsHeard(Apply(s, WakeStop), i);
    hide SleepsLater;
    assert LoopInv(s, s.loops[i]);
  }

  /** A run with such a scheduler, asleep after the stop. */
  lemma SchedulerMaySleepThroughStop() returns (trace: seq<State>, steps: seq<Step>)
    ensures Run(trace, steps) && |trace[|steps|].loops| == 1
    ensures trace[|steps|].stopWoken && trace[|steps|].loops[0].kind.Scheduler? && Asleep(trace[|steps|], 0)
  {
    var s0 := State(0, 0, 0, false, false, [Loop(Scheduler, Head)]);
    var s1 := State(0, 0, 0, false, false, [Loop(Scheduler, Entered)]);
    var s2 := s1.(stop := true);
    var s3 := s2.(generation := 1, stopWoken := true);
    trace, steps := FallsAsleep(s3, 0);
    assert Apply(s0, Test(0)) == s1 && Apply(s1, Stop) == s2 && Apply(s2, WakeStop) == s3;
    trace, steps := [s0, s1, s2] + trace, [Test(0), Stop, WakeStop] + steps;
  }
}
