/** Any number of schedulers at once: passes that hold row locks from their SELECT to
    their commit, crash at any point, and interleave with registrations and with
    next_run_at being wound back. */
module ScheduleRuns {
  import opened Division
  import opened Jobs
  import opened Schedules
  import Z = Zones

  /** An open pass: its clock reading, the due schedules it has locked and not yet
      processed, those it has, and the jobs it has inserted. */
  datatype Pass = Pass(now: Time, todo: set<string>, done: set<string>, keys: seq<Key>)

  /** `created` lists the key of every job the schedules have made; jobs are not purged. */
  datatype State = State(clock: Time, schedules: map<string, Schedule>, created: seq<Key>, passes: map<nat, Pass>)

  const Initial := State(0, map[], [], map[])

  datatype Step =
    | Tick(d: nat)
    | Begin(p: nat, names: set<string>)
    | Process(p: nat, name: string)
    | Commit(p: nat)
    | Crash(p: nat)
    | Register(name: string, when: When, maxLateness: Option<int>, transactional: bool, anchor: Time)
    | Rewind(name: string, to: Time)

  function Locks(pass: Pass): set<string> {
    pass.todo + pass.done
  }

  ghost predicate Locked(s: State, name: string) {
    exists p <- s.passes :: name in Locks(s.passes[p])
  }

  ghost predicate Enabled(s: State, step: Step) {
    match step
    case Tick(_) => true
    // SELECT ... WHERE next_run_at <= now() FOR UPDATE SKIP LOCKED; a pass that meets an
    // interval of zero comes to nothing
    case Begin(p, names) =>
      p !in s.passes && forall name <- names ::
        name in s.schedules && WellFormed(s.schedules[name].when) && s.schedules[name].nextRun <= s.clock && !Locked(s, name)
    case Process(p, name) => p in s.passes && name in s.passes[p].todo && name in s.schedules
                             && WellFormed(s.schedules[name].when)
    case Commit(p) => p in s.passes && s.passes[p].todo == {}
                      && forall name <- s.passes[p].done :: name in s.schedules && WellFormed(s.schedules[name].when)
    case Crash(p) => p in s.passes
    // a registration, or a hand edit, waits for a pass to let its row go
    case Register(name, when, _, _, _) => Registrable(when) && !Locked(s, name)
    case Rewind(name, _) => name in s.schedules && !Locked(s, name)
  }

  /** The insert that a processed schedule adds: nothing if it is late, or if its slot
      already has a job. */
  function Insertion(s: State, pass: Pass, name: string): seq<Key>
    requires name in s.schedules && WellFormed(s.schedules[name].when)
  {
    var key := KeyOf(name, s.schedules[name], pass.now);
    if Late(s.schedules[name], key.slot, pass.now) || key in s.created || key in pass.keys then [] else [key]
  }

  function Apply(s: State, step: Step): State
    requires Enabled(s, step)
  {
    match step
    case Tick(d) => s.(clock := s.clock + d)
    case Begin(p, names) => s.(passes := s.passes[p := Pass(s.clock, names, {}, [])])
    case Process(p, name) =>
      var pass := s.passes[p];
      s.(passes := s.passes[p := Pass(pass.now, pass.todo - {name}, pass.done + {name},
                                      pass.keys + Insertion(s, pass, name))])
    case Commit(p) =>
      var pass := s.passes[p];
      State(s.clock,
            map name | name in s.schedules ::
              if name in pass.done then Moved(s.schedules[name], pass.now) else s.schedules[name],
            s.created + pass.keys, s.passes - {p})
    case Crash(p) => s.(passes := s.passes - {p})
    case Register(name, when, maxLateness, transactional, anchor) =>
      s.(schedules := s.schedules[name := Registered(
           if name in s.schedules then Some(s.schedules[name]) else None, when, maxLateness, transactional,
           if when.OnClock? then Z.After(when.clock, s.clock) else anchor)])
    case Rewind(name, to) => s.(schedules := s.schedules[name := s.schedules[name].(nextRun := to)])
  }

  ghost predicate Run(trace: seq<State>, steps: seq<Step>) {
    && |trace| == |steps| + 1
    && trace[0] == Initial
    && forall i | 0 <= i < |steps| :: Enabled(trace[i], steps[i]) && trace[i + 1] == Apply(trace[i], steps[i])
  }

  // ---------- at most one job per slot ----------

  ghost predicate NoRepeats(keys: seq<Key>) {
    forall i, j | 0 <= i < j < |keys| :: keys[i] != keys[j]
  }

  /** Inserts wait to be committed for schedules the pass has locked and processed, and
      for slots no job has yet. */
  ghost predicate PassInv(s: State, pass: Pass) {
    && pass.now <= s.clock && pass.todo !! pass.done
    && (forall name <- Locks(pass) :: name in s.schedules && WellFormed(s.schedules[name].when)
                                      && s.schedules[name].nextRun <= pass.now)
    && NoRepeats(pass.keys)
    && (forall key <- pass.keys :: key.ScheduleKey? && key.name in pass.done && key !in s.created
                                   && key == KeyOf(key.name, s.schedules[key.name], pass.now))
  }

  ghost predicate LocksApart(passes: map<nat, Pass>) {
    forall p, q | p in passes && q in passes && p != q :: Locks(passes[p]) !! Locks(passes[q])
  }

  ghost predicate Inv(s: State) {
    && NoRepeats(s.created)
    && LocksApart(s.passes)
    && (forall p <- s.passes :: PassInv(s, s.passes[p]))
    && (forall key <- s.created :: key.ScheduleKey? && key.name in s.schedules)
  }

  /** A pass whose locked schedules a step leaves alone is as it was. */
  lemma PassUntouched(s: State, s': State, pass: Pass)
    requires PassInv(s, pass) && s.clock <= s'.clock
    requires forall name <- Locks(pass) :: name in s'.schedules && s'.schedules[name] == s.schedules[name]
    requires forall key <- pass.keys :: key in s'.created ==> key in s.created
    ensures PassInv(s', pass)
  {
    hide SlotToRun;
  }

  lemma ProcessKeepsPass(s: State, p: nat, name: string)
    requires Inv(s) && Enabled(s, Process(p, name))
    ensures PassInv(Apply(s, Process(p, name)), Apply(s, Process(p, name)).passes[p])
  {
    hide SlotToRun, Late;
    var pass, s' := s.passes[p], Apply(s, Process(p, name));
    assert PassInv(s, pass);
    var more := Insertion(s, pass, name);
    var pass' := s'.passes[p];
    assert Locks(pass') == Locks(pass);
    forall key <- pass'.keys
      ensures key.ScheduleKey? && key.name in pass'.done && key !in s.created
              && key == KeyOf(key.name, s.schedules[key.name], pass.now)
    {
      assert key in pass.keys || key in more;
    }
  }

  lemma ScheduleStepKeepsInv(s: State, step: Step)
    requires Inv(s) && Enabled(s, step) && (step.Register? || step.Rewind? || step.Tick?)
    ensures Inv(Apply(s, step))
  {
    hide SlotToRun, SlotAfter, NoRepeats, LocksApart;
    var s' := Apply(s, step);
    forall p <- s'.passes ensures PassInv(s', s'.passes[p]) {
      PassUntouched(s, s', s.passes[p]);
    }
  }

  lemma NoKeys()
    ensures NoRepeats([])
  {}

  lemma PassStepKeepsInv(s: State, step: Step)
    requires Inv(s) && Enabled(s, step) && (step.Begin? || step.Process? || step.Crash?)
    ensures Inv(Apply(s, step))
  {
    hide SlotToRun, SlotAfter, Late, NoRepeats;
    var s' := Apply(s, step);
    if step.Process? {
      assert PassInv(s, s.passes[step.p]);
      assert Locks(s'.passes[step.p]) == Locks(s.passes[step.p]);
      ProcessKeepsPass(s, step.p, step.name);
    } else if step.Begin? {
      NoKeys();
    }
    forall p <- s'.passes | step.Crash? || p != step.p ensures PassInv(s', s'.passes[p]) {
      PassUntouched(s, s', s.passes[p]);
    }
    forall p, q | p in s'.passes && q in s'.passes && p != q ensures Locks(s'.passes[p]) !! Locks(s'.passes[q]) {
      if step.Begin? && p == step.p {
        assert forall name <- step.names :: !Locked(s, name);
      } else if step.Begin? && q == step.p {
        assert forall name <- step.names :: !Locked(s, name);
      }
    }
  }

  lemma KeysApart(s: State, p: nat, q: nat)
    requires Inv(s) && p in s.passes && q in s.passes && p != q
    ensures forall key <- s.passes[q].keys :: key !in s.passes[p].keys
  {
    hide SlotToRun;
    assert PassInv(s, s.passes[p]) && PassInv(s, s.passes[q]);
    assert Locks(s.passes[p]) !! Locks(s.passes[q]);
  }

  lemma CommitKeepsInv(s: State, p: nat)
    requires Inv(s) && Enabled(s, Commit(p))
    ensures Inv(Apply(s, Commit(p)))
  {
    hide SlotToRun, SlotAfter;
    var s', pass := Apply(s, Commit(p)), s.passes[p];
    assert PassInv(s, pass);
    forall key <- s'.created ensures key in s.created || key in pass.keys {
    }
    forall q <- s'.passes ensures PassInv(s', s'.passes[q]) {
      assert Locks(s.passes[p]) !! Locks(s.passes[q]);
      KeysApart(s, p, q);
      PassUntouched(s, s', s.passes[q]);
    }
    forall i, j | 0 <= i < j < |s'.created| ensures s'.created[i] != s'.created[j] {
      if j >= |s.created| {
        assert s'.created[j] in pass.keys;
      }
    }
  }

  lemma StepKeepsInv(s: State, step: Step)
    requires Inv(s) && Enabled(s, step)
    ensures Inv(Apply(s, step))
  {
    if step.Commit? {
      CommitKeepsInv(s, step.p);
    } else if step.Begin? || step.Process? || step.Crash? {
      PassStepKeepsInv(s, step);
    } else {
      ScheduleStepKeepsInv(s, step);
    }
  }

  lemma {:induction false} RunKeepsInv(trace: seq<State>, steps: seq<Step>, i: nat)
    requires Run(trace, steps) && i < |trace|
    ensures Inv(trace[i])
  {
    hide Enabled, Apply;
    if i > 0 {
      RunKeepsInv(trace, steps, i - 1);
      StepKeepsInv(trace[i - 1], steps[i - 1]);
    }
  }

  /** Main result: schedulers at once, crashes, re-registrations and a next_run_at wound
      back anywhere never make two jobs for one schedule's slot. */
  lemma AtMostOneJobPerSlot(trace: seq<State>, steps: seq<Step>, i: nat, a: nat, b: nat)
    requires Run(trace, steps) && i < |trace| && a < b < |trace[i].created|
    ensures trace[i].created[a] != trace[i].created[b]
  {
    RunKeepsInv(trace, steps, i);
  }

  // ---------- without rewinds ----------

  /** No rewinds, no schedule moved to another clock time, intervals that count up and
      clocks whose slots are in order, and no schedule fired when the slot two dates on
      has already come. */
  ghost predicate Steady(s: State, step: Step) {
    match step
    case Rewind(_, _) => false
    case Register(name, when, _, _, _) =>
      Orderly(when) && (name in s.schedules ==> ClockOf(s.schedules[name].when) == ClockOf(when))
    case Commit(p) =>
      p in s.passes ==> forall name <- s.passes[p].done | name in s.schedules ::
        DateNearlyKept(s.schedules[name].when, s.passes[p].now)
    case _ => true
  }

  ghost predicate Settled(s: Schedule) {
    Orderly(s.when) && IsSlot(s.when, s.nextRun)
  }

  ghost predicate Ascending(keys: seq<Key>) {
    forall i, j | 0 <= i < j < |keys| && keys[i].ScheduleKey? && keys[j].ScheduleKey? && keys[i].name == keys[j].name ::
      keys[i].slot < keys[j].slot
  }

  /** The slots a schedule has fired are behind its next_run_at, in the order they fired. */
  ghost predicate SteadyInv(s: State) {
    && (forall name <- s.schedules :: Settled(s.schedules[name]))
    && (forall key <- s.created | key.ScheduleKey? && key.name in s.schedules ::
          key.slot < s.schedules[key.name].nextRun && IsSlot(s.schedules[key.name].when, key.slot))
    && Ascending(s.created)
  }

  lemma OrderlyIsWellFormed(w: When)
    requires Orderly(w)
    ensures WellFormed(w)
  {}

  lemma FiringSettles(s: Schedule, now: Time)
    requires Settled(s) && s.nextRun <= now
    ensures WellFormed(s.when) && IsSlot(s.when, SlotToRun(s, now))
    ensures SlotToRun(s, now) < Moved(s, now).nextRun && Settled(Moved(s, now))
    ensures NoneMissed(s.when, now) ==> s.nextRun <= SlotToRun(s, now) <= now < Moved(s, now).nextRun
  {
    hide SlotToRun, SlotAfter, NoneMissed, IsSlot, Z.SlotsInOrder, Z.WellFormed;
    assert WellFormed(s.when) by {
      OrderlyIsWellFormed(s.when);
    }
    FiredIsSlot(s, now);
    if NoneMissed(s.when, now) {
      FiringMovesOn(s, now);
    }
  }

  /** A slot made a job for before stays at or behind the one fired, and behind next_run_at. */
  lemma CreatedStaysBehind(s: State, pass: Pass, key: Key)
    requires SteadyInv(s) && key in s.created && key.ScheduleKey? && key.name in s.schedules
    requires s.schedules[key.name].nextRun <= pass.now && DateNearlyKept(s.schedules[key.name].when, pass.now)
    ensures WellFormed(s.schedules[key.name].when)
    ensures key.slot <= SlotToRun(s.schedules[key.name], pass.now) < Moved(s.schedules[key.name], pass.now).nextRun
  {
    hide SlotToRun, SlotAfter, IsSlot, DateNearlyKept;
    assert Settled(s.schedules[key.name]);
    FiringKeepsBehind(s.schedules[key.name], pass.now, key.slot);
  }

  lemma CreatedAscend(s: State, pass: Pass)
    requires SteadyInv(s) && PassInv(s, pass) && forall key <- s.created :: key.ScheduleKey? && key.name in s.schedules
    requires forall key <- pass.keys, k <- s.created | k.name == key.name :: k.slot < key.slot
    ensures Ascending(s.created + pass.keys)
  {
    hide SlotToRun, Settled;
    var keys := s.created + pass.keys;
    forall i, j | 0 <= i < j < |keys| && keys[i].ScheduleKey? && keys[j].ScheduleKey? && keys[i].name == keys[j].name
      ensures keys[i].slot < keys[j].slot
    {
      if i < |s.created| <= j {
        assert keys[i] in s.created && keys[j] in pass.keys;
      }
    }
  }

  lemma CommitKeepsBehind(s: State, p: nat, key: Key)
    requires Inv(s) && SteadyInv(s) && Enabled(s, Commit(p)) && Steady(s, Commit(p))
    requires key in Apply(s, Commit(p)).created
    ensures var s' := Apply(s, Commit(p));
            && key.ScheduleKey? && key.name in s'.schedules
            && key.slot < s'.schedules[key.name].nextRun && IsSlot(s'.schedules[key.name].when, key.slot)
  {
    hide SlotToRun, SlotAfter, Settled, Orderly, DateNearlyKept, IsSlot, NoneMissed, Ascending;
    var pass := s.passes[p];
    assert PassInv(s, pass);
    if key in pass.keys {
      assert key.name in Locks(pass);
      FiringSettles(s.schedules[key.name], pass.now);
    } else if key.name in pass.done {
      assert key.name in Locks(pass);
      CreatedStaysBehind(s, pass, key);
    }
  }

  lemma PassKeysAreLater(s: State, p: nat, key: Key, k: Key)
    requires Inv(s) && SteadyInv(s) && Enabled(s, Commit(p)) && Steady(s, Commit(p))
    requires key in s.passes[p].keys && k in s.created && k.ScheduleKey? && key.ScheduleKey? && k.name == key.name
    ensures k.slot < key.slot
  {
    hide SlotToRun, SlotAfter, Settled, Orderly, DateNearlyKept, IsSlot;
    var pass := s.passes[p];
    assert PassInv(s, pass) && key.name in Locks(pass);
    CreatedStaysBehind(s, pass, k);
  }

  lemma CommitKeepsSteady(s: State, p: nat)
    requires Inv(s) && SteadyInv(s) && Enabled(s, Commit(p)) && Steady(s, Commit(p))
    ensures SteadyInv(Apply(s, Commit(p)))
    ensures forall name <- s.passes[p].done | NoneMissed(s.schedules[name].when, s.passes[p].now) ::
              Apply(s, Commit(p)).schedules[name].nextRun > s.passes[p].now
  {
    hide SlotToRun, Moved, Settled, Orderly, NoneMissed, DateNearlyKept, IsSlot;
    var s', pass := Apply(s, Commit(p)), s.passes[p];
    assert PassInv(s, pass);
    forall name <- s.schedules
      ensures Settled(s'.schedules[name])
      ensures name in pass.done && NoneMissed(s.schedules[name].when, pass.now) ==> s'.schedules[name].nextRun > pass.now
    {
      if name in pass.done {
        assert name in Locks(pass);
        FiringSettles(s.schedules[name], pass.now);
      }
    }
    forall key <- s'.created | key.ScheduleKey? && key.name in s'.schedules
      ensures key.slot < s'.schedules[key.name].nextRun && IsSlot(s'.schedules[key.name].when, key.slot)
    {
      CommitKeepsBehind(s, p, key);
    }
    forall key <- pass.keys, k <- s.created | k.name == key.name ensures k.slot < key.slot {
      PassKeysAreLater(s, p, key, k);
    }
    CreatedAscend(s, pass);
  }

  lemma RegisterKeepsSteady(s: State, step: Step)
    requires Inv(s) && SteadyInv(s) && Enabled(s, step) && Steady(s, step) && step.Register?
    ensures SteadyInv(Apply(s, step))
  {
    hide SlotToRun, Z.SlotsInOrder, Z.WellFormed, Z.IsSlot, Ascending;
    if step.when.OnClock? {
      Z.FoundAreSlots(step.when.clock, s.clock);
    }
  }

  lemma StepKeepsSteady(s: State, step: Step)
    requires Inv(s) && SteadyInv(s) && Enabled(s, step) && Steady(s, step)
    ensures SteadyInv(Apply(s, step))
  {
    if step.Commit? {
      CommitKeepsSteady(s, step.p);
    } else if step.Register? {
      RegisterKeepsSteady(s, step);
    }
  }

  lemma {:induction false} RunKeepsSteady(trace: seq<State>, steps: seq<Step>, i: nat)
    requires Run(trace, steps) && i < |trace|
    requires forall k | 0 <= k < |steps| :: Steady(trace[k], steps[k])
    ensures SteadyInv(trace[i])
  {
    hide Enabled, Apply, Steady;
    if i > 0 {
      RunKeepsSteady(trace, steps, i - 1);
      RunKeepsInv(trace, steps, i - 1);
      StepKeepsSteady(trace[i - 1], steps[i - 1]);
    }
  }

  /** Main result: without rewinds, where the date never goes back by more than a day,
      each schedule's slots fire in increasing order, all behind its next_run_at, and a
      commit leaves each schedule it processed, if that had missed no slot, due only
      after the pass's own time. */
  lemma SlotsFireInOrder(trace: seq<State>, steps: seq<Step>, i: nat)
    requires Run(trace, steps) && i < |trace|
    requires forall k | 0 <= k < |steps| :: Steady(trace[k], steps[k])
    ensures Ascending(trace[i].created)
    ensures forall key <- trace[i].created | key.ScheduleKey? ::
              key.name in trace[i].schedules && key.slot < trace[i].schedules[key.name].nextRun
    ensures i < |steps| && steps[i].Commit? ==>
              forall name <- trace[i].passes[steps[i].p].done |
                name in trace[i].schedules && NoneMissed(trace[i].schedules[name].when, trace[i].passes[steps[i].p].now) ::
                name in trace[i + 1].schedules && trace[i + 1].schedules[name].nextRun > trace[i].passes[steps[i].p].now
  {
    hide Ascending, Steady, NoneMissed;
    RunKeepsInv(trace, steps, i);
    RunKeepsSteady(trace, steps, i);
    if i < |steps| && steps[i].Commit? {
      CommitKeepsSteady(trace[i], steps[i].p);
    }
  }

  lemma NewSlot(s: State, p: nat, name: string)
    requires Inv(s) && SteadyInv(s) && Enabled(s, Process(p, name))
    requires NoneMissed(s.schedules[name].when, s.passes[p].now)
    ensures var key := KeyOf(name, s.schedules[name], s.passes[p].now);
            key !in s.created && key !in s.passes[p].keys
  {
    hide SlotToRun;
    assert PassInv(s, s.passes[p]) && name in Locks(s.passes[p]);
    FiringSettles(s.schedules[name], s.passes[p].now);
  }

  /** Main result: and then, for a schedule that has missed no slot, the idempotency key is
      never called on: the slot, if on time, is one no job was ever made for. */
  lemma EverySlotIsNew(trace: seq<State>, steps: seq<Step>, i: nat)
    requires Run(trace, steps) && i < |steps| && steps[i].Process?
    requires NoneMissed(trace[i].schedules[steps[i].name].when, trace[i].passes[steps[i].p].now)
    requires forall k | 0 <= k < |steps| :: Steady(trace[k], steps[k])
    ensures Enabled(trace[i], steps[i])
    ensures var s, pass, name := trace[i], trace[i].passes[steps[i].p], steps[i].name;
            var key := KeyOf(name, s.schedules[name], pass.now);
            && key == ScheduleKey(name, SlotToRun(s.schedules[name], pass.now))
            && Insertion(s, pass, name) == if && s.schedules[name].maxLateness.Some?
                                              && pass.now - key.slot > s.schedules[name].maxLateness.value
                                           then [] else [key]
  {
    hide Steady;
    RunKeepsInv(trace, steps, i);
    RunKeepsSteady(trace, steps, i);
    NewSlot(trace[i], steps[i].p, steps[i].name);
  }

  lemma OneMore(before: seq<State>, done: seq<Step>, step: Step, after: State)
    returns (trace: seq<State>, steps: seq<Step>)
    requires Run(before, done) && |before| == |done| + 1
    requires Enabled(before[|done|], step) && Apply(before[|done|], step) == after
    ensures Run(trace, steps) && trace == before + [after] && steps == done + [step]
  {
    hide Enabled, Apply;
    trace, steps := before + [after], done + [step];
  }

  /** One pass over one due interval schedule, whose slot has or has not its job yet. */
  lemma OnePass(before: seq<State>, done: seq<Step>, name: string, s: Schedule, created: seq<Key>)
    returns (trace: seq<State>, steps: seq<Step>)
    requires Run(before, done) && |before| == |done| + 1 && before[|done|] == State(0, map[name := s], created, map[])
    requires s.when.Interval? && s.when.period > 0 && s.nextRun == 0 && s.maxLateness == None
    ensures Run(trace, steps) && |steps| == |done| + 3 && |trace| == |steps| + 1 && steps[..|done|] == done
    ensures trace[|steps|] == State(0, map[name := s.(nextRun := s.when.period)],
                                    if ScheduleKey(name, 0) in created then created else created + [ScheduleKey(name, 0)],
                                    map[])
  {
    IntervalSlot(s, 0, 0);
    DivideUnique(0, s.when.period, 0);
    assert SlotToRun(s, 0) == 0 && Moved(s, 0) == s.(nextRun := s.when.period);
    var key := ScheduleKey(name, 0);
    var keys := if key in created then [] else [key];
    hide Run, SlotToRun, Moved;
    var s0 := before[|done|];
    var s1 := s0.(passes := map[0 := Pass(0, {name}, {}, [])]);
    var s2 := s0.(passes := map[0 := Pass(0, {}, {name}, keys)]);
    trace, steps := OneMore(before, done, Begin(0, {name}), s1);
    var none: set<string> := {};
    assert {name} - {name} == none && none + {name} == {name} && Insertion(s1, s1.passes[0], name) == keys;
    assert Apply(s1, Process(0, name)).passes[0] == s2.passes[0];
    trace, steps := OneMore(trace, steps, Process(0, name), s2);
    assert Apply(s2, Commit(0)).schedules == map[name := Moved(s, 0)];
    assert Apply(s2, Commit(0)).passes == map[];
    trace, steps := OneMore(trace, steps, Commit(0), Apply(s2, Commit(0)));
  }

  /** A run in which a schedule fires, is wound back and comes due again: the first pass
      makes the slot's job and moves next_run_at on, and the second finds the key there. */
  lemma FiresOnce(name: string, period: int) returns (trace: seq<State>, steps: seq<Step>)
    requires period > 0
    ensures Run(trace, steps) && |steps| == 8 && steps[4] == Rewind(name, 0)
    ensures trace[8] == State(0, map[name := Schedule(Interval(period), period, None, false)], [ScheduleKey(name, 0)], map[])
  {
    var due := Schedule(Interval(period), 0, None, false);
    assert Run([Initial], []);
    hide Run;
    var s1 := State(0, map[name := due], [], map[]);
    trace, steps := OneMore([Initial], [], Register(name, Interval(period), None, false, 0), s1);
    trace, steps := OnePass(trace, steps, name, due, []);
    var s5 := State(0, map[name := due], [ScheduleKey(name, 0)], map[]);
    assert trace[4].schedules[name := due] == s5.schedules;
    trace, steps := OneMore(trace, steps, Rewind(name, 0), s5);
    trace, steps := OnePass(trace, steps, name, due, [ScheduleKey(name, 0)]);
    assert |trace| == |steps| + 1;
  }
}
