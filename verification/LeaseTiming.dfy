/** One worker's leases against the clock. The worker's claims, holds, starts, outcomes
    and beats interleave with anything every other process does to the table: its own
    and other workers' sweeps, rival claims, operators. */
module LeaseTiming {
  import opened Jobs
  import opened Heartbeats

  /** A lease outlasts three beats. */
  datatype Config = Config(worker: WorkerId, lease: int, beat: int)

  predicate Good(c: Config) {
    c.beat > 0 && c.lease == 3 * c.beat
  }

  /** Unheld: claimed, its batch not yet held. Queued: held, in the buffer. Started: in a
      slot. Releasing: outcome recorded, run_job's `release` still to come. Returning:
      dropped at shutdown, release_jobs still to come. */
  datatype Phase = Unheld | Queued | Started | Releasing | Returning

  /** One claim of a job and what has become of it. A job may have several at once: a run
      whose lease was swept goes on in its slot. */
  datatype Claimed = Claimed(id: JobId, phase: Phase)

  /** runs: every claim made here and not yet done with, by number; next: the next number.
      ceiling: where the execution clock of a job's last start runs out, as long as it has
      not been claimed or held anew since. failed: beats in a row that could not reach
      the database. */
  datatype State = State(
    rows: Rows,
    clock: Time,
    deadlines: Deadlines,
    nextBeat: Time,
    failed: nat,
    runs: map<nat, Claimed>,
    next: nat,
    ceiling: map<JobId, Time>)

  function Initial(c: Config): State {
    State(map[], 0, map[], c.beat, 0, map[], 0, map[])
  }

  datatype Step =
    | Tick(d: nat)
    | Beat(reached: bool)
    | ClaimHere(ids: seq<JobId>)
    | HoldNew(q: nat)
    | Start(q: nat, maxExecution: int)
    | Outcome(q: nat, action: Action)
    | LetGo(q: nat)
    | HandBack(q: nat)
    | Return(q: nat)
    | Others(acts: map<JobId, Action>)
    | Insert(id: JobId, job: Job)

  /** A write by a sweep, an operator, an enqueue or another worker, reading a clock no later than now. */
  predicate ByOthers(c: Config, a: Action, clock: Time) {
    match a
    case Claim(w, _, _) => w != c.worker
    case Extend(w, _, _) => w != c.worker
    case Release(w) => w != c.worker
    case Succeed(w, _) => w != c.worker
    case Count(w, _) => w != c.worker
    case Fail(w, _, _, _, _) => w != c.worker
    case ReapDead(now) => now <= clock
    case ReapBack(now) => now <= clock
    case Retry(_) => true
    case Purge(_, _) => true
    case Touch => true
  }

  predicate OwnOutcome(c: Config, a: Action) {
    (a.Succeed? || a.Fail?) && a.worker == c.worker
  }

  function Batch(ids: seq<JobId>): set<JobId> {
    set id | id in ids
  }

  predicate Distinct(ids: seq<JobId>) {
    forall i, j | 0 <= i < j < |ids| :: ids[i] != ids[j]
  }

  predicate In(s: State, q: nat, phase: Phase) {
    q in s.runs && s.runs[q].phase == phase
  }

  ghost predicate Enabled(c: Config, s: State, step: Step) {
    match step
    // the heartbeat thread is not late
    case Tick(d) => s.clock + d <= s.nextBeat
    case Beat(_) => s.clock == s.nextBeat
    // one loop claims, holds, and claims again until it hands its buffer back
    case ClaimHere(ids) =>
      && (forall p <- s.runs :: s.runs[p].phase != Unheld && s.runs[p].phase != Returning)
      && Distinct(ids) && Legal(s.rows, Each(Batch(ids), Claim(c.worker, s.clock, c.lease)))
    case HoldNew(q) => In(s, q, Unheld)
    // a slot picks up a job and finds its task
    case Start(q, m) => In(s, q, Queued) && m > 0
    // a job whose task is missing fails without having been started
    case Outcome(q, a) => (In(s, q, Queued) || In(s, q, Started)) && OwnOutcome(c, a)
    // at the end of run_job, also when the outcome could not be recorded
    case LetGo(q) => In(s, q, Queued) || In(s, q, Started) || In(s, q, Releasing)
    case HandBack(q) => In(s, q, Queued)
    case Return(q) => In(s, q, Returning)
    case Others(acts) => Legal(s.rows, acts) && forall id <- acts :: ByOthers(c, acts[id], s.clock)
    case Insert(id, job) => id !in s.rows && job.status.Pending?
  }

  function Extended(c: Config, s: State): set<JobId> {
    set id | id in Live(s.deadlines, s.clock) && id in s.rows && Owned(s.rows[id], c.worker)
  }

  function Numbers(next: nat, n: nat): (numbers: set<nat>)
    ensures forall q :: q in numbers <==> next <= q < next + n
  {
    if n == 0 then {} else Numbers(next, n - 1) + {next + n - 1}
  }

  function Numbered(ids: seq<JobId>, next: nat): map<nat, Claimed> {
    map q | q in Numbers(next, |ids|) :: Claimed(ids[q - next], Unheld)
  }

  /** A write naming a job by its id, which goes through if the worker still owns the row. */
  function OwnWrite(rows: Rows, id: JobId, a: Action): Rows {
    if id in rows && Guard(a, rows[id]) then ApplyAll(rows, map[id := a]) else rows
  }

  function Moved(runs: map<nat, Claimed>, q: nat, phase: Phase): map<nat, Claimed>
    requires q in runs
  {
    runs[q := Claimed(runs[q].id, phase)]
  }

  function Apply(c: Config, s: State, step: Step): State
    requires Enabled(c, s, step)
  {
    match step
    case Tick(d) => s.(clock := s.clock + d)
    case Beat(reached) =>
      if reached
      then s.(rows := ApplyAll(s.rows, Each(Extended(c, s), Extend(c.worker, s.clock, c.lease))),
              nextBeat := s.clock + c.beat, failed := 0)
      else s.(nextBeat := s.clock + c.beat, failed := s.failed + 1)
    case ClaimHere(ids) =>
      s.(rows := ApplyAll(s.rows, Each(Batch(ids), Claim(c.worker, s.clock, c.lease))),
         runs := s.runs + Numbered(ids, s.next), next := s.next + |ids|, ceiling := s.ceiling - Batch(ids))
    case HoldNew(q) =>
      var id := s.runs[q].id;
      s.(deadlines := Holding(s.deadlines, [id], None), runs := Moved(s.runs, q, Queued), ceiling := s.ceiling - {id})
    case Start(q, m) =>
      var id := s.runs[q].id;
      s.(deadlines := Holding(s.deadlines, [id], Some(s.clock + m)), runs := Moved(s.runs, q, Started),
         ceiling := s.ceiling[id := s.clock + m])
    case Outcome(q, a) => s.(rows := OwnWrite(s.rows, s.runs[q].id, a), runs := Moved(s.runs, q, Releasing))
    case LetGo(q) => s.(deadlines := Letting(s.deadlines, [s.runs[q].id]), runs := s.runs - {q})
    case HandBack(q) =>
      s.(deadlines := Letting(s.deadlines, [s.runs[q].id]), runs := Moved(s.runs, q, Returning))
    case Return(q) => s.(rows := OwnWrite(s.rows, s.runs[q].id, Release(c.worker)), runs := s.runs - {q})
    case Others(acts) => s.(rows := ApplyAll(s.rows, acts))
    case Insert(id, job) => s.(rows := s.rows[id := job])
  }

  ghost predicate Path(c: Config, trace: seq<State>, steps: seq<Step>) {
    && |trace| == |steps| + 1
    && forall i | 0 <= i < |steps| :: Enabled(c, trace[i], steps[i]) && trace[i + 1] == Apply(c, trace[i], steps[i])
  }

  ghost predicate Run(c: Config, trace: seq<State>, steps: seq<Step>) {
    Path(c, trace, steps) && trace[0] == Initial(c)
  }

  /** What holds of the heartbeat and the numbers in every run. */
  ghost predicate Ticking(c: Config, s: State) {
    s.clock <= s.nextBeat <= s.clock + c.beat && forall p <- s.runs :: p < s.next
  }

  lemma StepKeepsTicking(c: Config, s: State, step: Step)
    requires Good(c) && Ticking(c, s) && Enabled(c, s, step)
    ensures Ticking(c, Apply(c, s, step))
  {}

  lemma {:induction false} RunKeepsTicking(c: Config, trace: seq<State>, steps: seq<Step>, i: nat)
    requires Good(c) && Run(c, trace, steps) && i < |trace|
    ensures Ticking(c, trace[i])
  {
    hide Enabled, Apply;
    if i > 0 {
      RunKeepsTicking(c, trace, steps, i - 1);
      StepKeepsTicking(c, trace[i - 1], steps[i - 1]);
    }
  }

  /** Rivals, sweeps and operators may make any write its guard allows, with any clock
      reading that is not ahead, and a beat may fail. */
  lemma NothingHeldOff(c: Config, s: State, id: JobId, a: Action)
    requires id in s.rows && Guard(a, s.rows[id])
    requires a.Claim? || a.Extend? || a.Release? || a.Succeed? || a.Count? || a.Fail? ==> a.worker != c.worker
    requires a.ReapDead? || a.ReapBack? ==> a.now <= s.clock
    ensures Enabled(c, s, Others(map[id := a])) && Apply(c, s, Others(map[id := a])).rows == ApplyAll(s.rows, map[id := a])
    ensures s.clock == s.nextBeat ==> Enabled(c, s, Beat(false)) && Apply(c, s, Beat(false)).rows == s.rows
  {}

  // ---------- exclusion ----------

  /** From its claim until its outcome, or until it is dropped. */
  predicate InHand(s: State, q: nat) {
    In(s, q, Unheld) || In(s, q, Queued) || In(s, q, Started)
  }

  /** No claim of the job made here is still about. */
  predicate NoneHere(s: State, id: JobId) {
    forall p <- s.runs :: s.runs[p].id != id
  }

  /** What one claim needs of the beats: no more than two in a row fail; its batch is held
      before the first of them; and none finds it started and past its execution deadline
      with no outcome yet. One still queued has no deadline, and other claims may hang as
      they like. */
  predicate Punctual(s: State, step: Step, q: nat) {
    step.Beat? && InHand(s, q) ==>
      && (step.reached || s.failed < 2)
      && s.runs[q].phase != Unheld
      && (In(s, q, Started) && s.runs[q].id in s.deadlines && s.deadlines[s.runs[q].id].Some? ==>
            s.clock < s.deadlines[s.runs[q].id].value)
  }

  /** The claim itself finds no other claim of its job still about here. */
  predicate ClaimedAlone(s: State, step: Step, q: nat) {
    step.ClaimHere? && s.next <= q < s.next + |step.ids| ==> NoneHere(s, step.ids[q - s.next])
  }

  ghost predicate Kept(c: Config, trace: seq<State>, steps: seq<Step>, q: nat) {
    && Path(c, trace, steps)
    && forall k | 0 <= k < |steps| :: Punctual(trace[k], steps[k], q) && ClaimedAlone(trace[k], steps[k], q)
  }

  /** How long after the next beat the beats that may yet fail go on. */
  function Reserve(c: Config, s: State): int {
    if s.failed == 0 then 2 * c.beat else if s.failed == 1 then c.beat else 0
  }

  predicate Covered(c: Config, s: State, j: Job) {
    Owned(j, c.worker) && j.lockedUntil.Some? && j.lockedUntil.value >= s.nextBeat + Reserve(c, s)
  }

  /** A claim in hand is the only one of its job here, in the heartbeat's map once held,
      and its lease is long enough. */
  ghost predicate Inv(c: Config, s: State, q: nat) {
    && Ticking(c, s)
    && (InHand(s, q) ==>
          var id := s.runs[q].id;
          && (forall p <- s.runs | p != q :: s.runs[p].id != id)
          && (s.runs[q].phase == Queued ==> id in s.deadlines && s.deadlines[id] == None)
          && (s.runs[q].phase == Started ==> id in s.deadlines && s.deadlines[id].Some?)
          && id in s.rows && Covered(c, s, s.rows[id]))
  }

  /** The job of a claim in hand is leased to this worker, and the lease has not expired. */
  predicate Safe(c: Config, s: State, q: nat) {
    InHand(s, q) ==>
      var id := s.runs[q].id; id in s.rows && Owned(s.rows[id], c.worker) && !Expired(s.rows[id], s.clock)
  }

  /** No write by others lands on a covered row, a no-op apart. */
  lemma CoveredIsSafe(c: Config, s: State, j: Job, a: Action)
    requires Good(c) && Ticking(c, s) && Covered(c, s, j)
    requires Guard(a, j) && ByOthers(c, a, s.clock)
    ensures a.Touch?
  {}

  lemma OthersKeepMine(c: Config, s: State, acts: map<JobId, Action>, q: nat)
    requires Good(c) && Inv(c, s, q) && Enabled(c, s, Others(acts)) && InHand(s, q)
    ensures var id := s.runs[q].id;
            (id in acts ==> acts[id].Touch?) && id in ApplyAll(s.rows, acts) && ApplyAll(s.rows, acts)[id] == s.rows[id]
  {
    var id := s.runs[q].id;
    if id in acts {
      CoveredIsSafe(c, s, s.rows[id], acts[id]);
    }
  }

  /** A claim of a job that is not about here starts out covered. */
  lemma ClaimedOnce(c: Config, s: State, ids: seq<JobId>, k: nat)
    requires Good(c) && Ticking(c, s) && Enabled(c, s, ClaimHere(ids)) && k < |ids| && NoneHere(s, ids[k])
    ensures Inv(c, Apply(c, s, ClaimHere(ids)), s.next + k)
  {
    StepKeepsTicking(c, s, ClaimHere(ids));
    var t, q, id := Apply(c, s, ClaimHere(ids)), s.next + k, ids[k];
    hide Ticking;
    assert id in Batch(ids) && id in t.rows && Covered(c, t, t.rows[id]) by {
      assert s.rows[id].status.Pending?;
    }
    hide ApplyAll, Covered, Legal;
    assert t.runs[q] == Claimed(id, Unheld);
    forall p <- t.runs | p != q ensures t.runs[p].id != id {
      assert p in s.runs || p in Numbers(s.next, |ids|);
    }
  }

  lemma CoveredAlike(c: Config, s: State, t: State, j: Job)
    requires Covered(c, s, j) && t.nextBeat == s.nextBeat && t.failed == s.failed
    ensures Covered(c, t, j)
  {}

  lemma ClaimKeepsEarlier(c: Config, s: State, ids: seq<JobId>, q: nat)
    requires Good(c) && Inv(c, s, q) && InHand(s, q) && Enabled(c, s, ClaimHere(ids))
    ensures Inv(c, Apply(c, s, ClaimHere(ids)), q)
  {
    StepKeepsTicking(c, s, ClaimHere(ids));
    var t, id := Apply(c, s, ClaimHere(ids)), s.runs[q].id;
    assert q < s.next;
    hide Ticking;
    assert id !in Batch(ids) && t.rows[id] == s.rows[id];
    hide ApplyAll, Covered, Legal;
    assert t.runs[q] == s.runs[q];
    forall p <- t.runs | p != q ensures t.runs[p].id != id {
      assert p in s.runs || (p in Numbers(s.next, |ids|) && ids[p - s.next] in Batch(ids));
    }
    assert Covered(c, s, s.rows[id]);
    CoveredAlike(c, s, t, s.rows[id]);
  }

  lemma BeatKeepsInv(c: Config, s: State, reached: bool, q: nat)
    requires Good(c) && Inv(c, s, q) && Enabled(c, s, Beat(reached)) && Punctual(s, Beat(reached), q)
    ensures Inv(c, Apply(c, s, Beat(reached)), q)
  {}

  lemma ClaimOfOthers(c: Config, s: State, ids: seq<JobId>, q: nat)
    requires Good(c) && Ticking(c, s) && Enabled(c, s, ClaimHere(ids))
    requires !InHand(s, q) && !(s.next <= q < s.next + |ids|)
    ensures Inv(c, Apply(c, s, ClaimHere(ids)), q)
  {
    StepKeepsTicking(c, s, ClaimHere(ids));
    hide Ticking;
  }

  lemma ClaimKeepsInv(c: Config, s: State, ids: seq<JobId>, q: nat)
    requires Good(c) && Inv(c, s, q) && Enabled(c, s, ClaimHere(ids)) && ClaimedAlone(s, ClaimHere(ids), q)
    ensures Inv(c, Apply(c, s, ClaimHere(ids)), q)
  {
    hide Enabled, Apply, Ticking, Covered, In;
    if InHand(s, q) {
      ClaimKeepsEarlier(c, s, ids, q);
    } else if s.next <= q < s.next + |ids| {
      ClaimedOnce(c, s, ids, q - s.next);
    } else {
      ClaimOfOthers(c, s, ids, q);
    }
  }

  lemma RunStepKeepsInv(c: Config, s: State, step: Step, q: nat)
    requires Good(c) && Inv(c, s, q) && Enabled(c, s, step) && !step.ClaimHere? && !step.Beat?
    ensures Inv(c, Apply(c, s, step), q)
  {
    hide Numbered, Extended;
    StepKeepsTicking(c, s, step);
    if step.Others? && InHand(s, q) {
      OthersKeepMine(c, s, step.acts, q);
    }
  }

  lemma StepKeepsInv(c: Config, s: State, step: Step, q: nat)
    requires Good(c) && Inv(c, s, q) && Enabled(c, s, step) && Punctual(s, step, q) && ClaimedAlone(s, step, q)
    ensures Inv(c, Apply(c, s, step), q)
  {
    hide Enabled, Apply, Inv, Punctual, ClaimedAlone;
    if step.ClaimHere? {
      ClaimKeepsInv(c, s, step.ids, q);
    } else if step.Beat? {
      BeatKeepsInv(c, s, step.reached, q);
    } else {
      RunStepKeepsInv(c, s, step, q);
    }
  }

  lemma {:induction false} KeptKeepsInv(c: Config, trace: seq<State>, steps: seq<Step>, i: nat, q: nat)
    requires Good(c) && Kept(c, trace, steps, q) && Inv(c, trace[0], q) && i < |trace|
    ensures Inv(c, trace[i], q)
  {
    hide Enabled, Apply, Inv, Punctual, ClaimedAlone;
    if i > 0 {
      KeptKeepsInv(c, trace, steps, i - 1, q);
      StepKeepsInv(c, trace[i - 1], steps[i - 1], q);
    }
  }

  lemma InvIsSafe(c: Config, s: State, q: nat)
    requires Good(c) && Inv(c, s, q)
    ensures Safe(c, s, q)
  {}

  /** A beat that gets through extends a claim's lease, whatever has become of the others. */
  lemma BeatExtends(c: Config, s: State, q: nat)
    requires Inv(c, s, q) && InHand(s, q) && Enabled(c, s, Beat(true)) && Punctual(s, Beat(true), q)
    ensures var id, rows' := s.runs[q].id, Apply(c, s, Beat(true)).rows;
            id in rows' && rows'[id].lockedUntil == Some(s.clock + c.lease)
  {}

  lemma InitialInv(c: Config, q: nat)
    requires Good(c)
    ensures Inv(c, Initial(c), q)
  {}

  /** Main result: from its claim to its outcome, whatever the schedule of beats, sweeps
      and rivals, and whatever other jobs of this worker hang, a job that was claimed with
      no other claim of it still about here stays this worker's, in one run of it, with
      its lease unexpired and extended by each beat that gets through; and no sweep, rival
      or operator writes to its row. */
  lemma TimedExclusion(c: Config, trace: seq<State>, steps: seq<Step>, i: nat, q: nat)
    requires Good(c) && Run(c, trace, steps) && Kept(c, trace, steps, q) && i < |trace| && InHand(trace[i], q)
    ensures var s := trace[i];
            var id := s.runs[q].id;
            && id in s.rows && s.rows[id].status == Running && s.rows[id].lockedBy == Some(c.worker)
            && s.rows[id].lockedUntil.Some? && s.clock <= s.rows[id].lockedUntil.value
            && (s.runs[q].phase == Queued ==> id in s.deadlines && s.deadlines[id] == None)
            && (forall p <- s.runs | p != q :: s.runs[p].id != id)
            && (i < |steps| && steps[i] == Beat(true) ==>
                  id in trace[i + 1].rows && trace[i + 1].rows[id].lockedUntil == Some(s.clock + c.lease))
            && (i < |steps| && steps[i].Others? ==> id !in steps[i].acts || steps[i].acts[id].Touch?)
  {
    InitialInv(c, q);
    KeptKeepsInv(c, trace, steps, i, q);
    InvIsSafe(c, trace[i], q);
    if i < |steps| && steps[i].Others? {
      OthersKeepMine(c, trace[i], steps[i].acts, q);
    } else if i < |steps| && steps[i] == Beat(true) {
      BeatExtends(c, trace[i], q);
    }
  }

  // ---------- claiming a job again ----------

  ghost predicate AllReached(steps: seq<Step>) {
    forall k | 0 <= k < |steps| :: steps[k].Beat? ==> steps[k].reached
  }

  lemma StepFirst(c: Config, s: State, step: Step, q: nat, trace: seq<State>, steps: seq<Step>)
    requires Enabled(c, s, step) && Punctual(s, step, q) && ClaimedAlone(s, step, q) && (step.Beat? ==> step.reached)
    requires Kept(c, trace, steps, q) && trace[0] == Apply(c, s, step) && AllReached(steps)
    ensures Kept(c, [s] + trace, [step] + steps, q) && AllReached([step] + steps)
    ensures ([s] + trace)[|steps| + 1] == trace[|steps|]
  {
    hide Enabled, Apply, Punctual, ClaimedAlone;
  }

  /** In hand and past its hold, yet not in the heartbeat's map. */
  ghost predicate Neglected(c: Config, s: State, q: nat) {
    && Ticking(c, s) && (In(s, q, Queued) || In(s, q, Started))
    && s.runs[q].id !in s.deadlines
    && s.runs[q].id in s.rows && Owned(s.rows[s.runs[q].id], c.worker) && s.rows[s.runs[q].id].lockedUntil.Some?
  }

  lemma BeatNeglects(c: Config, s: State, q: nat)
    requires Good(c) && Neglected(c, s, q) && s.clock == s.nextBeat
    ensures var s' := Apply(c, s, Beat(true));
            && Neglected(c, s', q) && s'.runs == s.runs && s'.rows[s.runs[q].id] == s.rows[s.runs[q].id]
            && s'.nextBeat == s.nextBeat + c.beat
  {}

  lemma {:induction false} LeaseRunsOut(c: Config, s: State, q: nat) returns (trace: seq<State>, steps: seq<Step>)
    requires Good(c) && Neglected(c, s, q)
    ensures Kept(c, trace, steps, q) && trace[0] == s && AllReached(steps) && !Safe(c, trace[|steps|], q)
    decreases s.rows[s.runs[q].id].lockedUntil.value - s.nextBeat
  {
    var ticked := s.(clock := s.nextBeat);
    if s.rows[s.runs[q].id].lockedUntil.value < s.nextBeat {
      trace, steps := [ticked], [];
    } else {
      BeatNeglects(c, ticked, q);
      trace, steps := LeaseRunsOut(c, Apply(c, ticked, Beat(true)), q);
      StepFirst(c, ticked, Beat(true), q, trace, steps);
      trace, steps := [ticked] + trace, [Beat(true)] + steps;
    }
    StepFirst(c, s, Tick(s.nextBeat - s.clock), q, trace, steps);
    trace, steps := [s] + trace, [Tick(s.nextBeat - s.clock)] + steps;
  }

  /** A state a claim leaves: claim q is new, and p is an earlier one of the same job. */
  ghost predicate Twice(c: Config, s: State, p: nat, q: nat) {
    && Ticking(c, s) && p != q && In(s, q, Unheld)
    && (In(s, p, Queued) || In(s, p, Started) || In(s, p, Releasing)) && s.runs[p].id == s.runs[q].id
    && s.runs[q].id in s.rows && Owned(s.rows[s.runs[q].id], c.worker) && s.rows[s.runs[q].id].lockedUntil.Some?
  }

  /** The earlier run lets go after the new batch is held, which drops the new claim's
      entry, and the lease of a job in this worker's buffer runs out. */
  lemma LettingGoLoses(c: Config, s: State, p: nat, q: nat) returns (trace: seq<State>, steps: seq<Step>)
    requires Good(c) && Twice(c, s, p, q)
    ensures Kept(c, trace, steps, q) && trace[0] == s && AllReached(steps) && !Safe(c, trace[|steps|], q)
  {
    var s1 := Apply(c, s, HoldNew(q));
    var s2 := Apply(c, s1, LetGo(p));
    trace, steps := LeaseRunsOut(c, s2, q);
    StepFirst(c, s1, LetGo(p), q, trace, steps);
    trace, steps := [s1] + trace, [LetGo(p)] + steps;
    StepFirst(c, s, HoldNew(q), q, trace, steps);
    trace, steps := [s] + trace, [HoldNew(q)] + steps;
  }

  /** Or the earlier run, still going, fails: its write passes the guard, which knows the
      worker and not the claim, and the row is anyone's while the new claim is in hand. */
  lemma FailingLoses(c: Config, s: State, p: nat, q: nat) returns (trace: seq<State>, steps: seq<Step>)
    requires Good(c) && Twice(c, s, p, q) && !In(s, p, Releasing)
    ensures Kept(c, trace, steps, q) && trace[0] == s && AllReached(steps)
    ensures !Safe(c, trace[|steps|], q)
    ensures var t := trace[|steps|];
            InHand(t, q) && t.runs[q].id in t.rows && !t.rows[t.runs[q].id].status.Running?
  {
    var fail := Outcome(p, Fail(c.worker, None, false, s.clock, 0));
    trace, steps := [Apply(c, s, fail)], [];
    StepFirst(c, s, fail, q, trace, steps);
    trace, steps := [s] + trace, [fail] + steps;
  }

  lemma ClaimedTwice(c: Config, s: State, ids: seq<JobId>, k: nat, p: nat)
    requires Ticking(c, s) && Enabled(c, s, ClaimHere(ids)) && k < |ids| && p in s.runs && s.runs[p].id == ids[k]
    ensures Twice(c, Apply(c, s, ClaimHere(ids)), p, s.next + k)
  {
    assert ids[k] in Batch(ids);
  }

  /** Main result: a claim of a job can be relied on to keep it exactly when no earlier
      claim of that job is still about here: queued, in a slot, or being let go. The
      worker could see that before it holds the batch. */
  lemma ReclaimExact(c: Config, s: State, ids: seq<JobId>, k: nat)
    requires Good(c) && Ticking(c, s) && Enabled(c, s, ClaimHere(ids)) && k < |ids|
    ensures NoneHere(s, ids[k])
            <==> forall trace, steps |
                   Kept(c, trace, steps, s.next + k) && trace[0] == Apply(c, s, ClaimHere(ids)) ::
                   Safe(c, trace[|steps|], s.next + k)
  {
    hide Enabled, Apply, Inv, Punctual, ClaimedAlone, Safe, Ticking, Twice;
    var q := s.next + k;
    if NoneHere(s, ids[k]) {
      ClaimedOnce(c, s, ids, k);
      forall trace, steps | Kept(c, trace, steps, q) && trace[0] == Apply(c, s, ClaimHere(ids))
        ensures Safe(c, trace[|steps|], q)
      {
        KeptKeepsInv(c, trace, steps, |steps|, q);
        InvIsSafe(c, trace[|steps|], q);
      }
    } else {
      var p :| p in s.runs && s.runs[p].id == ids[k];
      ClaimedTwice(c, s, ids, k, p);
      var t := Apply(c, s, ClaimHere(ids));
      if In(t, p, Releasing) {
        var trace, steps := LettingGoLoses(c, t, p, q);
      } else {
        var trace, steps := FailingLoses(c, t, p, q);
      }
    }
  }

  /** The leased row of a claim at time zero. */
  function Leased(c: Config, j: Job): Job {
    j.(status := Running, lockedBy := Some(c.worker), lockedUntil := Some(c.lease))
  }

  /** A job claimed, held and started at time zero, until `deadline`. */
  function StartedAtZero(c: Config, j: Job, deadline: Time): State {
    Initial(c).(rows := map[0 := Leased(c, j)], runs := map[0 := Claimed(0, Started)], next := 1,
                deadlines := map[0 := Some(deadline)], ceiling := map[0 := deadline])
  }

  lemma ClaimedAtZero(c: Config, j: Job)
    requires Due(j, 0)
    ensures var s := Initial(c).(rows := map[0 := j]);
            && Enabled(c, s, ClaimHere([0]))
            && Apply(c, s, ClaimHere([0]))
               == s.(rows := map[0 := Leased(c, j)], runs := map[0 := Claimed(0, Unheld)], next := 1)
  {
    var s := Initial(c).(rows := map[0 := j]);
    var t := Apply(c, s, ClaimHere([0]));
    assert Batch([0]) == {0};
    assert t.rows == map[0 := Leased(c, j)];
    assert t.runs == map[0 := Claimed(0, Unheld)];
  }

  lemma OneMore(c: Config, before: seq<State>, done: seq<Step>, step: Step) returns (trace: seq<State>, steps: seq<Step>)
    requires Run(c, before, done) && |before| == |done| + 1 && Enabled(c, before[|done|], step)
    ensures Run(c, trace, steps) && |trace| == |steps| + 1 && trace[|steps|] == Apply(c, before[|done|], step)
  {
    hide Enabled, Apply;
    trace, steps := before + [Apply(c, before[|done|], step)], done + [step];
  }

  lemma HeldAndStarted(c: Config, before: seq<State>, done: seq<Step>, j: Job, m: int)
    returns (trace: seq<State>, steps: seq<Step>)
    requires Good(c) && m > 0 && Run(c, before, done) && |before| == |done| + 1
    requires before[|done|] == Initial(c).(rows := map[0 := Leased(c, j)], runs := map[0 := Claimed(0, Unheld)], next := 1)
    ensures Run(c, trace, steps) && |trace| == |steps| + 1 && trace[|steps|] == StartedAtZero(c, j, m)
  {
    hide Run;
    trace, steps := OneMore(c, before, done, HoldNew(0));
    assert trace[|steps|].deadlines == map[0 := None];
    trace, steps := OneMore(c, trace, steps, Start(0, m));
    assert trace[|steps|].deadlines == map[0 := Some(m)];
  }

  lemma StartedAtOnce(c: Config, j: Job, m: int) returns (trace: seq<State>, steps: seq<Step>)
    requires Good(c) && Due(j, 0) && m > 0
    ensures Run(c, trace, steps) && |trace| == |steps| + 1 && trace[|steps|] == StartedAtZero(c, j, m)
  {
    var s0 := Initial(c);
    assert Run(c, [s0], []);
    hide Run;
    trace, steps := OneMore(c, [s0], [], Insert(0, j));
    assert trace[|steps|] == s0.(rows := map[0 := j]);
    ClaimedAtZero(c, j);
    trace, steps := OneMore(c, trace, steps, ClaimHere([0]));
    trace, steps := HeldAndStarted(c, trace, steps, j, m);
  }

  /** Such claims do come up: of a job that fails and is due again at once, with run_job's
      `release` still to come. */
  lemma ReclaimComesUp(c: Config, job: Job) returns (trace: seq<State>, steps: seq<Step>)
    requires Good(c) && job == NewJob(None, false, 0)
    ensures Run(c, trace, steps) && |trace| == |steps| + 1 && Enabled(c, trace[|steps|], ClaimHere([0]))
    ensures trace[|steps|].runs == map[0 := Claimed(0, Releasing)]
  {
    hide Run;
    trace, steps := StartedAtOnce(c, job, 1);
    trace, steps := OneMore(c, trace, steps, Outcome(0, Fail(c.worker, None, false, 0, 0)));
    assert trace[|steps|].rows == map[0 := job.(attempts := 1)];
  }

  /** The started job past its deadline of one tick, at a beat's end. */
  function Hung(c: Config, j: Job, clock: Time): State {
    StartedAtZero(c, j, 1).(clock := clock, nextBeat := clock + c.beat)
  }

  lemma BeatPasses(c: Config, before: seq<State>, done: seq<Step>, j: Job, t: Time)
    returns (trace: seq<State>, steps: seq<Step>)
    requires Good(c) && t >= 0 && Run(c, before, done) && |before| == |done| + 1 && before[|done|] == Hung(c, j, t)
    ensures Run(c, trace, steps) && |trace| == |steps| + 1 && trace[|steps|] == Hung(c, j, t + c.beat)
  {
    hide Run;
    trace, steps := OneMore(c, before, done, Tick(c.beat));
    var s := trace[|steps|];
    assert Extended(c, s) == {} && ApplyAll(s.rows, Each({}, Extend(c.worker, s.clock, c.lease))) == s.rows;
    trace, steps := OneMore(c, trace, steps, Beat(true));
  }

  /** ... and of a job that hangs past its ceiling and is swept, while its first run goes
      on in its slot. */
  lemma HungReclaimComesUp(c: Config, job: Job) returns (trace: seq<State>, steps: seq<Step>)
    requires Good(c) && job == NewJob(None, false, 0)
    ensures Run(c, trace, steps) && |trace| == |steps| + 1 && Enabled(c, trace[|steps|], ClaimHere([0]))
    ensures trace[|steps|].runs == map[0 := Claimed(0, Started)]
  {
    hide Run;
    trace, steps := StartedAtOnce(c, job, 1);
    trace, steps := BeatPasses(c, trace, steps, job, 0);
    trace, steps := BeatPasses(c, trace, steps, job, c.beat);
    trace, steps := BeatPasses(c, trace, steps, job, 2 * c.beat);
    trace, steps := OneMore(c, trace, steps, Tick(1));
    trace, steps := OneMore(c, trace, steps, Others(map[0 := ReapBack(c.lease + 1)]));
    assert trace[|steps|].rows == map[0 := job.(recoveries := 1)];
  }

  // ---------- hung jobs ----------

  /** Every lease of this worker's was set by now, and a started job's by its ceiling. */
  ghost predicate CeilingInv(c: Config, s: State) {
    && (forall id <- s.rows | Owned(s.rows[id], c.worker) ::
          s.rows[id].lockedUntil.Some? && s.rows[id].lockedUntil.value <= s.clock + c.lease)
    && (forall id <- s.ceiling | id in s.deadlines :: s.deadlines[id] == Some(s.ceiling[id]))
    && (forall id <- s.ceiling | id in s.rows && Owned(s.rows[id], c.worker) ::
          s.rows[id].lockedUntil.value < s.ceiling[id] + c.lease)
  }

  lemma OthersKeepLease(c: Config, clock: Time, j: Job, a: Action)
    requires Guard(a, j) && ByOthers(c, a, clock)
    requires Effect(a, j).Some? && Owned(Effect(a, j).value, c.worker)
    ensures Owned(j, c.worker) && Effect(a, j).value.lockedUntil == j.lockedUntil
  {}

  lemma OwnOutcomeEndsLease(c: Config, j: Job, a: Action)
    requires OwnOutcome(c, a) || a == Release(c.worker)
    ensures Effect(a, j).Some? && !Owned(Effect(a, j).value, c.worker)
  {}

  /** A row this worker owns after a step by others, or after an outcome of its own, it
      owned before, with the lease it has now. */
  ghost predicate LeasesFrom(c: Config, rows: Rows, rows': Rows) {
    forall id <- rows' | Owned(rows'[id], c.worker) ::
      id in rows && Owned(rows[id], c.worker) && rows'[id].lockedUntil == rows[id].lockedUntil
  }

  lemma WritesKeepLeases(c: Config, s: State, step: Step)
    requires Enabled(c, s, step) && (step.Others? || step.Outcome? || step.Return? || step.Insert?)
    ensures LeasesFrom(c, s.rows, Apply(c, s, step).rows)
  {
    var rows' := Apply(c, s, step).rows;
    forall id <- rows' | Owned(rows'[id], c.worker)
      ensures id in s.rows && Owned(s.rows[id], c.worker) && rows'[id].lockedUntil == s.rows[id].lockedUntil
    {
      if step.Others? && id in step.acts {
        OthersKeepLease(c, s.clock, s.rows[id], step.acts[id]);
      } else if step.Outcome? && id == s.runs[step.q].id {
        OwnOutcomeEndsLease(c, s.rows[id], step.action);
      } else if step.Return? && id == s.runs[step.q].id {
        OwnOutcomeEndsLease(c, s.rows[id], Release(c.worker));
      }
    }
  }

  lemma BeatKeepsCeiling(c: Config, s: State, reached: bool)
    requires Good(c) && CeilingInv(c, s) && Enabled(c, s, Beat(reached))
    ensures CeilingInv(c, Apply(c, s, Beat(reached)))
  {}

  lemma ClaimKeepsCeiling(c: Config, s: State, ids: seq<JobId>)
    requires Good(c) && CeilingInv(c, s) && Enabled(c, s, ClaimHere(ids))
    ensures CeilingInv(c, Apply(c, s, ClaimHere(ids)))
  {
    hide Numbered;
  }

  lemma StepKeepsCeiling(c: Config, s: State, step: Step)
    requires Good(c) && CeilingInv(c, s) && Enabled(c, s, step)
    ensures CeilingInv(c, Apply(c, s, step))
  {
    if step.Beat? {
      BeatKeepsCeiling(c, s, step.reached);
    } else if step.ClaimHere? {
      ClaimKeepsCeiling(c, s, step.ids);
    } else if step.Others? || step.Outcome? || step.Return? || step.Insert? {
      WritesKeepLeases(c, s, step);
      hide ApplyAll, Effect, Guard;
    }
  }

  /** Started, with its clock running out at `until`, or no longer in hand. */
  predicate Clocked(s: State, q: nat, until: Time) {
    && q < s.next
    && (InHand(s, q) ==>
          In(s, q, Started) && s.runs[q].id in s.deadlines && s.deadlines[s.runs[q].id] == Some(until))
  }

  lemma StepKeepsClocked(c: Config, s: State, step: Step, q: nat, until: Time)
    requires Good(c) && Inv(c, s, q) && Enabled(c, s, step) && Clocked(s, q, until)
    ensures Clocked(Apply(c, s, step), q, until)
  {
    hide Covered, ApplyAll;
  }

  lemma StartSetsClock(c: Config, s: State, q: nat, m: int)
    requires Inv(c, s, q) && Enabled(c, s, Start(q, m))
    ensures Clocked(Apply(c, s, Start(q, m)), q, s.clock + m)
  {}

  /** The execution clock of a claim in hand runs out m after its start, whatever other
      claims are held or let go meanwhile. */
  lemma {:induction false} StartedClock(c: Config, trace: seq<State>, steps: seq<Step>, k: nat, i: nat, q: nat, m: int)
    requires Good(c) && Run(c, trace, steps) && Kept(c, trace, steps, q)
    requires k < i < |trace| && steps[k] == Start(q, m)
    ensures Clocked(trace[i], q, trace[k].clock + m)
    decreases i
  {
    hide Enabled, Apply, Inv, Punctual, ClaimedAlone, Clocked;
    InitialInv(c, q);
    KeptKeepsInv(c, trace, steps, i - 1, q);
    if i == k + 1 {
      StartSetsClock(c, trace[k], q, m);
    } else {
      StartedClock(c, trace, steps, k, i - 1, q, m);
      StepKeepsClocked(c, trace[i - 1], steps[i - 1], q, trace[k].clock + m);
    }
  }

  /** Main result: a job whose execution clock started at s with ceiling M can be swept by
      s + M + lease, in any run at all: short of claiming it again, nothing this worker
      does props it up longer. */
  lemma {:induction false} HungJobIsRecoverable(c: Config, trace: seq<State>, steps: seq<Step>, i: nat)
    requires Good(c) && Run(c, trace, steps) && i < |trace|
    ensures CeilingInv(c, trace[i])
    ensures forall id <- trace[i].ceiling | id in trace[i].rows && Owned(trace[i].rows[id], c.worker) ::
              && trace[i].rows[id].lockedUntil.value < trace[i].ceiling[id] + c.lease
              && (trace[i].clock >= trace[i].ceiling[id] + c.lease ==> trace[i].rows[id].lockedUntil.value < trace[i].clock)
  {
    hide Enabled, Apply;
    if i > 0 {
      HungJobIsRecoverable(c, trace, steps, i - 1);
      StepKeepsCeiling(c, trace[i - 1], steps[i - 1]);
    }
  }

  /** The job is claimed, held or started by this step. */
  predicate Renews(s: State, step: Step, id: JobId) {
    || (step.ClaimHere? && id in step.ids)
    || ((step.HoldNew? || step.Start?) && step.q in s.runs && s.runs[step.q].id == id)
  }

  lemma StepKeepsCeilingOf(c: Config, s: State, step: Step, id: JobId)
    requires Enabled(c, s, step) && !Renews(s, step, id) && id in s.ceiling
    ensures id in Apply(c, s, step).ceiling && Apply(c, s, step).ceiling[id] == s.ceiling[id]
  {}

  lemma {:induction false} CeilingSince(c: Config, trace: seq<State>, steps: seq<Step>, k: nat, i: nat, q: nat, m: int)
    requires Run(c, trace, steps) && k < i < |trace| && steps[k] == Start(q, m)
    requires q in trace[k].runs && forall j | k < j < i :: !Renews(trace[j], steps[j], trace[k].runs[q].id)
    ensures trace[k].runs[q].id in trace[i].ceiling && trace[i].ceiling[trace[k].runs[q].id] == trace[k].clock + m
    decreases i
  {
    if i == k + 1 {
      assert trace[i] == Apply(c, trace[k], steps[k]);
    } else {
      hide Enabled, Apply, Renews;
      CeilingSince(c, trace, steps, k, i - 1, q, m);
      StepKeepsCeilingOf(c, trace[i - 1], steps[i - 1], trace[k].runs[q].id);
    }
  }

  /** Main result: so from a start with ceiling m, in any run at all, as long as the job is
      not claimed, held or started here again, a lease this worker has on it ends within m
      and a lease of the start, and from then on it can be swept. */
  lemma HungSinceStart(c: Config, trace: seq<State>, steps: seq<Step>, k: nat, i: nat, q: nat, m: int)
    requires Good(c) && Run(c, trace, steps) && k < i < |trace| && steps[k] == Start(q, m)
    requires q in trace[k].runs && forall j | k < j < i :: !Renews(trace[j], steps[j], trace[k].runs[q].id)
    ensures var id, s := trace[k].runs[q].id, trace[i];
            id in s.rows && s.rows[id].status == Running && s.rows[id].lockedBy == Some(c.worker) ==>
              && s.rows[id].lockedUntil.Some? && s.rows[id].lockedUntil.value < trace[k].clock + m + c.lease
              && (trace[k].clock + m + c.lease <= s.clock ==> s.rows[id].lockedUntil.value < s.clock)
  {
    hide Enabled, Apply, Renews;
    CeilingSince(c, trace, steps, k, i, q, m);
    HungJobIsRecoverable(c, trace, steps, i);
  }
}
