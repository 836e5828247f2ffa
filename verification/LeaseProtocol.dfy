/** The lease protocol with every statement atomic: any number of workers, reapers
    and operators, calling in any order, with any readings of the clock. */
module LeaseProtocol {
  import opened Jobs

  /** Why a row is dead. */
  datatype Death = ByReaper | ByFailure(permanent: bool)

  /** What has happened to one job. claims and releases start over when an operator
      retries it, as attempts and recoveries do. */
  datatype History = History(
    transactional: bool,
    claims: nat,
    releases: nat,
    completions: nat,
    death: Option<Death>,
    purged: Option<Status>)

  function NewHistory(transactional: bool): History {
    History(transactional, 0, 0, 0, None, None)
  }

  function Record(h: History, a: Action, j: Job): History {
    match a
    case Claim(_, _, _) => h.(claims := h.claims + 1)
    case Release(_) => h.(releases := h.releases + 1)
    case Succeed(_, _) => h.(completions := h.completions + 1)
    case ReapDead(_) => h.(death := Some(ByReaper))
    case Fail(_, limit, permanent, now, delay) =>
      if Failed(j, limit, permanent, now, delay).status.Dead? then h.(death := Some(ByFailure(permanent))) else h
    case Retry(_) => h.(claims := 0, releases := 0, death := None)
    case Purge(_, _) => h.(purged := Some(j.status))
    case Extend(_, _, _) => h
    case ReapBack(_) => h
    case Count(_, _) => h
    case Touch => h
  }

  datatype State = State(rows: Rows, hist: map<JobId, History>, nextId: JobId)

  const Initial := State(map[], map[], 0)

  /** Write is one committed transaction: it may hold several statements' writes. */
  datatype Step = Insert(job: Job) | Write(acts: map<JobId, Action>)

  /** A row nobody has claimed yet. */
  predicate Unclaimed(j: Job) {
    && j.status.Pending? && j.attempts == 0 && j.recoveries == 0
    && j.lockedBy == None && j.lockedUntil == None && j.finishedAt == None
  }

  ghost predicate Enabled(s: State, step: Step) {
    match step
    case Insert(job) => Unclaimed(job)
    case Write(acts) => Legal(s.rows, acts) && forall id <- acts :: !acts[id].Count?
  }

  function RecordAll(rows: Rows, hist: map<JobId, History>, acts: map<JobId, Action>): map<JobId, History> {
    map id | id in hist :: if id in acts && id in rows then Record(hist[id], acts[id], rows[id]) else hist[id]
  }

  function Apply(s: State, step: Step): State {
    match step
    case Insert(job) =>
      State(s.rows[s.nextId := job], s.hist[s.nextId := NewHistory(job.transactional)], s.nextId + 1)
    case Write(acts) => State(ApplyAll(s.rows, acts), RecordAll(s.rows, s.hist, acts), s.nextId)
  }

  ghost predicate Run(trace: seq<State>, steps: seq<Step>) {
    && |trace| == |steps| + 1
    && trace[0] == Initial
    && forall i | 0 <= i < |steps| :: Enabled(trace[i], steps[i]) && trace[i + 1] == Apply(trace[i], steps[i])
  }

  // ---------- invariants of one job ----------

  /** A lease is present on a running row and absent on a pending or dead one;
      a succeeded row keeps the last one. */
  predicate LeaseShape(j: Job) {
    && j.lockedBy.Some? == j.lockedUntil.Some?
    && (j.lockedBy.Some? <==> j.status.Running? || j.status.Succeeded?)
  }

  /** Every claim is accounted for: it ended in a counted failure, a recovery or a
      release, or it is the one now running or done. */
  predicate Conserved(j: Job, h: History) {
    h.claims == j.attempts + j.recoveries + h.releases + (if j.status.Running? || j.status.Succeeded? then 1 else 0)
  }

  /** Nothing is dead-lettered before its limit, unless its task said so. */
  predicate DeathJustified(j: Job, h: History) {
    match h.death
    case None => !j.status.Dead?
    case Some(ByReaper) => j.status.Dead? && j.recoveries >= j.maxRecoveries
    case Some(ByFailure(permanent)) => j.status.Dead? && (permanent || j.attempts >= j.maxAttempts)
  }

  predicate JobInv(j: Job, h: History) {
    && LeaseShape(j) && Conserved(j, h) && DeathJustified(j, h)
    && h.transactional == j.transactional
    && h.purged == None
    && h.completions == (if j.status.Succeeded? then 1 else 0)
  }

  /** A purged job completed once if it had succeeded when it was deleted, else never. */
  predicate PurgedInv(h: History) {
    && h.purged.Some?
    && h.completions == (if h.purged.value.Succeeded? then 1 else 0)
  }

  lemma WriteKeepsJobInv(j: Job, h: History, a: Action)
    requires JobInv(j, h) && Guard(a, j) && !a.Count?
    ensures Effect(a, j).Some? ==> JobInv(Effect(a, j).value, Record(h, a, j))
    ensures Effect(a, j).None? ==> PurgedInv(Record(h, a, j))
  {}

  ghost predicate Inv(s: State) {
    && s.rows.Keys <= s.hist.Keys
    && (forall id <- s.hist :: id < s.nextId)
    && (forall id <- s.rows :: JobInv(s.rows[id], s.hist[id]))
    && (forall id <- s.hist | id !in s.rows :: PurgedInv(s.hist[id]))
  }

  lemma StepKeepsInv(s: State, step: Step)
    requires Inv(s) && Enabled(s, step)
    ensures Inv(Apply(s, step))
  {
    var t := Apply(s, step);
    forall id <- t.hist
      ensures id < t.nextId
      ensures if id in t.rows then JobInv(t.rows[id], t.hist[id]) else PurgedInv(t.hist[id])
    {
      if step.Write? && id in step.acts {
        WriteKeepsJobInv(s.rows[id], s.hist[id], step.acts[id]);
      }
    }
  }

  lemma {:induction false} RunKeepsInv(trace: seq<State>, steps: seq<Step>, i: nat)
    requires Run(trace, steps) && i < |trace|
    ensures Inv(trace[i])
  {
    if i > 0 {
      RunKeepsInv(trace, steps, i - 1);
      StepKeepsInv(trace[i - 1], steps[i - 1]);
    }
  }

  /** Main result: in every state of every run, each job's claims since it was
      inserted or last retried are exactly its counted failures, recoveries and
      releases, plus the claim that is running or succeeded. */
  lemma Conservation(trace: seq<State>, steps: seq<Step>, i: nat, id: JobId)
    requires Run(trace, steps) && i < |trace| && id in trace[i].rows
    ensures id in trace[i].hist
    ensures var j, h := trace[i].rows[id], trace[i].hist[id];
            h.claims == j.attempts + j.recoveries + h.releases
                        + (if j.status.Running? || j.status.Succeeded? then 1 else 0)
  {
    RunKeepsInv(trace, steps, i);
  }

  /** Main result: a dead row died of its recoveries, of its attempts, or of a
      permanent error. */
  lemma DeadLetteredInTime(trace: seq<State>, steps: seq<Step>, i: nat, id: JobId)
    requires Run(trace, steps) && i < |trace| && id in trace[i].rows && trace[i].rows[id].status.Dead?
    ensures id in trace[i].hist
    ensures var j, h := trace[i].rows[id], trace[i].hist[id];
            || (h.death == Some(ByReaper) && j.recoveries >= j.maxRecoveries)
            || h.death == Some(ByFailure(true))
            || (h.death == Some(ByFailure(false)) && j.attempts >= j.maxAttempts)
  {
    RunKeepsInv(trace, steps, i);
  }

  // ---------- attempts left ----------

  /** Attempt limits, a row's own and the ones failures bring, are at least one. */
  ghost predicate LimitsPositive(s: State, step: Step) {
    match step
    case Insert(job) => job.maxAttempts >= 1
    case Write(acts) => forall id <- acts | acts[id].Fail? && acts[id].limit.Some? :: acts[id].limit.value >= 1
  }

  predicate AttemptsLeft(j: Job) {
    j.maxAttempts >= 1 && (j.status.Dead? || j.attempts < j.maxAttempts)
  }

  lemma StepKeepsAttemptsLeft(s: State, step: Step)
    requires Enabled(s, step) && LimitsPositive(s, step) && forall id <- s.rows :: AttemptsLeft(s.rows[id])
    ensures forall id <- Apply(s, step).rows :: AttemptsLeft(Apply(s, step).rows[id])
  {}

  /** Main result: a job that is not dead has attempts left, however its limit is
      lowered on the way: the lowered limit is compared in the same write. */
  lemma {:induction false} LiveJobsHaveAttemptsLeft(trace: seq<State>, steps: seq<Step>, i: nat)
    requires Run(trace, steps) && i < |trace|
    requires forall k | 0 <= k < |steps| :: LimitsPositive(trace[k], steps[k])
    ensures forall id <- trace[i].rows :: AttemptsLeft(trace[i].rows[id])
  {
    if i > 0 {
      LiveJobsHaveAttemptsLeft(trace, steps, i - 1);
      StepKeepsAttemptsLeft(trace[i - 1], steps[i - 1]);
    }
  }

  // ---------- bounded life ----------

  /** What the bound on one job asks of the writes to it: no failure brings an attempt
      limit over `most`, and it is not sent back to pending at its recovery limit. */
  predicate TidyAction(a: Action, j: Job, most: int) {
    && (a.Fail? && a.limit.Some? ==> a.limit.value <= most)
    && (a.ReapBack? ==> !AtLimit(j))
  }

  predicate TidyStep(s: State, step: Step, id: JobId, most: int) {
    match step
    case Insert(job) => id == s.nextId ==> job.maxAttempts <= most
    case Write(acts) => id in acts && id in s.rows ==> TidyAction(acts[id], s.rows[id], most)
  }

  /** A limit of zero or less is reached by the first recovery, as a limit of one is. */
  function RecoveryLimit(j: Job): int {
    if j.maxRecoveries >= 1 then j.maxRecoveries else 1
  }

  predicate LifeInv(j: Job, most: int) {
    && j.maxAttempts <= most && j.attempts <= most && j.recoveries <= RecoveryLimit(j)
    && j.attempts + j.recoveries < most + RecoveryLimit(j)
    && (j.status.Dead? || (j.attempts < most && j.recoveries < RecoveryLimit(j)))
  }

  lemma StepKeepsLife(s: State, step: Step, id: JobId, most: int)
    requires most >= 1 && Enabled(s, step) && TidyStep(s, step, id, most) && (id in s.rows ==> LifeInv(s.rows[id], most))
    ensures id in Apply(s, step).rows ==> LifeInv(Apply(s, step).rows[id], most)
  {}

  lemma {:induction false} RunKeepsLife(trace: seq<State>, steps: seq<Step>, i: nat, id: JobId, most: int)
    requires Run(trace, steps) && i < |trace| && most >= 1
    requires forall k | 0 <= k < |steps| :: TidyStep(trace[k], steps[k], id, most)
    ensures id in trace[i].rows ==> LifeInv(trace[i].rows[id], most)
  {
    hide Enabled, Apply, TidyStep, LifeInv;
    if i > 0 {
      RunKeepsLife(trace, steps, i - 1, id, most);
      StepKeepsLife(trace[i - 1], steps[i - 1], id, most);
    }
  }

  /** Main result: a job whose attempt limit is never over `most`, the row's own or a
      failure's, and which sweeps dead-letter at its recovery limit, is not claimed more
      than most + max_recoveries - 1 times, not counting claims handed back unrun,
      whatever befalls other jobs. */
  lemma BoundedLife(trace: seq<State>, steps: seq<Step>, i: nat, id: JobId, most: int)
    requires Run(trace, steps) && i < |trace| && id in trace[i].rows && most >= 1
    requires forall k | 0 <= k < |steps| :: TidyStep(trace[k], steps[k], id, most)
    ensures id in trace[i].hist
    ensures var j, h := trace[i].rows[id], trace[i].hist[id];
            h.claims <= most + (if j.maxRecoveries >= 1 then j.maxRecoveries else 1) - 1 + h.releases
  {
    RunKeepsInv(trace, steps, i);
    RunKeepsLife(trace, steps, i, id, most);
  }

  lemma OneRowWrite(j: Job, h: History, a: Action)
    requires Guard(a, j) && !a.Count? && !a.Purge?
    ensures var s := State(map[0 := j], map[0 := h], 1);
            && Effect(a, j).Some? && Enabled(s, Write(map[0 := a]))
            && Apply(s, Write(map[0 := a])) == State(map[0 := Effect(a, j).value], map[0 := Record(h, a, j)], 1)
  {
    var s := State(map[0 := j], map[0 := h], 1);
    assert Apply(s, Write(map[0 := a])).rows == map[0 := Effect(a, j).value];
  }

  /** A sweep that sends a row back at its recovery limit breaks the bound. */
  lemma UntidySweepBreaksBound(w: WorkerId) returns (trace: seq<State>, steps: seq<Step>)
    ensures Run(trace, steps) && |trace| == 5 && 0 in trace[4].rows && 0 in trace[4].hist
    ensures steps[2] == Write(map[0 := ReapBack(2)]) && trace[2].rows.Keys == {0}
    ensures trace[2].rows[0].lockedUntil == Some(1)
    ensures var j, h := trace[4].rows[0], trace[4].hist[0];
            h.claims > j.maxAttempts + j.maxRecoveries - 1 + h.releases
  {
    var job := NewJob(None, false, 0).(maxAttempts := 1, maxRecoveries := 1);
    steps := [Insert(job), Write(map[0 := Claim(w, 0, 1)]), Write(map[0 := ReapBack(2)]), Write(map[0 := Claim(w, 2, 1)])];
    var s1 := State(map[0 := job], map[0 := NewHistory(false)], 1);
    var s2 := State(map[0 := job.(status := Running, lockedBy := Some(w), lockedUntil := Some(1))],
                    map[0 := NewHistory(false).(claims := 1)], 1);
    var s3 := State(map[0 := job.(recoveries := 1)], map[0 := NewHistory(false).(claims := 1)], 1);
    var s4 := State(map[0 := job.(recoveries := 1, status := Running, lockedBy := Some(w), lockedUntil := Some(3))],
                    map[0 := NewHistory(false).(claims := 2)], 1);
    assert Apply(Initial, steps[0]) == s1;
    OneRowWrite(job, s1.hist[0], Claim(w, 0, 1));
    OneRowWrite(s2.rows[0], s2.hist[0], ReapBack(2));
    OneRowWrite(s3.rows[0], s3.hist[0], Claim(w, 2, 1));
    hide Enabled, Apply;
    trace := [Initial, s1, s2, s3, s4];
  }
}
