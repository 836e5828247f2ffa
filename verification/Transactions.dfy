/** The lease protocol below its statements: open transactions holding row locks and
    uncommitted rows, statements of any number of them interleaved, and commits whose
    acknowledgement may be lost. Read Committed as in section 13.2.1 of the PostgreSQL 16
    documentation: a write waits for (or skips) a row another transaction has locked, and
    re-checks its WHERE clause on the newest committed version of the row. */
module Transactions {
  import opened Jobs
  import L = LeaseProtocol

  type TxnId = nat

  /** An uncommitted write to one row: the guarded write it amounts to so far, and the
      row version it left (None once deleted). */
  datatype Write = Write(action: Action, row: Option<Job>)

  /** `task` is the job whose task body has run inside this transaction, if one has. */
  datatype Txn = Txn(task: Option<JobId>, writes: map<JobId, Write>)

  /** `work` counts the committed runs of each transactional job's task body. */
  datatype State = State(
    rows: Rows,
    work: map<JobId, nat>,
    txns: map<TxnId, Txn>,
    hist: map<JobId, L.History>,
    nextId: JobId)

  const Initial := State(map[], map[], map[], map[], 0)

  /** A process that is killed, loses its connection or raises inside the transaction
      block is an Abort. Whether a Commit's acknowledgement arrives is the client's
      affair: a client that missed it may Begin another transaction, as any client may
      at any time. */
  datatype Step =
    | Insert(job: Job)
    | Begin(x: TxnId)
    | Body(x: TxnId, id: JobId)
    | Act(x: TxnId, id: JobId, action: Action)
    | Settle(x: TxnId, id: JobId, permanent: bool, now: Time, delay: int)
    | Commit(x: TxnId)
    | Abort(x: TxnId)

  ghost predicate LockedByOther(s: State, x: TxnId, id: JobId) {
    exists y <- s.txns :: y != x && id in s.txns[y].writes
  }

  ghost predicate Enabled(s: State, step: Step) {
    match step
    case Insert(job) => L.Unclaimed(job)
    case Begin(x) => x !in s.txns
    // run_job opens a transaction and runs a task that takes a connection inside it
    case Body(x, id) =>
      && x in s.txns && s.txns[x] == Txn(None, map[])
      && id in s.hist && s.hist[id].transactional
    // one row of one statement; only the transaction that ran a job's body marks that job succeeded
    case Act(x, id, a) =>
      && x in s.txns && id in s.rows && id !in s.txns[x].writes
      && !LockedByOther(s, x, id)
      && Guard(a, s.rows[id])
      && !a.Fail?
      && (a.Succeed? && s.rows[id].transactional ==> s.txns[x].task == Some(id))
    // mark_failed's second UPDATE: no ownership test, just the row's id
    case Settle(x, id, _, _, _) =>
      && x in s.txns && id in s.txns[x].writes
      && s.txns[x].writes[id].action.Count? && s.txns[x].writes[id].row.Some?
    // the block ended normally: mark_failed settled what it counted, and a task's job was still held
    case Commit(x) =>
      && x in s.txns
      && (forall id <- s.txns[x].writes :: !s.txns[x].writes[id].action.Count?)
      && (s.txns[x].task.Some? ==>
            s.txns[x].task.value in s.txns[x].writes && s.txns[x].writes[s.txns[x].task.value].action.Succeed?)
    case Abort(x) => x in s.txns
  }

  /** The committed rows once a transaction's versions replace them. */
  function Install(rows: Rows, writes: map<JobId, Write>): Rows {
    map id | id in rows && (id in writes ==> writes[id].row.Some?) ::
      if id in writes then writes[id].row.value else rows[id]
  }

  function Acts(writes: map<JobId, Write>): map<JobId, Action> {
    map id | id in writes :: writes[id].action
  }

  function WorkOf(work: map<JobId, nat>, id: JobId): nat {
    if id in work then work[id] else 0
  }

  function Apply(s: State, step: Step): State
    requires Enabled(s, step)
  {
    match step
    case Insert(job) =>
      s.(rows := s.rows[s.nextId := job], hist := s.hist[s.nextId := L.NewHistory(job.transactional)],
         nextId := s.nextId + 1)
    case Begin(x) => s.(txns := s.txns[x := Txn(None, map[])])
    case Body(x, id) => s.(txns := s.txns[x := s.txns[x].(task := Some(id))])
    case Act(x, id, a) =>
      s.(txns := s.txns[x := s.txns[x].(writes := s.txns[x].writes[id := Write(a, Effect(a, s.rows[id]))])])
    case Settle(x, id, permanent, now, delay) =>
      var w := s.txns[x].writes[id];
      var settled := Write(Fail(w.action.worker, w.action.limit, permanent, now, delay),
                           Some(Settled(w.row.value, permanent, now, delay)));
      s.(txns := s.txns[x := s.txns[x].(writes := s.txns[x].writes[id := settled])])
    case Commit(x) =>
      var t := s.txns[x];
      State(Install(s.rows, t.writes),
            if t.task.Some? then s.work[t.task.value := WorkOf(s.work, t.task.value) + 1] else s.work,
            s.txns - {x},
            L.RecordAll(s.rows, s.hist, Acts(t.writes)),
            s.nextId)
    case Abort(x) => s.(txns := s.txns - {x})
  }

  ghost predicate Run(trace: seq<State>, steps: seq<Step>) {
    && |trace| == |steps| + 1
    && trace[0] == Initial
    && forall i | 0 <= i < |steps| :: Enabled(trace[i], steps[i]) && trace[i + 1] == Apply(trace[i], steps[i])
  }

  // ---------- what holds in every reachable state ----------

  /** The committed tables, with everything uncommitted hidden. */
  function Committed(s: State): L.State {
    L.State(s.rows, s.hist, s.nextId)
  }

  /** No row is locked twice. */
  ghost predicate LocksDisjoint(txns: map<TxnId, Txn>) {
    forall x, y | x in txns && y in txns && x != y :: txns[x].writes.Keys !! txns[y].writes.Keys
  }

  /** An uncommitted version is still what its guarded write makes of the row as
      committed now, whatever has been committed since it was written. */
  ghost predicate Current(rows: Rows, t: Txn) {
    forall id <- t.writes ::
      && id in rows
      && Guard(t.writes[id].action, rows[id])
      && t.writes[id].row == Effect(t.writes[id].action, rows[id])
  }

  /** A job's completion is marked only where its task's body ran. */
  ghost predicate TaskInv(rows: Rows, hist: map<JobId, L.History>, t: Txn) {
    && (t.task.Some? ==> t.task.value in hist && hist[t.task.value].transactional)
    && (forall id <- t.writes | id in rows && rows[id].transactional && t.writes[id].action.Succeed? ::
          t.task == Some(id))
  }

  ghost predicate TxnInv(rows: Rows, hist: map<JobId, L.History>, t: Txn) {
    Current(rows, t) && TaskInv(rows, hist, t)
  }

  ghost predicate TxnsInv(s: State) {
    LocksDisjoint(s.txns) && forall x <- s.txns :: TxnInv(s.rows, s.hist, s.txns[x])
  }

  ghost predicate WorkInv(s: State) {
    && s.work.Keys <= s.hist.Keys
    && forall id <- s.hist :: WorkOf(s.work, id) == (if s.hist[id].transactional then s.hist[id].completions else 0)
  }

  ghost predicate Inv(s: State) {
    L.Inv(Committed(s)) && TxnsInv(s) && WorkInv(s)
  }

  /** What one transaction adds up to, as one write of the atomic protocol. */
  function CommittedStep(s: State, step: Step): L.Step
    requires Enabled(s, step) && (step.Insert? || step.Commit?)
  {
    if step.Insert? then L.Insert(step.job) else L.Write(Acts(s.txns[step.x].writes))
  }

  lemma InstallingIsApplying(rows: Rows, t: Txn)
    requires Current(rows, t)
    ensures Install(rows, t.writes) == ApplyAll(rows, Acts(t.writes))
  {}

  /** A commit's effect on the committed tables is one legal step of the atomic
      protocol, and every other step of a transaction has none. */
  lemma StepRefines(s: State, step: Step)
    requires TxnsInv(s) && Enabled(s, step)
    ensures if step.Insert? || step.Commit?
            then L.Enabled(Committed(s), CommittedStep(s, step))
                 && Committed(Apply(s, step)) == L.Apply(Committed(s), CommittedStep(s, step))
            else Committed(Apply(s, step)) == Committed(s)
  {
    if step.Commit? {
      var t := s.txns[step.x];
      assert TxnInv(s.rows, s.hist, t);
      InstallingIsApplying(s.rows, t);
    }
  }

  /** A change of committed rows that a transaction has not locked leaves it as it was. */
  lemma TxnUntouched(rows: Rows, hist: map<JobId, L.History>, rows': Rows, hist': map<JobId, L.History>, t: Txn)
    requires TxnInv(rows, hist, t)
    requires forall id <- t.writes :: id in rows' && rows'[id] == rows[id]
    requires forall id <- hist :: id in hist' && hist'[id].transactional == hist[id].transactional
    ensures TxnInv(rows', hist', t)
  {}

  /** Nor does what other transactions write before they commit. */
  lemma ReplaceTxn(s: State, x: TxnId, t: Txn)
    requires TxnsInv(s) && TxnInv(s.rows, s.hist, t)
    requires forall id <- t.writes :: !LockedByOther(s, x, id)
    ensures TxnsInv(s.(txns := s.txns[x := t]))
  {
    var txns := s.txns[x := t];
    forall y, z | y in txns && z in txns && y != z ensures txns[y].writes.Keys !! txns[z].writes.Keys {
      if y == x {
        assert forall id <- t.writes :: id !in s.txns[z].writes;
      } else if z == x {
        assert forall id <- t.writes :: id !in s.txns[y].writes;
      }
    }
  }

  lemma OwnLocks(s: State, x: TxnId)
    requires LocksDisjoint(s.txns) && x in s.txns
    ensures forall id <- s.txns[x].writes :: !LockedByOther(s, x, id)
  {
    forall id <- s.txns[x].writes ensures !LockedByOther(s, x, id) {
      forall y <- s.txns | y != x ensures id !in s.txns[y].writes {
        assert s.txns[x].writes.Keys !! s.txns[y].writes.Keys;
      }
    }
  }

  lemma ActKeepsTxns(s: State, x: TxnId, id: JobId, a: Action)
    requires TxnsInv(s) && Enabled(s, Act(x, id, a))
    ensures TxnsInv(Apply(s, Act(x, id, a)))
  {
    var t := s.txns[x].(writes := s.txns[x].writes[id := Write(a, Effect(a, s.rows[id]))]);
    assert TxnInv(s.rows, s.hist, s.txns[x]);
    OwnLocks(s, x);
    ReplaceTxn(s, x, t);
  }

  lemma SettledTxn(s: State, step: Step)
    requires TxnsInv(s) && step.Settle? && Enabled(s, step)
    ensures var t, t' := s.txns[step.x], Apply(s, step).txns[step.x];
            TxnInv(s.rows, s.hist, t') && t'.writes.Keys == t.writes.Keys
    ensures Apply(s, step) == s.(txns := s.txns[step.x := Apply(s, step).txns[step.x]])
  {
    hide LocksDisjoint, Settled, Failed;
    assert TxnInv(s.rows, s.hist, s.txns[step.x]);
    SettlingACountedRowFails(s.rows[step.id], s.txns[step.x].writes[step.id].action.limit,
                             step.permanent, step.now, step.delay);
  }

  lemma SettleKeepsTxns(s: State, step: Step)
    requires TxnsInv(s) && step.Settle? && Enabled(s, step)
    ensures TxnsInv(Apply(s, step))
  {
    SettledTxn(s, step);
    OwnLocks(s, step.x);
    hide TxnInv, LockedByOther;
    ReplaceTxn(s, step.x, Apply(s, step).txns[step.x]);
  }

  lemma RecordedIds(rows: Rows, hist: map<JobId, L.History>, acts: map<JobId, Action>)
    ensures L.RecordAll(rows, hist, acts).Keys == hist.Keys
    ensures forall id <- hist :: L.RecordAll(rows, hist, acts)[id].transactional == hist[id].transactional
  {}

  lemma WritesFindRows(rows: Rows, hist: map<JobId, L.History>, t: Txn)
    requires TxnInv(rows, hist, t)
    ensures forall id <- t.writes :: id in rows
  {}

  lemma CommitKeepsTxns(s: State, x: TxnId)
    requires TxnsInv(s) && Enabled(s, Commit(x))
    ensures TxnsInv(Apply(s, Commit(x)))
  {
    hide Guard, Effect, TxnInv, L.Record;
    var s' := Apply(s, Commit(x));
    assert LocksDisjoint(s'.txns);
    RecordedIds(s.rows, s.hist, Acts(s.txns[x].writes));
    forall y <- s'.txns ensures TxnInv(s'.rows, s'.hist, s'.txns[y]) {
      assert s.txns[x].writes.Keys !! s.txns[y].writes.Keys;
      WritesFindRows(s.rows, s.hist, s.txns[y]);
      TxnUntouched(s.rows, s.hist, s'.rows, s'.hist, s.txns[y]);
    }
  }

  lemma InsertKeepsTxns(s: State, job: Job)
    requires TxnsInv(s) && Enabled(s, Insert(job)) && s.nextId !in s.rows && s.nextId !in s.hist
    ensures TxnsInv(Apply(s, Insert(job)))
  {
    var s' := Apply(s, Insert(job));
    forall x <- s'.txns ensures TxnInv(s'.rows, s'.hist, s'.txns[x]) {
      TxnUntouched(s.rows, s.hist, s'.rows, s'.hist, s.txns[x]);
    }
  }

  lemma StepKeepsTxns(s: State, step: Step)
    requires TxnsInv(s) && Enabled(s, step) && s.nextId !in s.rows && s.nextId !in s.hist
    ensures TxnsInv(Apply(s, step))
  {
    match step
    case Insert(job) => InsertKeepsTxns(s, job);
    case Act(x, id, a) => ActKeepsTxns(s, x, id, a);
    case Settle(_, _, _, _, _) => SettleKeepsTxns(s, step);
    case Commit(x) => CommitKeepsTxns(s, x);
    case Begin(x) => ReplaceTxn(s, x, Txn(None, map[]));
    case Abort(_) =>
    case Body(x, id) => ReplaceTxn(s, x, Txn(Some(id), map[]));
  }

  lemma RecordCounts(h: L.History, a: Action, j: Job)
    ensures L.Record(h, a, j).completions == h.completions + (if a.Succeed? then 1 else 0)
    ensures L.Record(h, a, j).transactional == h.transactional
  {}

  /** A committing transaction counts a job's work exactly when it marks the job succeeded. */
  lemma CommitCountsBoth(s: State, x: TxnId, id: JobId)
    requires TxnsInv(s) && Enabled(s, Commit(x)) && L.Inv(Committed(s)) && id in s.hist
    ensures var h' := L.RecordAll(s.rows, s.hist, Acts(s.txns[x].writes))[id];
            && h'.completions == s.hist[id].completions
                 + (if id in s.txns[x].writes && s.txns[x].writes[id].action.Succeed? then 1 else 0)
            && h'.transactional == s.hist[id].transactional
    ensures s.txns[x].task == Some(id) ==> s.hist[id].transactional
    ensures s.hist[id].transactional ==>
              (s.txns[x].task == Some(id) <==> id in s.txns[x].writes && s.txns[x].writes[id].action.Succeed?)
  {
    hide Guard, Effect, L.Record, L.LeaseShape, L.Conserved, L.DeathJustified;
    var t := s.txns[x];
    assert TxnInv(s.rows, s.hist, t);
    if id in s.rows {
      assert L.JobInv(s.rows[id], s.hist[id]);
    }
    if id in t.writes {
      assert Acts(t.writes)[id] == t.writes[id].action;
      RecordCounts(s.hist[id], t.writes[id].action, s.rows[id]);
    }
  }

  lemma StepKeepsWork(s: State, step: Step)
    requires TxnsInv(s) && L.Inv(Committed(s)) && WorkInv(s) && Enabled(s, step)
    ensures WorkInv(Apply(s, step))
  {
    hide L.JobInv, L.PurgedInv, L.RecordAll, Install, Acts, Guard, Effect;
    var s' := Apply(s, step);
    if step.Commit? {
      forall id <- s.hist
        ensures id in s'.hist
        ensures WorkOf(s'.work, id) == (if s'.hist[id].transactional then s'.hist[id].completions else 0)
      {
        CommitCountsBoth(s, step.x, id);
        RecordedIds(s.rows, s.hist, Acts(s.txns[step.x].writes));
      }
      RecordedIds(s.rows, s.hist, Acts(s.txns[step.x].writes));
      assert s.txns[step.x].task.Some? ==> s.txns[step.x].task.value in s.hist by {
        assert TxnInv(s.rows, s.hist, s.txns[step.x]);
      }
    }
  }

  lemma FreshId(s: State)
    requires L.Inv(Committed(s))
    ensures s.nextId !in s.rows && s.nextId !in s.hist
  {}

  lemma StepKeepsInv(s: State, step: Step)
    requires Inv(s) && Enabled(s, step)
    ensures Inv(Apply(s, step))
  {
    StepRefines(s, step);
    if step.Insert? || step.Commit? {
      L.StepKeepsInv(Committed(s), CommittedStep(s, step));
    }
    FreshId(s);
    StepKeepsTxns(s, step);
    StepKeepsWork(s, step);
  }

  lemma {:induction false} RunKeepsInv(trace: seq<State>, steps: seq<Step>, i: nat)
    requires Run(trace, steps) && i < |trace|
    ensures Inv(trace[i])
  {
    if i > 0 {
      RunKeepsInv(trace, steps, i - 1);
      StepKeepsInv(trace[i - 1], steps[i - 1]);
    }
  }

  // ---------- main results ----------

  /** The atomic protocol's run that a run of transactions amounts to. */
  lemma {:induction false} RunRefines(trace: seq<State>, steps: seq<Step>)
    returns (high: seq<L.State>, highSteps: seq<L.Step>)
    requires Run(trace, steps)
    ensures L.Run(high, highSteps)
    ensures high[|high| - 1] == Committed(trace[|trace| - 1])
  {
    hide Enabled, Apply;
    if steps == [] {
      high, highSteps := [L.Initial], [];
    } else {
      var n := |steps| - 1;
      var last := trace[n];
      assert Run(trace[..n + 1], steps[..n]);
      high, highSteps := RunRefines(trace[..n + 1], steps[..n]);
      RunKeepsInv(trace, steps, n);
      StepRefines(last, steps[n]);
      assert trace[n + 1] == Apply(last, steps[n]);
      if steps[n].Insert? || steps[n].Commit? {
        high := high + [Committed(trace[n + 1])];
        highSteps := highSteps + [CommittedStep(last, steps[n])];
      }
    }
  }

  /** Main result: in every run, with any interleaving of claims, expiries, sweeps,
      reclaims, failures, retries, crashes and lost acknowledgements, the committed runs
      of a transactional job's task number exactly one if it has succeeded (before it was
      purged, if it has been) and none otherwise. */
  lemma ExactlyOnce(trace: seq<State>, steps: seq<Step>, i: nat, id: JobId)
    requires Run(trace, steps) && i < |trace| && id in trace[i].hist && trace[i].hist[id].transactional
    ensures var s := trace[i];
            var status := if id in s.rows then Some(s.rows[id].status) else s.hist[id].purged;
            (if id in s.work then s.work[id] else 0) == (if status == Some(Succeeded) then 1 else 0)
  {
    RunKeepsInv(trace, steps, i);
    var s := trace[i];
    assert if id in s.rows then L.JobInv(s.rows[id], s.hist[id]) else L.PurgedInv(s.hist[id]);
  }

  /** Succeeded, or purged after it had. */
  predicate HasSucceeded(s: L.State, id: JobId) {
    if id in s.rows then s.rows[id].status.Succeeded? else id in s.hist && s.hist[id].purged == Some(Succeeded)
  }

  lemma StepKeepsSucceeded(s: L.State, step: L.Step, id: JobId)
    requires L.Inv(s) && L.Enabled(s, step) && HasSucceeded(s, id)
    ensures HasSucceeded(L.Apply(s, step), id)
  {
    hide L.JobInv, L.PurgedInv;
  }

  lemma {:induction false} SucceededIsFinal(trace: seq<State>, steps: seq<Step>, i: nat, j: nat, id: JobId)
    requires Run(trace, steps) && i <= j < |trace|
    requires id in trace[i].rows && trace[i].rows[id].status.Succeeded?
    ensures if id in trace[j].rows then trace[j].rows[id].status.Succeeded?
            else id in trace[j].hist && trace[j].hist[id].purged == Some(Succeeded)
    decreases j
  {
    hide Enabled, Apply, L.Enabled, L.Apply, L.Inv, TxnsInv, WorkInv;
    if i < j {
      SucceededIsFinal(trace, steps, i, j - 1, id);
      RunKeepsInv(trace, steps, j - 1);
      StepRefines(trace[j - 1], steps[j - 1]);
      if steps[j - 1].Insert? || steps[j - 1].Commit? {
        StepKeepsSucceeded(Committed(trace[j - 1]), CommittedStep(trace[j - 1], steps[j - 1]), id);
      }
    }
  }

  lemma StepKeepsLockedRow(s: State, step: Step, x: TxnId, id: JobId)
    requires TxnsInv(s) && Enabled(s, step)
    requires x in s.txns && id in s.txns[x].writes && step != Commit(x)
    requires s.nextId !in s.rows
    ensures id in s.rows && id in Apply(s, step).rows && Apply(s, step).rows[id] == s.rows[id]
  {
    assert TxnInv(s.rows, s.hist, s.txns[x]);
    if step.Commit? {
      assert s.txns[x].writes.Keys !! s.txns[step.x].writes.Keys;
    }
  }

  ghost predicate Holds(s: State, x: TxnId, id: JobId) {
    x in s.txns && id in s.txns[x].writes
  }

  lemma CommitChangesOwnOrExpired(s: State, step: Step, id: JobId, worker: WorkerId)
    requires TxnsInv(s) && Enabled(s, step) && s.nextId !in s.rows
    requires id in s.rows && Owned(s.rows[id], worker)
    requires !(id in Apply(s, step).rows && Apply(s, step).rows[id] == s.rows[id])
    ensures step.Commit? && Holds(s, step.x, id)
    ensures var a := s.txns[step.x].writes[id].action;
            || ((a.Extend? || a.Release? || a.Succeed? || a.Fail?) && a.worker == worker)
            || (&& (a.ReapDead? || a.ReapBack?)
                && s.rows[id].lockedUntil.Some? && s.rows[id].lockedUntil.value < a.now)
  {
    if step.Commit? && id in s.txns[step.x].writes {
      assert TxnInv(s.rows, s.hist, s.txns[step.x]);
    }
  }

  /** Main result: a running row is changed only by the worker that holds it, or by a
      sweep after its lease has expired, as the row stands when the change commits and not
      only when it was written. A worker that lost a job writes nothing over its new owner. */
  lemma OnlyOwnerOrSweep(trace: seq<State>, steps: seq<Step>, i: nat, id: JobId, worker: WorkerId)
    requires Run(trace, steps) && i < |steps|
    requires id in trace[i].rows && Owned(trace[i].rows[id], worker)
    requires !(id in trace[i + 1].rows && trace[i + 1].rows[id] == trace[i].rows[id])
    ensures steps[i].Commit? && Holds(trace[i], steps[i].x, id)
    ensures var a := trace[i].txns[steps[i].x].writes[id].action;
            || ((a.Extend? || a.Release? || a.Succeed? || a.Fail?) && a.worker == worker)
            || (&& (a.ReapDead? || a.ReapBack?)
                && trace[i].rows[id].lockedUntil.Some? && trace[i].rows[id].lockedUntil.value < a.now)
  {
    hide Enabled, Apply, Guard, Effect;
    RunKeepsInv(trace, steps, i);
    FreshId(trace[i]);
    CommitChangesOwnOrExpired(trace[i], steps[i], id, worker);
  }

  lemma CommitEnds(s: State, x: TxnId)
    requires Enabled(s, Commit(x))
    ensures x !in Apply(s, Commit(x)).txns
  {}

  /** While a transaction stays open holding a row, no other commit changes that row. */
  lemma {:induction false} LockedRowIsFrozen(trace: seq<State>, steps: seq<Step>, i: nat, j: nat, x: TxnId, id: JobId)
    requires Run(trace, steps) && i <= j < |trace|
    requires forall k | i <= k <= j :: Holds(trace[k], x, id)
    ensures id in trace[i].rows && id in trace[j].rows && trace[j].rows[id] == trace[i].rows[id]
    decreases j
  {
    hide Enabled, Apply, L.Inv, Guard, Effect, TaskInv, WorkInv, LocksDisjoint;
    RunKeepsInv(trace, steps, j);
    assert Holds(trace[j], x, id);
    assert TxnInv(trace[j].rows, trace[j].hist, trace[j].txns[x]);
    if i < j {
      LockedRowIsFrozen(trace, steps, i, j - 1, x, id);
      RunKeepsInv(trace, steps, j - 1);
      FreshId(trace[j - 1]);
      assert Holds(trace[j - 1], x, id) && Holds(trace[j], x, id);
      if steps[j - 1] == Commit(x) {
        CommitEnds(trace[j - 1], x);
      }
      StepKeepsLockedRow(trace[j - 1], steps[j - 1], x, id);
    }
  }

  lemma CountWrites(s: State, step: Step)
    requires TxnsInv(s) && Enabled(s, step) && step.Act? && step.action.Count?
    ensures step.id in s.rows && Owned(s.rows[step.id], step.action.worker)
    ensures Apply(s, step).rows == s.rows && Holds(Apply(s, step), step.x, step.id)
    ensures Apply(s, step).txns[step.x].writes[step.id].action == step.action
  {}

  lemma SettleWrites(s: State, step: Step)
    requires Enabled(s, step) && step.Settle?
    ensures Holds(s, step.x, step.id) && s.txns[step.x].writes[step.id].action.Count?
    ensures Holds(Apply(s, step), step.x, step.id)
    ensures var c := s.txns[step.x].writes[step.id].action;
            Apply(s, step).txns[step.x].writes[step.id].action
            == Fail(c.worker, c.limit, step.permanent, step.now, step.delay)
  {}

  lemma CommitInstalls(s: State, x: TxnId, id: JobId)
    requires TxnsInv(s) && Enabled(s, Commit(x)) && Holds(s, x, id)
    ensures id in s.rows
    ensures s.txns[x].writes[id].action.Fail? ==>
              && id in Apply(s, Commit(x)).rows
              && var f := s.txns[x].writes[id].action;
                 Apply(s, Commit(x)).rows[id] == Failed(s.rows[id], f.limit, f.permanent, f.now, f.delay)
  {
    assert TxnInv(s.rows, s.hist, s.txns[x]);
  }

  lemma StepKeepsWrite(s: State, step: Step, x: TxnId, id: JobId)
    requires Enabled(s, step) && Holds(s, x, id) && Holds(Apply(s, step), x, id)
    ensures var w, w' := s.txns[x].writes[id], Apply(s, step).txns[x].writes[id];
            w' == w || (w.action.Count? && w'.action.Fail?)
  {}

  /** An uncommitted count stays as it is until its transaction settles it. */
  lemma {:induction false} WriteStays(trace: seq<State>, steps: seq<Step>, i: nat, j: nat, x: TxnId, id: JobId)
    requires Run(trace, steps) && i <= j < |trace|
    requires forall k | i <= k <= j :: Holds(trace[k], x, id)
    requires Holds(trace[i], x, id) && Holds(trace[j], x, id) && trace[j].txns[x].writes[id].action.Count?
    ensures trace[i].txns[x].writes[id] == trace[j].txns[x].writes[id]
    decreases j
  {
    hide Apply, Enabled;
    if i < j {
      assert Holds(trace[j - 1], x, id) && Holds(trace[j], x, id);
      StepKeepsWrite(trace[j - 1], steps[j - 1], x, id);
      WriteStays(trace, steps, i, j - 1, x, id);
    }
  }

  /** A settled failure stays as it is until its transaction ends. */
  lemma {:induction false} SettledStays(trace: seq<State>, steps: seq<Step>, i: nat, j: nat, x: TxnId, id: JobId)
    requires Run(trace, steps) && i <= j < |trace|
    requires forall k | i <= k <= j :: Holds(trace[k], x, id)
    requires Holds(trace[i], x, id) && Holds(trace[j], x, id) && trace[i].txns[x].writes[id].action.Fail?
    ensures trace[j].txns[x].writes[id] == trace[i].txns[x].writes[id]
    decreases j
  {
    hide Apply, Enabled;
    if i < j {
      SettledStays(trace, steps, i, j - 1, x, id);
      assert Holds(trace[j - 1], x, id) && Holds(trace[j], x, id);
      StepKeepsWrite(trace[j - 1], steps[j - 1], x, id);
    }
  }

  /** Main result: mark_failed, two UPDATEs with anything else interleaved around them,
      commits the single failure write on the row as it stood when it was counted: no
      sweep, claim or rival outcome comes between, though the second UPDATE does not
      look for one. */
  lemma FailureIsAtomic(trace: seq<State>, steps: seq<Step>, i: nat, m: nat, j: nat, x: TxnId, id: JobId)
    requires Run(trace, steps) && i < m < j < |steps|
    requires steps[i].Act? && steps[i].x == x && steps[i].id == id && steps[i].action.Count?
    requires steps[m].Settle? && steps[m].x == x && steps[m].id == id
    requires steps[j] == Commit(x)
    requires forall k | i < k <= j :: Holds(trace[k], x, id)
    ensures id in trace[i].rows && id in trace[j + 1].rows
    ensures Owned(trace[i].rows[id], steps[i].action.worker)
    ensures trace[j + 1].rows[id]
            == Failed(trace[i].rows[id], steps[i].action.limit, steps[m].permanent, steps[m].now, steps[m].delay)
    ensures trace[i].rows[id].status == Running && trace[i].rows[id].lockedBy == Some(steps[i].action.worker)
    ensures var j, t, limit := trace[i].rows[id], trace[j + 1].rows[id], steps[i].action.limit;
            && t.attempts == j.attempts + 1
            && t.maxAttempts == (if limit.Some? then limit.value else j.maxAttempts)
            && t.status == (if steps[m].permanent || t.attempts >= t.maxAttempts then Dead else Pending)
            && t.finishedAt == (if t.status == Dead then Some(steps[m].now) else j.finishedAt)
            && t.runAt == (if t.status == Dead then j.runAt else steps[m].now + steps[m].delay)
            && t.lockedBy == None && t.lockedUntil == None
            && t.key == j.key && t.transactional == j.transactional
            && t.recoveries == j.recoveries && t.maxRecoveries == j.maxRecoveries
  {
    hide Apply, Enabled;
    assert Enabled(trace[m], steps[m]) && trace[i + 1] == Apply(trace[i], steps[i]);
    RunKeepsInv(trace, steps, i);
    CountWrites(trace[i], steps[i]);
    SettleWrites(trace[m], steps[m]);
    WriteStays(trace, steps, i + 1, m, x, id);
    assert trace[m + 1] == Apply(trace[m], steps[m]);
    SettledStays(trace, steps, m + 1, j, x, id);
    RunKeepsInv(trace, steps, j);
    LockedRowIsFrozen(trace, steps, i + 1, j, x, id);
    CommitInstalls(trace[j], x, id);
    FailureColumns(trace[i].rows[id], steps[i].action.limit, steps[m].permanent, steps[m].now, steps[m].delay);
  }

  // ---------- nothing left out ----------

  ghost predicate Path(trace: seq<State>, steps: seq<Step>) {
    && |trace| == |steps| + 1
    && forall i | 0 <= i < |steps| :: Enabled(trace[i], steps[i]) && trace[i + 1] == Apply(trace[i], steps[i])
  }

  /** A transaction that has made one write, its task, if any, having run. */
  function OneWrite(s: State, id: JobId, a: Action, task: Option<JobId>): Txn
    requires id in s.rows
  {
    Txn(task, map[id := Write(a, Effect(a, s.rows[id]))])
  }

  lemma OneWriteInstalls(s: State, id: JobId, a: Action, task: Option<JobId>)
    requires id in s.rows && Guard(a, s.rows[id])
    ensures var t := OneWrite(s, id, a, task);
            Acts(t.writes) == map[id := a] && Install(s.rows, t.writes) == ApplyAll(s.rows, map[id := a])
  {
    InstallingIsApplying(s.rows, OneWrite(s, id, a, task));
  }

  lemma OneWriteCommits(s: State, x: TxnId, id: JobId, a: Action, task: Option<JobId>)
    requires x !in s.txns && id in s.rows && Guard(a, s.rows[id]) && !a.Count?
    requires task.Some? ==> task.value == id && a.Succeed?
    ensures var t := s.(txns := s.txns[x := OneWrite(s, id, a, task)]);
            && Enabled(t, Commit(x))
            && Committed(Apply(t, Commit(x))) == L.Apply(Committed(s), L.Write(map[id := a]))
            && Apply(t, Commit(x)).txns == s.txns
            && Apply(t, Commit(x)).work == if task.Some? then s.work[id := WorkOf(s.work, id) + 1] else s.work
  {
    OneWriteInstalls(s, id, a, task);
    var t := s.(txns := s.txns[x := OneWrite(s, id, a, task)]);
    assert t.txns - {x} == s.txns;
    hide Guard, Effect, Install, ApplyAll, Acts, L.RecordAll, WorkOf;
  }

  lemma TransactionalInHistory(s: State, id: JobId)
    requires L.Inv(Committed(s)) && id in s.rows && s.rows[id].transactional
    ensures id in s.hist && s.hist[id].transactional
  {
    assert L.JobInv(s.rows[id], s.hist[id]);
  }

  /** A transaction that has counted an attempt and not yet settled it. */
  function CountedOnly(s: State, x: TxnId, id: JobId, a: Action): State
    requires id in s.rows && a.Fail?
  {
    s.(txns := s.txns[x := Txn(None, map[id := Write(Count(a.worker, a.limit), Some(Counted(s.rows[id], a.limit)))])])
  }

  lemma CountOpens(s: State, x: TxnId, id: JobId, a: Action)
    requires x !in s.txns && id in s.rows && (forall y <- s.txns :: id !in s.txns[y].writes)
    requires Guard(a, s.rows[id]) && a.Fail?
    ensures var t, step := s.(txns := s.txns[x := Txn(None, map[])]), Act(x, id, Count(a.worker, a.limit));
            Enabled(t, step) && Apply(t, step) == CountedOnly(s, x, id, a)
  {}

  lemma SettleCloses(s: State, x: TxnId, id: JobId, a: Action)
    requires id in s.rows && a.Fail?
    ensures var t, step := CountedOnly(s, x, id, a), Settle(x, id, a.permanent, a.now, a.delay);
            Enabled(t, step) && Apply(t, step) == s.(txns := s.txns[x := OneWrite(s, id, a, None)])
  {
    var job := s.rows[id];
    SettlingACountedRowFails(job, a.limit, a.permanent, a.now, a.delay);
    assert a == Fail(a.worker, a.limit, a.permanent, a.now, a.delay);
    assert Effect(a, job) == Some(Settled(Counted(job, a.limit), a.permanent, a.now, a.delay));
    hide Settled, Failed, Effect, Counted;
    var t := Apply(CountedOnly(s, x, id, a), Settle(x, id, a.permanent, a.now, a.delay));
    assert t.txns[x].writes == OneWrite(s, id, a, None).writes;
    assert t.txns == s.txns[x := OneWrite(s, id, a, None)];
  }

  lemma BeginOpens(s: State, x: TxnId)
    requires x !in s.txns
    ensures Enabled(s, Begin(x)) && Apply(s, Begin(x)) == s.(txns := s.txns[x := Txn(None, map[])])
  {}

  lemma FailureSteps(s: State, x: TxnId, id: JobId, a: Action) returns (trace: seq<State>, steps: seq<Step>)
    requires x !in s.txns && id in s.rows && (forall y <- s.txns :: id !in s.txns[y].writes)
    requires Guard(a, s.rows[id]) && a.Fail?
    ensures Path(trace, steps) && trace[0] == s
    ensures trace[|steps|] == s.(txns := s.txns[x := OneWrite(s, id, a, None)])
  {
    hide Enabled, Apply, OneWrite, CountedOnly, Guard;
    BeginOpens(s, x);
    CountOpens(s, x, id, a);
    SettleCloses(s, x, id, a);
    steps := [Begin(x), Act(x, id, Count(a.worker, a.limit)), Settle(x, id, a.permanent, a.now, a.delay)];
    trace := [s, s.(txns := s.txns[x := Txn(None, map[])]), CountedOnly(s, x, id, a),
              s.(txns := s.txns[x := OneWrite(s, id, a, None)])];
  }

  lemma TaskSteps(s: State, x: TxnId, id: JobId, a: Action) returns (trace: seq<State>, steps: seq<Step>)
    requires x !in s.txns && id in s.rows && (forall y <- s.txns :: id !in s.txns[y].writes)
    requires Guard(a, s.rows[id]) && a.Succeed? && id in s.hist && s.hist[id].transactional
    ensures Path(trace, steps) && trace[0] == s
    ensures trace[|steps|] == s.(txns := s.txns[x := OneWrite(s, id, a, Some(id))])
  {
    var s1 := s.(txns := s.txns[x := Txn(None, map[])]);
    var s2 := s.(txns := s.txns[x := Txn(Some(id), map[])]);
    var s3 := s.(txns := s.txns[x := OneWrite(s, id, a, Some(id))]);
    steps := [Begin(x), Body(x, id), Act(x, id, a)];
    assert Enabled(s1, steps[1]) && Apply(s1, steps[1]) == s2;
    assert Enabled(s2, steps[2]) && Apply(s2, steps[2]) == s3;
    trace := [s, s1, s2, s3];
    hide Enabled, Apply;
    assert Path(trace, steps) by {
      BeginOpens(s, x);
    }
  }

  lemma PlainSteps(s: State, x: TxnId, id: JobId, a: Action) returns (trace: seq<State>, steps: seq<Step>)
    requires x !in s.txns && id in s.rows && (forall y <- s.txns :: id !in s.txns[y].writes)
    requires Guard(a, s.rows[id]) && !a.Fail? && !(a.Succeed? && s.rows[id].transactional)
    ensures Path(trace, steps) && trace[0] == s
    ensures trace[|steps|] == s.(txns := s.txns[x := OneWrite(s, id, a, None)])
  {
    var s1 := s.(txns := s.txns[x := Txn(None, map[])]);
    var s2 := s.(txns := s.txns[x := OneWrite(s, id, a, None)]);
    steps := [Begin(x), Act(x, id, a)];
    assert Enabled(s1, steps[1]) && Apply(s1, steps[1]) == s2;
    trace := [s, s1, s2];
    hide Enabled, Apply;
    assert Path(trace, steps) by {
      BeginOpens(s, x);
    }
  }

  lemma PathOnward(trace: seq<State>, steps: seq<Step>, step: Step)
    requires Path(trace, steps) && Enabled(trace[|steps|], step)
    ensures Path(trace + [Apply(trace[|steps|], step)], steps + [step])
  {
    hide Enabled, Apply;
  }

  /** Main result: the converse of the refinement, a row at a time. In every state, any
      write the atomic protocol may make to a row that no open transaction holds is made
      by some transaction, and leaves the other open ones as they were; a transactional
      job's completion counts its task's run once. */
  lemma EveryWriteCanCommit(s: State, x: TxnId, id: JobId, a: Action) returns (trace: seq<State>, steps: seq<Step>)
    requires Inv(s) && x !in s.txns && id in s.rows && (forall y <- s.txns :: id !in s.txns[y].writes)
    requires Guard(a, s.rows[id]) && !a.Count?
    ensures Path(trace, steps) && trace[0] == s && trace[|steps|].txns == s.txns
    ensures Committed(trace[|steps|]) == L.Apply(Committed(s), L.Write(map[id := a]))
    ensures trace[|steps|].work
            == if a.Succeed? && s.rows[id].transactional
               then s.work[id := (if id in s.work then s.work[id] else 0) + 1] else s.work
  {
    var task := if a.Succeed? && s.rows[id].transactional then Some(id) else None;
    if a.Fail? {
      trace, steps := FailureSteps(s, x, id, a);
    } else if task.Some? {
      TransactionalInHistory(s, id);
      trace, steps := TaskSteps(s, x, id, a);
    } else {
      trace, steps := PlainSteps(s, x, id, a);
    }
    OneWriteCommits(s, x, id, a, task);
    assert |trace| == |steps| + 1;
    hide Enabled, Apply, L.Apply, OneWrite, Guard, L.Inv, TxnsInv, WorkInv;
    PathOnward(trace, steps, Commit(x));
    trace, steps := trace + [Apply(trace[|steps|], Commit(x))], steps + [Commit(x)];
  }

  /** A crash can come at any time, and loses just what was not committed. */
  lemma AbortLeavesNoTrace(s: State, x: TxnId)
    requires x in s.txns
    ensures Enabled(s, Abort(x))
    ensures Apply(s, Abort(x)) == s.(txns := map y | y in s.txns && y != x :: s.txns[y])
  {}
}
