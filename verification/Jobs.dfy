/** The jobs table as values: its rows, the guarded writes the queue makes to one
    row, and the effect of a set of such writes on the table. Every statement of
    jobs.py is a set of these row actions, one per row it touches. */
module Jobs {

  datatype Option<+T> = None | Some(value: T) {
    function GetOr(default: T): T {
      match this
      case Some(v) => v
      case None => default
    }
  }

  /** Integer ticks of the database's clock. */
  type Time = int
  type JobId = nat
  type WorkerId = string

  /** A scheduler's key names the schedule and the slot it fires; any other is the caller's own text. */
  datatype Key = ScheduleKey(name: string, slot: Time) | CallerKey(text: string)

  datatype Status = Pending | Running | Succeeded | Dead

  /** One row. `transactional` says whether the job's task takes a connection, which
      the row determines through its task name. */
  datatype Job = Job(
    key: Option<Key>,
    transactional: bool,
    status: Status,
    runAt: Time,
    attempts: nat,
    maxAttempts: int,
    recoveries: nat,
    maxRecoveries: int,
    lockedBy: Option<WorkerId>,
    lockedUntil: Option<Time>,
    finishedAt: Option<Time>)

  type Rows = map<JobId, Job>

  /** A row as INSERT leaves it, the schema's defaults filled in. */
  function NewJob(key: Option<Key>, transactional: bool, now: Time): Job {
    Job(key, transactional, Pending, now, 0, 5, 0, 10, None, None, None)
  }

  predicate Owned(j: Job, worker: WorkerId) {
    j.status.Running? && j.lockedBy == Some(worker)
  }

  predicate Due(j: Job, now: Time) {
    j.status.Pending? && j.runAt <= now
  }

  /** Strict, and false of a NULL lease. */
  predicate Expired(j: Job, now: Time) {
    j.status.Running? && j.lockedUntil.Some? && j.lockedUntil.value < now
  }

  predicate AtLimit(j: Job) {
    j.recoveries + 1 >= j.maxRecoveries
  }

  predicate Finished(j: Job, cutoff: Time) {
    (j.status.Succeeded? || j.status.Dead?) && j.finishedAt.Some? && j.finishedAt.value < cutoff
  }

  /** What one statement does to one row. `now` is the statement's reading of the
      clock, which PostgreSQL fixes when the transaction starts. Count is the first
      UPDATE of mark_failed alone; Fail is both its UPDATEs as one write. */
  datatype Action =
    | Claim(worker: WorkerId, now: Time, lease: int)
    | Extend(worker: WorkerId, now: Time, lease: int)
    | ReapDead(now: Time)
    | ReapBack(now: Time)
    | Release(worker: WorkerId)
    | Succeed(worker: WorkerId, now: Time)
    | Count(worker: WorkerId, limit: Option<int>)
    | Fail(worker: WorkerId, limit: Option<int>, permanent: bool, now: Time, delay: int)
    | Retry(now: Time)
    | Purge(now: Time, age: int)
    | Touch

  /** The WHERE clause, as re-checked on the newest committed row. */
  predicate Guard(a: Action, j: Job) {
    match a
    case Claim(_, now, _) => Due(j, now)
    case Extend(w, _, _) => Owned(j, w)
    case ReapDead(now) => Expired(j, now) && AtLimit(j)
    case ReapBack(now) => Expired(j, now)
    case Release(w) => Owned(j, w)
    case Succeed(w, _) => Owned(j, w)
    case Count(w, _) => Owned(j, w)
    case Fail(w, _, _, _, _) => Owned(j, w)
    case Retry(_) => j.status.Dead?
    case Purge(now, age) => Finished(j, now - age)
    case Touch => true
  }

  /** mark_failed's first UPDATE. */
  function Counted(j: Job, limit: Option<int>): Job {
    j.(attempts := j.attempts + 1, maxAttempts := limit.GetOr(j.maxAttempts))
  }

  /** mark_failed's second UPDATE, which finds its row by id alone. */
  function Settled(j: Job, permanent: bool, now: Time, delay: int): Job {
    if permanent || j.attempts >= j.maxAttempts then
      j.(status := Dead, finishedAt := Some(now), lockedBy := None, lockedUntil := None)
    else
      j.(status := Pending, runAt := now + delay, lockedBy := None, lockedUntil := None)
  }

  /** A failure as one write: one more attempt, then dead or due again later. */
  function Failed(j: Job, limit: Option<int>, permanent: bool, now: Time, delay: int): Job {
    var dies := permanent || j.attempts + 1 >= limit.GetOr(j.maxAttempts);
    Job(j.key, j.transactional,
        if dies then Dead else Pending,
        if dies then j.runAt else now + delay,
        j.attempts + 1, limit.GetOr(j.maxAttempts), j.recoveries, j.maxRecoveries,
        None, None,
        if dies then Some(now) else j.finishedAt)
  }

  /** The row after the write, or None once it is deleted. */
  function Effect(a: Action, j: Job): Option<Job> {
    match a
    case Claim(w, now, lease) =>
      Some(j.(status := Running, lockedBy := Some(w), lockedUntil := Some(now + lease)))
    case Extend(_, now, lease) => Some(j.(lockedUntil := Some(now + lease)))
    case ReapDead(now) =>
      Some(j.(status := Dead, finishedAt := Some(now), recoveries := j.recoveries + 1,
              lockedBy := None, lockedUntil := None))
    case ReapBack(_) =>
      Some(j.(status := Pending, recoveries := j.recoveries + 1, lockedBy := None, lockedUntil := None))
    case Release(_) => Some(j.(status := Pending, lockedBy := None, lockedUntil := None))
    case Succeed(_, now) => Some(j.(status := Succeeded, finishedAt := Some(now)))
    case Count(_, limit) => Some(Counted(j, limit))
    case Fail(_, limit, permanent, now, delay) => Some(Failed(j, limit, permanent, now, delay))
    case Retry(now) =>
      Some(j.(status := Pending, attempts := 0, recoveries := 0, runAt := now, finishedAt := None))
    case Purge(_, _) => None
    case Touch => Some(j)
  }

  /** The same action on each of a set of rows. */
  function Each(ids: set<JobId>, a: Action): map<JobId, Action> {
    map id | id in ids :: a
  }

  /** Every action finds its row, and its WHERE clause holds there. */
  ghost predicate Legal(rows: Rows, acts: map<JobId, Action>) {
    forall id <- acts :: id in rows && Guard(acts[id], rows[id])
  }

  /** The table after a set of writes, at most one to a row. */
  function ApplyAll(rows: Rows, acts: map<JobId, Action>): Rows {
    map id | id in rows && (id in acts ==> Effect(acts[id], rows[id]).Some?) ::
      if id in acts then Effect(acts[id], rows[id]).value else rows[id]
  }

  /** The claim's ORDER BY run_at, id. */
  predicate Before(rows: Rows, a: JobId, b: JobId)
    requires a in rows && b in rows
  {
    rows[a].runAt < rows[b].runAt || (rows[a].runAt == rows[b].runAt && a < b)
  }

  /** What a claim may take: due, and not locked by another transaction. */
  function Claimable(rows: Rows, locked: set<JobId>, now: Time): set<JobId> {
    set id | id in rows && id !in locked && Due(rows[id], now)
  }

  function Min(a: int, b: int): int {
    if a <= b then a else b
  }

  /** `chosen` is the LIMIT k prefix of the candidates in claim order. */
  ghost predicate Earliest(rows: Rows, candidates: set<JobId>, k: nat, chosen: set<JobId>) {
    && chosen <= candidates
    && (forall id <- candidates :: id in rows)
    && |chosen| == Min(k, |candidates|)
    && (forall a, b | a in chosen && b in candidates - chosen :: Before(rows, a, b))
  }

  /** SELECT ... FOR UPDATE SKIP LOCKED LIMIT k with no ORDER BY: any k candidates. */
  ghost predicate AnyOf(candidates: set<JobId>, k: nat, chosen: set<JobId>) {
    chosen <= candidates && |chosen| == Min(k, |candidates|)
  }

  function ExpiredIds(rows: Rows, locked: set<JobId>, now: Time): set<JobId> {
    set id | id in rows && id !in locked && Expired(rows[id], now)
  }

  /** The listed rows this worker holds. */
  function OwnedIds(rows: Rows, ids: seq<JobId>, worker: WorkerId): set<JobId> {
    set id | id in ids && id in rows && Owned(rows[id], worker)
  }

  function ExpiredAtLimit(rows: Rows, locked: set<JobId>, now: Time): set<JobId> {
    set id | id in rows && id !in locked && Expired(rows[id], now) && AtLimit(rows[id])
  }

  /** The WHERE clauses, in the table's columns. */
  lemma GuardColumns(a: Action, j: Job)
    ensures a.Claim? ==> (Guard(a, j) <==> j.status == Pending && j.runAt <= a.now)
    ensures a.Extend? || a.Release? || a.Succeed? || a.Count? || a.Fail? ==>
              (Guard(a, j) <==> j.status == Running && j.lockedBy == Some(a.worker))
    ensures a.ReapDead? ==>
              (Guard(a, j) <==> && j.status == Running && j.lockedUntil.Some? && j.lockedUntil.value < a.now
                                && j.recoveries + 1 >= j.maxRecoveries)
    ensures a.ReapBack? ==> (Guard(a, j) <==> j.status == Running && j.lockedUntil.Some? && j.lockedUntil.value < a.now)
    ensures a.Retry? ==> (Guard(a, j) <==> j.status == Dead)
    ensures a.Purge? ==>
              (Guard(a, j) <==> && (j.status == Succeeded || j.status == Dead)
                                && j.finishedAt.Some? && j.finishedAt.value < a.now - a.age)
  {}

  /** A failure kills exactly when the error is permanent or the attempts are used up, and
      else puts the job off; the lease goes either way, and nothing else changes. */
  lemma FailureColumns(j: Job, limit: Option<int>, permanent: bool, now: Time, delay: int)
    ensures var t := Failed(j, limit, permanent, now, delay);
            && t.attempts == j.attempts + 1
            && t.maxAttempts == (if limit.Some? then limit.value else j.maxAttempts)
            && t.status == (if permanent || t.attempts >= t.maxAttempts then Dead else Pending)
            && t.finishedAt == (if t.status == Dead then Some(now) else j.finishedAt)
            && t.runAt == (if t.status == Dead then j.runAt else now + delay)
            && t.lockedBy == None && t.lockedUntil == None
            && t.key == j.key && t.transactional == j.transactional
            && t.recoveries == j.recoveries && t.maxRecoveries == j.maxRecoveries
  {}

  /** Counting an attempt and then settling the counted row is the single failure
      write, although the second UPDATE names its row by id alone. */
  lemma SettlingACountedRowFails(j: Job, limit: Option<int>, permanent: bool, now: Time, delay: int)
    ensures Settled(Counted(j, limit), permanent, now, delay) == Failed(j, limit, permanent, now, delay)
  {}
}
