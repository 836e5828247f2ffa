/** The worker's heartbeat and the run of one job, as worker.py does them. */
module Heartbeats {
  import opened Jobs
  import opened Tables

  /** Jobs whose leases are kept alive, each until its deadline or, with None, for good. */
  type Deadlines = map<JobId, Option<Time>>

  function Holding(d: Deadlines, ids: seq<JobId>, deadline: Option<Time>): Deadlines {
    map id | id in d.Keys + (set i | i in ids) :: if id in ids then deadline else d[id]
  }

  function Letting(d: Deadlines, ids: seq<JobId>): Deadlines {
    map id | id in d && id !in ids :: d[id]
  }

  predicate Alive(deadline: Option<Time>, now: Time) {
    deadline.None? || now < deadline.value
  }

  /** What a beat extends. */
  function Live(d: Deadlines, now: Time): set<JobId> {
    set id | id in d && Alive(d[id], now)
  }

  /** What the registry knows of a task; None for one this worker does not have. */
  datatype Task = Task(wantsConnection: bool, maxAttempts: Option<int>, maxExecution: Option<int>)

  datatype TaskResult = Returned | Raised(permanent: bool)

  /** The one write, if any, that a finished run makes. */
  function OutcomeOf(rows: Rows, id: JobId, worker: WorkerId, task: Option<Task>, result: TaskResult, now: Time, delay: int)
    : (acts: map<JobId, Action>)
    ensures acts.Keys <= {id}
    ensures forall i <- acts :: i in rows && Guard(acts[i], rows[i])
  {
    if id !in rows || !Owned(rows[id], worker) then map[]
    else if task.None? then map[id := Fail(worker, None, false, now, delay)]
    else if result.Returned? then map[id := Succeed(worker, now)]
    else map[id := Fail(worker, task.value.maxAttempts, result.permanent, now, delay)]
  }

  class Heartbeat {
    const worker: WorkerId
    const lease: int
    var deadlines: Deadlines

    constructor (worker: WorkerId, lease: int)
      ensures this.worker == worker && this.lease == lease && deadlines == map[]
    {
      this.worker, this.lease, deadlines := worker, lease, map[];
    }

    method Hold(ids: seq<JobId>, maxExecution: Option<int>, now: Time)
      modifies this`deadlines
      ensures deadlines == Holding(old(deadlines), ids, if maxExecution.Some? then Some(now + maxExecution.value) else None)
      ensures deadlines.Keys == old(deadlines).Keys + set id | id in ids
      ensures forall id <- ids :: deadlines[id] == (if maxExecution.Some? then Some(now + maxExecution.value) else None)
      ensures forall id <- old(deadlines) | id !in ids :: deadlines[id] == old(deadlines)[id]
    {
      var deadline := if maxExecution.None? then None else Some(now + maxExecution.value);
      for i := 0 to |ids|
        invariant deadlines == Holding(old(deadlines), ids[..i], deadline)
      {
        deadlines := deadlines[ids[i] := deadline];
      }
      assert ids[..|ids|] == ids;
    }

    method Release(ids: seq<JobId>)
      modifies this`deadlines
      ensures deadlines == Letting(old(deadlines), ids)
      ensures deadlines == old(deadlines) - set id | id in ids
    {
      for i := 0 to |ids|
        invariant deadlines == Letting(old(deadlines), ids[..i])
      {
        deadlines := deadlines - {ids[i]};
      }
      assert ids[..|ids|] == ids;
    }

    /** One beat: every live lease this worker still owns is pushed out, and a hung job's
        is not. A beat that cannot reach the database changes nothing and is not fatal. */
    method Beat(table: JobTable, now: Time, reachable: bool)
      requires table.Valid()
      modifies table`rows
      ensures table.Valid()
      ensures forall id <- old(table.rows) ::
                && id in table.rows
                && table.rows[id] == (if && reachable && id in deadlines
                                         && (deadlines[id].None? || now < deadlines[id].value)
                                         && old(table.rows)[id].status == Running
                                         && old(table.rows)[id].lockedBy == Some(worker)
                                      then old(table.rows)[id].(lockedUntil := Some(now + lease))
                                      else old(table.rows)[id])
      ensures table.rows.Keys == old(table.rows).Keys
    {
      var ids: seq<JobId> := [];
      var left := deadlines.Keys;
      while left != {}
        invariant left <= deadlines.Keys
        invariant forall id :: id in ids <==> && id in deadlines && id !in left
                                              && (deadlines[id].None? || now < deadlines[id].value)
        decreases |left|
      {
        var id :| id in left;
        left := left - {id};
        if deadlines[id].None? || now < deadlines[id].value {
          ids := ids + [id];
        }
      }
      if reachable {
        table.ExtendLeases(ids, worker, lease, now);
      }
    }

    /** run_job up to the task's call: starts the job's execution clock. A job whose task
        this worker does not have keeps the deadline it was queued with. */
    method StartJob(id: JobId, task: Option<Task>, ceiling: int, started: Time)
      modifies this`deadlines
      ensures deadlines == if task.Some?
                           then old(deadlines)[id := Some(started + (if task.value.maxExecution.Some?
                                                                     then task.value.maxExecution.value else ceiling))]
                           else old(deadlines)
    {
      if task.Some? {
        var limit := ceiling;
        if task.value.maxExecution.Some? {
          limit := task.value.maxExecution.value;
        }
        Hold([id], Some(limit), started);
      }
    }

    /** run_job from there: records the outcome if this worker still holds the job, and in
        every case lets the lease go. `kept` says whether a transactional task's own
        writes were committed: a lost lease rolls them back. */
    method FinishJob(table: JobTable, id: JobId, task: Option<Task>, result: TaskResult, now: Time, delay: int)
      returns (kept: bool)
      requires table.Valid()
      modifies table`rows, this`deadlines
      ensures table.Valid()
      ensures deadlines == old(deadlines) - {id}
      ensures table.rows == ApplyAll(old(table.rows), OutcomeOf(old(table.rows), id, worker, task, result, now, delay))
      ensures kept <==> && task.Some? && task.value.wantsConnection && result.Returned?
                        && id in old(table.rows) && Owned(old(table.rows)[id], worker)
      ensures kept ==> id in table.rows && table.rows[id].status.Succeeded?
      ensures table.rows.Keys == old(table.rows).Keys
      ensures forall other <- old(table.rows) | other != id :: table.rows[other] == old(table.rows)[other]
      ensures id in old(table.rows) ==>
                var j, t := old(table.rows)[id], table.rows[id];
                if !(j.status == Running && j.lockedBy == Some(worker)) then t == j
                else if task.Some? && result.Returned? then t == j.(status := Succeeded, finishedAt := Some(now))
                else
                  && t.attempts == j.attempts + 1
                  && t.maxAttempts == (if task.Some? && task.value.maxAttempts.Some?
                                       then task.value.maxAttempts.value else j.maxAttempts)
                  && t.status == (if || (task.Some? && result.Raised? && result.permanent)
                                     || t.attempts >= t.maxAttempts then Dead else Pending)
                  && t.finishedAt == (if t.status == Dead then Some(now) else j.finishedAt)
                  && t.runAt == (if t.status == Dead then j.runAt else now + delay)
                  && t.lockedBy == None && t.lockedUntil == None
                  && t.key == j.key && t.transactional == j.transactional
                  && t.recoveries == j.recoveries && t.maxRecoveries == j.maxRecoveries
    {
      kept := false;
      if task.Some? && result.Returned? {
        var held := table.MarkSucceeded(id, worker, now);
        kept := held && task.value.wantsConnection;
      } else {
        var _ := table.MarkFailed(id, worker, task.Some? && result.permanent,
                                  if task.Some? then task.value.maxAttempts else None, now, delay);
      }
      Release([id]);
    }
  }
}
