# durable-queue, verified

A Dafny model of durable-queue: a job table in PostgreSQL that many worker processes change through
guarded SQL statements while leases expire, processes die and commits go unacknowledged. The model
keeps the program's branches, guards and constants, and proves what holds of every run.

| file | what it holds |
|---|---|
| `Jobs.dfy` | rows of the jobs table; each statement as a guarded write to one row; the table after a set of writes |
| `Tables.dfy` | the table updated in place by the statements of `jobs.py`, with loops where a statement has a LIMIT; when a sweep can be relied on to keep the recovery limit; draining |
| `LeaseProtocol.dfy` | every statement atomic, any callers in any order: conservation of claims, dead-lettering, bounded life |
| `Sweeps.dfy` | when `reap_expired_jobs` bounds the life of a job |
| `Transactions.dfy` | open transactions, row locks, uncommitted rows, crashes: a refinement of `LeaseProtocol`, exactly-once, the atomicity of a failure |
| `Draining.dfy` | workers claiming at once until nothing is left |
| `Heartbeats.dfy` | the heartbeat's map, a beat, and `run_job` |
| `LeaseTiming.dfy` | one worker's leases against the clock: exclusion, and hung jobs |
| `WorkerSlots.dfy` | `run_worker`'s claim loop and slot threads, from start to shutdown |
| `Zones.dfy` | time zones with fold=0 resolution, and the slots of daily and hourly clocks |
| `Schedules.dfy` | interval slots, registration and one pass over the due schedules |
| `ScheduleRuns.dfy` | any number of schedulers' passes interleaved |
| `Wakeups.dfy` | the generation counter and the idle loops that use it |
| `FanOut.dfy` | the fan-out and combine demonstration |
| `Sets.dfy`, `Division.dfy` | cardinalities and flooring division |

How concurrency is modelled. Each SQL statement writes one row or several, each write guarded by the
statement's WHERE clause on the newest committed row and waiting for, or skipping, a row that another
transaction has locked: Read Committed as in section 13.2.1 of the PostgreSQL 16 documentation. Threads
take atomic steps over the state they share. A run is a sequence of states and the steps between them,
and a main result is about every state of every run. Clock readings in `LeaseProtocol` and
`Transactions` are arbitrary, so those results hold whatever the clocks do.

What the source's own documents say and the code does not do:

- A worker may claim a job again while an earlier claim of it is still queued here, in a slot (a hung run
  goes on after its lease is swept) or being let go. The earlier run's `release` then drops the new claim's
  heartbeat entry, and its failure sends the new claim's row back (worker.py:257-281, 526-535; jobs.py:422-430,
  whose guard knows the worker and not the claim). A claim keeps its job if and only if there is no such
  earlier claim (`LeaseTiming.ReclaimExact`), and there are runs to either kind
  (`LeaseTiming.ReclaimComesUp`, `LeaseTiming.HungReclaimComesUp`).
- The recovery limit stops a poison pill only while the rows at that limit fit in one sweep: if and only
  if (`Tables.SweepLimitExact`, `Sweeps.TidySweepsExact`; jobs.py:234-238, 265-281).
- A clock schedule that has fired is still due if and only if a slot of a later date had come already, and the
  search from the slot fired does not start past it (`Zones.DueAgainExact`; scheduler.py:160-161, 61-73).
  With no change of a day or more that is: once the slot of the date after now's has come
  (`Zones.DueAgainByTomorrow`), as where the clocks go back over midnight (`Zones.BackOverMidnightFails`).
- A due daily schedule may fire a slot before its own next_run_at: if and only if the slot of now's date has
  come and next_run_at is a later one (`Schedules.FiresBehindExact`; scheduler.py:144-149).
- An interval schedule that has fired is still due if and only if its interval is negative
  (`Schedules.IntervalDueAgainExact`; scheduler.py:146-154), which nothing refuses. One of zero ends its
  whole pass with nothing done (`Schedules.ScheduleTable.RunDueSchedules`).
- A scheduler woken after its stop is set may still sleep (scheduler.py:269-270, 275-276): if and only if
  the wake finds it past its test of `stop` with the generation still to read (`Wakeups.StopIsMissed`;
  a run is `Wakeups.SchedulerMaySleepThroughStop`). A worker may not.
- DESIGN.md:208-209 has an enqueue do nothing on a known key; the statement updates the row to itself
  (jobs.py:21), so it also locks the row. The model has that lock (`Touch`).

## Model

| member | source | states |
|---|---|---|
| `Jobs.SettlingACountedRowFails` | src/durable_queue/jobs.py:422-453 | the two UPDATEs of a failure, the second unguarded, leave the row that a single failure write does |
| `Tables.JobTable.Enqueue` | src/durable_queue/jobs.py:17-76 | a known key returns its job and adds nothing; otherwise one new pending row, due now, with the schema's limits of 5 attempts and 10 recoveries; no two rows share a key |
| `Tables.JobTable.ClaimJobs` | src/durable_queue/jobs.py:143-165 | at most batch_size due, pending, unlocked rows are claimed, each for a lease from now; one is left out only if the batch is full, and then every claimed row has an earlier run_at, or the same and a lower id; nothing else changes |
| `Tables.TakeEarliest` | src/durable_queue/jobs.py:147-153 | the claim's subquery: the LIMIT prefix of the candidates, earliest run_at first and lowest id among equals |
| `Tables.ClaimIsDetermined` | src/durable_queue/jobs.py:150-152 | the ordering by run_at and id leaves one possible batch |
| `Tables.JobTable.ExtendLeases` | src/durable_queue/jobs.py:200-222 | exactly the listed running rows of this worker get a lease from now |
| `Tables.JobTable.ReapAtLimit` | src/durable_queue/jobs.py:248-264 | up to batch unlocked running rows, past their lease and one recovery from their limit, are dead-lettered, and one is left out only if the batch is full; nothing else changes |
| `Tables.JobTable.ReapTheRest` | src/durable_queue/jobs.py:265-281 | up to batch unlocked running rows past their lease go back to pending with their run_at and attempts, each counting one recovery, and one is left out only if the batch is full; nothing else changes |
| `Tables.JobTable.ReapExpiredJobs` | src/durable_queue/jobs.py:228-283 | up to batch rows at the limit are dead-lettered, then up to batch other expired rows sent back, each counting one recovery, and nothing else changes |
| `Tables.TakeAny` | src/durable_queue/jobs.py:257-262 | a sweep's subquery: any candidates, as many as the limit allows |
| `Tables.SweepParts` | src/durable_queue/jobs.py:256-278 | the second UPDATE never meets a row the first one killed |
| `Tables.DisjointWrites` | src/durable_queue/jobs.py:250-280 | a sweep's two UPDATEs amount to one write |
| `Tables.SweepLimitExact` | src/durable_queue/jobs.py:256-278 | a sweep can be relied on to send no row back at its recovery limit if and only if those rows fit the first batch and none comes within reach only for the second |
| `Tables.OneTransactionSweepLimit` | src/durable_queue/jobs.py:248-282 | with one clock reading and one view of the locks: if and only if they fit the batch |
| `Tables.JobTable.ReleaseJobs` | src/durable_queue/jobs.py:310-333 | the listed running rows of this worker go back to pending with everything but their lease as it was; the count is of those |
| `Tables.JobTable.MarkSucceeded` | src/durable_queue/jobs.py:336-372 | succeeds, finished now, if and only if this worker holds the running row, which keeps its lease columns |
| `Tables.JobTable.MarkFailed` | src/durable_queue/jobs.py:390-458 | if and only if this worker holds the running row: one attempt more, the limit given or its own, dead and finished now exactly if the error is permanent or the attempts are used up, and else pending and due after the delay; the lease goes, and nothing else changes |
| `Tables.JobTable.RetryJob` | src/durable_queue/jobs.py:542-564 | only a dead job is reset: pending, due now, unfinished, both counts at zero |
| `Tables.JobTable.DeleteCompletedJobs` | src/durable_queue/jobs.py:461-512 | at most batch succeeded or dead jobs finished before the cutoff go; one is left only if the batch is full, and then all that go have lower ids |
| `Tables.TakeLowest` | src/durable_queue/jobs.py:500-505 | the purge's subquery |
| `Tables.JobTable.SecondsUntilDue` | src/durable_queue/jobs.py:286-307 | the least run_at of the pending rows and locked_until of the running ones, None if there are none; nothing can be claimed or swept before |
| `Tables.JobTable.ClaimUntilEmpty` | src/durable_queue/jobs.py:143-165 | workers claiming in turn until a claim is empty hand out every due job exactly once, each with its turn's lease, in batches whose run_at never goes back |
| `Tables.DrainOneMore` | src/durable_queue/jobs.py:145-153 | one more claim keeps the batches so far disjoint and in order |
| `Tables.WritesKeepKeys` | sql/schema.sql:5 | no write but an enqueue can break the uniqueness of idempotency keys |
| `LeaseProtocol.StepKeepsInv` | src/durable_queue/jobs.py:143-158 | every write of every caller keeps the lease shape, the account of claims and the reason for each death |
| `LeaseProtocol.RunKeepsInv` | src/durable_queue/jobs.py:143-158 | so every state of every run has them |
| `LeaseProtocol.Conservation` | src/durable_queue/jobs.py:324-331 | claims since insertion or the last retry = attempts + recoveries + releases + (1 if running or succeeded) |
| `LeaseProtocol.DeadLetteredInTime` | src/durable_queue/jobs.py:251-279 | a row is dead only of its recovery limit, its attempt limit or a permanent error |
| `LeaseProtocol.LiveJobsHaveAttemptsLeft` | src/durable_queue/jobs.py:423-442 | with positive limits, a job that is not dead has attempts left, also when its limit is lowered |
| `LeaseProtocol.BoundedLife` | src/durable_queue/jobs.py:234-238 | a job that sweeps never send back at its recovery limit, and whose attempt limit, its own or one a failure brings, is never over a bound, is claimed at most that bound + max_recoveries - 1 + releases times, whatever befalls other jobs |
| `LeaseProtocol.UntidySweepBreaksBound` | src/durable_queue/jobs.py:265-279 | the premise on sweeps is needed: one row sent back at its limit is claimed once more than the bound |
| `Sweeps.TidySweepsExact` | src/durable_queue/jobs.py:248-282 | no sweep that may be made of a table sends one given job back at its recovery limit, as the bound needs, if and only if that job fits |
| `Sweeps.AllFit` | src/durable_queue/jobs.py:248-282 | every job fits if and only if the rows at the limit do, as `Tables.SweepLimitExact` has it |
| `Sweeps.BoundedWhileSweepsFit` | src/durable_queue/jobs.py:234-238 | so the bound holds for a job in every run whose sweeps it fits |
| `Sweeps.BoundBrokenBySweep` | src/durable_queue/jobs.py:265-279 | the run that breaks it is one of real sweeps: a row that expires between the two UPDATEs |
| `Transactions.StepRefines` | src/durable_queue/worker.py:253-256 | a commit is one legal step of the atomic protocol, and nothing before it shows |
| `Transactions.CommitKeepsTxns` | src/durable_queue/jobs.py:414-420 | every other open transaction's uncommitted rows are still what their guarded writes make of the committed ones |
| `Transactions.StepKeepsWork` | src/durable_queue/worker.py:248-256 | a task's work and its job's completion are counted by the same commits |
| `Transactions.RunKeepsInv` | src/durable_queue/worker.py:248-276 | locks stay disjoint and uncommitted rows current in every state of every run |
| `Transactions.RunRefines` | src/durable_queue/jobs.py:414-420 | every run of interleaved transactions ends where a run of atomic statements does |
| `Transactions.ExactlyOnce` | src/durable_queue/worker.py:248-276 | a transactional job's task has committed exactly once if the job has succeeded and never otherwise |
| `Transactions.SucceededIsFinal` | src/durable_queue/jobs.py:351-354 | a succeeded job stays so until it is purged, and once its row is gone it was purged as succeeded |
| `Transactions.OnlyOwnerOrSweep` | src/durable_queue/jobs.py:361-372 | a running row changes only by its holder's write or by a sweep after its lease expired, judged when the change commits |
| `Transactions.LockedRowIsFrozen` | src/durable_queue/jobs.py:414-420 | no commit changes a row another open transaction has written |
| `Transactions.FailureIsAtomic` | src/durable_queue/jobs.py:414-458 | mark_failed, whatever interleaves with it, commits the failure of the row as it stood when counted: dead exactly if the error is permanent or the attempts are used up, and else due again after the delay |
| `Transactions.EveryWriteCanCommit` | src/durable_queue/worker.py:253-260 | conversely, in every state any single write of the atomic protocol to a row nobody holds is made by some transaction and nothing else comes of it, so the model leaves none out |
| `Transactions.AbortLeavesNoTrace` | src/durable_queue/worker.py:253-256 | a crash can come at any time and loses just what was not committed |
| `Draining.ClaimedAtMostOnce` | src/durable_queue/jobs.py:143-158 | while workers only claim, in any interleaving, no job is in two committed claims |
| `Draining.EachDueJobOnce` | tests/test_batch_claiming.py:114-136 | claims lost or not, no job is in two committed claims; once a claim has come back empty with none open, or with all those open committed since, every job due at the start is in exactly one |
| `Heartbeats.Heartbeat.Hold` | src/durable_queue/worker.py:133-143 | exactly the listed jobs get the new deadline, now and the limit, or none |
| `Heartbeats.Heartbeat.Release` | src/durable_queue/worker.py:145-148 | exactly the listed jobs are dropped |
| `Heartbeats.Heartbeat.Beat` | src/durable_queue/worker.py:158-190 | a beat that reaches the database extends exactly the running rows of this worker whose entry has no deadline or one still to come; one that does not changes nothing |
| `Heartbeats.Heartbeat.StartJob` | src/durable_queue/worker.py:238-246 | the execution clock starts now, with the task's own ceiling if it has one |
| `Heartbeats.Heartbeat.FinishJob` | src/durable_queue/worker.py:248-284 | a held job whose task returned, with a connection or without, has succeeded; one whose task raised, or is missing, has failed, permanently if the error is, with the task's own limit if it has one; one no longer held and every other row are unchanged; the heartbeat entry always goes; a task's own writes stay exactly with the job's success |
| `Heartbeats.OutcomeOf` | src/durable_queue/worker.py:240-276 | that write is to this job alone and its guard holds |
| `LeaseTiming.NothingHeldOff` | src/durable_queue/worker.py:176-190 | rivals, sweeps and operators may make any write its guard allows, and a beat may fail |
| `LeaseTiming.OthersKeepMine` | src/durable_queue/worker.py:154-190 | nothing another process does touches the row of a claim in hand |
| `LeaseTiming.StepKeepsInv` | src/durable_queue/worker.py:154-190 | each step keeps a claim the only one of its job here, with a lease long enough for the beats that may still fail, whatever other jobs hang |
| `LeaseTiming.TimedExclusion` | src/durable_queue/worker.py:107-190 | from a claim to its outcome, over all schedules of beats and sweeps with at most two failed beats in a row, a job claimed with no earlier claim of it about here and not itself hung is extended by every beat that gets through, has one run here and is neither swept nor run by another worker, however many others of this worker hang |
| `LeaseTiming.LettingGoLoses` | src/durable_queue/worker.py:279-281 | if an earlier claim of the job is still queued, in a slot or being let go, there is a course with every beat on time and getting through in which the new claim's lease expires while it is in hand |
| `LeaseTiming.FailingLoses` | src/durable_queue/jobs.py:422-442 | and if it is queued or in a slot, one in which its failure takes the new claim's row from running to pending or dead |
| `LeaseTiming.ReclaimExact` | src/durable_queue/worker.py:526-535 | of every claim, in every state: with the beats it needs it can be relied on to keep its job if and only if no earlier claim of that job is still about here |
| `LeaseTiming.ReclaimComesUp` | src/durable_queue/worker.py:257-281 | a run from the start to a claim of a job whose `release` is still to come |
| `LeaseTiming.HungReclaimComesUp` | src/durable_queue/worker.py:161-169 | and one to a claim of a job that hung, was swept and is still in its slot |
| `LeaseTiming.StepKeepsCeiling` | src/durable_queue/worker.py:161-169 | no step extends a started job's lease past its ceiling |
| `LeaseTiming.HungJobIsRecoverable` | src/durable_queue/worker.py:133-190 | in any run, a job whose clock started at s with ceiling M, and which is not claimed or held here again, has locked_until < s + M + lease, and is expired from then on |
| `LeaseTiming.StartedClock` | src/durable_queue/worker.py:238-246 | a claim in hand that was started with ceiling M has its clock run out M after its start, whatever else is held or let go |
| `LeaseTiming.HungSinceStart` | src/durable_queue/worker.py:161-169 | from a start at s with ceiling M, until the job is claimed, held or started here again, locked_until < s + M + lease |
| `WorkerSlots.StepKeepsBalance` | src/durable_queue/worker.py:491-542 | each step of each thread keeps the outstanding count equal to what it stands for |
| `WorkerSlots.SlotAccounting` | src/durable_queue/worker.py:435-443 | until shutdown, outstanding = queued + running + still to be queued, within the greater of the batch and twice the slots; a claim asks for the room, or for a full batch if that is less, and at least one |
| `WorkerSlots.StepKeepsTickets` | src/durable_queue/worker.py:591-597 | each job put on the queue is on it, started or handed back: one of the three |
| `WorkerSlots.ShutdownPartition` | src/durable_queue/worker.py:589-612 | after the drain every job ever queued was started or handed back, never both; at the end outstanding is the handed back less one a slot |
| `WorkerSlots.StartedInOrder` | src/durable_queue/worker.py:466-491 | slots start jobs in the order they were claimed: whatever was queued before has been started or handed back |
| `WorkerSlots.StepKeepsHeld` | src/durable_queue/worker.py:528-541 | each step keeps held jobs held, with no two of them the same |
| `WorkerSlots.HeldWhileOurs` | src/durable_queue/worker.py:528-541 | with no self-reclaim, a queued job is held with no deadline and a running one held until run_job ends |
| `WorkerSlots.OnlyHeldAtHand` | src/durable_queue/worker.py:279-281 | no job is held but one at hand: coming, queued, running or about to be handed back; and none but those running once the queue has been handed back |
| `WorkerSlots.WholeLife` | src/durable_queue/worker.py:491-612 | a run from start to shutdown in which a job is claimed, held, run and let go |
| `WorkerSlots.HandedBackUnrun` | src/durable_queue/worker.py:589-612 | one in which the job is still queued at the stop and is handed back |
| `Zones.Resolution` | src/durable_queue/scheduler.py:49-54 | a local time in a gap reads later by exactly the gap; one that occurs twice gives its first instant; every other is read as it stands |
| `Zones.SortedIsNotEnough` | src/durable_queue/scheduler.py:49-54 | changes in order but too close together break this |
| `Zones.SlotReadsItsTime` | src/durable_queue/scheduler.py:49-54 | a day's slot is the first instant its clocks read that day and time of day, or, where they skip it, reads later by the gap |
| `Zones.SlotFallsOnItsDay` | src/durable_queue/scheduler.py:49-54 | where no gap pushes it past midnight, a day's slot is on that day's date |
| `Zones.OrderExact` | src/durable_queue/scheduler.py:49-54 | a daily clock's slots are in order of their days if and only if the offset never grows by more than a day from one day's reading to the next; no two coincide if and only if it grows by less |
| `Zones.JumpsExact` | src/durable_queue/scheduler.py:49-54 | every daily clock of a zone has its slots in order if and only if no change is of more than a day forward; none coincide if and only if none is of a day |
| `Zones.SlotDateIsNear` | src/durable_queue/scheduler.py:49-54 | and then a slot is never later than the date after its day's |
| `Zones.SlotsSurround` | src/durable_queue/scheduler.py:57-73 | where also no change moves the date back, slots increase with their days and surround every instant |
| `Zones.DayDown` | src/durable_queue/scheduler.py:61-64 | the loop down ends, at the last day not after the start whose slot has come |
| `Zones.DayUp` | src/durable_queue/scheduler.py:70-73 | the loop up ends, at the first day not before the start whose slot is still to come |
| `Zones.ClockAtOrBefore` | src/durable_queue/scheduler.py:57-64 | the day loop computes the slot specified, and the hourly branch the last instant of the clock's minute, at most an hour back |
| `Zones.ClockAfter` | src/durable_queue/scheduler.py:67-73 | likewise for the next one |
| `Zones.LoopsExact` | src/durable_queue/scheduler.py:57-73 | for slots in order, at any instant, the loop down finds the last slot if and only if no slot of a later date had come, and the loop up the next one if and only if none of an earlier date was to come |
| `Zones.Neighbours` | src/durable_queue/scheduler.py:57-73 | which the slots of the two neighbouring dates decide, exactly so where none coincide |
| `Zones.QuietAround` | src/durable_queue/scheduler.py:57-73 | and only the offsets at those two and at the instant matter, whatever the zone does at other times |
| `Zones.KeepsDates` | src/durable_queue/scheduler.py:57-73 | in a zone whose changes leave its dates alone both hold at every instant |
| `Zones.NextIsLater` | src/durable_queue/scheduler.py:144-155 | where the slot fired is the last one, the one after it is later than now, with none between |
| `Zones.FiredNotBeforeExact` | src/durable_queue/scheduler.py:144-155 | of a slot that has come, the one fired is not earlier if and only if the slot of now's date is still to come or is no earlier |
| `Zones.DropsNearlyKeep` | src/durable_queue/scheduler.py:57-73 | where no change is back by more than a day, the slot two dates on is always still to come |
| `Zones.DueAgainExact` | src/durable_queue/scheduler.py:144-155 | at any instant, for slots in order, the slot after the one fired is later than now if and only if the one fired was the last, or its local date is already past the slots missed |
| `Zones.DueAgainByTomorrow` | src/durable_queue/scheduler.py:144-155 | where none coincide and a slot is at most a date late: if and only if the slot of the date after now's is still to come |
| `Zones.BackOverMidnightFails` | src/durable_queue/scheduler.py:57-73 | clocks going back over midnight break it |
| `Schedules.ClosedForm` | src/durable_queue/scheduler.py:146-148 | the floor-division form is where catching up one period at a time ends |
| `Schedules.IntervalSlot` | src/durable_queue/scheduler.py:144-155 | that slot is the last not after now, the next is a period later, and winding next_run_at back whole periods does not change it |
| `Schedules.IntervalDueAgainExact` | src/durable_queue/scheduler.py:144-155 | a fired interval schedule is not due again if and only if its interval is positive |
| `Schedules.FiringMovesOn` | src/durable_queue/scheduler.py:215-232 | next_run_at <= slot fired <= now < next slot, at any instant that has missed no slot |
| `Schedules.FiresBehindExact` | src/durable_queue/scheduler.py:144-155 | a due daily schedule fires a slot before its own next_run_at if and only if the slot of now's date has come and next_run_at is later |
| `Schedules.FiringKeepsBehind` | src/durable_queue/scheduler.py:144-155 | and even so, with the slot two dates on still to come, every slot that was behind next_run_at is at or before the one fired |
| `Schedules.ScheduleTable.RegisterSchedule` | src/durable_queue/scheduler.py:76-141 | a new schedule starts at its first time; a known one keeps its place unless its clock time changed; an anchor on a clock schedule is refused, and no interval is |
| `Schedules.ScheduleTable.FireOne` | src/durable_queue/scheduler.py:215-232 | the slot's job, under the key of name and slot, is made or already there exactly if there is no lateness limit or the slot is within it; next_run_at moves on either way; no other job is made |
| `Schedules.ScheduleTable.RunDueSchedules` | src/durable_queue/scheduler.py:158-239 | exactly the due unlocked schedules move on; each with no lateness limit, or a slot within it, has its slot's job and no other job is made; the count is of those; a due interval of zero rolls the whole pass back |
| `ScheduleRuns.StepKeepsInv` | src/durable_queue/scheduler.py:158-195 | each step keeps locks apart and pending inserts free of any committed slot |
| `ScheduleRuns.AtMostOneJobPerSlot` | src/durable_queue/scheduler.py:184-194 | schedulers at once, crashes, rewinds and re-registrations never make two jobs for a slot |
| `ScheduleRuns.SlotsFireInOrder` | src/durable_queue/scheduler.py:160-174 | without rewinds, where no change is back by more than a day, fired slots strictly increase behind next_run_at, and a commit leaves each schedule that had missed no slot due only after the pass's time |
| `ScheduleRuns.EverySlotIsNew` | src/durable_queue/scheduler.py:168-174 | and then, for a schedule that has missed no slot, the locks alone suffice: the key never has to stop a second job |
| `ScheduleRuns.FiresOnce` | src/durable_queue/scheduler.py:184-194 | a run in which a schedule fires, is wound back and comes due again, and its slot has one job |
| `Wakeups.StepKeepsInv` | src/durable_queue/wakeup.py:39-48 | each step keeps a loop's reading no newer than its look |
| `Wakeups.NoLostWakeup` | src/durable_queue/wakeup.py:39-48 | no loop is asleep that has not looked since the latest commit followed by a wake |
| `Wakeups.WakeEndsSleep` | src/durable_queue/wakeup.py:32-36 | a wake after a commit can always come, and leaves no loop asleep |
| `Wakeups.StopIsHeard` | src/durable_queue/worker.py:510-563 | after stop and wake, a loop is asleep now or later in some course if and only if it is in one of a few places, and it is then a scheduler |
| `Wakeups.StopIsMissed` | src/durable_queue/scheduler.py:275-297 | the stop's wake goes unheard by a loop if and only if it is a scheduler between its test of stop and its reading of the generation |
| `Wakeups.SchedulerMaySleepThroughStop` | src/durable_queue/scheduler.py:275-297 | a run in which one is |
| `FanOut.PlanChunks` | tests/chaos/test_math_problem.py:49-61 | chunk k runs from 1 + k size to (k + 1) size or n, and there are as many as start by n |
| `FanOut.ChunksTelescope` | tests/chaos/math_tasks.py:33 | the first k chunks sum to the triangle number where they end |
| `FanOut.AllChunks` | tests/chaos/test_math_problem.py:88-89 | all chunks together are n(n+1)/2 |
| `FanOut.StepKeepsInv` | tests/chaos/math_tasks.py:31-97 | each step of each run, killed or not, keeps the count equal to the chunks recorded and the row locks exclusive |
| `FanOut.ExactSum` | tests/chaos/math_tasks.py:31-97 | under any interleaving, kill and repetition: the count is exact, the last chunk is seen at most once, combining is queued only when all are recorded, and a result is n(n+1)/2 |
| `FanOut.OneChunkIsSolved` | tests/chaos/math_tasks.py:31-97 | a run that ends with the result |
| `FanOut.KillLosesOnlyTheRun` | tests/chaos/math_tasks.py:31-69 | a kill can come at any time and loses just the run |

## Left out

- psycopg, the connection pool, reconnecting, DSN handling and NOTIFY delivery: a dropped connection is an Abort, or a Commit whose caller may go on to start another transaction.
- The task's code, arguments and error text: a transactional task's writes are one count, committed with its transaction; a plain task's effects are not modelled, since nothing bounds how often they happen.
- Backoff: the delay of a failure is any integer, not a random one below min(300, 2^attempts).
- Relaxed durability (`synchronous_commit = off`): a commit here is durable.
- A transaction that writes the same row twice, other than mark_failed's count and settlement: no statement sequence of the source does.
- `enqueue_many`, statistics, listing, the effects ledger, the CLI and `Runner`: only easy members.
- Tables.JobTable.ReapExpiredJobs: does not model other transactions' commits between the two UPDATEs of an autocommit sweep; `ReapAtLimit` and `ReapTheRest` are those UPDATEs, which other calls may come between, and `Transactions` has them a row at a time.
- LeaseTiming.TimedExclusion: does not model two clocks; the process's monotonic clock and the database's are one, and a beat's write is instantaneous.
- LeaseTiming.HungJobIsRecoverable: an execution ceiling is taken to be positive.
- Zones.Resolution: does not cover zones whose changes are closer together than the clock moves at them; `Zones.SortedIsNotEnough` shows that the result fails for such a zone.
- Schedules.IntervalSlot: does not cover an interval that is not positive, of which `Schedules.IntervalDueAgainExact` says what goes wrong.
- Zones.DueAgainExact: does not cover a zone with a change of more than a day forward, whose slots need not be in order (`Zones.JumpsExact`).
- Draining.EachDueJobOnce: does not model rows locked for anything but a claim.
- Wakeups.StopIsHeard: only the idle loops, which wait on the generation; the others sleep for a fixed time.
- ScheduleRuns.AtMostOneJobPerSlot: does not model purges, which free a slot's key as jobs.py:484-490 says.
- Errors between claiming a batch and queueing it: one in the claim itself is an empty batch in `WorkerSlots`.
- When the claim loop sweeps, how long it sleeps, and its reconnect delays: any step may come at any time.
- Eventual progress: a worker whose outstanding count is full waits without sweeping, so nothing is said about when a job runs.
- FanOut.ExactSum: safety only; a kill between the two commits of the last chunk loses the combining job.
