/** Workers claiming at once under SKIP LOCKED until their claims come back empty, with
    enqueues arriving meanwhile. */
module Draining {
  import opened Jobs
  import T = Transactions

  /** What the claiming workers' transactions, and enqueues, do. */
  predicate Claiming(step: T.Step) {
    step.Insert? || step.Begin? || (step.Act? && step.action.Claim?) || step.Commit? || step.Abort?
  }

  /** A stretch of a run, from a moment when no transaction is open. */
  ghost predicate Drain(trace: seq<T.State>, steps: seq<T.Step>) {
    && |trace| == |steps| + 1
    && T.Inv(trace[0]) && trace[0].txns == map[]
    && forall i | 0 <= i < |steps| ::
         Claiming(steps[i]) && T.Enabled(trace[i], steps[i]) && trace[i + 1] == T.Apply(trace[i], steps[i])
  }

  function LockedIds(txns: map<T.TxnId, T.Txn>): set<JobId> {
    set x, id | x in txns && id in txns[x].writes :: id
  }

  /** A claim reading `now` would find nothing: every due row is another's. */
  ghost predicate EmptyClaim(s: T.State, now: Time) {
    forall id <- s.rows | s.rows[id].status == Pending && s.rows[id].runAt <= now :: id in LockedIds(s.txns)
  }

  predicate Commits(s: T.State, step: T.Step, id: JobId) {
    step.Commit? && step.x in s.txns && id in s.txns[step.x].writes
  }

  /** How many of the first n steps commit a claim of this job. */
  function Claims(trace: seq<T.State>, steps: seq<T.Step>, id: JobId, n: nat): nat
    requires n <= |steps| < |trace|
  {
    if n == 0 then 0 else Claims(trace, steps, id, n - 1) + if Commits(trace[n - 1], steps[n - 1], id) then 1 else 0
  }

  ghost predicate OnlyClaims(txns: map<T.TxnId, T.Txn>) {
    forall x <- txns, id <- txns[x].writes :: txns[x].writes[id].action.Claim?
  }

  lemma StepKeepsClaims(s: T.State, step: T.Step)
    requires OnlyClaims(s.txns) && Claiming(step) && T.Enabled(s, step)
    ensures OnlyClaims(T.Apply(s, step).txns)
  {}

  lemma {:induction false} DrainKeepsInv(trace: seq<T.State>, steps: seq<T.Step>, i: nat)
    requires Drain(trace, steps) && i < |trace|
    ensures T.Inv(trace[i]) && OnlyClaims(trace[i].txns)
  {
    hide T.Enabled, T.Apply, T.Inv, Claiming;
    if i > 0 {
      DrainKeepsInv(trace, steps, i - 1);
      T.StepKeepsInv(trace[i - 1], steps[i - 1]);
      StepKeepsClaims(trace[i - 1], steps[i - 1]);
    }
  }

  /** One step leaves a row alone, or commits the claim that takes it from pending to running. */
  lemma StepClaimsRow(s: T.State, step: T.Step, id: JobId)
    requires T.TxnsInv(s) && s.nextId !in s.rows && OnlyClaims(s.txns)
    requires Claiming(step) && T.Enabled(s, step) && id in s.rows
    ensures var rows' := T.Apply(s, step).rows;
            && id in rows'
            && if Commits(s, step, id)
               then s.rows[id].status.Pending? && rows'[id].status.Running?
               else rows'[id] == s.rows[id]
  {
    if step.Commit? {
      assert T.TxnInv(s.rows, s.hist, s.txns[step.x]);
    }
  }

  lemma {:induction false} ClaimedAtMostOnce(trace: seq<T.State>, steps: seq<T.Step>, i: nat, id: JobId)
    requires Drain(trace, steps) && i <= |steps| && id in trace[0].rows
    ensures id in trace[i].rows
    ensures || (Claims(trace, steps, id, i) == 0 && trace[i].rows[id] == trace[0].rows[id])
            || (Claims(trace, steps, id, i) == 1 && trace[0].rows[id].status.Pending? && trace[i].rows[id].status.Running?)
  {
    hide T.Enabled, T.Apply, T.TxnsInv, T.WorkInv, OnlyClaims, Claiming, Commits;
    if i > 0 {
      ClaimedAtMostOnce(trace, steps, i - 1, id);
      DrainKeepsInv(trace, steps, i - 1);
      T.FreshId(trace[i - 1]);
      StepClaimsRow(trace[i - 1], steps[i - 1], id);
    }
  }

  lemma StepKeepsLock(s: T.State, step: T.Step, id: JobId)
    requires Claiming(step) && !step.Abort? && T.Enabled(s, step) && id in LockedIds(s.txns)
    ensures id in LockedIds(T.Apply(s, step).txns) || Commits(s, step, id)
  {
    var x :| x in s.txns && id in s.txns[x].writes;
    assert step == T.Commit(x) || (x in T.Apply(s, step).txns && id in T.Apply(s, step).txns[x].writes);
  }

  lemma {:induction false} LockedIsClaimed(trace: seq<T.State>, steps: seq<T.Step>, e: nat, i: nat, id: JobId)
    requires Drain(trace, steps) && e <= i <= |steps| && id in LockedIds(trace[e].txns)
    requires forall k | e <= k < i :: !steps[k].Abort?
    ensures id in LockedIds(trace[i].txns) || Claims(trace, steps, id, i) > 0
    decreases i
  {
    hide T.Enabled, T.Apply, T.Inv, LockedIds, Claiming, Commits;
    if e < i {
      LockedIsClaimed(trace, steps, e, i - 1, id);
      if id in LockedIds(trace[i - 1].txns) {
        StepKeepsLock(trace[i - 1], steps[i - 1], id);
      }
    }
  }

  lemma {:induction false} ClaimsGrow(trace: seq<T.State>, steps: seq<T.Step>, id: JobId, m: nat, n: nat)
    requires m <= n <= |steps| < |trace|
    ensures Claims(trace, steps, id, m) <= Claims(trace, steps, id, n)
    decreases n
  {
    if m < n {
      ClaimsGrow(trace, steps, id, m, n - 1);
    }
  }

  /** Main result: however the workers' claims interleave, commit or are lost, no job is
      handed out by two committed claims. Once a claim has come back empty with no claim
      open, or with every claim then open committed since, each job due at the start has
      been handed out by exactly one. */
  lemma EachDueJobOnce(trace: seq<T.State>, steps: seq<T.Step>, e: nat, now: Time, id: JobId)
    requires Drain(trace, steps) && id in trace[0].rows && e <= |steps|
    ensures Claims(trace, steps, id, |steps|) <= 1
    ensures && trace[0].rows[id].status == Pending && trace[0].rows[id].runAt <= now && EmptyClaim(trace[e], now)
            && (trace[e].txns == map[]
                || (trace[|steps|].txns == map[] && forall k | e <= k < |steps| :: !steps[k].Abort?))
            ==> Claims(trace, steps, id, |steps|) == 1
  {
    hide T.Inv, T.Enabled, T.Apply, Claiming;
    ClaimedAtMostOnce(trace, steps, |steps|, id);
    ClaimedAtMostOnce(trace, steps, e, id);
    if trace[0].rows[id].status == Pending && trace[0].rows[id].runAt <= now && EmptyClaim(trace[e], now) {
      if id !in LockedIds(trace[e].txns) {
        ClaimsGrow(trace, steps, id, e, |steps|);
      } else if trace[|steps|].txns == map[] && forall k | e <= k < |steps| :: !steps[k].Abort? {
        LockedIsClaimed(trace, steps, e, |steps|, id);
      }
    }
  }
}
