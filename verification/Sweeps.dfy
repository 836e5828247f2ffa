/** When the sweeps that reap_expired_jobs makes bound the life of a job. */
module Sweeps {
  import opened Jobs
  import opened Sets
  import opened Tables
  import L = LeaseProtocol

  function SweepStep(dead: set<JobId>, now1: Time, back: set<JobId>, now2: Time): L.Step {
    L.Write(Each(dead, ReapDead(now1)) + Each(back, ReapBack(now2)))
  }

  /** One job fits: it is out of the second UPDATE's reach at its recovery limit, or in the
      reach of the first, whose batch holds all that are. */
  predicate JobFits(rows: Rows, locked1: set<JobId>, locked2: set<JobId>, now1: Time, now2: Time, batch: nat, id: JobId) {
    || batch == 0
    || id !in ExpiredAtLimit(rows, locked2, now2)
    || (id in ExpiredAtLimit(rows, locked1, now1) && |ExpiredAtLimit(rows, locked1, now1)| <= batch)
  }

  lemma AllFit(rows: Rows, locked1: set<JobId>, locked2: set<JobId>, now1: Time, now2: Time, batch: nat)
    ensures Fits(rows, locked1, locked2, now1, now2, batch)
            <==> forall id :: JobFits(rows, locked1, locked2, now1, now2, batch, id)
  {
    var second := ExpiredAtLimit(rows, locked2, now2);
    if second != {} && forall id :: JobFits(rows, locked1, locked2, now1, now2, batch, id) {
      var x :| x in second;
      assert JobFits(rows, locked1, locked2, now1, now2, batch, x);
      forall id <- second ensures batch == 0 || id in ExpiredAtLimit(rows, locked1, now1) {
        assert JobFits(rows, locked1, locked2, now1, now2, batch, id);
      }
    }
  }

  lemma SweepIsStep(s: L.State, locked1: set<JobId>, locked2: set<JobId>, now1: Time, now2: Time, batch: nat,
                    dead: set<JobId>, back: set<JobId>)
    requires Sweep(s.rows, locked1, locked2, now1, now2, batch, dead, back)
    ensures L.Enabled(s, SweepStep(dead, now1, back, now2)) && dead !! back
  {
    var acts := Each(dead, ReapDead(now1)) + Each(back, ReapBack(now2));
    forall i <- acts ensures i in s.rows && Guard(acts[i], s.rows[i]) && !acts[i].Count? {
      assert i in back || i in dead;
    }
  }

  lemma SweepTidyFor(s: L.State, dead: set<JobId>, now1: Time, back: set<JobId>, now2: Time, id: JobId, most: int)
    requires dead !! back
    ensures L.TidyStep(s, SweepStep(dead, now1, back, now2), id, most)
            <==> !(id in back && id in s.rows && AtLimit(s.rows[id]))
  {}

  /** A sweep that sends back a job that does not fit. */
  lemma UnfitSweepExists(rows: Rows, locked1: set<JobId>, locked2: set<JobId>, now1: Time, now2: Time, batch: nat, id: JobId)
    requires !JobFits(rows, locked1, locked2, now1, now2, batch, id)
    ensures exists dead, back :: Sweep(rows, locked1, locked2, now1, now2, batch, dead, back) && id in back
  {
    var first := ExpiredAtLimit(rows, locked1, now1);
    assert id in first ==> first == (first - {id}) + {id};
    assert id !in first ==> first - {id} == first;
    var dead := SubsetOfSize(first - {id}, Min(batch, |first|));
    SendBackOne(rows, locked2, now2, batch, dead, id);
    var back :| AnyOf(ExpiredIds(rows, locked2, now2) - dead, batch, back) && id in back;
    assert Sweep(rows, locked1, locked2, now1, now2, batch, dead, back);
  }

  /** Main result: every sweep that may be made here is tidy for a job exactly when it fits. */
  lemma TidySweepsExact(s: L.State, locked1: set<JobId>, locked2: set<JobId>, now1: Time, now2: Time, batch: nat,
                        id: JobId, most: int)
    ensures (forall dead, back | Sweep(s.rows, locked1, locked2, now1, now2, batch, dead, back) ::
               L.TidyStep(s, SweepStep(dead, now1, back, now2), id, most))
            <==> JobFits(s.rows, locked1, locked2, now1, now2, batch, id)
  {
    hide L.TidyStep, L.Enabled, SweepStep;
    forall dead, back | Sweep(s.rows, locked1, locked2, now1, now2, batch, dead, back)
      ensures L.TidyStep(s, SweepStep(dead, now1, back, now2), id, most)
              <==> !(id in back && id in s.rows && AtLimit(s.rows[id]))
      ensures id in back && AtLimit(s.rows[id]) ==> !JobFits(s.rows, locked1, locked2, now1, now2, batch, id)
    {
      SweepIsStep(s, locked1, locked2, now1, now2, batch, dead, back);
      SweepTidyFor(s, dead, now1, back, now2, id, most);
      SubsetSize(dead, ExpiredAtLimit(s.rows, locked1, now1));
    }
    if !JobFits(s.rows, locked1, locked2, now1, now2, batch, id) {
      UnfitSweepExists(s.rows, locked1, locked2, now1, now2, batch, id);
    }
  }

  /** A sweep the job fits, or a step that does not send it back and brings no limit over `most`. */
  ghost predicate FittingStep(s: L.State, step: L.Step, id: JobId, most: int) {
    || (L.TidyStep(s, step, id, most) && (step.Write? && id in step.acts ==> !step.acts[id].ReapBack?))
    || exists dead, back, locked1, locked2, now1, now2, batch: nat ::
         && Sweep(s.rows, locked1, locked2, now1, now2, batch, dead, back)
         && JobFits(s.rows, locked1, locked2, now1, now2, batch, id)
         && step == SweepStep(dead, now1, back, now2)
  }

  lemma FittingIsTidy(s: L.State, step: L.Step, id: JobId, most: int)
    requires FittingStep(s, step, id, most)
    ensures L.TidyStep(s, step, id, most)
  {
    hide L.TidyStep, Sweep, JobFits, SweepStep;
    if !L.TidyStep(s, step, id, most) {
      var dead, back, locked1, locked2, now1, now2, batch: nat :|
        && Sweep(s.rows, locked1, locked2, now1, now2, batch, dead, back)
        && JobFits(s.rows, locked1, locked2, now1, now2, batch, id)
        && step == SweepStep(dead, now1, back, now2);
      TidySweepsExact(s, locked1, locked2, now1, now2, batch, id, most);
    }
  }

  lemma RunShape(trace: seq<L.State>, steps: seq<L.Step>)
    requires L.Run(trace, steps)
    ensures |trace| == |steps| + 1
  {}

  /** Main result: so while the job fits every sweep there is, it is not claimed more than
      most + max_recoveries - 1 times, releases apart. */
  lemma BoundedWhileSweepsFit(trace: seq<L.State>, steps: seq<L.Step>, i: nat, id: JobId, most: int)
    requires L.Run(trace, steps) && i < |trace| && id in trace[i].rows && most >= 1
    requires forall k | 0 <= k < |steps| :: FittingStep(trace[k], steps[k], id, most)
    ensures id in trace[i].hist
    ensures var j, h := trace[i].rows[id], trace[i].hist[id];
            h.claims <= most + (if j.maxRecoveries >= 1 then j.maxRecoveries else 1) - 1 + h.releases
  {
    hide L.TidyStep, FittingStep, L.Run, L.RecoveryLimit;
    forall k | 0 <= k < |steps| ensures |trace| == |steps| + 1 && L.TidyStep(trace[k], steps[k], id, most) {
      RunShape(trace, steps);
      FittingIsTidy(trace[k], steps[k], id, most);
    }
    L.BoundedLife(trace, steps, i, id, most);
  }

  /** The run that breaks the bound is a sweep's doing: its one row expires between the two UPDATEs. */
  lemma BoundBrokenBySweep(w: WorkerId, batch: nat) returns (trace: seq<L.State>, steps: seq<L.Step>)
    requires batch > 0
    ensures L.Run(trace, steps) && |trace| == 5 && 0 in trace[4].rows && 0 in trace[4].hist
    ensures Sweep(trace[2].rows, {}, {}, 1, 2, batch, {}, {0}) && steps[2] == SweepStep({}, 1, {0}, 2)
    ensures var j, h := trace[4].rows[0], trace[4].hist[0];
            h.claims > j.maxAttempts + j.maxRecoveries - 1 + h.releases
  {
    trace, steps := L.UntidySweepBreaksBound(w);
    assert L.Enabled(trace[2], steps[2]);
    assert 0 in map[0 := ReapBack(2)];
    assert ExpiredAtLimit(trace[2].rows, {}, 1) == {};
    assert ExpiredIds(trace[2].rows, {}, 2) - {} == {0};
    assert Each({}, ReapDead(1)) + Each({0}, ReapBack(2)) == map[0 := ReapBack(2)];
  }
}
