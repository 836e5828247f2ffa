/** The fan-out demonstration: the sum 1 + ... + n by chunk jobs that may be killed at any
    point and run again, the last to finish enqueueing the job that combines them. */
module FanOut {
  import opened Division
  import opened Sets
  import J = Jobs

  // ---------- chunks ----------

  /** One problem: the sum of 1..n in chunks of `size`. */
  datatype Problem = Problem(n: nat, size: nat)

  predicate Posed(p: Problem) {
    p.size >= 1
  }

  /** How many chunk starts there are in 1, 1 + size, ... up to n. */
  function Total(p: Problem): nat
    requires Posed(p)
  {
    (p.n + p.size - 1) / p.size
  }

  function Start(p: Problem, k: nat): int {
    1 + k * p.size
  }

  function End(p: Problem, k: nat): int {
    if Start(p, k) + p.size - 1 <= p.n then Start(p, k) + p.size - 1 else p.n
  }

  /** sum(range(start, end + 1)). */
  function SumRange(start: int, end: int): int
    decreases end - start
  {
    if start > end then 0 else SumRange(start, end - 1) + end
  }

  function Partial(p: Problem, k: nat): int {
    SumRange(Start(p, k), End(p, k))
  }

  lemma NextStart(p: Problem, k: nat)
    ensures Start(p, k + 1) == Start(p, k) + p.size
  {
    assert (k + 1) * p.size == k * p.size + p.size;
  }

  lemma TotalIs(p: Problem, k: nat)
    requires Posed(p) && Start(p, k) > p.n && (k > 0 ==> Start(p, k - 1) <= p.n)
    ensures Total(p) == k
  {
    if k > 0 {
      assert (k - 1) * p.size == k * p.size - p.size;
    }
    DivideUnique(p.n + p.size - 1, p.size, k);
  }

  /** The chunk jobs to enqueue, as the caller's loop over chunk starts lists them. */
  method PlanChunks(p: Problem) returns (chunks: seq<(int, int)>)
    requires Posed(p)
    ensures |chunks| == Total(p)
    ensures 1 + |chunks| * p.size > p.n && (|chunks| > 0 ==> 1 + (|chunks| - 1) * p.size <= p.n)
    ensures forall k | 0 <= k < |chunks| ::
              && chunks[k].0 == 1 + k * p.size
              && chunks[k].1 == (if (k + 1) * p.size <= p.n then (k + 1) * p.size else p.n)
    ensures forall k | 0 <= k < |chunks| :: chunks[k] == (Start(p, k), End(p, k))
  {
    hide Total;
    chunks := [];
    var start := 1;
    while start <= p.n
      invariant start == Start(p, |chunks|)
      invariant forall k | 0 <= k < |chunks| :: chunks[k] == (Start(p, k), End(p, k))
      invariant |chunks| > 0 ==> Start(p, |chunks| - 1) <= p.n
      decreases p.n - start
    {
      var end := start + p.size - 1;
      chunks := chunks + [(start, if end <= p.n then end else p.n)];
      start := start + p.size;
      NextStart(p, |chunks| - 1);
    }
    TotalIs(p, |chunks|);
  }

  function Triangle(m: int): int {
    m * (m + 1) / 2
  }

  lemma TriangleStep(m: int)
    ensures Triangle(m) == Triangle(m - 1) + m
  {
    assert m * (m + 1) == (m - 1) * m + 2 * m;
  }

  lemma {:induction false} RangeIsTriangles(start: int, end: int)
    requires start - 1 <= end
    ensures SumRange(start, end) == Triangle(end) - Triangle(start - 1)
    decreases end - start
  {
    if start <= end {
      RangeIsTriangles(start, end - 1);
      TriangleStep(end);
    }
  }

  /** The first k chunks' partial sums together. */
  function Together(p: Problem, k: nat): int {
    if k == 0 then 0 else Together(p, k - 1) + Partial(p, k - 1)
  }

  lemma {:induction false} ChunksTelescope(p: Problem, k: nat)
    requires Posed(p) && k <= Total(p)
    ensures Together(p, k) == Triangle(if k * p.size <= p.n then k * p.size else p.n)
  {
    if k > 0 {
      ChunksTelescope(p, k - 1);
      var before := (k - 1) * p.size;
      assert k * p.size == before + p.size;
      DivideBounds(p.n + p.size - 1, p.size);
      TimesInOrder(k, Total(p), p.size);
      RangeIsTriangles(Start(p, k - 1), End(p, k - 1));
    }
  }

  /** Every chunk once is the whole sum. */
  lemma AllChunks(p: Problem)
    requires Posed(p)
    ensures Together(p, Total(p)) == p.n * (p.n + 1) / 2
  {
    ChunksTelescope(p, Total(p));
    DivideBounds(p.n + p.size - 1, p.size);
  }

  // ---------- runs ----------

  /** A run of a chunk's job, or of the combining one. Inserted holds an uncommitted chunk
      row; Counted also the problem's row, with the count it returned; Skipped found its
      chunk recorded. Recorded has committed, with that count. */
  datatype Job =
    | Chunk(k: nat)
    | Inserted(k: nat)
    | Counted(k: nat, count: nat)
    | Skipped
    | Recorded(count: nat)
    | Combine
    | Summed(sum: int)

  /** lasts counts the commits that saw every chunk done. */
  datatype State = State(
    completed: nat,
    results: map<nat, int>,
    result: J.Option<int>,
    combineQueued: bool,
    runs: map<nat, Job>,
    lasts: nat)

  const Initial := State(0, map[], J.None, false, map[], 0)

  /** A kill, at any point, is Kill; a job may be started again at any time, any number of times. */
  datatype Step =
    | StartChunk(r: nat, k: nat)
    | Insert(r: nat)
    | Count(r: nat)
    | Commit(r: nat)
    | Enqueue(r: nat)
    | StartCombine(r: nat)
    | Sum(r: nat)
    | CommitResult(r: nat)
    | Kill(r: nat)

  predicate Writes(j: Job, k: nat) {
    (j.Inserted? || j.Counted?) && j.k == k
  }

  /** Another transaction's uncommitted row for chunk k, which an insert waits for. */
  ghost predicate InsertPending(s: State, k: nat) {
    exists r <- s.runs :: Writes(s.runs[r], k)
  }

  ghost predicate ProblemLocked(s: State) {
    exists r <- s.runs :: s.runs[r].Counted?
  }

  ghost predicate Enabled(p: Problem, s: State, step: Step)
    requires Posed(p)
  {
    match step
    case StartChunk(r, k) => r !in s.runs && k < Total(p)
    case Insert(r) => r in s.runs && s.runs[r].Chunk? && !InsertPending(s, s.runs[r].k)
    case Count(r) => r in s.runs && s.runs[r].Inserted? && !ProblemLocked(s)
    case Commit(r) => r in s.runs && s.runs[r].Counted?
    case Enqueue(r) => r in s.runs && s.runs[r].Recorded? && s.runs[r].count == Total(p)
    case StartCombine(r) => r !in s.runs && s.combineQueued
    case Sum(r) => r in s.runs && s.runs[r].Combine?
    case CommitResult(r) => r in s.runs && s.runs[r].Summed?
    case Kill(r) => r in s.runs
  }

  /** SELECT sum(partial_sum), over the chunks below k. */
  function SumOf(results: map<nat, int>, k: nat): int {
    if k == 0 then 0 else SumOf(results, k - 1) + (if k - 1 in results then results[k - 1] else 0)
  }

  function Apply(p: Problem, s: State, step: Step): State
    requires Posed(p) && Enabled(p, s, step)
  {
    match step
    case StartChunk(r, k) => s.(runs := s.runs[r := Chunk(k)])
    case Insert(r) =>
      s.(runs := s.runs[r := if s.runs[r].k in s.results then Skipped else Inserted(s.runs[r].k)])
    case Count(r) => s.(runs := s.runs[r := Counted(s.runs[r].k, s.completed + 1)])
    case Commit(r) =>
      s.(results := s.results[s.runs[r].k := Partial(p, s.runs[r].k)],
         completed := s.runs[r].count,
         lasts := if s.runs[r].count == Total(p) then s.lasts + 1 else s.lasts,
         runs := s.runs[r := Recorded(s.runs[r].count)])
    case Enqueue(r) => s.(combineQueued := true, runs := s.runs - {r})
    case StartCombine(r) => s.(runs := s.runs[r := Combine])
    case Sum(r) => s.(runs := s.runs[r := Summed(SumOf(s.results, Total(p)))])
    case CommitResult(r) => s.(result := J.Some(s.runs[r].sum), runs := s.runs - {r})
    case Kill(r) => s.(runs := s.runs - {r})
  }

  ghost predicate Run(p: Problem, trace: seq<State>, steps: seq<Step>)
    requires Posed(p)
  {
    && |trace| == |steps| + 1
    && trace[0] == Initial
    && forall i | 0 <= i < |steps| :: Enabled(p, trace[i], steps[i]) && trace[i + 1] == Apply(p, trace[i], steps[i])
  }

  function Below(k: nat): (s: set<nat>)
    ensures |s| == k && forall i: nat :: i in s <==> i < k
  {
    if k == 0 then {} else Below(k - 1) + {k - 1}
  }

  ghost predicate RunInv(p: Problem, s: State, j: Job)
    requires Posed(p)
  {
    match j
    case Chunk(k) => k < Total(p)
    case Inserted(k) => k < Total(p) && k !in s.results
    case Counted(k, count) => k < Total(p) && k !in s.results && count == s.completed + 1
    case Recorded(count) => count <= s.completed
    case Skipped => true
    case Combine => s.combineQueued
    case Summed(sum) => s.combineQueued && sum == Together(p, Total(p))
  }

  /** One run at a time writes a chunk, and one the problem's count. */
  ghost predicate OneWriter(runs: map<nat, Job>) {
    forall r, q | r in runs && q in runs && r != q ::
      && !(runs[r].Counted? && runs[q].Counted?)
      && (runs[r].Inserted? || runs[r].Counted? ==> !Writes(runs[q], runs[r].k))
  }

  ghost predicate Inv(p: Problem, s: State)
    requires Posed(p)
  {
    && s.completed == |s.results|
    && s.results.Keys <= Below(Total(p))
    && (forall k <- s.results :: s.results[k] == Partial(p, k))
    && (s.combineQueued ==> s.completed == Total(p))
    && (s.result.Some? ==> s.result.value == Together(p, Total(p)))
    && s.lasts == (if s.completed == Total(p) && Total(p) > 0 then 1 else 0)
    && OneWriter(s.runs)
    && (forall r <- s.runs :: RunInv(p, s, s.runs[r]))
  }

  lemma {:induction false} SumWhenAll(p: Problem, results: map<nat, int>, k: nat)
    requires Posed(p) && forall i | 0 <= i < k :: i in results && results[i] == Partial(p, i)
    ensures SumOf(results, k) == Together(p, k)
  {
    if k > 0 {
      SumWhenAll(p, results, k - 1);
    }
  }

  lemma AllRecorded(p: Problem, s: State)
    requires Posed(p) && Inv(p, s) && s.completed == Total(p)
    ensures s.results.Keys == Below(Total(p))
    ensures SumOf(s.results, Total(p)) == Together(p, Total(p))
    ensures forall r <- s.runs :: !s.runs[r].Inserted? && !s.runs[r].Counted?
  {
    SubsetSize(s.results.Keys, Below(Total(p)));
    SumWhenAll(p, s.results, Total(p));
    forall r <- s.runs ensures !s.runs[r].Inserted? && !s.runs[r].Counted? {
      assert RunInv(p, s, s.runs[r]);
    }
  }

  lemma CommitKeepsInv(p: Problem, s: State, r: nat)
    requires Posed(p) && Inv(p, s) && Enabled(p, s, Commit(r))
    ensures Inv(p, Apply(p, s, Commit(r)))
  {
    hide Partial, Total, Together, SumOf;
    var s' := Apply(p, s, Commit(r));
    assert RunInv(p, s, s.runs[r]);
    var k := s.runs[r].k;
    assert s'.results.Keys == s.results.Keys + {k};
    SubsetSize(s'.results.Keys, Below(Total(p)));
    forall q <- s'.runs ensures RunInv(p, s', s'.runs[q]) {
      assert RunInv(p, s, s.runs[q]);
    }
  }

  /** A run's next phase, when nobody else writes what it writes. */
  lemma RunMovesOn(p: Problem, s: State, r: nat, j: Job)
    requires Posed(p) && Inv(p, s) && RunInv(p, s, j)
    requires forall q <- s.runs | q != r ::
               && !(j.Counted? && s.runs[q].Counted?)
               && (j.Inserted? || j.Counted? ==> !Writes(s.runs[q], j.k))
    ensures Inv(p, s.(runs := s.runs[r := j]))
  {
    hide Partial, Total, Together, Below, SumOf;
  }

  lemma OthersDoNotWrite(s: State, r: nat)
    requires OneWriter(s.runs) && r in s.runs && s.runs[r].Inserted?
    ensures forall q <- s.runs | q != r :: !Writes(s.runs[q], s.runs[r].k)
  {}

  lemma RunEnds(p: Problem, s: State, r: nat)
    requires Posed(p) && Inv(p, s)
    ensures Inv(p, s.(runs := s.runs - {r}))
  {
    hide Partial, Total, Together, Below, SumOf;
  }

  lemma RunUntouched(p: Problem, s: State, s': State, j: Job)
    requires Posed(p) && RunInv(p, s, j)
    requires s'.results == s.results && s'.completed == s.completed && (s.combineQueued ==> s'.combineQueued)
    ensures RunInv(p, s', j)
  {}

  lemma QueueingIsLate(p: Problem, s: State, r: nat)
    requires Posed(p) && Inv(p, s) && Enabled(p, s, Enqueue(r))
    ensures Inv(p, s.(combineQueued := true))
  {
    assert RunInv(p, s, s.runs[r]);
    SubsetSize(s.results.Keys, Below(Total(p)));
    hide Partial, Total, Together, Below, SumOf, OneWriter, RunInv;
    forall q <- s.runs ensures RunInv(p, s.(combineQueued := true), s.runs[q]) {
      RunUntouched(p, s, s.(combineQueued := true), s.runs[q]);
    }
  }

  lemma ResultIsWhole(p: Problem, s: State, r: nat)
    requires Posed(p) && Inv(p, s) && Enabled(p, s, CommitResult(r))
    ensures Inv(p, s.(result := J.Some(s.runs[r].sum)))
  {
    assert RunInv(p, s, s.runs[r]);
    hide Partial, Total, Together, Below, SumOf, OneWriter, RunInv;
    forall q <- s.runs ensures RunInv(p, s.(result := J.Some(s.runs[r].sum)), s.runs[q]) {
      RunUntouched(p, s, s.(result := J.Some(s.runs[r].sum)), s.runs[q]);
    }
  }

  lemma PhaseIsFree(p: Problem, s: State, step: Step, r: nat)
    requires Posed(p) && Inv(p, s) && Enabled(p, s, step)
    requires step == Insert(r) || step == Count(r) || step == Sum(r) || (step.StartChunk? && step.r == r) || step == StartCombine(r)
    ensures Inv(p, Apply(p, s, step))
  {
    hide Partial, Total, Together, Below, SumOf;
    var j := Apply(p, s, step).runs[r];
    assert r in s.runs ==> RunInv(p, s, s.runs[r]);
    if step.Sum? {
      AllRecorded(p, s);
    } else if step.Count? {
      OthersDoNotWrite(s, r);
    }
    assert RunInv(p, s, j);
    RunMovesOn(p, s, r, j);
  }

  lemma StepKeepsInv(p: Problem, s: State, step: Step)
    requires Posed(p) && Inv(p, s) && Enabled(p, s, step)
    ensures Inv(p, Apply(p, s, step))
  {
    hide Inv, OneWriter, RunInv, Partial, Total, Together, Below, SumOf;
    match step
    case Commit(r) => CommitKeepsInv(p, s, r);
    case Enqueue(r) =>
      QueueingIsLate(p, s, r);
      RunEnds(p, s.(combineQueued := true), r);
    case CommitResult(r) =>
      ResultIsWhole(p, s, r);
      RunEnds(p, s.(result := J.Some(s.runs[r].sum)), r);
    case Kill(r) => RunEnds(p, s, r);
    case StartChunk(r, _) => PhaseIsFree(p, s, step, r);
    case Insert(r) => PhaseIsFree(p, s, step, r);
    case Count(r) => PhaseIsFree(p, s, step, r);
    case StartCombine(r) => PhaseIsFree(p, s, step, r);
    case Sum(r) => PhaseIsFree(p, s, step, r);
  }

  lemma {:induction false} RunKeepsInv(p: Problem, trace: seq<State>, steps: seq<Step>, i: nat)
    requires Posed(p) && Run(p, trace, steps) && i < |trace|
    ensures Inv(p, trace[i])
  {
    hide Enabled, Apply;
    if i > 0 {
      RunKeepsInv(p, trace, steps, i - 1);
      StepKeepsInv(p, trace[i - 1], steps[i - 1]);
    }
  }

  /** Main result: under any interleaving, kill and repetition, the count of completed
      chunks is the number recorded, each recorded chunk holds its own sum, one commit at
      most sees the last of them, the combining job is queued only once every chunk is
      recorded, and a result, when there is one, is n (n + 1) / 2. */
  lemma ExactSum(p: Problem, trace: seq<State>, steps: seq<Step>, i: nat)
    requires Posed(p) && Run(p, trace, steps) && i < |trace|
    ensures var s := trace[i];
            && s.completed == |s.results|
            && (forall k <- s.results :: k < Total(p) && s.results[k] == Partial(p, k))
            && s.lasts <= 1
            && (s.combineQueued ==> forall k: nat | k < Total(p) :: k in s.results)
            && (s.result.Some? ==> s.result.value == p.n * (p.n + 1) / 2)
  {
    RunKeepsInv(p, trace, steps, i);
    AllChunks(p);
    if trace[i].combineQueued {
      AllRecorded(p, trace[i]);
    }
  }

  lemma OneMore(p: Problem, before: seq<State>, done: seq<Step>, step: Step, after: State)
    returns (trace: seq<State>, steps: seq<Step>)
    requires Posed(p) && Run(p, before, done) && |before| == |done| + 1
    requires Enabled(p, before[|done|], step) && Apply(p, before[|done|], step) == after
    ensures Run(p, trace, steps) && |trace| == |steps| + 1 && trace[|steps|] == after
  {
    hide Enabled, Apply;
    trace, steps := before + [after], done + [step];
  }

  /** The first half of the run below, up to the commit of the chunk. */
  lemma OneChunkIsRecorded(p: Problem) returns (trace: seq<State>, steps: seq<Step>)
    requires Posed(p) && Total(p) == 1
    ensures Run(p, trace, steps) && |trace| == |steps| + 1
    ensures trace[|steps|] == State(1, map[0 := Partial(p, 0)], J.None, false, map[0 := Recorded(1)], 1)
  {
    assert Run(p, [Initial], []);
    hide Run, Partial, Total;
    var sum := Partial(p, 0);
    trace, steps := OneMore(p, [Initial], [], StartChunk(0, 0), Initial.(runs := map[0 := Chunk(0)]));
    trace, steps := OneMore(p, trace, steps, Insert(0), Initial.(runs := map[0 := Inserted(0)]));
    trace, steps := OneMore(p, trace, steps, Count(0), Initial.(runs := map[0 := Counted(0, 1)]));
    trace, steps := OneMore(p, trace, steps, Commit(0),
                            State(1, map[0 := sum], J.None, false, map[0 := Recorded(1)], 1));
  }

  /** A run that ends with a result: the one chunk of a problem of one, and the combining job. */
  lemma OneChunkIsSolved(p: Problem) returns (trace: seq<State>, steps: seq<Step>)
    requires Posed(p) && 1 <= p.n <= p.size
    ensures Run(p, trace, steps) && |trace| == |steps| + 1
    ensures trace[|steps|].result == J.Some(p.n * (p.n + 1) / 2)
    ensures trace[|steps|].completed == 1 && trace[|steps|].lasts == 1
  {
    assert Total(p) == 1 by {
      DivideUnique(p.n + p.size - 1, p.size, 1);
    }
    AllChunks(p);
    var sum := Partial(p, 0);
    assert Together(p, 1) == sum && SumOf(map[0 := sum], 1) == sum;
    hide Run, Total, Partial, Together, SumOf;
    trace, steps := OneChunkIsRecorded(p);
    var queued := State(1, map[0 := sum], J.None, true, map[], 1);
    assert trace[|steps|].runs - {0} == map[];
    trace, steps := OneMore(p, trace, steps, Enqueue(0), queued);
    trace, steps := OneMore(p, trace, steps, StartCombine(0), queued.(runs := map[0 := Combine]));
    trace, steps := OneMore(p, trace, steps, Sum(0), queued.(runs := map[0 := Summed(sum)]));
    assert trace[|steps|].runs - {0} == map[];
    trace, steps := OneMore(p, trace, steps, CommitResult(0), queued.(result := J.Some(sum)));
  }

  /** A kill can come at any time, and loses just the run. */
  lemma KillLosesOnlyTheRun(p: Problem, s: State, r: nat)
    requires Posed(p) && r in s.runs
    ensures Enabled(p, s, Kill(r))
    ensures Apply(p, s, Kill(r)) == s.(runs := map q | q in s.runs && q != r :: s.runs[q])
  {}
}
