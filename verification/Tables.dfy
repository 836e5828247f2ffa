/** The jobs table, updated in place by the statements of jobs.py. `locked` holds the
    rows other transactions have locked; `now` is the statement's clock reading. */
module Tables {
  import opened Jobs
  import opened Sets

  ghost predicate KeysUnique(rows: Rows) {
    forall a, b | a in rows && b in rows && a != b :: rows[a].key.Some? ==> rows[a].key != rows[b].key
  }

  /** No write changes a row's key or makes a row. */
  lemma WritesKeepKeys(rows: Rows, acts: map<JobId, Action>)
    requires KeysUnique(rows)
    ensures KeysUnique(ApplyAll(rows, acts)) && ApplyAll(rows, acts).Keys <= rows.Keys
  {
    forall id <- ApplyAll(rows, acts) ensures ApplyAll(rows, acts)[id].key == rows[id].key {
    }
  }

  lemma {:induction false} FirstExists(rows: Rows, s: set<JobId>) returns (first: JobId)
    requires s != {} && forall id <- s :: id in rows
    ensures first in s && forall id <- s :: id == first || Before(rows, first, id)
  {
    var x :| x in s;
    if s == {x} {
      first := x;
    } else {
      first := FirstExists(rows, s - {x});
      if Before(rows, x, first) {
        first := x;
      }
      assert forall id <- s :: id == x || id in s - {x};
    }
  }

  lemma {:induction false} LeastExists(s: set<JobId>) returns (least: JobId)
    requires s != {}
    ensures least in s && forall id <- s :: least <= id
  {
    var x :| x in s;
    if s == {x} {
      least := x;
    } else {
      least := LeastExists(s - {x});
      if x < least {
        least := x;
      }
      assert forall id <- s :: id == x || id in s - {x};
    }
  }

  lemma BeforeIsStrict(rows: Rows, x: JobId, y: JobId)
    ensures !(x in rows && y in rows && Before(rows, x, y) && Before(rows, y, x))
  {}

  predicate AllLower(a: set<JobId>, b: set<JobId>) {
    forall x, y | x in a && y in b :: x < y
  }

  /** The k lowest ids of a set. */
  ghost predicate Lowest(ids: set<JobId>, k: nat, chosen: set<JobId>) {
    AnyOf(ids, k, chosen) && AllLower(chosen, ids - chosen)
  }

  lemma NoneIsLowest(ids: set<JobId>)
    ensures AllLower({}, ids)
  {}

  lemma LeastIsNext(taken: set<JobId>, left: set<JobId>, id: JobId)
    requires AllLower(taken, left) && id in left && forall other <- left :: id <= other
    ensures AllLower(taken + {id}, left - {id})
  {}

  function FinishedIds(rows: Rows, locked: set<JobId>, cutoff: Time): set<JobId> {
    set id | id in rows && id !in locked && Finished(rows[id], cutoff)
  }

  /** When a row next needs a worker: a pending row's run_at, a running row's lease end. */
  function NeededAt(j: Job): Option<Time> {
    if j.status.Pending? then Some(j.runAt) else if j.status.Running? then j.lockedUntil else None
  }

  /** The claim's ORDER BY leaves it no choice: the batch is determined. */
  lemma ClaimIsDetermined(rows: Rows, candidates: set<JobId>, k: nat, a: set<JobId>, b: set<JobId>)
    requires Earliest(rows, candidates, k, a) && Earliest(rows, candidates, k, b)
    ensures a == b
  {
    if x :| x in a && x !in b {
      if b <= a {
        SubsetSize(b, a);
      } else {
        var y :| y in b && y !in a;
        BeforeIsStrict(rows, x, y);
      }
    } else {
      SubsetSize(a, b);
    }
  }

  method TakeAny(candidates: set<JobId>, k: nat) returns (taken: set<JobId>)
    ensures AnyOf(candidates, k, taken)
  {
    taken := {};
    var left := candidates;
    while |taken| < k && left != {}
      invariant taken + left == candidates && taken !! left && |taken| <= k
      decreases |left|
    {
      var id :| id in left;
      taken, left := taken + {id}, left - {id};
    }
    SubsetSize(taken, candidates);
  }

  /** Different rows, every one of `a` before every one of `b` in claim order. */
  ghost predicate AllBefore(rows: Rows, a: set<JobId>, b: set<JobId>) {
    a !! b && forall x, y | x in a && y in b :: x in rows && y in rows && Before(rows, x, y)
  }

  lemma AllBeforeMeans(rows: Rows, a: set<JobId>, b: set<JobId>)
    requires AllBefore(rows, a, b)
    ensures forall x, y | x in a && y in b ::
              && x in rows && y in rows && x != y
              && (rows[x].runAt < rows[y].runAt || (rows[x].runAt == rows[y].runAt && x < y))
  {
    forall x, y | x in a && y in b
      ensures x in rows && y in rows && x != y
      ensures rows[x].runAt < rows[y].runAt || (rows[x].runAt == rows[y].runAt && x < y)
    {
      assert Before(rows, x, y);
    }
  }

  lemma NoneIsFirst(rows: Rows, b: set<JobId>)
    ensures AllBefore(rows, {}, b)
  {}

  lemma FirstIsNext(rows: Rows, taken: set<JobId>, left: set<JobId>, id: JobId)
    requires AllBefore(rows, taken, left) && id in left && left <= rows.Keys
    requires forall other <- left :: other == id || Before(rows, id, other)
    ensures AllBefore(rows, taken + {id}, left - {id})
  {}

  lemma PrefixIsEarliest(rows: Rows, candidates: set<JobId>, k: nat, taken: set<JobId>)
    requires candidates <= rows.Keys && taken <= candidates && AllBefore(rows, taken, candidates - taken)
    requires |taken| == Min(k, |candidates|)
    ensures Earliest(rows, candidates, k, taken)
  {}

  /** The subquery of a claim: ORDER BY run_at, id LIMIT k. */
  method TakeEarliest(rows: Rows, candidates: set<JobId>, k: nat) returns (taken: set<JobId>)
    requires candidates <= rows.Keys
    ensures Earliest(rows, candidates, k, taken)
    ensures taken <= candidates && |taken| <= k && (|taken| < k ==> taken == candidates)
    ensures forall a, b | a in taken && b in candidates && b !in taken ::
              rows[a].runAt < rows[b].runAt || (rows[a].runAt == rows[b].runAt && a < b)
  {
    hide AllBefore, Earliest;
    taken := {};
    var left := candidates;
    NoneIsFirst(rows, left);
    while |taken| < k && left != {}
      invariant taken + left == candidates && taken !! left && |taken| <= k && AllBefore(rows, taken, left)
      decreases |left|
    {
      ghost var _ := FirstExists(rows, left);
      var id :| id in left && forall other <- left :: other == id || Before(rows, id, other);
      FirstIsNext(rows, taken, left, id);
      taken, left := taken + {id}, left - {id};
    }
    hide Before;
    assert left == candidates - taken;
    SubsetSize(taken, candidates);
    PrefixIsEarliest(rows, candidates, k, taken);
    AllBeforeMeans(rows, taken, left);
  }

  /** The subquery of a purge: ORDER BY id LIMIT k. */
  method TakeLowest(ids: set<JobId>, k: nat) returns (taken: set<JobId>)
    ensures Lowest(ids, k, taken)
  {
    hide AllLower;
    taken := {};
    var left := ids;
    NoneIsLowest(left);
    while |taken| < k && left != {}
      invariant taken + left == ids && taken !! left && |taken| <= k && AllLower(taken, left)
      decreases |left|
    {
      ghost var _ := LeastExists(left);
      var id :| id in left && forall other <- left :: id <= other;
      LeastIsNext(taken, left, id);
      taken, left := taken + {id}, left - {id};
    }
    assert left == ids - taken;
    SubsetSize(taken, ids);
  }

  // ---------- sweeps ----------

  lemma OnlyPurgeDeletes(a: Action, j: Job)
    ensures Effect(a, j).None? <==> a.Purge?
  {}

  /** Two writes to different rows are one. */
  lemma DisjointWrites(rows: Rows, dead: set<JobId>, a: Action, back: set<JobId>, b: Action)
    requires dead !! back && !a.Purge? && !b.Purge?
    ensures ApplyAll(ApplyAll(rows, Each(dead, a)), Each(back, b)) == ApplyAll(rows, Each(dead, a) + Each(back, b))
  {
    hide Effect;
    forall j ensures Effect(a, j).Some? && Effect(b, j).Some? {
      OnlyPurgeDeletes(a, j);
      OnlyPurgeDeletes(b, j);
    }
  }

  /** What reap_expired_jobs may do: `dead` dead-lettered by its first UPDATE, `back`
      sent back by its second. SKIP LOCKED LIMIT without an ORDER BY picks any rows. */
  ghost predicate Sweep(rows: Rows, locked1: set<JobId>, locked2: set<JobId>, now1: Time, now2: Time, batch: nat,
                        dead: set<JobId>, back: set<JobId>)
  {
    && AnyOf(ExpiredAtLimit(rows, locked1, now1), batch, dead)
    && AnyOf(ExpiredIds(rows, locked2, now2) - dead, batch, back)
  }

  /** The second UPDATE never meets a row the first has killed. */
  lemma KilledRowsDoNotExpire(rows: Rows, dead: set<JobId>, now1: Time, locked2: set<JobId>, now2: Time)
    ensures ExpiredIds(ApplyAll(rows, Each(dead, ReapDead(now1))), locked2, now2) == ExpiredIds(rows, locked2, now2) - dead
  {
    var between := ApplyAll(rows, Each(dead, ReapDead(now1)));
    forall id <- between ensures Expired(between[id], now2) <==> id !in dead && Expired(rows[id], now2) {
    }
  }

  lemma SweepParts(rows: Rows, between: Rows, locked1: set<JobId>, locked2: set<JobId>, now1: Time, now2: Time,
                   batch: nat, dead: set<JobId>, back: set<JobId>)
    requires AnyOf(ExpiredAtLimit(rows, locked1, now1), batch, dead)
    requires between == ApplyAll(rows, Each(dead, ReapDead(now1)))
    requires AnyOf(ExpiredIds(between, locked2, now2), batch, back)
    ensures Sweep(rows, locked1, locked2, now1, now2, batch, dead, back) && dead !! back
    ensures Legal(rows, Each(dead, ReapDead(now1)) + Each(back, ReapBack(now2)))
  {
    KilledRowsDoNotExpire(rows, dead, now1, locked2, now2);
    assert dead <= ExpiredAtLimit(rows, locked1, now1) && back <= ExpiredIds(rows, locked2, now2) - dead;
    hide ApplyAll, AnyOf;
    var acts := Each(dead, ReapDead(now1)) + Each(back, ReapBack(now2));
    forall id <- acts ensures id in rows && Guard(acts[id], rows[id]) {
      assert id in back || id in dead;
    }
  }

  // ---------- claiming ----------

  /** What the claim's subquery takes, in the table's columns. */
  lemma EarliestColumns(rows: Rows, locked: set<JobId>, batch: nat, now: Time, claimed: set<JobId>)
    requires Earliest(rows, Claimable(rows, locked, now), batch, claimed)
    ensures |claimed| <= batch
    ensures forall id <- claimed ::
              id in rows && id !in locked && rows[id].status == Pending && rows[id].runAt <= now
    ensures forall b <- rows | b !in claimed && b !in locked && rows[b].status == Pending && rows[b].runAt <= now ::
              && |claimed| == batch
              && forall a <- claimed ::
                   rows[a].runAt < rows[b].runAt || (rows[a].runAt == rows[b].runAt && a < b)
  {
    var due := Claimable(rows, locked, now);
    forall b <- rows | b !in claimed && b !in locked && rows[b].status == Pending && rows[b].runAt <= now
      ensures |claimed| == batch
      ensures forall a <- claimed :: rows[a].runAt < rows[b].runAt || (rows[a].runAt == rows[b].runAt && a < b)
    {
      assert b in due;
      if |claimed| == |due| {
        SubsetSize(claimed, due);
      }
      forall a <- claimed ensures rows[a].runAt < rows[b].runAt || (rows[a].runAt == rows[b].runAt && a < b) {
        assert Before(rows, a, b);
      }
    }
  }

  lemma ClaimColumns(rows: Rows, claimed: set<JobId>, worker: WorkerId, now: Time, lease: int)
    requires forall id <- claimed :: id in rows && rows[id].status == Pending && rows[id].runAt <= now
    ensures Legal(rows, Each(claimed, Claim(worker, now, lease)))
    ensures ApplyAll(rows, Each(claimed, Claim(worker, now, lease)))
            == map id | id in rows ::
                 if id in claimed
                 then rows[id].(status := Running, lockedBy := Some(worker), lockedUntil := Some(now + lease))
                 else rows[id]
  {}

  lemma ReleaseColumns(rows: Rows, ids: seq<JobId>, worker: WorkerId)
    ensures OwnedIds(rows, ids, worker)
            == set id | id in ids && id in rows && rows[id].status == Running && rows[id].lockedBy == Some(worker)
    ensures Legal(rows, Each(OwnedIds(rows, ids, worker), Release(worker)))
    ensures ApplyAll(rows, Each(OwnedIds(rows, ids, worker), Release(worker)))
            == map id | id in rows ::
                 if id in ids && rows[id].status == Running && rows[id].lockedBy == Some(worker)
                 then rows[id].(status := Pending, lockedBy := None, lockedUntil := None) else rows[id]
  {}

  /** What any batch of candidates leaves out, it leaves out for want of room. */
  lemma AnyOfColumns(candidates: set<JobId>, k: nat, chosen: set<JobId>)
    requires AnyOf(candidates, k, chosen)
    ensures chosen <= candidates && |chosen| <= k && (chosen != candidates ==> |chosen| == k)
  {
    if |chosen| == |candidates| {
      SubsetSize(chosen, candidates);
    }
  }

  /** What the purge's subquery takes, in the table's columns. */
  lemma LowestColumns(rows: Rows, locked: set<JobId>, cutoff: Time, batch: nat, taken: set<JobId>)
    requires Lowest(FinishedIds(rows, locked, cutoff), batch, taken)
    ensures |taken| <= batch
    ensures forall id <- taken ::
              && id in rows && id !in locked && (rows[id].status == Succeeded || rows[id].status == Dead)
              && rows[id].finishedAt.Some? && rows[id].finishedAt.value < cutoff
    ensures forall id <- rows |
              && id !in taken && id !in locked && (rows[id].status == Succeeded || rows[id].status == Dead)
              && rows[id].finishedAt.Some? && rows[id].finishedAt.value < cutoff ::
              |taken| == batch && forall a <- taken :: a < id
  {
    var ids := FinishedIds(rows, locked, cutoff);
    AnyOfColumns(ids, batch, taken);
    forall id <- rows |
      && id !in taken && id !in locked && (rows[id].status == Succeeded || rows[id].status == Dead)
      && rows[id].finishedAt.Some? && rows[id].finishedAt.value < cutoff
      ensures |taken| == batch && forall a <- taken :: a < id
    {
      assert id in ids - taken;
    }
  }

  lemma PurgeColumns(rows: Rows, taken: set<JobId>, now: Time, age: int)
    requires forall id <- taken ::
               && id in rows && (rows[id].status == Succeeded || rows[id].status == Dead)
               && rows[id].finishedAt.Some? && rows[id].finishedAt.value < now - age
    ensures Legal(rows, Each(taken, Purge(now, age)))
    ensures ApplyAll(rows, Each(taken, Purge(now, age))) == rows - taken
  {}

  // ---------- draining ----------

  ghost predicate InSome(batches: seq<set<JobId>>, id: JobId) {
    exists i | 0 <= i < |batches| :: id in batches[i]
  }

  function Leased(j: Job, worker: WorkerId, until: Time): Job {
    j.(status := Running, lockedBy := Some(worker), lockedUntil := Some(until))
  }

  /** `rows` is the table after `batches` were claimed from `first`. */
  ghost predicate HandedOut(first: Rows, rows: Rows, now: Time, lease: int, batch: nat, turn: nat -> WorkerId,
                            batches: seq<set<JobId>>)
  {
    && rows.Keys == first.Keys
    && (forall id <- rows :: rows[id].runAt == first[id].runAt)
    && (forall id <- rows | !InSome(batches, id) :: rows[id] == first[id])
    && (forall i | 0 <= i < |batches| :: |batches[i]| <= batch)
    && (forall id <- rows :: Due(first[id], now) <==> Due(rows[id], now) || InSome(batches, id))
    && (forall i, id | 0 <= i < |batches| && id in batches[i] ::
          id in rows && rows[id] == Leased(first[id], turn(i), now + lease))
  }

  /** Each batch comes before what was due after it, in claim order. */
  ghost predicate InClaimOrder(first: Rows, due: set<JobId>, batches: seq<set<JobId>>) {
    && (forall i | 0 <= i < |batches| :: AllBefore(first, batches[i], due))
    && (forall i, j | 0 <= i < j < |batches| :: AllBefore(first, batches[i], batches[j]))
  }

  ghost predicate Drained(first: Rows, rows: Rows, now: Time, lease: int, batch: nat, turn: nat -> WorkerId,
                          batches: seq<set<JobId>>)
  {
    HandedOut(first, rows, now, lease, batch, turn, batches) && InClaimOrder(first, Claimable(rows, {}, now), batches)
  }

  lemma DrainedAtFirst(rows: Rows, now: Time, lease: int, batch: nat, turn: nat -> WorkerId)
    ensures Drained(rows, rows, now, lease, batch, turn, [])
  {}

  lemma ClaimShrinks(rows: Rows, claimed: set<JobId>, worker: WorkerId, now: Time, lease: int, batch: nat)
    requires Earliest(rows, Claimable(rows, {}, now), batch, claimed) && batch > 0
    ensures Claimable(ApplyAll(rows, Each(claimed, Claim(worker, now, lease))), {}, now) == Claimable(rows, {}, now) - claimed
    ensures if claimed == {} then Claimable(rows, {}, now) == {}
            else |Claimable(rows, {}, now) - claimed| < |Claimable(rows, {}, now)|
  {
    assert Claimable(rows, {}, now) == (Claimable(rows, {}, now) - claimed) + claimed;
  }

  lemma NoneLeft(rows: Rows, now: Time)
    requires Claimable(rows, {}, now) == {}
    ensures forall id <- rows :: !Due(rows[id], now)
  {
    forall id <- rows ensures !Due(rows[id], now) {
      assert id !in Claimable(rows, {}, now);
    }
  }

  lemma DrainedWhole(first: Rows, rows: Rows, now: Time, lease: int, batch: nat, turn: nat -> WorkerId,
                     batches: seq<set<JobId>>)
    requires Drained(first, rows, now, lease, batch, turn, batches) && forall id <- rows :: !Due(rows[id], now)
    ensures rows.Keys == first.Keys
    ensures forall id <- first :: first[id].status == Pending && first[id].runAt <= now <==> InSome(batches, id)
    ensures forall i, id | 0 <= i < |batches| && id in batches[i] ::
              && id in first && id in rows
              && rows[id] == first[id].(status := Running, lockedBy := Some(turn(i)), lockedUntil := Some(now + lease))
    ensures forall id <- first | !InSome(batches, id) :: rows[id] == first[id]
    ensures forall i | 0 <= i < |batches| :: |batches[i]| <= batch
  {}

  lemma DrainedInOrder(first: Rows, rows: Rows, now: Time, lease: int, batch: nat, turn: nat -> WorkerId,
                       batches: seq<set<JobId>>)
    requires Drained(first, rows, now, lease, batch, turn, batches)
    ensures forall i, j, a, b | 0 <= i < j < |batches| && a in batches[i] && b in batches[j] ::
              && a in first && b in first && a != b
              && (first[a].runAt < first[b].runAt || (first[a].runAt == first[b].runAt && a < b))
  {
    hide AllBefore, Before;
    forall i, j | 0 <= i < j < |batches|
      ensures forall a, b | a in batches[i] && b in batches[j] ::
                && a in first && b in first && a != b
                && (first[a].runAt < first[b].runAt || (first[a].runAt == first[b].runAt && a < b))
    {
      AllBeforeMeans(first, batches[i], batches[j]);
    }
  }

  /** What one claim does, row by row. */
  ghost predicate ClaimedFrom(rows: Rows, rows': Rows, claimed: set<JobId>, worker: WorkerId, now: Time, lease: int) {
    && rows'.Keys == rows.Keys
    && (forall id <- rows :: rows'[id].runAt == rows[id].runAt)
    && (forall id <- rows | id !in claimed :: rows'[id] == rows[id])
    && (forall id <- claimed :: id in rows && Due(rows[id], now) && rows'[id] == Leased(rows[id], worker, now + lease))
  }

  lemma ClaimRowByRow(rows: Rows, now: Time, lease: int, worker: WorkerId, batch: nat, claimed: set<JobId>)
    requires Earliest(rows, Claimable(rows, {}, now), batch, claimed)
    ensures ClaimedFrom(rows, ApplyAll(rows, Each(claimed, Claim(worker, now, lease))), claimed, worker, now, lease)
  {
    forall id <- claimed ensures id in rows && Due(rows[id], now) {
      assert id in Claimable(rows, {}, now);
    }
  }

  lemma AllBeforeSome(rows: Rows, a: set<JobId>, b: set<JobId>, some: set<JobId>)
    requires AllBefore(rows, a, b) && some <= b
    ensures AllBefore(rows, a, some)
  {}

  lemma BatchBeforeRest(first: Rows, rows: Rows, rows': Rows, now: Time, lease: int, batch: nat, claimed: set<JobId>,
                        worker: WorkerId)
    requires rows.Keys == first.Keys && forall id <- rows :: rows[id].runAt == first[id].runAt
    requires Earliest(rows, Claimable(rows, {}, now), batch, claimed)
    requires ClaimedFrom(rows, rows', claimed, worker, now, lease)
    ensures Claimable(rows', {}, now) == Claimable(rows, {}, now) - claimed
    ensures AllBefore(first, claimed, Claimable(rows', {}, now)) && claimed <= Claimable(rows, {}, now)
    ensures |claimed| <= batch
  {
    var due, due' := Claimable(rows, {}, now), Claimable(rows', {}, now);
    forall id ensures id in due' <==> id in due - claimed {
    }
    forall x, y | x in claimed && y in due - claimed ensures x in first && y in first && Before(first, x, y) {
      assert Before(rows, x, y);
    }
  }

  lemma ClaimedIsRunning(first: Rows, rows: Rows, now: Time, lease: int, batch: nat, turn: nat -> WorkerId,
                         batches: seq<set<JobId>>, id: JobId)
    requires Drained(first, rows, now, lease, batch, turn, batches) && InSome(batches, id)
    ensures id in rows && rows[id].status.Running?
  {
    var i :| 0 <= i < |batches| && id in batches[i];
    assert rows[id] == Leased(first[id], turn(i), now + lease);
  }

  lemma RunningIsNotDue(j: Job, now: Time)
    requires j.status.Running?
    ensures !Due(j, now)
  {}

  lemma NotYetClaimed(first: Rows, rows: Rows, now: Time, lease: int, batch: nat, turn: nat -> WorkerId,
                      batches: seq<set<JobId>>, id: JobId)
    requires Drained(first, rows, now, lease, batch, turn, batches) && id in rows && Due(rows[id], now)
    ensures rows[id] == first[id]
  {
    if InSome(batches, id) {
      ClaimedIsRunning(first, rows, now, lease, batch, turn, batches, id);
    }
  }

  lemma InSomeMore(batches: seq<set<JobId>>, more: set<JobId>, id: JobId)
    ensures InSome(batches + [more], id) <==> InSome(batches, id) || id in more
  {
    var all := batches + [more];
    assert all[|batches|] == more;
    forall i | 0 <= i < |batches| && id in batches[i] ensures InSome(all, id) {
      assert id in all[i];
    }
  }

  lemma HandOutOneMore(first: Rows, rows: Rows, rows': Rows, now: Time, lease: int, batch: nat, turn: nat -> WorkerId,
                       batches: seq<set<JobId>>, claimed: set<JobId>)
    requires Drained(first, rows, now, lease, batch, turn, batches) && |claimed| <= batch
    requires ClaimedFrom(rows, rows', claimed, turn(|batches|), now, lease)
    ensures HandedOut(first, rows', now, lease, batch, turn, batches + [claimed])
  {
    hide InClaimOrder;
    var more := batches + [claimed];
    assert more[|batches|] == claimed;
    forall id ensures InSome(more, id) <==> InSome(batches, id) || id in claimed {
      InSomeMore(batches, claimed, id);
    }
    hide InSome;
    forall id <- rows' ensures Due(first[id], now) <==> Due(rows'[id], now) || InSome(more, id) {
      assert id in claimed ==> Due(rows[id], now) && rows'[id].status.Running?;
    }
    hide Due;
    forall i, id | 0 <= i < |more| && id in more[i]
      ensures id in rows' && rows'[id] == Leased(first[id], turn(i), now + lease)
    {
      if i < |batches| {
        assert id in batches[i];
        assert rows'[id] == rows[id] by {
          ClaimedIsRunning(first, rows, now, lease, batch, turn, batches, id);
          RunningIsNotDue(rows[id], now);
        }
      } else {
        NotYetClaimed(first, rows, now, lease, batch, turn, batches, id);
      }
    }
  }

  lemma OrderOneMore(first: Rows, due: set<JobId>, batches: seq<set<JobId>>, claimed: set<JobId>)
    requires InClaimOrder(first, due, batches) && claimed <= due && AllBefore(first, claimed, due - claimed)
    ensures InClaimOrder(first, due - claimed, batches + [claimed])
  {
    hide AllBefore;
    var more := batches + [claimed];
    forall i | 0 <= i < |more| ensures AllBefore(first, more[i], due - claimed) {
      if i < |batches| {
        AllBeforeSome(first, batches[i], due, due - claimed);
      }
    }
    forall i, j | 0 <= i < j < |more| ensures AllBefore(first, more[i], more[j]) {
      if j < |batches| {
        assert AllBefore(first, batches[i], batches[j]);
      } else {
        AllBeforeSome(first, batches[i], due, claimed);
      }
    }
  }

  lemma DrainOneMore(first: Rows, rows: Rows, rows': Rows, now: Time, lease: int, batch: nat, turn: nat -> WorkerId,
                     batches: seq<set<JobId>>, claimed: set<JobId>)
    requires Drained(first, rows, now, lease, batch, turn, batches)
    requires Earliest(rows, Claimable(rows, {}, now), batch, claimed)
    requires ClaimedFrom(rows, rows', claimed, turn(|batches|), now, lease)
    ensures Drained(first, rows', now, lease, batch, turn, batches + [claimed])
  {
    var due := Claimable(rows, {}, now);
    assert rows.Keys == first.Keys && forall id <- rows :: rows[id].runAt == first[id].runAt;
    BatchBeforeRest(first, rows, rows', now, lease, batch, claimed, turn(|batches|));
    hide HandedOut, InClaimOrder, ClaimedFrom, Claimable, Earliest, AllBefore;
    HandOutOneMore(first, rows, rows', now, lease, batch, turn, batches, claimed);
    OrderOneMore(first, due, batches, claimed);
  }

  // ---------- the table in place ----------

  class JobTable {
    var rows: Rows
    var nextId: JobId

    ghost predicate Valid()
      reads this
    {
      (forall id <- rows :: id < nextId) && KeysUnique(rows)
    }

    constructor ()
      ensures Valid() && rows == map[] && nextId == 0
    {
      rows, nextId := map[], 0;
    }

    /** INSERT ... ON CONFLICT (idempotency_key): at most one job per key. */
    method Enqueue(key: Option<Key>, transactional: bool, now: Time) returns (id: JobId)
      requires Valid()
      modifies this
      ensures Valid() && id in rows && rows[id].key == key
      ensures forall a, b | a in rows && b in rows && rows[a].key.Some? && rows[a].key == rows[b].key :: a == b
      ensures id !in old(rows) ==>
                rows[id] == Job(key, transactional, Pending, now, 0, 5, 0, 10, None, None, None)
      ensures if key.Some? && exists other <- old(rows) :: old(rows)[other].key == key
              then id in old(rows) && rows == old(rows) && nextId == old(nextId)
              else id == old(nextId) && rows == old(rows)[id := NewJob(key, transactional, now)] && nextId == id + 1
    {
      if key.Some? && exists other <- rows :: rows[other].key == key {
        id :| id in rows && rows[id].key == key;
      } else {
        id := nextId;
        rows := rows[id := NewJob(key, transactional, now)];
        nextId := nextId + 1;
      }
    }

    /** Takes the `batch` least claimable rows by (run_at, id). */
    method ClaimJobs(worker: WorkerId, lease: int, batch: nat, now: Time, locked: set<JobId>)
      returns (claimed: set<JobId>)
      requires Valid()
      modifies this`rows
      ensures Valid()
      ensures Earliest(old(rows), Claimable(old(rows), locked, now), batch, claimed)
      ensures Legal(old(rows), Each(claimed, Claim(worker, now, lease)))
      ensures rows == ApplyAll(old(rows), Each(claimed, Claim(worker, now, lease)))
      ensures rows.Keys == old(rows).Keys
      ensures forall id <- claimed ::
                && id in old(rows) && id !in locked && old(rows)[id].status == Pending && old(rows)[id].runAt <= now
                && rows[id] == old(rows)[id].(status := Running, lockedBy := Some(worker), lockedUntil := Some(now + lease))
      ensures forall id <- old(rows) | id !in claimed :: rows[id] == old(rows)[id]
      ensures |claimed| <= batch
      ensures forall b <- old(rows) |
                b !in claimed && b !in locked && old(rows)[b].status == Pending && old(rows)[b].runAt <= now ::
                && |claimed| == batch
                && forall a <- claimed ::
                     || old(rows)[a].runAt < old(rows)[b].runAt
                     || (old(rows)[a].runAt == old(rows)[b].runAt && a < b)
    {
      hide KeysUnique, Earliest, Before;
      claimed := TakeEarliest(rows, Claimable(rows, locked, now), batch);
      EarliestColumns(rows, locked, batch, now, claimed);
      ClaimColumns(rows, claimed, worker, now, lease);
      hide Claimable, Legal, ApplyAll, Each;
      WritesKeepKeys(rows, Each(claimed, Claim(worker, now, lease)));
      rows := map id | id in rows ::
        if id in claimed
        then rows[id].(status := Running, lockedBy := Some(worker), lockedUntil := Some(now + lease))
        else rows[id];
      assert rows == ApplyAll(old(rows), Each(claimed, Claim(worker, now, lease)));
    }

    /** The heartbeat: every listed lease this worker still holds. */
    method ExtendLeases(ids: seq<JobId>, worker: WorkerId, lease: int, now: Time)
      requires Valid()
      modifies this`rows
      ensures Valid()
      ensures Legal(old(rows), Each(OwnedIds(old(rows), ids, worker), Extend(worker, now, lease)))
      ensures rows == ApplyAll(old(rows), Each(OwnedIds(old(rows), ids, worker), Extend(worker, now, lease)))
      ensures rows == map id | id in old(rows) ::
                        if id in ids && old(rows)[id].status == Running && old(rows)[id].lockedBy == Some(worker)
                        then old(rows)[id].(lockedUntil := Some(now + lease)) else old(rows)[id]
    {
      hide KeysUnique;
      if ids == [] {
        assert rows == ApplyAll(rows, Each(OwnedIds(rows, ids, worker), Extend(worker, now, lease)));
        return;
      }
      WritesKeepKeys(rows, Each(OwnedIds(rows, ids, worker), Extend(worker, now, lease)));
      rows := map id | id in rows ::
        if id in ids && rows[id].status.Running? && rows[id].lockedBy == Some(worker)
        then rows[id].(lockedUntil := Some(now + lease))
        else rows[id];
      assert rows == ApplyAll(old(rows), Each(OwnedIds(old(rows), ids, worker), Extend(worker, now, lease)));
    }

    /** The first UPDATE of a sweep: dead-letters up to `batch` rows at their recovery limit. */
    method ReapAtLimit(batch: nat, now: Time, locked: set<JobId>) returns (dead: set<JobId>)
      requires Valid()
      modifies this`rows
      ensures Valid()
      ensures AnyOf(ExpiredAtLimit(old(rows), locked, now), batch, dead)
      ensures Legal(old(rows), Each(dead, ReapDead(now)))
      ensures rows == ApplyAll(old(rows), Each(dead, ReapDead(now)))
      ensures rows.Keys == old(rows).Keys && |dead| <= batch
      ensures forall id <- dead ::
                && id in old(rows) && id !in locked && old(rows)[id].status == Running
                && old(rows)[id].lockedUntil.Some? && old(rows)[id].lockedUntil.value < now
                && old(rows)[id].recoveries + 1 >= old(rows)[id].maxRecoveries
                && rows[id] == old(rows)[id].(status := Dead, finishedAt := Some(now), lockedBy := None,
                                              lockedUntil := None, recoveries := old(rows)[id].recoveries + 1)
      ensures forall id <- old(rows) | id !in dead :: rows[id] == old(rows)[id]
      ensures forall id <- old(rows) |
                && id !in dead && id !in locked && old(rows)[id].status == Running
                && old(rows)[id].lockedUntil.Some? && old(rows)[id].lockedUntil.value < now
                && old(rows)[id].recoveries + 1 >= old(rows)[id].maxRecoveries :: |dead| == batch
    {
      hide KeysUnique;
      dead := TakeAny(ExpiredAtLimit(rows, locked, now), batch);
      AnyOfColumns(ExpiredAtLimit(rows, locked, now), batch, dead);
      WritesKeepKeys(rows, Each(dead, ReapDead(now)));
      rows := map id | id in rows ::
        if id in dead
        then rows[id].(status := Dead, finishedAt := Some(now), recoveries := rows[id].recoveries + 1,
                       lockedBy := None, lockedUntil := None)
        else rows[id];
      assert rows == ApplyAll(old(rows), Each(dead, ReapDead(now)));
    }

    /** The second: sends up to `batch` expired rows back to pending. */
    method ReapTheRest(batch: nat, now: Time, locked: set<JobId>) returns (back: set<JobId>)
      requires Valid()
      modifies this`rows
      ensures Valid()
      ensures AnyOf(ExpiredIds(old(rows), locked, now), batch, back)
      ensures Legal(old(rows), Each(back, ReapBack(now)))
      ensures rows == ApplyAll(old(rows), Each(back, ReapBack(now)))
      ensures rows.Keys == old(rows).Keys && |back| <= batch
      ensures forall id <- back ::
                && id in old(rows) && id !in locked && old(rows)[id].status == Running
                && old(rows)[id].lockedUntil.Some? && old(rows)[id].lockedUntil.value < now
                && rows[id] == old(rows)[id].(status := Pending, lockedBy := None, lockedUntil := None,
                                              recoveries := old(rows)[id].recoveries + 1)
      ensures forall id <- old(rows) | id !in back :: rows[id] == old(rows)[id]
      ensures forall id <- old(rows) |
                && id !in back && id !in locked && old(rows)[id].status == Running
                && old(rows)[id].lockedUntil.Some? && old(rows)[id].lockedUntil.value < now :: |back| == batch
    {
      hide KeysUnique;
      back := TakeAny(ExpiredIds(rows, locked, now), batch);
      AnyOfColumns(ExpiredIds(rows, locked, now), batch, back);
      WritesKeepKeys(rows, Each(back, ReapBack(now)));
      rows := map id | id in rows ::
        if id in back
        then rows[id].(status := Pending, recoveries := rows[id].recoveries + 1, lockedBy := None, lockedUntil := None)
        else rows[id];
      assert rows == ApplyAll(old(rows), Each(back, ReapBack(now)));
    }

    /** A sweep with nothing committed by others between its two UPDATEs. On an autocommit
        connection each has its own clock reading and its own view of the locks. */
    method ReapExpiredJobs(batch: nat, now1: Time, locked1: set<JobId>, now2: Time, locked2: set<JobId>)
      returns (reaped: nat, dead: set<JobId>, back: set<JobId>)
      requires Valid()
      modifies this`rows
      ensures Valid()
      ensures Sweep(old(rows), locked1, locked2, now1, now2, batch, dead, back)
      ensures Legal(old(rows), Each(dead, ReapDead(now1)) + Each(back, ReapBack(now2)))
      ensures rows == ApplyAll(old(rows), Each(dead, ReapDead(now1)) + Each(back, ReapBack(now2)))
      ensures reaped == |dead| + |back| && dead !! back && rows.Keys == old(rows).Keys
      ensures forall id <- dead ::
                && id in old(rows) && old(rows)[id].recoveries + 1 >= old(rows)[id].maxRecoveries
                && rows[id].status == Dead && rows[id].recoveries == old(rows)[id].recoveries + 1
      ensures forall id <- back ::
                && id in old(rows)
                && rows[id] == old(rows)[id].(status := Pending, lockedBy := None, lockedUntil := None,
                                              recoveries := old(rows)[id].recoveries + 1)
      ensures forall id <- old(rows) | id !in dead && id !in back :: rows[id] == old(rows)[id]
    {
      hide KeysUnique, AnyOf, ExpiredIds, ExpiredAtLimit;
      ghost var before := rows;
      dead := ReapAtLimit(batch, now1, locked1);
      ghost var between := rows;
      back := ReapTheRest(batch, now2, locked2);
      SweepParts(before, between, locked1, locked2, now1, now2, batch, dead, back);
      DisjointWrites(before, dead, ReapDead(now1), back, ReapBack(now2));
      reaped := |dead| + |back|;
    }

    /** Hands back what this worker still holds: pending again, with its attempts and
        recoveries as they were. */
    method ReleaseJobs(ids: seq<JobId>, worker: WorkerId) returns (released: nat)
      requires Valid()
      modifies this`rows
      ensures Valid()
      ensures released == |OwnedIds(old(rows), ids, worker)|
      ensures Legal(old(rows), Each(OwnedIds(old(rows), ids, worker), Release(worker)))
      ensures rows == ApplyAll(old(rows), Each(OwnedIds(old(rows), ids, worker), Release(worker)))
      ensures released == |set id | id in ids && id in old(rows) && old(rows)[id].status == Running
                                    && old(rows)[id].lockedBy == Some(worker)|
      ensures rows == map id | id in old(rows) ::
                        if id in ids && old(rows)[id].status == Running && old(rows)[id].lockedBy == Some(worker)
                        then old(rows)[id].(status := Pending, lockedBy := None, lockedUntil := None) else old(rows)[id]
    {
      hide KeysUnique;
      var mine := OwnedIds(rows, ids, worker);
      ReleaseColumns(rows, ids, worker);
      if ids == [] {
        assert mine == {};
        return 0;
      }
      WritesKeepKeys(rows, Each(mine, Release(worker)));
      hide ApplyAll, Each, Legal, OwnedIds;
      rows := map id | id in rows ::
        if id in mine then rows[id].(status := Pending, lockedBy := None, lockedUntil := None) else rows[id];
      assert rows == ApplyAll(old(rows), Each(mine, Release(worker)));
      released := |mine|;
    }

    method MarkSucceeded(id: JobId, worker: WorkerId, now: Time) returns (held: bool)
      requires Valid()
      modifies this`rows
      ensures Valid()
      ensures held <==> id in old(rows) && old(rows)[id].status == Running && old(rows)[id].lockedBy == Some(worker)
      ensures rows == if held then ApplyAll(old(rows), map[id := Succeed(worker, now)]) else old(rows)
      ensures rows == if held then old(rows)[id := old(rows)[id].(status := Succeeded, finishedAt := Some(now))]
                      else old(rows)
    {
      held := id in rows && rows[id].status.Running? && rows[id].lockedBy == Some(worker);
      if held {
        WritesKeepKeys(rows, map[id := Succeed(worker, now)]);
        rows := rows[id := rows[id].(status := Succeeded, finishedAt := Some(now))];
      }
    }

    /** Counts the attempt, then settles what it counted. */
    method MarkFailed(id: JobId, worker: WorkerId, permanent: bool, limit: Option<int>, now: Time, delay: int)
      returns (held: bool)
      requires Valid()
      modifies this`rows
      ensures Valid()
      ensures held <==> id in old(rows) && old(rows)[id].status == Running && old(rows)[id].lockedBy == Some(worker)
      ensures rows == if held then ApplyAll(old(rows), map[id := Fail(worker, limit, permanent, now, delay)])
                      else old(rows)
      ensures rows.Keys == old(rows).Keys && forall other <- old(rows) | other != id :: rows[other] == old(rows)[other]
      ensures held ==>
                && rows[id].attempts == old(rows)[id].attempts + 1
                && rows[id].maxAttempts == (if limit.Some? then limit.value else old(rows)[id].maxAttempts)
                && rows[id].status == (if permanent || rows[id].attempts >= rows[id].maxAttempts then Dead else Pending)
                && rows[id].finishedAt == (if rows[id].status == Dead then Some(now) else old(rows)[id].finishedAt)
                && rows[id].runAt == (if rows[id].status == Dead then old(rows)[id].runAt else now + delay)
                && rows[id].lockedBy == None && rows[id].lockedUntil == None
                && rows[id].key == old(rows)[id].key && rows[id].transactional == old(rows)[id].transactional
                && rows[id].recoveries == old(rows)[id].recoveries && rows[id].maxRecoveries == old(rows)[id].maxRecoveries
    {
      hide KeysUnique;
      held := id in rows && rows[id].status.Running? && rows[id].lockedBy == Some(worker);
      WritesKeepKeys(rows, map[id := Fail(worker, limit, permanent, now, delay)]);
      if held {
        rows := rows[id := rows[id].(attempts := rows[id].attempts + 1,
                                     maxAttempts := limit.GetOr(rows[id].maxAttempts))];
      }
      if held && (permanent || rows[id].attempts >= rows[id].maxAttempts) {
        rows := rows[id := rows[id].(status := Dead, finishedAt := Some(now), lockedBy := None, lockedUntil := None)];
      } else if held {
        rows := rows[id := rows[id].(status := Pending, runAt := now + delay, lockedBy := None, lockedUntil := None)];
      }
      assert held ==> rows == ApplyAll(old(rows), map[id := Fail(worker, limit, permanent, now, delay)]);
    }

    method RetryJob(id: JobId, now: Time) returns (updated: bool)
      requires Valid()
      modifies this`rows
      ensures Valid()
      ensures updated <==> id in old(rows) && old(rows)[id].status == Dead
      ensures rows == if updated then ApplyAll(old(rows), map[id := Retry(now)]) else old(rows)
      ensures rows == if updated then old(rows)[id := old(rows)[id].(status := Pending, attempts := 0, recoveries := 0,
                                                                     runAt := now, finishedAt := None)]
                      else old(rows)
    {
      updated := id in rows && rows[id].status.Dead?;
      if updated {
        WritesKeepKeys(rows, map[id := Retry(now)]);
        rows := rows[id := rows[id].(status := Pending, attempts := 0, recoveries := 0, runAt := now, finishedAt := None)];
      }
    }

    /** Deletes the `batch` lowest ids among the jobs that finished before the cutoff. */
    method DeleteCompletedJobs(age: int, batch: nat, now: Time, locked: set<JobId>)
      returns (deleted: nat, ghost gone: set<JobId>)
      requires Valid()
      modifies this`rows
      ensures Valid()
      ensures Lowest(FinishedIds(old(rows), locked, now - age), batch, gone)
      ensures Legal(old(rows), Each(gone, Purge(now, age)))
      ensures rows == ApplyAll(old(rows), Each(gone, Purge(now, age)))
      ensures deleted == |gone| && deleted <= batch && rows == old(rows) - gone
      ensures forall id <- gone ::
                && id in old(rows) && id !in locked
                && (old(rows)[id].status == Succeeded || old(rows)[id].status == Dead)
                && old(rows)[id].finishedAt.Some? && old(rows)[id].finishedAt.value < now - age
      ensures forall id <- old(rows) |
                && id !in gone && id !in locked
                && (old(rows)[id].status == Succeeded || old(rows)[id].status == Dead)
                && old(rows)[id].finishedAt.Some? && old(rows)[id].finishedAt.value < now - age ::
                deleted == batch && forall a <- gone :: a < id
    {
      var taken := TakeLowest(FinishedIds(rows, locked, now - age), batch);
      LowestColumns(rows, locked, now - age, batch, taken);
      PurgeColumns(rows, taken, now, age);
      hide Lowest, Legal, ApplyAll, Each, FinishedIds, KeysUnique;
      WritesKeepKeys(rows, Each(taken, Purge(now, age)));
      rows := map id | id in rows && id !in taken :: rows[id];
      assert rows == ApplyAll(old(rows), Each(taken, Purge(now, age)));
      deleted, gone := |taken|, taken;
    }

    /** How long nothing can come due: a worker that sleeps this long misses no claim
        and no expiry, and something is due, or about to expire, at the end of it. */
    method SecondsUntilDue(now: Time) returns (seconds: Option<int>)
      ensures seconds.None? <==> forall id <- rows :: NeededAt(rows[id]).None?
      ensures seconds.None? ==> forall id <- rows ::
                rows[id].status != Pending && (rows[id].status == Running ==> rows[id].lockedUntil == None)
      ensures seconds.Some? ==> exists id <- rows ::
                || (rows[id].status == Pending && rows[id].runAt == now + seconds.value)
                || (rows[id].status == Running && rows[id].lockedUntil == Some(now + seconds.value))
      ensures seconds.Some? ==> forall id <- rows ::
                && (rows[id].status == Pending ==> now + seconds.value <= rows[id].runAt)
                && (rows[id].status == Running && rows[id].lockedUntil.Some? ==>
                      now + seconds.value <= rows[id].lockedUntil.value)
      ensures forall t: Time, locked | seconds.None? || t < now + seconds.value ::
                Claimable(rows, locked, t) == {} && ExpiredIds(rows, locked, t) == {}
    {
      seconds := None;
      var left := rows.Keys;
      while left != {}
        invariant left <= rows.Keys
        invariant seconds.None? ==> forall id <- rows | id !in left :: NeededAt(rows[id]).None?
        invariant seconds.Some? ==> exists id <- rows :: NeededAt(rows[id]) == Some(now + seconds.value)
        invariant seconds.Some? ==> forall id <- rows | id !in left && NeededAt(rows[id]).Some? ::
                                      now + seconds.value <= NeededAt(rows[id]).value
        decreases |left|
      {
        var id :| id in left;
        left := left - {id};
        var at := NeededAt(rows[id]);
        if at.Some? && (seconds.None? || at.value - now < seconds.value) {
          seconds := Some(at.value - now);
        }
      }
    }

    /** Workers taking turns, in any order, until a claim comes back empty: every due job
        is handed out exactly once, in batches that never go back in claim order. */
    method ClaimUntilEmpty(turn: nat -> WorkerId, lease: int, batch: nat, now: Time)
      returns (batches: seq<set<JobId>>)
      requires Valid() && batch > 0
      modifies this`rows
      ensures Valid() && rows.Keys == old(rows).Keys
      ensures Claimable(rows, {}, now) == {}
      ensures forall id <- old(rows) ::
                old(rows)[id].status == Pending && old(rows)[id].runAt <= now <==> InSome(batches, id)
      ensures forall i, id | 0 <= i < |batches| && id in batches[i] ::
                && id in old(rows) && id in rows
                && rows[id] == old(rows)[id].(status := Running, lockedBy := Some(turn(i)), lockedUntil := Some(now + lease))
      ensures forall id <- old(rows) | !InSome(batches, id) :: rows[id] == old(rows)[id]
      ensures forall i | 0 <= i < |batches| :: |batches[i]| <= batch
      ensures forall i, j, a, b | 0 <= i < j < |batches| && a in batches[i] && b in batches[j] ::
                && a in old(rows) && b in old(rows) && a != b
                && (old(rows)[a].runAt < old(rows)[b].runAt || (old(rows)[a].runAt == old(rows)[b].runAt && a < b))
    {
      hide Drained, KeysUnique, Earliest, Claimable, Due, ApplyAll, Each, Legal, InSome;
      batches := [];
      DrainedAtFirst(rows, now, lease, batch, turn);
      var empty := false;
      while !empty
        invariant Valid() && Drained(old(rows), rows, now, lease, batch, turn, batches)
        invariant empty ==> Claimable(rows, {}, now) == {}
        decreases !empty, |Claimable(rows, {}, now)|
      {
        ghost var was := rows;
        var claimed := ClaimJobs(turn(|batches|), lease, batch, now, {});
        ClaimShrinks(was, claimed, turn(|batches|), now, lease, batch);
        if claimed == {} {
          assert rows == was;
          empty := true;
        } else {
          ClaimRowByRow(was, now, lease, turn(|batches|), batch, claimed);
          DrainOneMore(old(rows), was, rows, now, lease, batch, turn, batches, claimed);
          batches := batches + [claimed];
        }
      }
      NoneLeft(rows, now);
      DrainedWhole(old(rows), rows, now, lease, batch, turn, batches);
      DrainedInOrder(old(rows), rows, now, lease, batch, turn, batches);
    }
  }

  // ---------- the recovery limit ----------

  ghost predicate RespectsLimit(rows: Rows, back: set<JobId>) {
    forall id <- back :: id in rows && !AtLimit(rows[id])
  }

  /** The rows at their recovery limit all fit in the first batch, and none of them
      expires, or is unlocked, only by the time of the second UPDATE. */
  predicate Fits(rows: Rows, locked1: set<JobId>, locked2: set<JobId>, now1: Time, now2: Time, batch: nat) {
    || batch == 0
    || ExpiredAtLimit(rows, locked2, now2) == {}
    || (&& |ExpiredAtLimit(rows, locked1, now1)| <= batch
        && ExpiredAtLimit(rows, locked2, now2) <= ExpiredAtLimit(rows, locked1, now1))
  }

  lemma TidySweep(rows: Rows, locked1: set<JobId>, locked2: set<JobId>, now1: Time, now2: Time, batch: nat,
                  dead: set<JobId>, back: set<JobId>)
    requires Sweep(rows, locked1, locked2, now1, now2, batch, dead, back)
    requires Fits(rows, locked1, locked2, now1, now2, batch)
    ensures RespectsLimit(rows, back)
  {
    SubsetSize(dead, ExpiredAtLimit(rows, locked1, now1));
    forall id <- back ensures id in rows && !AtLimit(rows[id]) {
      assert id in ExpiredIds(rows, locked2, now2) - dead;
      assert AtLimit(rows[id]) ==> id in ExpiredAtLimit(rows, locked2, now2);
    }
  }

  /** A second batch may be made to hold any row it can reach. */
  lemma SendBackOne(rows: Rows, locked2: set<JobId>, now2: Time, batch: nat, dead: set<JobId>, x: JobId)
    requires batch > 0 && x in ExpiredAtLimit(rows, locked2, now2) && x !in dead
    ensures exists back :: AnyOf(ExpiredIds(rows, locked2, now2) - dead, batch, back) && x in back
  {
    var rest := ExpiredIds(rows, locked2, now2) - dead;
    assert x in rest && rest == (rest - {x}) + {x};
    var others := SubsetOfSize(rest - {x}, Min(batch, |rest|) - 1);
    var back := others + {x};
    assert AnyOf(rest, batch, back) && x in back;
  }

  lemma UntidySweepExists(rows: Rows, locked1: set<JobId>, locked2: set<JobId>, now1: Time, now2: Time, batch: nat)
    requires !Fits(rows, locked1, locked2, now1, now2, batch)
    ensures exists dead, back :: Sweep(rows, locked1, locked2, now1, now2, batch, dead, back) && !RespectsLimit(rows, back)
  {
    var first, second := ExpiredAtLimit(rows, locked1, now1), ExpiredAtLimit(rows, locked2, now2);
    var x: JobId, dead: set<JobId>;
    if second <= first {
      x :| x in second;
      dead := SubsetOfSize(first - {x}, batch);
    } else {
      x :| x in second && x !in first;
      dead := SubsetOfSize(first, Min(batch, |first|));
    }
    SendBackOne(rows, locked2, now2, batch, dead, x);
    var back :| AnyOf(ExpiredIds(rows, locked2, now2) - dead, batch, back) && x in back;
    assert Sweep(rows, locked1, locked2, now1, now2, batch, dead, back);
  }

  /** Main result: a sweep can be relied on to send no row back past its recovery limit
      exactly when the rows at that limit fit. */
  lemma SweepLimitExact(rows: Rows, locked1: set<JobId>, locked2: set<JobId>, now1: Time, now2: Time, batch: nat)
    ensures (forall dead, back | Sweep(rows, locked1, locked2, now1, now2, batch, dead, back) :: RespectsLimit(rows, back))
            <==> Fits(rows, locked1, locked2, now1, now2, batch)
  {
    if !Fits(rows, locked1, locked2, now1, now2, batch) {
      UntidySweepExists(rows, locked1, locked2, now1, now2, batch);
    } else {
      forall dead, back | Sweep(rows, locked1, locked2, now1, now2, batch, dead, back)
        ensures RespectsLimit(rows, back)
      {
        TidySweep(rows, locked1, locked2, now1, now2, batch, dead, back);
      }
    }
  }

  /** One transaction's sweep: the limit holds exactly when the batch is large enough. */
  lemma OneTransactionSweepLimit(rows: Rows, locked: set<JobId>, now: Time, batch: nat)
    ensures (forall dead, back | Sweep(rows, locked, locked, now, now, batch, dead, back) :: RespectsLimit(rows, back))
            <==> batch == 0 || |ExpiredAtLimit(rows, locked, now)| <= batch
  {
    SweepLimitExact(rows, locked, locked, now, now, batch);
    if ExpiredAtLimit(rows, locked, now) == {} {
      assert |ExpiredAtLimit(rows, locked, now)| == 0;
    }
  }
}
