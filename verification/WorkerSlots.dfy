/** run_worker: one claim loop and its slot threads, interleaved step by step over the
    shared queue, the outstanding count and the heartbeat's map, from start to shutdown. */
module WorkerSlots {
  import opened Jobs
  import opened Heartbeats

  /** One claim of one job: the same job claimed again is another ticket. */
  datatype Ticket = Ticket(number: nat, id: JobId)

  datatype Item = Work(ticket: Ticket) | Sentinel

  /** A slot waits on the queue, runs a job, has ended run_job but not yet counted it,
      has taken a sentinel but not yet counted it, or has returned. */
  datatype Slot = Waiting | Running(ticket: Ticket) | Ended | Leaving | Gone

  /** Where the claim loop is: at its head; with the room it found; with a claimed batch,
      before and after holding it; putting the rest of a counted batch on the queue;
      draining the queue; and sending sentinels. */
  datatype Loop =
    | Head
    | Room(room: int)
    | Claimed(batch: seq<Ticket>)
    | Held(batch: seq<Ticket>)
    | Putting(rest: seq<Ticket>)
    | Draining(unstarted: seq<Ticket>)
    | Sending(left: nat)

  /** queued, started and handedBack are the tickets that ever were. */
  datatype State = State(
    ready: seq<Item>,
    outstanding: int,
    slots: seq<Slot>,
    loop: Loop,
    deadlines: Deadlines,
    stopping: bool,
    next: nat,
    queued: set<nat>,
    started: set<nat>,
    handedBack: set<nat>,
    sent: nat)

  /** batch and maxOutstanding as run_worker derives them from its arguments. */
  datatype Config = Config(batchArg: int, concurrency: int) {
    function Batch(): int {
      if batchArg >= concurrency then batchArg else concurrency
    }

    function Max(): int {
      if Batch() >= concurrency * 2 then Batch() else concurrency * 2
    }
  }

  ghost predicate Initial(c: Config, s: State) {
    && c.concurrency >= 1 && |s.slots| == c.concurrency
    && (forall k | 0 <= k < |s.slots| :: s.slots[k] == Waiting)
    && s == State([], 0, s.slots, Head, map[], false, 0, {}, {}, {}, 0)
  }

  datatype Step =
    | Stop
    | FindRoom
    | Claim(batch: seq<Ticket>)
    | HoldBatch
    | CountBatch
    | Put
    | Quit
    | Drain
    | Drained
    | Send
    | Get(k: nat)
    | SetClock(k: nat, deadline: Time)
    | End(k: nat)
    | CountDone(k: nat)

  /** What the loop asks claim_jobs for. */
  function Asked(c: Config, room: int): int {
    if room <= c.Batch() then room else c.Batch()
  }

  ghost predicate Enabled(c: Config, s: State, step: Step) {
    match step
    case Stop => true
    // waits for capacity while the worker is full
    case FindRoom => s.loop == Head && s.outstanding < c.Max()
    // an empty batch, or a connection lost here, goes round again
    case Claim(batch) =>
      && s.loop.Room? && |batch| <= Asked(c, s.loop.room)
      && forall i | 0 <= i < |batch| :: batch[i].number == s.next + i
    case HoldBatch => s.loop.Claimed?
    case CountBatch => s.loop.Held?
    case Put => s.loop.Putting? && s.loop.rest != []
    // stopping is looked at between passes and again once there is room
    case Quit => s.stopping && (s.loop == Head || s.loop.Room?)
    case Drain => s.loop.Draining? && s.ready != []
    case Drained => s.loop.Draining? && s.ready == []
    case Send => s.loop.Sending? && s.loop.left > 0
    case Get(k) => k < |s.slots| && s.slots[k] == Waiting && s.ready != []
    // run_job's hold, with the task's ceiling
    case SetClock(k, _) => k < |s.slots| && s.slots[k].Running?
    case End(k) => k < |s.slots| && s.slots[k].Running?
    case CountDone(k) => k < |s.slots| && (s.slots[k] == Ended || s.slots[k] == Leaving)
  }

  function Ids(batch: seq<Ticket>): seq<JobId> {
    seq(|batch|, i requires 0 <= i < |batch| => batch[i].id)
  }

  function Apply(c: Config, s: State, step: Step): State
    requires Enabled(c, s, step)
  {
    match step
    case Stop => s.(stopping := true)
    case FindRoom => s.(loop := Room(c.Max() - s.outstanding))
    case Claim(batch) => s.(loop := if batch == [] then Head else Claimed(batch), next := s.next + |batch|)
    case HoldBatch => s.(loop := Held(s.loop.batch), deadlines := Holding(s.deadlines, Ids(s.loop.batch), None))
    case CountBatch => s.(loop := Putting(s.loop.batch), outstanding := s.outstanding + |s.loop.batch|)
    case Put =>
      var t := s.loop.rest[0];
      s.(ready := s.ready + [Work(t)], queued := s.queued + {t.number},
         loop := if |s.loop.rest| == 1 then Head else Putting(s.loop.rest[1..]))
    case Quit => s.(loop := Draining([]))
    case Drain =>
      (match s.ready[0]
       case Work(t) =>
         s.(ready := s.ready[1..], loop := Draining(s.loop.unstarted + [t]), handedBack := s.handedBack + {t.number})
       case Sentinel => s.(ready := s.ready[1..]))
    // heartbeat.release, before release_jobs hands them back
    case Drained =>
      s.(deadlines := Letting(s.deadlines, Ids(s.loop.unstarted)), loop := Sending(|s.slots|))
    case Send => s.(ready := s.ready + [Sentinel], loop := Sending(s.loop.left - 1), sent := s.sent + 1)
    case Get(k) =>
      (match s.ready[0]
       case Work(t) =>
         s.(ready := s.ready[1..], slots := s.slots[k := Slot.Running(t)], started := s.started + {t.number})
       case Sentinel => s.(ready := s.ready[1..], slots := s.slots[k := Leaving]))
    case SetClock(k, d) => s.(deadlines := Holding(s.deadlines, [s.slots[k].ticket.id], Some(d)))
    case End(k) => s.(slots := s.slots[k := Ended], deadlines := Letting(s.deadlines, [s.slots[k].ticket.id]))
    case CountDone(k) =>
      s.(slots := s.slots[k := if s.slots[k] == Ended then Waiting else Gone], outstanding := s.outstanding - 1)
  }

  ghost predicate Run(c: Config, trace: seq<State>, steps: seq<Step>) {
    && |trace| == |steps| + 1
    && Initial(c, trace[0])
    && forall i | 0 <= i < |steps| :: Enabled(c, trace[i], steps[i]) && trace[i + 1] == Apply(c, trace[i], steps[i])
  }

  // ---------- the outstanding count, and every ticket's one way ----------

  function Weight(slot: Slot): nat {
    if slot.Running? || slot == Ended then 1 else 0
  }

  /** Slots whose job is still counted. */
  function Busy(slots: seq<Slot>): nat {
    if slots == [] then 0 else Busy(slots[..|slots| - 1]) + Weight(slots[|slots| - 1])
  }

  function Left(slots: seq<Slot>): nat {
    if slots == [] then 0 else Left(slots[..|slots| - 1]) + (if slots[|slots| - 1] == Gone then 1 else 0)
  }

  lemma {:induction false} CountsAfter(slots: seq<Slot>, k: nat, slot: Slot)
    requires k < |slots|
    ensures Busy(slots[k := slot]) == Busy(slots) - Weight(slots[k]) + Weight(slot)
    ensures Left(slots[k := slot]) == Left(slots) - (if slots[k] == Gone then 1 else 0) + (if slot == Gone then 1 else 0)
  {
    var n := |slots| - 1;
    if k < n {
      CountsAfter(slots[..n], k, slot);
      assert slots[k := slot][..n] == slots[..n][k := slot];
    } else {
      assert slots[k := slot][..n] == slots[..n];
    }
  }

  lemma {:induction false} CountsBound(slots: seq<Slot>)
    ensures Busy(slots) + Left(slots) <= |slots|
    ensures (forall k | 0 <= k < |slots| :: slots[k] == Waiting) ==> Busy(slots) == 0 && Left(slots) == 0
    ensures (forall k | 0 <= k < |slots| :: slots[k] == Gone) ==> Busy(slots) == 0 && Left(slots) == |slots|
  {
    if slots != [] {
      CountsBound(slots[..|slots| - 1]);
    }
  }

  predicate Claiming(s: State) {
    !s.loop.Draining? && !s.loop.Sending?
  }

  function Unput(s: State): nat {
    if s.loop.Putting? then |s.loop.rest| else 0
  }

  /** Tickets still on the queue. */
  function WorkIn(ready: seq<Item>): nat {
    if ready == [] then 0 else (if ready[0].Work? then 1 else 0) + WorkIn(ready[1..])
  }

  lemma {:induction false} WorkInAppend(ready: seq<Item>, item: Item)
    ensures WorkIn(ready + [item]) == WorkIn(ready) + (if item.Work? then 1 else 0)
  {
    if ready == [] {
      assert ready + [item] == [item];
    } else {
      WorkInAppend(ready[1..], item);
      assert (ready + [item])[1..] == ready[1..] + [item];
    }
  }

  lemma WorkInHead(ready: seq<Item>)
    requires ready != []
    ensures WorkIn(ready) == (if ready[0].Work? then 1 else 0) + WorkIn(ready[1..])
  {}

  lemma {:induction false} WorkInAll(ready: seq<Item>)
    ensures WorkIn(ready) <= |ready|
    ensures (forall i | 0 <= i < |ready| :: ready[i].Work?) ==> WorkIn(ready) == |ready|
    ensures (forall i | 0 <= i < |ready| :: !ready[i].Work?) ==> WorkIn(ready) == 0
  {
    if ready != [] {
      WorkInAll(ready[1..]);
    }
  }

  /** Room was computed before the claim; slots can only have made more since. */
  predicate RoomKept(c: Config, s: State) {
    match s.loop
    case Room(room) => 1 <= room <= c.Max() - s.outstanding
    case Claimed(batch) => 1 <= |batch| <= c.Max() - s.outstanding
    case Held(batch) => 1 <= |batch| <= c.Max() - s.outstanding
    case Putting(rest) => rest != []
    case Head => true
    case Draining(_) => true
    case Sending(_) => true
  }

  /** While claiming, outstanding counts exactly the jobs queued, running or about to be
      queued. Draining takes jobs off the queue uncounted, and each sentinel a slot takes
      is counted off, so from then on the count is off by exactly those. */
  predicate Balanced(s: State) {
    s.outstanding == WorkIn(s.ready) + Busy(s.slots) + Unput(s) + |s.handedBack| - Left(s.slots)
  }

  lemma StepKeepsBalance(c: Config, s: State, step: Step)
    requires Balanced(s) && Enabled(c, s, step)
    requires step.Drain? && s.ready[0].Work? ==> s.ready[0].ticket.number !in s.handedBack
    ensures Balanced(Apply(c, s, step))
  {
    hide WorkIn, Busy, Left, Ids;
    var s' := Apply(c, s, step);
    match step
    case Get(k) =>
      WorkInHead(s.ready);
      CountsAfter(s.slots, k, s'.slots[k]);
    case Drain => WorkInHead(s.ready);
    case End(k) => CountsAfter(s.slots, k, Ended);
    case CountDone(k) => CountsAfter(s.slots, k, s'.slots[k]);
    case Put => WorkInAppend(s.ready, Work(s.loop.rest[0]));
    case Send => WorkInAppend(s.ready, Sentinel);
    case _ =>
  }

  /** Sentinels come only after the drain, which leaves no work on the queue. */
  ghost predicate Phases(c: Config, s: State) {
    && c.concurrency >= 1 && |s.slots| == c.concurrency
    && (Claiming(s) ==> s.outstanding <= c.Max() && s.handedBack == {})
    && (!s.loop.Sending? ==>
          && (forall i | 0 <= i < |s.ready| :: s.ready[i].Work?)
          && (forall k | 0 <= k < |s.slots| :: s.slots[k] != Leaving && s.slots[k] != Gone))
    && (s.loop.Sending? ==> forall i | 0 <= i < |s.ready| :: !s.ready[i].Work?)
    && RoomKept(c, s)
  }

  lemma StepKeepsPhases(c: Config, s: State, step: Step)
    requires Phases(c, s) && Enabled(c, s, step)
    ensures Phases(c, Apply(c, s, step))
  {
    hide Ids;
  }

  ghost predicate Queued(ready: seq<Item>, n: nat) {
    exists i | 0 <= i < |ready| :: ready[i].Work? && ready[i].ticket.number == n
  }

  /** `queued` is what is on the queue, each ticket once, and what has `gone` from it. */
  ghost predicate QueueInv(ready: seq<Item>, queued: set<nat>, gone: set<nat>) {
    && gone <= queued
    && (forall n <- queued - gone :: Queued(ready, n))
    && (forall i | 0 <= i < |ready| && ready[i].Work? :: ready[i].ticket.number in queued - gone)
    && (forall i, j | 0 <= i < j < |ready| && ready[i].Work? && ready[j].Work? ::
          ready[i].ticket.number != ready[j].ticket.number)
  }

  /** The claimed tickets not yet queued. */
  function Coming(loop: Loop): seq<Ticket> {
    if loop.Claimed? || loop.Held? then loop.batch else if loop.Putting? then loop.rest else []
  }

  /** They are the last ones drawn. */
  ghost predicate Numbered(s: State) {
    && |Coming(s.loop)| <= s.next
    && (forall i | 0 <= i < |Coming(s.loop)| :: Coming(s.loop)[i].number == s.next - |Coming(s.loop)| + i)
    && (forall n <- s.queued :: n < s.next - |Coming(s.loop)|)
  }

  ghost predicate TicketInv(s: State) {
    s.started !! s.handedBack && QueueInv(s.ready, s.queued, s.started + s.handedBack) && Numbered(s)
  }

  ghost predicate Inv(c: Config, s: State) {
    Balanced(s) && Phases(c, s) && TicketInv(s)
  }

  lemma TakeOne(ready: seq<Item>, queued: set<nat>, gone: set<nat>)
    requires QueueInv(ready, queued, gone) && ready != []
    ensures QueueInv(ready[1..], queued, if ready[0].Work? then gone + {ready[0].ticket.number} else gone)
  {
    var gone' := if ready[0].Work? then gone + {ready[0].ticket.number} else gone;
    forall n <- queued - gone' ensures Queued(ready[1..], n) {
      assert n in queued - gone && Queued(ready, n);
      var i :| 0 <= i < |ready| && ready[i].Work? && ready[i].ticket.number == n;
      assert ready[1..][i - 1] == ready[i];
    }
  }

  lemma PutOne(ready: seq<Item>, queued: set<nat>, gone: set<nat>, item: Item)
    requires QueueInv(ready, queued, gone) && (item.Work? ==> item.ticket.number !in queued)
    ensures QueueInv(ready + [item], if item.Work? then queued + {item.ticket.number} else queued, gone)
  {
    var ready' := ready + [item];
    var queued' := if item.Work? then queued + {item.ticket.number} else queued;
    forall n <- queued' - gone ensures Queued(ready', n) {
      if n in queued {
        assert n in queued - gone && Queued(ready, n);
        var i :| 0 <= i < |ready| && ready[i].Work? && ready[i].ticket.number == n;
        assert ready'[i] == ready[i];
      } else {
        assert ready'[|ready|] == item;
      }
    }
  }

  lemma StepKeepsNumbers(c: Config, s: State, step: Step)
    requires Numbered(s) && Enabled(c, s, step)
    ensures Numbered(Apply(c, s, step))
  {}

  lemma StepKeepsTickets(c: Config, s: State, step: Step)
    requires TicketInv(s) && Enabled(c, s, step)
    ensures TicketInv(Apply(c, s, step))
  {
    StepKeepsNumbers(c, s, step);
    var s' := Apply(c, s, step);
    if step.Get? || step.Drain? {
      TakeOne(s.ready, s.queued, s.started + s.handedBack);
      assert s'.started + s'.handedBack
          == (if s.ready[0].Work? then s.started + s.handedBack + {s.ready[0].ticket.number} else s.started + s.handedBack);
    } else if step.Put? {
      PutOne(s.ready, s.queued, s.started + s.handedBack, Work(s.loop.rest[0]));
    } else if step.Send? {
      PutOne(s.ready, s.queued, s.started + s.handedBack, Sentinel);
    }
  }

  lemma StepKeepsInv(c: Config, s: State, step: Step)
    requires Inv(c, s) && Enabled(c, s, step)
    ensures Inv(c, Apply(c, s, step))
  {
    hide Balanced, Phases, Apply, Numbered, Queued;
    StepKeepsTickets(c, s, step);
    StepKeepsPhases(c, s, step);
    StepKeepsBalance(c, s, step);
  }

  lemma InitialInv(c: Config, s: State)
    requires Initial(c, s)
    ensures Inv(c, s)
  {
    CountsBound(s.slots);
  }

  lemma {:induction false} RunKeepsInv(c: Config, trace: seq<State>, steps: seq<Step>, i: nat)
    requires Run(c, trace, steps) && i < |trace|
    ensures Inv(c, trace[i])
  {
    hide Inv, Enabled, Apply, Initial;
    if i > 0 {
      RunKeepsInv(c, trace, steps, i - 1);
      StepKeepsInv(c, trace[i - 1], steps[i - 1]);
    } else {
      InitialInv(c, trace[0]);
    }
  }

  lemma {:induction false} NoneGone(slots: seq<Slot>)
    requires forall k | 0 <= k < |slots| :: slots[k] != Gone
    ensures Left(slots) == 0
  {
    if slots != [] {
      NoneGone(slots[..|slots| - 1]);
    }
  }

  /** Main result: until the drain, outstanding is exactly the jobs queued, running, or
      counted and still to be queued; it stays within its bound, and a claim asks for at
      least one job and no more than there is room for. */
  lemma SlotAccounting(c: Config, trace: seq<State>, steps: seq<Step>, i: nat)
    requires Run(c, trace, steps) && i < |trace| && Claiming(trace[i])
    ensures var s := trace[i];
            && s.outstanding == |s.ready| + Busy(s.slots) + Unput(s)
            && 0 <= s.outstanding <= c.Max()
            && c.Max() == (if c.batchArg >= 2 * c.concurrency then c.batchArg else 2 * c.concurrency)
            && (s.loop.Room? ==>
                  && 1 <= Asked(c, s.loop.room) <= s.loop.room <= c.Max() - s.outstanding
                  && (Asked(c, s.loop.room) <= c.batchArg || Asked(c, s.loop.room) <= c.concurrency)
                  && (|| Asked(c, s.loop.room) == s.loop.room
                      || (c.batchArg <= Asked(c, s.loop.room) && c.concurrency <= Asked(c, s.loop.room))))
  {
    RunKeepsInv(c, trace, steps, i);
    WorkInAll(trace[i].ready);
    NoneGone(trace[i].slots);
  }

  lemma AllGone(ready: seq<Item>, queued: set<nat>, gone: set<nat>)
    requires QueueInv(ready, queued, gone) && forall i | 0 <= i < |ready| :: !ready[i].Work?
    ensures queued == gone
  {
    assert forall n :: !Queued(ready, n);
    forall n <- queued ensures n in gone {
      assert n in queued - gone ==> Queued(ready, n);
    }
  }

  /** Main result: once sentinels are being sent, every job this process ever queued was
      started by a slot or handed back, never both and never neither; and once every slot
      has returned, outstanding is what was handed back less one for each slot. */
  lemma ShutdownPartition(c: Config, trace: seq<State>, steps: seq<Step>, i: nat)
    requires Run(c, trace, steps) && i < |trace| && trace[i].loop.Sending?
    ensures var s := trace[i];
            && s.queued == s.started + s.handedBack && s.started !! s.handedBack
            && ((forall k | 0 <= k < |s.slots| :: s.slots[k] == Gone) ==> s.outstanding == |s.handedBack| - c.concurrency)
  {
    RunKeepsInv(c, trace, steps, i);
    var s := trace[i];
    WorkInAll(s.ready);
    CountsBound(s.slots);
    AllGone(s.ready, s.queued, s.started + s.handedBack);
  }

  // ---------- first come, first started ----------

  /** The queue runs in the order of the claims, behind everything that has left it. */
  ghost predicate InOrder(ready: seq<Item>, gone: set<nat>) {
    && (forall i, j | 0 <= i < j < |ready| && ready[i].Work? && ready[j].Work? ::
          ready[i].ticket.number < ready[j].ticket.number)
    && (forall n, i | n in gone && 0 <= i < |ready| && ready[i].Work? :: n < ready[i].ticket.number)
  }

  lemma StepKeepsOrder(c: Config, s: State, step: Step)
    requires TicketInv(s) && InOrder(s.ready, s.started + s.handedBack) && Enabled(c, s, step)
    ensures InOrder(Apply(c, s, step).ready, Apply(c, s, step).started + Apply(c, s, step).handedBack)
  {
    hide Queued;
    var s' := Apply(c, s, step);
    if step.Get? || step.Drain? {
      assert forall n <- s'.started + s'.handedBack ::
          n in s.started + s.handedBack || (s.ready[0].Work? && n == s.ready[0].ticket.number);
    } else {
      assert s'.started + s'.handedBack == s.started + s.handedBack;
      assert forall n <- s.started + s.handedBack :: n in s.queued;
    }
  }

  lemma OrderedAtFirst(c: Config, s: State)
    requires Initial(c, s)
    ensures InOrder(s.ready, s.started + s.handedBack)
  {}

  lemma {:induction false} RunKeepsOrder(c: Config, trace: seq<State>, steps: seq<Step>, i: nat)
    requires Run(c, trace, steps) && i < |trace|
    ensures InOrder(trace[i].ready, trace[i].started + trace[i].handedBack)
  {
    hide Enabled, Apply, InOrder, Balanced, Phases, TicketInv, Initial;
    if i > 0 {
      RunKeepsOrder(c, trace, steps, i - 1);
      RunKeepsInv(c, trace, steps, i - 1);
      StepKeepsOrder(c, trace[i - 1], steps[i - 1]);
    } else {
      OrderedAtFirst(c, trace[0]);
    }
  }

  /** Main result: jobs are started in the order they were claimed: when a slot starts one,
      every one queued before it has been started or handed back. */
  lemma StartedInOrder(c: Config, trace: seq<State>, steps: seq<Step>, i: nat, n: nat)
    requires Run(c, trace, steps) && i < |steps| && steps[i].Get?
    requires trace[i].ready != [] && trace[i].ready[0].Work?
    requires n in trace[i].queued && n < trace[i].ready[0].ticket.number
    ensures n in trace[i].started + trace[i].handedBack
    ensures trace[i].ready[0].ticket.number in trace[i + 1].started
  {
    RunKeepsInv(c, trace, steps, i);
    RunKeepsOrder(c, trace, steps, i);
    assert Enabled(c, trace[i], steps[i]) && trace[i + 1] == Apply(c, trace[i], steps[i]);
    assert n in trace[i].started + trace[i].handedBack || Queued(trace[i].ready, n);
  }

  // ---------- held leases ----------

  function OnQueue(ready: seq<Item>): seq<Ticket> {
    if ready == [] then [] else (if ready[0].Work? then [ready[0].ticket] else []) + OnQueue(ready[1..])
  }

  lemma {:induction false} OnQueueAppend(ready: seq<Item>, item: Item)
    ensures OnQueue(ready + [item]) == OnQueue(ready) + (if item.Work? then [item.ticket] else [])
  {
    if ready == [] {
      assert ready + [item] == [item];
    } else {
      OnQueueAppend(ready[1..], item);
      assert (ready + [item])[1..] == ready[1..] + [item];
    }
  }

  lemma OnQueueHead(ready: seq<Item>)
    requires ready != []
    ensures OnQueue(ready) == (if ready[0].Work? then [ready[0].ticket] else []) + OnQueue(ready[1..])
  {}

  lemma {:induction false} OnQueueHas(ready: seq<Item>, i: nat)
    requires i < |ready| && ready[i].Work?
    ensures ready[i].ticket in OnQueue(ready)
  {
    if i > 0 {
      OnQueueHas(ready[1..], i - 1);
    }
  }

  /** Held and not started: being handed back, on the queue, or held and coming to it. */
  function Line(s: State): seq<Ticket> {
    (if s.loop.Draining? then s.loop.unstarted else [])
    + OnQueue(s.ready)
    + (if s.loop.Held? then s.loop.batch else if s.loop.Putting? then s.loop.rest else [])
  }

  ghost predicate Distinct(line: seq<Ticket>) {
    forall i, j | 0 <= i < j < |line| :: line[i].id != line[j].id
  }

  ghost predicate Unbounded(d: Deadlines, line: seq<Ticket>) {
    forall t <- line :: t.id in d && d[t.id] == None
  }

  ghost predicate Apart(slots: seq<Slot>, line: seq<Ticket>) {
    forall t, k | t in line && 0 <= k < |slots| && slots[k].Running? :: slots[k].ticket.id != t.id
  }

  ghost predicate SlotsHeld(d: Deadlines, slots: seq<Slot>) {
    && (forall k | 0 <= k < |slots| && slots[k].Running? :: slots[k].ticket.id in d)
    && (forall k, l | 0 <= k < l < |slots| && slots[k].Running? && slots[l].Running? ::
          slots[k].ticket.id != slots[l].ticket.id)
  }

  ghost predicate HeldInv(s: State) {
    && Distinct(Line(s)) && Unbounded(s.deadlines, Line(s)) && Apart(s.slots, Line(s)) && SlotsHeld(s.deadlines, s.slots)
    && (s.loop.Claimed? ==> Distinct(s.loop.batch) && forall t <- s.loop.batch :: t.id !in s.deadlines)
  }

  /** A claim returns different jobs, none of them still held here from an earlier claim. */
  ghost predicate NoSelfReclaim(s: State, step: Step) {
    step.Claim? ==> Distinct(step.batch) && forall t <- step.batch :: t.id !in s.deadlines
  }

  lemma IdsAre(batch: seq<Ticket>)
    ensures forall t <- batch :: t.id in Ids(batch)
    ensures forall id <- Ids(batch) :: exists t <- batch :: t.id == id
  {
    forall t <- batch ensures t.id in Ids(batch) {
      var i :| 0 <= i < |batch| && batch[i] == t;
      assert Ids(batch)[i] == t.id;
    }
    forall id <- Ids(batch) ensures exists t <- batch :: t.id == id {
      var i :| 0 <= i < |batch| && Ids(batch)[i] == id;
      assert batch[i] in batch;
    }
  }

  lemma HoldKeepsHeld(c: Config, s: State)
    requires HeldInv(s) && Enabled(c, s, HoldBatch)
    ensures HeldInv(Apply(c, s, HoldBatch))
  {
    IdsAre(s.loop.batch);
    assert Line(Apply(c, s, HoldBatch)) == Line(s) + s.loop.batch;
  }

  lemma PutKeepsLine(c: Config, s: State)
    requires Enabled(c, s, Put)
    ensures Line(Apply(c, s, Put)) == Line(s)
  {
    hide OnQueue;
    var s', q, rest := Apply(c, s, Put), OnQueue(s.ready), s.loop.rest;
    OnQueueAppend(s.ready, Work(rest[0]));
    assert rest == [rest[0]] + rest[1..];
    assert s'.ready == s.ready + [Work(rest[0])];
    assert Line(s) == q + rest;
    assert Line(s') == (q + [rest[0]]) + rest[1..];
  }

  lemma DrainKeepsLine(c: Config, s: State)
    requires Enabled(c, s, Drain)
    ensures Line(Apply(c, s, Drain)) == Line(s)
  {
    assert Line(s) == s.loop.unstarted + OnQueue(s.ready);
    if s.ready[0].Work? {
      var t := s.ready[0].ticket;
      assert OnQueue(s.ready) == [t] + OnQueue(s.ready[1..]);
      assert Line(Apply(c, s, Drain)) == (s.loop.unstarted + [t]) + OnQueue(s.ready[1..]);
    } else {
      assert OnQueue(s.ready) == OnQueue(s.ready[1..]);
    }
  }

  lemma WithoutOne(line: seq<Ticket>, p: nat)
    requires Distinct(line) && p < |line|
    ensures var less := line[..p] + line[p + 1..];
            Distinct(less) && (forall t <- less :: t in line && t.id != line[p].id)
  {
    var less := line[..p] + line[p + 1..];
    forall t <- less ensures t in line && t.id != line[p].id {
      var i :| 0 <= i < |less| && less[i] == t;
      assert t == line[if i < p then i else i + 1];
    }
  }

  lemma StartOne(d: Deadlines, line: seq<Ticket>, slots: seq<Slot>, p: nat, k: nat)
    requires Distinct(line) && Unbounded(d, line) && Apart(slots, line) && SlotsHeld(d, slots)
    requires p < |line| && k < |slots| && slots[k] == Waiting
    ensures var less, slots' := line[..p] + line[p + 1..], slots[k := Slot.Running(line[p])];
            Distinct(less) && Unbounded(d, less) && Apart(slots', less) && SlotsHeld(d, slots')
  {
    WithoutOne(line, p);
    assert line[p] in line;
  }

  lemma LeaveOne(d: Deadlines, line: seq<Ticket>, slots: seq<Slot>, k: nat)
    requires Apart(slots, line) && SlotsHeld(d, slots) && k < |slots|
    ensures Apart(slots[k := Leaving], line) && SlotsHeld(d, slots[k := Leaving])
  {}

  lemma GetKeepsHeld(c: Config, s: State, k: nat)
    requires HeldInv(s) && Enabled(c, s, Get(k))
    ensures HeldInv(Apply(c, s, Get(k)))
  {
    hide Distinct, Unbounded, Apart, SlotsHeld, OnQueue;
    var s' := Apply(c, s, Get(k));
    OnQueueHead(s.ready);
    if s.ready[0].Work? {
      var t := s.ready[0].ticket;
      var p := if s.loop.Draining? then |s.loop.unstarted| else 0;
      assert Line(s)[p] == t;
      assert Line(s') == Line(s)[..p] + Line(s)[p + 1..];
      StartOne(s.deadlines, Line(s), s.slots, p, k);
    } else {
      assert Line(s') == Line(s);
      LeaveOne(s.deadlines, Line(s), s.slots, k);
    }
  }

  lemma DrainedKeepsHeld(c: Config, s: State)
    requires HeldInv(s) && Enabled(c, s, Drained)
    ensures HeldInv(Apply(c, s, Drained))
  {
    IdsAre(s.loop.unstarted);
    assert Line(s) == s.loop.unstarted;
    assert Line(Apply(c, s, Drained)) == [];
  }

  lemma ClockKeepsHeld(c: Config, s: State, step: Step)
    requires HeldInv(s) && Enabled(c, s, step) && (step.SetClock? || step.End?)
    ensures HeldInv(Apply(c, s, step))
  {
    assert Line(Apply(c, s, step)) == Line(s);
  }

  lemma StepKeepsHeld(c: Config, s: State, step: Step)
    requires HeldInv(s) && Phases(c, s) && Enabled(c, s, step) && NoSelfReclaim(s, step)
    ensures HeldInv(Apply(c, s, step))
  {
    match step
    case HoldBatch => HoldKeepsHeld(c, s);
    case Get(k) => GetKeepsHeld(c, s, k);
    case Drained => DrainedKeepsHeld(c, s);
    case SetClock(_, _) => ClockKeepsHeld(c, s, step);
    case End(_) => ClockKeepsHeld(c, s, step);
    case Put => PutKeepsLine(c, s);
    case Drain => DrainKeepsLine(c, s);
    case Send => OnQueueAppend(s.ready, Sentinel); assert Line(Apply(c, s, step)) == Line(s);
    case _ => assert Line(Apply(c, s, step)) == Line(s);
  }

  lemma InitialHeld(c: Config, s: State)
    requires Initial(c, s)
    ensures HeldInv(s)
  {}

  lemma {:induction false} RunKeepsHeld(c: Config, trace: seq<State>, steps: seq<Step>, i: nat)
    requires Run(c, trace, steps) && i < |trace|
    requires forall k | 0 <= k < |steps| :: NoSelfReclaim(trace[k], steps[k])
    ensures HeldInv(trace[i])
  {
    hide HeldInv, Enabled, Apply, NoSelfReclaim, Balanced, Phases, TicketInv, Initial;
    if i > 0 {
      RunKeepsHeld(c, trace, steps, i - 1);
      RunKeepsInv(c, trace, steps, i - 1);
      StepKeepsHeld(c, trace[i - 1], steps[i - 1]);
    } else {
      InitialHeld(c, trace[0]);
    }
  }

  /** Main result: while this worker claims no job it still holds, every job on its queue
      is held with no deadline, and every running one stays held until run_job ends. */
  lemma HeldWhileOurs(c: Config, trace: seq<State>, steps: seq<Step>, i: nat)
    requires Run(c, trace, steps) && i < |trace|
    requires forall k | 0 <= k < |steps| :: NoSelfReclaim(trace[k], steps[k])
    ensures var s := trace[i];
            && (forall n | 0 <= n < |s.ready| && s.ready[n].Work? ::
                  s.ready[n].ticket.id in s.deadlines && s.deadlines[s.ready[n].ticket.id] == None)
            && (forall k | 0 <= k < |s.slots| && s.slots[k].Running? :: s.slots[k].ticket.id in s.deadlines)
  {
    RunKeepsHeld(c, trace, steps, i);
    var s := trace[i];
    forall n | 0 <= n < |s.ready| && s.ready[n].Work?
      ensures s.ready[n].ticket.id in s.deadlines && s.deadlines[s.ready[n].ticket.id] == None
    {
      OnQueueHas(s.ready, n);
      assert s.ready[n].ticket in Line(s);
    }
  }

  // ---------- nothing else held ----------

  /** The job is coming, queued, running, or about to be handed back. */
  ghost predicate AtHand(s: State, id: JobId) {
    || (exists t <- Line(s) :: t.id == id)
    || (exists k | 0 <= k < |s.slots| && s.slots[k].Running? :: s.slots[k].ticket.id == id)
  }

  ghost predicate OnlyAtHand(s: State) {
    forall id <- s.deadlines :: AtHand(s, id)
  }

  lemma HoldKeepsOnly(c: Config, s: State)
    requires OnlyAtHand(s) && Enabled(c, s, HoldBatch)
    ensures OnlyAtHand(Apply(c, s, HoldBatch))
  {
    var s' := Apply(c, s, HoldBatch);
    IdsAre(s.loop.batch);
    assert Line(s') == Line(s) + s.loop.batch;
    forall id <- s'.deadlines ensures AtHand(s', id) {
      if t :| t in s.loop.batch && t.id == id {
        assert t in Line(s');
      } else {
        assert AtHand(s, id);
        if t :| t in Line(s) && t.id == id {
          assert t in Line(s');
        }
      }
    }
  }

  lemma GetKeepsOnly(c: Config, s: State, k: nat)
    requires OnlyAtHand(s) && Enabled(c, s, Get(k))
    ensures OnlyAtHand(Apply(c, s, Get(k)))
  {
    hide OnQueue;
    var s' := Apply(c, s, Get(k));
    OnQueueHead(s.ready);
    forall id <- s'.deadlines ensures AtHand(s', id) {
      assert AtHand(s, id);
      if t :| t in Line(s) && t.id == id {
        if s.ready[0].Work? && t == s.ready[0].ticket {
          assert s'.slots[k].Running? && s'.slots[k].ticket.id == id;
        } else {
          assert t in Line(s');
        }
      } else {
        var l :| 0 <= l < |s.slots| && s.slots[l].Running? && s.slots[l].ticket.id == id;
        assert s'.slots[l] == s.slots[l];
      }
    }
  }

  lemma DrainedKeepsOnly(c: Config, s: State)
    requires OnlyAtHand(s) && Enabled(c, s, Drained)
    ensures OnlyAtHand(Apply(c, s, Drained))
  {
    var s' := Apply(c, s, Drained);
    IdsAre(s.loop.unstarted);
    assert Line(s) == s.loop.unstarted;
    forall id <- s'.deadlines ensures AtHand(s', id) {
      assert AtHand(s, id);
    }
  }

  lemma SlotKeepsOnly(c: Config, s: State, step: Step)
    requires OnlyAtHand(s) && Enabled(c, s, step) && (step.SetClock? || step.End? || step.CountDone?)
    ensures OnlyAtHand(Apply(c, s, step))
  {
    var s' := Apply(c, s, step);
    assert Line(s') == Line(s);
    forall id <- s'.deadlines ensures AtHand(s', id) {
      if step.SetClock? && id == s.slots[step.k].ticket.id {
        assert s'.slots[step.k].Running?;
      } else {
        assert AtHand(s, id);
        if l :| 0 <= l < |s.slots| && s.slots[l].Running? && s.slots[l].ticket.id == id {
          assert s'.slots[l] == s.slots[l];
        }
      }
    }
  }

  lemma SameKeepsOnly(s: State, s': State)
    requires OnlyAtHand(s) && Line(s') == Line(s) && s'.slots == s.slots && s'.deadlines == s.deadlines
    ensures OnlyAtHand(s')
  {
    forall id <- s'.deadlines ensures AtHand(s', id) {
      assert AtHand(s, id);
    }
  }

  lemma StepKeepsOnly(c: Config, s: State, step: Step)
    requires OnlyAtHand(s) && Phases(c, s) && Enabled(c, s, step)
    ensures OnlyAtHand(Apply(c, s, step))
  {
    hide OnlyAtHand;
    match step
    case HoldBatch => HoldKeepsOnly(c, s);
    case Get(k) => GetKeepsOnly(c, s, k);
    case Drained => DrainedKeepsOnly(c, s);
    case SetClock(_, _) => SlotKeepsOnly(c, s, step);
    case End(_) => SlotKeepsOnly(c, s, step);
    case CountDone(_) => SlotKeepsOnly(c, s, step);
    case Put => PutKeepsLine(c, s); SameKeepsOnly(s, Apply(c, s, step));
    case Drain => DrainKeepsLine(c, s); SameKeepsOnly(s, Apply(c, s, step));
    case Send => OnQueueAppend(s.ready, Sentinel); SameKeepsOnly(s, Apply(c, s, step));
    case _ => SameKeepsOnly(s, Apply(c, s, step));
  }

  lemma NothingAtFirst(c: Config, s: State)
    requires Initial(c, s)
    ensures OnlyAtHand(s)
  {}

  lemma {:induction false} RunKeepsOnly(c: Config, trace: seq<State>, steps: seq<Step>, i: nat)
    requires Run(c, trace, steps) && i < |trace|
    ensures OnlyAtHand(trace[i])
  {
    hide OnlyAtHand, Enabled, Apply, Balanced, Phases, TicketInv, Initial;
    if i > 0 {
      RunKeepsOnly(c, trace, steps, i - 1);
      RunKeepsInv(c, trace, steps, i - 1);
      StepKeepsOnly(c, trace[i - 1], steps[i - 1]);
    } else {
      NothingAtFirst(c, trace[0]);
    }
  }

  lemma {:induction false} NoneOnQueue(ready: seq<Item>)
    requires forall i | 0 <= i < |ready| :: !ready[i].Work?
    ensures OnQueue(ready) == []
  {
    if ready != [] {
      NoneOnQueue(ready[1..]);
    }
  }

  /** Main result: this worker keeps no lease alive but of jobs it has at hand; and once the
      rest of its queue has been handed back, none but of those still running. */
  lemma OnlyHeldAtHand(c: Config, trace: seq<State>, steps: seq<Step>, i: nat, id: JobId)
    requires Run(c, trace, steps) && i < |trace| && id in trace[i].deadlines
    ensures AtHand(trace[i], id)
    ensures trace[i].loop.Sending? ==>
              exists k | 0 <= k < |trace[i].slots| && trace[i].slots[k].Running? :: trace[i].slots[k].ticket.id == id
  {
    RunKeepsOnly(c, trace, steps, i);
    RunKeepsInv(c, trace, steps, i);
    if trace[i].loop.Sending? {
      NoneOnQueue(trace[i].ready);
    }
  }

  // ---------- a whole life ----------

  const ONE := Config(1, 1)

  lemma OneMore(before: seq<State>, done: seq<Step>, step: Step, after: State) returns (trace: seq<State>, steps: seq<Step>)
    requires Run(ONE, before, done) && |before| == |done| + 1
    requires Enabled(ONE, before[|done|], step) && Apply(ONE, before[|done|], step) == after
    ensures Run(ONE, trace, steps) && |trace| == |steps| + 1 && trace[|steps|] == after
  {
    hide Enabled, Apply, Initial;
    trace, steps := before + [after], done + [step];
  }

  /** Claimed, held, counted and queued. */
  lemma OneIsQueued(id: JobId) returns (trace: seq<State>, steps: seq<Step>)
    ensures Run(ONE, trace, steps) && |trace| == |steps| + 1
    ensures trace[|steps|] == State([Work(Ticket(0, id))], 1, [Waiting], Head, map[id := None], false, 1, {0}, {}, {}, 0)
  {
    var t := Ticket(0, id);
    var s0 := State([], 0, [Waiting], Head, map[], false, 0, {}, {}, {}, 0);
    assert Run(ONE, [s0], []);
    hide Run;
    trace, steps := OneMore([s0], [], FindRoom, s0.(loop := Room(2)));
    trace, steps := OneMore(trace, steps, Step.Claim([t]), s0.(loop := Loop.Claimed([t]), next := 1));
    var held := s0.(loop := Held([t]), next := 1, deadlines := map[id := None]);
    assert Ids([t]) == [id] && Holding(map[], [id], None) == map[id := None];
    trace, steps := OneMore(trace, steps, HoldBatch, held);
    trace, steps := OneMore(trace, steps, CountBatch, held.(loop := Putting([t]), outstanding := 1));
    assert trace[|steps|].ready + [Work(t)] == [Work(t)];
    trace, steps := OneMore(trace, steps, Put,
                            State([Work(t)], 1, [Waiting], Head, map[id := None], false, 1, {0}, {}, {}, 0));
  }

  /** Picked up by the slot, its clock set. */
  lemma OneIsStarted(id: JobId, deadline: Time) returns (trace: seq<State>, steps: seq<Step>)
    ensures Run(ONE, trace, steps) && |trace| == |steps| + 1
    ensures trace[|steps|]
            == State([], 1, [Slot.Running(Ticket(0, id))], Head, map[id := Some(deadline)], false, 1, {0}, {0}, {}, 0)
  {
    trace, steps := OneIsQueued(id);
    hide Run;
    var running := State([], 1, [Slot.Running(Ticket(0, id))], Head, map[id := None], false, 1, {0}, {0}, {}, 0);
    assert trace[|steps|].slots[0 := Slot.Running(Ticket(0, id))] == running.slots;
    trace, steps := OneMore(trace, steps, Get(0), running);
    assert Holding(running.deadlines, [id], Some(deadline)) == map[id := Some(deadline)];
    trace, steps := OneMore(trace, steps, SetClock(0, deadline), running.(deadlines := map[id := Some(deadline)]));
  }

  /** Run to its end, let go and counted. */
  lemma OneIsRun(id: JobId, deadline: Time) returns (trace: seq<State>, steps: seq<Step>)
    ensures Run(ONE, trace, steps) && |trace| == |steps| + 1
    ensures trace[|steps|] == State([], 0, [Waiting], Head, map[], false, 1, {0}, {0}, {}, 0)
  {
    trace, steps := OneIsStarted(id, deadline);
    hide Run;
    assert Letting(map[id := Some(deadline)], [id]) == map[];
    var ended := State([], 1, [Slot.Ended], Head, map[], false, 1, {0}, {0}, {}, 0);
    assert trace[|steps|].slots[0 := Slot.Ended] == ended.slots;
    trace, steps := OneMore(trace, steps, End(0), ended);
    assert ended.slots[0 := Waiting] == [Waiting];
    trace, steps := OneMore(trace, steps, CountDone(0), ended.(slots := [Waiting], outstanding := 0));
  }

  /** A run from start to shutdown: one job claimed, held, run and let go, and the slot gone. */
  lemma WholeLife(id: JobId, deadline: Time) returns (trace: seq<State>, steps: seq<Step>)
    ensures Run(ONE, trace, steps) && |trace| == |steps| + 1
    ensures trace[|steps|] == State([], -1, [Gone], Sending(0), map[], true, 1, {0}, {0}, {}, 1)
  {
    trace, steps := OneIsRun(id, deadline);
    hide Run;
    var s := trace[|steps|].(stopping := true);
    trace, steps := OneMore(trace, steps, Stop, s);
    trace, steps := OneMore(trace, steps, Quit, s.(loop := Draining([])));
    trace, steps := OneMore(trace, steps, Drained, s.(loop := Sending(1)));
    trace, steps := OneMore(trace, steps, Send, s.(ready := [Sentinel], loop := Sending(0), sent := 1));
    var leaving := s.(slots := [Leaving], loop := Sending(0), sent := 1);
    assert [Waiting][0 := Leaving] == leaving.slots && [Leaving][0 := Gone] == [Gone];
    trace, steps := OneMore(trace, steps, Get(0), leaving);
    trace, steps := OneMore(trace, steps, CountDone(0), leaving.(slots := [Gone], outstanding := -1));
  }

  /** Another: stopped while the job is on the queue, which is handed back and let go. */
  lemma HandedBackUnrun(id: JobId) returns (trace: seq<State>, steps: seq<Step>)
    ensures Run(ONE, trace, steps) && |trace| == |steps| + 1
    ensures trace[|steps|] == State([], 1, [Waiting], Sending(1), map[], true, 1, {0}, {}, {0}, 0)
  {
    trace, steps := OneIsQueued(id);
    hide Run;
    var t := Ticket(0, id);
    var s := trace[|steps|].(stopping := true);
    trace, steps := OneMore(trace, steps, Stop, s);
    trace, steps := OneMore(trace, steps, Quit, s.(loop := Draining([])));
    var drained := State([], 1, [Waiting], Draining([t]), map[id := None], true, 1, {0}, {}, {0}, 0);
    var none: seq<Ticket> := [];
    assert s.ready[1..] == [] && none + [t] == [t];
    trace, steps := OneMore(trace, steps, Drain, drained);
    assert Ids([t]) == [id] && Letting(map[id := None], [id]) == map[];
    trace, steps := OneMore(trace, steps, Drained, drained.(loop := Sending(1), deadlines := map[]));
  }
}
