/** Recurring schedules: which slot a due schedule fires, and one pass over the due ones. */
module Schedules {
  import opened Jobs
  import opened Tables
  import opened Division
  import Z = Zones

  datatype When = Interval(period: int) | OnClock(clock: Z.Clock)

  /** `transactional` says whether the schedule's task takes a connection. */
  datatype Schedule = Schedule(when: When, nextRun: Time, maxLateness: Option<int>, transactional: bool)

  /** daily() and hourly() check a clock; nothing checks an interval. */
  predicate Registrable(w: When) {
    w.OnClock? ==> Z.WellFormed(w.clock)
  }

  /** Its slot can be worked out: an interval of zero divides by zero. */
  predicate WellFormed(w: When) {
    Registrable(w) && (w.Interval? ==> w.period != 0)
  }

  /** An interval counts up, or a clock's slots are in order of their days. */
  ghost predicate Orderly(w: When) {
    match w
    case Interval(period) => period > 0
    case OnClock(c) => Z.SlotsInOrder(c)
  }

  predicate NoneMissed(w: When, now: Time) {
    w.OnClock? ==> Z.NoneMissed(w.clock, now)
  }

  predicate DateNearlyKept(w: When, now: Time) {
    w.OnClock? ==> Z.DateNearlyKept(w.clock, now)
  }

  ghost predicate IsSlot(w: When, slot: Time) {
    w.OnClock? ==> Z.IsSlot(w.clock, slot)
  }

  /** The most recent time a due schedule should have run. */
  function SlotToRun(s: Schedule, now: Time): Time
    requires WellFormed(s.when)
  {
    match s.when
    case Interval(period) => s.nextRun + FloorDivide(now - s.nextRun, period) * period
    case OnClock(c) => Z.AtOrBefore(c, now)
  }

  function SlotAfter(s: Schedule, slot: Time): Time {
    match s.when
    case Interval(period) => slot + period
    case OnClock(c) => Z.After(c, slot)
  }

  // ---------- intervals ----------

  /** Catching up one period at a time. */
  function CaughtUp(next: Time, period: int, now: Time): Time
    requires period > 0
    decreases now - next
  {
    if next + period <= now then CaughtUp(next + period, period, now) else next
  }

  lemma {:induction false} ClosedForm(next: Time, period: int, now: Time)
    requires period > 0 && next <= now
    ensures CaughtUp(next, period, now) == next + ((now - next) / period) * period
    decreases now - next
  {
    var q := (now - next) / period;
    DivideBounds(now - next, period);
    if next + period <= now {
      ClosedForm(next + period, period, now);
      DivideUnique(now - next - period, period, q - 1) by {
        assert (q - 1) * period == q * period - period;
      }
      assert (q - 1) * period == q * period - period;
    } else {
      DivideUnique(now - next, period, 0);
    }
  }

  /** Main result: for an interval, the slot fired is where catching up one period at a
      time ends, at most a period ago, and is the same wherever on its cycle next_run_at
      is wound back to. */
  lemma IntervalSlot(s: Schedule, now: Time, back: nat)
    requires s.when.Interval? && s.when.period > 0 && s.nextRun <= now
    ensures SlotToRun(s, now) == CaughtUp(s.nextRun, s.when.period, now)
    ensures s.nextRun <= SlotToRun(s, now) <= now < SlotAfter(s, SlotToRun(s, now))
    ensures SlotAfter(s, SlotToRun(s, now)) == SlotToRun(s, now) + s.when.period
    ensures SlotToRun(s.(nextRun := s.nextRun - back * s.when.period), now) == SlotToRun(s, now)
  {
    var next, p := s.nextRun, s.when.period;
    ClosedForm(next, p, now);
    DivideBounds(now - next, p);
    var q := (now - next) / p;
    TimesInOrder(0, q, p);
    assert (q + back) * p == q * p + back * p;
    DivideUnique(now - (next - back * p), p, q + back);
  }

  /** Main result: a fired interval schedule is not due again exactly when its interval
      is positive; a negative one counts away from now. */
  lemma IntervalDueAgainExact(s: Schedule, now: Time)
    requires s.when.Interval? && s.when.period != 0 && s.nextRun <= now
    ensures now < SlotAfter(s, SlotToRun(s, now)) <==> s.when.period > 0
    ensures s.when.period < 0 ==> SlotAfter(s, SlotToRun(s, now)) < now <= SlotToRun(s, now)
  {
    if s.when.period > 0 {
      IntervalSlot(s, now, 0);
    } else {
      FloorDivideNegative(now - s.nextRun, s.when.period);
    }
  }

  /** What is fired, and what comes next, are slots. */
  lemma FiredIsSlot(s: Schedule, now: Time)
    requires Orderly(s.when) && s.nextRun <= now
    ensures IsSlot(s.when, SlotToRun(s, now)) && IsSlot(s.when, SlotAfter(s, SlotToRun(s, now)))
    ensures SlotToRun(s, now) < SlotAfter(s, SlotToRun(s, now))
  {
    if s.when.OnClock? {
      Z.FoundAreSlots(s.when.clock, now);
      Z.FoundAreSlots(s.when.clock, Z.AtOrBefore(s.when.clock, now));
    }
  }

  /** Main result: of a due schedule that has missed no slot, the slot fired is not before
      next_run_at, when that is itself a slot, and the next one is later than now. */
  lemma FiringMovesOn(s: Schedule, now: Time)
    requires Orderly(s.when) && NoneMissed(s.when, now) && s.nextRun <= now && IsSlot(s.when, s.nextRun)
    ensures s.nextRun <= SlotToRun(s, now) <= now < SlotAfter(s, SlotToRun(s, now))
    ensures IsSlot(s.when, SlotAfter(s, SlotToRun(s, now)))
  {
    FiredIsSlot(s, now);
    match s.when
    case Interval(_) => IntervalSlot(s, now, 0);
    case OnClock(c) =>
      hide Z.NoneMissed, Z.NoneSkipped;
      Z.LoopsExact(c, now);
      var n :| Z.Slot(c, n) == s.nextRun;
      if c.Daily? {
        Z.DueAgainExact(c.at, c.zone, now);
      }
  }

  /** Main result: a due daily schedule fires a slot before its own next_run_at exactly
      when the slot of now's date has come and next_run_at is a later slot. */
  lemma FiresBehindExact(s: Schedule, now: Time)
    requires s.when.OnClock? && s.when.clock.Daily? && Orderly(s.when) && s.nextRun <= now && IsSlot(s.when, s.nextRun)
    ensures var today := Z.On(s.when.clock.zone, s.when.clock.at, Z.LocalDay(s.when.clock.zone, now));
            SlotToRun(s, now) < s.nextRun <==> today <= now && today < s.nextRun
  {
    var c := s.when.clock;
    hide Z.On, Z.LocalDay;
    var n :| Z.Slot(c, n) == s.nextRun;
    Z.FiredNotBeforeExact(c.at, c.zone, now, n);
  }

  /** Main result: where the slot two dates on is still to come, firing leaves every slot
      that was behind next_run_at at or before the one fired, and that behind the next. */
  lemma FiringKeepsBehind(s: Schedule, now: Time, slot: Time)
    requires Orderly(s.when) && DateNearlyKept(s.when, now) && s.nextRun <= now && IsSlot(s.when, s.nextRun)
    requires IsSlot(s.when, slot) && slot < s.nextRun
    ensures slot <= SlotToRun(s, now) < SlotAfter(s, SlotToRun(s, now))
  {
    match s.when
    case Interval(_) => IntervalSlot(s, now, 0);
    case OnClock(c) =>
      hide Z.DateNearlyKept, Z.Slot;
      var m :| Z.Slot(c, m) == slot;
      var n :| Z.Slot(c, n) == s.nextRun;
      Z.FiredNotBeforeEarlier(c, now, m, n);
      Z.FoundAreSlots(c, Z.AtOrBefore(c, now));
  }

  predicate Late(s: Schedule, slot: Time, now: Time) {
    s.maxLateness.Some? && now - slot > s.maxLateness.value
  }

  function ClockOf(w: When): Option<Z.Clock> {
    if w.OnClock? then Some(w.clock) else None
  }

  /** A row as register_schedule leaves it: a new name starts at `first`, a known one keeps
      its place unless it has moved to another clock time. */
  function Registered(known: Option<Schedule>, when: When, maxLateness: Option<int>, transactional: bool, first: Time): Schedule {
    Schedule(when,
             if known.Some? && ClockOf(known.value.when) == ClockOf(when) then known.value.nextRun else first,
             maxLateness, transactional)
  }

  // ---------- one pass ----------

  ghost predicate AllRegistrable(schedules: map<string, Schedule>) {
    forall name <- schedules :: Registrable(schedules[name].when)
  }

  function DueNames(schedules: map<string, Schedule>, now: Time, locked: set<string>): set<string> {
    set name | name in schedules && name !in locked && schedules[name].nextRun <= now
  }

  function FiredNames(schedules: map<string, Schedule>, now: Time, locked: set<string>): set<string>
  {
    set name | name in DueNames(schedules, now, locked) && WellFormed(schedules[name].when)
               && !Late(schedules[name], SlotToRun(schedules[name], now), now)
  }

  function Moved(s: Schedule, now: Time): Schedule
    requires WellFormed(s.when)
  {
    s.(nextRun := SlotAfter(s, SlotToRun(s, now)))
  }

  function KeyOf(name: string, s: Schedule, now: Time): Key
    requires WellFormed(s.when)
  {
    ScheduleKey(name, SlotToRun(s, now))
  }

  ghost predicate HasKey(rows: Rows, key: Key) {
    exists id <- rows :: rows[id].key == Some(key)
  }

  /** At most one row more, and a row with the key if there is one. */
  ghost predicate Grown(rows: Rows, rows': Rows, key: Option<Key>) {
    && (forall id <- rows :: id in rows' && rows'[id] == rows[id])
    && (forall id <- rows' | id !in rows :: key.Some? && rows'[id].key == key)
    && (key.Some? ==> HasKey(rows', key.value))
  }

  /** From `rows` to `rows'`: the slot of every schedule in `names` has its job, nothing
      that was there has changed, and every job made is for one of those slots. */
  ghost predicate JobsFor(schedules: map<string, Schedule>, now: Time, names: set<string>, rows: Rows, rows': Rows) {
    && (forall name <- names :: name in schedules && WellFormed(schedules[name].when)
                                && HasKey(rows', KeyOf(name, schedules[name], now)))
    && (forall id <- rows :: id in rows' && rows'[id] == rows[id])
    && (forall id <- rows' | id !in rows :: exists name <- names :: rows'[id].key == Some(KeyOf(name, schedules[name], now)))
  }

  lemma JobsForMore(schedules: map<string, Schedule>, now: Time, names: set<string>, rows: Rows, rows': Rows, rows'': Rows,
                    name: string)
    requires JobsFor(schedules, now, names, rows, rows')
    requires name in schedules && WellFormed(schedules[name].when)
    requires Grown(rows', rows'', Some(KeyOf(name, schedules[name], now)))
    ensures JobsFor(schedules, now, names + {name}, rows, rows'')
  {
    hide SlotToRun;
    forall n <- names + {name} ensures HasKey(rows'', KeyOf(n, schedules[n], now)) {
      if n in names {
        assert HasKey(rows', KeyOf(n, schedules[n], now));
        var i :| i in rows' && rows'[i].key == Some(KeyOf(n, schedules[n], now));
        assert i in rows'' && rows''[i] == rows'[i];
      }
    }
    forall i <- rows'' | i !in rows ensures exists n <- names + {name} :: rows''[i].key == Some(KeyOf(n, schedules[n], now)) {
      if i in rows' {
        var n :| n in names && rows'[i].key == Some(KeyOf(n, schedules[n], now));
        assert n in names + {name};
      } else {
        assert name in names + {name};
      }
    }
  }

  /** A pass part way: `done` has moved on, and `kept` of it was on time. */
  ghost predicate PassInv(before: map<string, Schedule>, now: Time, locked: set<string>, rows: Rows,
                          schedules: map<string, Schedule>, rows': Rows, done: set<string>, kept: set<string>)
  {
    && done <= DueNames(before, now, locked) && (forall name <- done :: WellFormed(before[name].when))
    && schedules == (map name | name in before :: if name in done then Moved(before[name], now) else before[name])
    && kept == FiredNames(before, now, locked) * done
    && JobsFor(before, now, kept, rows, rows')
  }

  lemma PassStarts(schedules: map<string, Schedule>, now: Time, locked: set<string>, rows: Rows)
    ensures PassInv(schedules, now, locked, rows, schedules, rows, {}, {})
  {}

  lemma PassKnows(before: map<string, Schedule>, now: Time, locked: set<string>, rows: Rows,
                  schedules: map<string, Schedule>, rows': Rows, done: set<string>, kept: set<string>, name: string)
    requires PassInv(before, now, locked, rows, schedules, rows', done, kept)
    requires name in DueNames(before, now, locked) - done
    ensures name in schedules && name in before && schedules[name] == before[name] && name !in kept
  {}

  lemma PassStep(before: map<string, Schedule>, now: Time, locked: set<string>, rows: Rows,
                 schedules: map<string, Schedule>, rows': Rows, done: set<string>, kept: set<string>,
                 name: string, rows'': Rows, onTime: bool)
    requires PassInv(before, now, locked, rows, schedules, rows', done, kept)
    requires name in DueNames(before, now, locked) - done && WellFormed(before[name].when)
    requires onTime <==> !Late(before[name], SlotToRun(before[name], now), now)
    requires Grown(rows', rows'', if onTime then Some(KeyOf(name, before[name], now)) else None)
    ensures PassInv(before, now, locked, rows, schedules[name := Moved(before[name], now)], rows'',
                    done + {name}, if onTime then kept + {name} else kept)
  {
    hide SlotToRun, SlotAfter, Late;
    if onTime {
      JobsForMore(before, now, kept, rows, rows', rows'', name);
    } else {
      assert rows'' == rows';
    }
    hide JobsFor, Grown;
    var kept' := if onTime then kept + {name} else kept;
    assert kept' == FiredNames(before, now, locked) * (done + {name});
  }

  lemma PassEnds(before: map<string, Schedule>, now: Time, locked: set<string>, rows: Rows,
                 schedules: map<string, Schedule>, rows': Rows, kept: set<string>)
    requires PassInv(before, now, locked, rows, schedules, rows', DueNames(before, now, locked), kept)
    ensures kept == FiredNames(before, now, locked) && JobsFor(before, now, kept, rows, rows')
    ensures forall name <- DueNames(before, now, locked) :: WellFormed(before[name].when)
    ensures schedules == map name | name in before ::
                           if name in DueNames(before, now, locked) then Moved(before[name], now) else before[name]
  {}

  /** A pass in the tables' columns: who moves on and where to, which jobs are made, and how many. */
  lemma PassInColumns(before: map<string, Schedule>, now: Time, locked: set<string>, rows: Rows,
                      schedules: map<string, Schedule>, rows': Rows)
    requires AllRegistrable(before)
    requires forall name <- DueNames(before, now, locked) :: WellFormed(before[name].when)
    requires schedules == map name | name in before ::
                            if name in DueNames(before, now, locked) then Moved(before[name], now) else before[name]
    requires JobsFor(before, now, FiredNames(before, now, locked), rows, rows')
    ensures forall name <- before | name !in locked && before[name].nextRun <= now :: WellFormed(before[name].when)
    ensures schedules.Keys == before.Keys
    ensures forall name <- before ::
              schedules[name] == if name !in locked && before[name].nextRun <= now
                                 then before[name].(nextRun := SlotAfter(before[name], SlotToRun(before[name], now)))
                                 else before[name]
    ensures forall name <- before |
              && name !in locked && before[name].nextRun <= now
              && (|| before[name].maxLateness.None?
                  || now - SlotToRun(before[name], now) <= before[name].maxLateness.value) ::
              exists id <- rows' :: rows'[id].key == Some(ScheduleKey(name, SlotToRun(before[name], now)))
    ensures forall id <- rows :: id in rows' && rows'[id] == rows[id]
    ensures forall id <- rows' | id !in rows ::
              exists name <- before ::
                && name !in locked && before[name].nextRun <= now
                && (|| before[name].maxLateness.None?
                    || now - SlotToRun(before[name], now) <= before[name].maxLateness.value)
                && rows'[id].key == Some(ScheduleKey(name, SlotToRun(before[name], now)))
    ensures FiredNames(before, now, locked)
            == set name | && name in before && name !in locked && before[name].nextRun <= now
                          && (|| before[name].maxLateness.None?
                              || now - SlotToRun(before[name], now) <= before[name].maxLateness.value)
  {
    hide SlotToRun, SlotAfter, WellFormed;
    forall name <- before | name !in locked && before[name].nextRun <= now
      ensures name in DueNames(before, now, locked)
    {
    }
    forall name <- before |
      && name !in locked && before[name].nextRun <= now
      && (|| before[name].maxLateness.None?
          || now - SlotToRun(before[name], now) <= before[name].maxLateness.value)
      ensures exists id <- rows' :: rows'[id].key == Some(ScheduleKey(name, SlotToRun(before[name], now)))
    {
      assert name in FiredNames(before, now, locked);
      assert HasKey(rows', KeyOf(name, before[name], now));
    }
    forall id <- rows' | id !in rows
      ensures exists name <- before ::
                && name !in locked && before[name].nextRun <= now
                && (|| before[name].maxLateness.None?
                    || now - SlotToRun(before[name], now) <= before[name].maxLateness.value)
                && rows'[id].key == Some(ScheduleKey(name, SlotToRun(before[name], now)))
    {
      var name :| name in FiredNames(before, now, locked) && rows'[id].key == Some(KeyOf(name, before[name], now));
      assert name in before;
    }
  }

  lemma ZeroIntervals(schedules: map<string, Schedule>, now: Time, locked: set<string>)
    requires AllRegistrable(schedules)
    ensures (forall name <- DueNames(schedules, now, locked) :: WellFormed(schedules[name].when))
            <==> !exists name <- schedules ::
                   name !in locked && schedules[name].nextRun <= now && schedules[name].when == Interval(0)
  {
    forall name <- schedules | name !in locked && schedules[name].nextRun <= now && schedules[name].when == Interval(0)
      ensures name in DueNames(schedules, now, locked) && !WellFormed(schedules[name].when)
    {
    }
  }

  // ---------- the tables in place ----------

  class ScheduleTable {
    var schedules: map<string, Schedule>
    const jobs: JobTable

    ghost predicate Valid()
      reads this, jobs
    {
      jobs.Valid() && AllRegistrable(schedules)
    }

    constructor (jobs: JobTable)
      requires jobs.Valid()
      ensures Valid() && schedules == map[] && this.jobs == jobs
    {
      this.schedules, this.jobs := map[], jobs;
    }

    /** Refuses a clock schedule with an anchor of its own. */
    method RegisterSchedule(name: string, when: When, transactional: bool, firstRunAt: Option<Time>,
                            maxLateness: Option<int>, now: Time)
      returns (accepted: bool)
      requires Valid() && Registrable(when)
      modifies this`schedules
      ensures Valid()
      ensures accepted <==> !(when.OnClock? && firstRunAt.Some?)
      ensures !accepted ==> schedules == old(schedules)
      ensures accepted ==>
                var first := if when.OnClock? then Z.After(when.clock, now)
                             else if firstRunAt.Some? then firstRunAt.value else now;
                var keeps := && name in old(schedules)
                             && (if when.OnClock? then old(schedules)[name].when == when
                                 else old(schedules)[name].when.Interval?);
                schedules == old(schedules)[name := Schedule(when, if keeps then old(schedules)[name].nextRun else first,
                                                             maxLateness, transactional)]
    {
      var first := firstRunAt;
      if when.OnClock? {
        if firstRunAt.Some? {
          return false;
        }
        var next := Z.ClockAfter(when.clock, now);
        first := Some(next);
      }
      var nextRun := first.GetOr(now);
      if name in schedules && ClockOf(schedules[name].when) == ClockOf(when) {
        nextRun := schedules[name].nextRun;
      }
      schedules := schedules[name := Schedule(when, nextRun, maxLateness, transactional)];
      accepted := true;
    }

    /** One schedule of a pass: its slot's job, unless that is too late, and its next slot. */
    method FireOne(name: string, now: Time) returns (onTime: bool)
      requires Valid() && name in schedules && WellFormed(schedules[name].when)
      modifies this`schedules, jobs
      ensures Valid()
      ensures schedules == old(schedules)[name := Moved(old(schedules)[name], now)]
      ensures onTime <==> !Late(old(schedules)[name], SlotToRun(old(schedules)[name], now), now)
      ensures Grown(old(jobs.rows), jobs.rows, if onTime then Some(KeyOf(name, old(schedules)[name], now)) else None)
      ensures var s, slot := old(schedules)[name], SlotToRun(old(schedules)[name], now);
              && schedules == old(schedules)[name := s.(nextRun := SlotAfter(s, slot))]
              && (onTime <==> s.maxLateness.None? || now - slot <= s.maxLateness.value)
              && (onTime ==> exists id <- jobs.rows :: jobs.rows[id].key == Some(ScheduleKey(name, slot)))
              && (forall id <- old(jobs.rows) :: id in jobs.rows && jobs.rows[id] == old(jobs.rows)[id])
              && (forall id <- jobs.rows | id !in old(jobs.rows) ::
                    onTime && jobs.rows[id] == Job(Some(ScheduleKey(name, slot)), s.transactional, Pending, now, 0, 5, 0, 10,
                                                   None, None, None))
    {
      var s := schedules[name];
      var slot := SlotToRun(s, now);
      var lateness := now - slot;
      onTime := s.maxLateness.None? || lateness <= s.maxLateness.value;
      if onTime {
        var _ := jobs.Enqueue(Some(ScheduleKey(name, slot)), s.transactional, now);
      }
      schedules := schedules[name := s.(nextRun := SlotAfter(s, slot))];
    }

    /** The pass over the due schedules, by the functions that specify it. */
    method FireDue(now: Time, locked: set<string>) returns (fired: Option<nat>)
      requires Valid()
      modifies this`schedules, jobs
      ensures Valid()
      ensures fired.Some? <==> forall name <- DueNames(old(schedules), now, locked) :: WellFormed(old(schedules)[name].when)
      ensures fired.None? ==> schedules == old(schedules) && jobs.rows == old(jobs.rows)
      ensures fired.Some? ==>
                schedules == map name | name in old(schedules) ::
                               if name in DueNames(old(schedules), now, locked)
                               then Moved(old(schedules)[name], now) else old(schedules)[name]
      ensures fired.Some? ==> fired.value == |FiredNames(old(schedules), now, locked)|
      ensures fired.Some? ==>
                JobsFor(old(schedules), now, FiredNames(old(schedules), now, locked), old(jobs.rows), jobs.rows)
    {
      hide PassInv, Grown, JobsFor, Moved, FiredNames, Late, SlotToRun, KeysUnique, AllRegistrable, WellFormed, DueNames;
      var before, rows, nextId := schedules, jobs.rows, jobs.nextId;
      var due := DueNames(schedules, now, locked);
      ghost var done: set<string>, kept: set<string> := {}, {};
      var count := 0;
      PassStarts(schedules, now, locked, jobs.rows);
      while due != {}
        invariant Valid() && due !! done && due + done == DueNames(before, now, locked) && count == |kept|
        invariant PassInv(before, now, locked, rows, schedules, jobs.rows, done, kept)
        decreases |due|
      {
        var name :| name in due;
        due := due - {name};
        PassKnows(before, now, locked, rows, schedules, jobs.rows, done, kept, name);
        if !WellFormed(schedules[name].when) {
          schedules, jobs.rows, jobs.nextId := before, rows, nextId;
          return None;
        }
        ghost var schedules', rows' := schedules, jobs.rows;
        var onTime := FireOne(name, now);
        PassStep(before, now, locked, rows, schedules', rows', done, kept, name, jobs.rows, onTime);
        done := done + {name};
        if onTime {
          kept := kept + {name};
          count := count + 1;
        }
      }
      PassEnds(before, now, locked, rows, schedules, jobs.rows, kept);
      fired := Some(count);
    }

    /** One pass: every due schedule no other scheduler has locked fires its latest slot,
        unless that is too late, and moves on to the slot after it. Each slot's job exists
        afterwards, and no job was made but for a slot fired. A due interval of zero
        raises, and the whole pass rolls back. */
    method RunDueSchedules(now: Time, locked: set<string>) returns (fired: Option<nat>)
      requires Valid()
      modifies this`schedules, jobs
      ensures Valid()
      ensures fired.None? <==> exists name <- old(schedules) ::
                && name !in locked && old(schedules)[name].nextRun <= now
                && old(schedules)[name].when == Interval(0)
      ensures fired.None? ==> schedules == old(schedules) && jobs.rows == old(jobs.rows)
      ensures fired.Some? ==> schedules.Keys == old(schedules).Keys
      ensures fired.Some? ==> forall name <- old(schedules) ::
                schedules[name] ==
                if name !in locked && old(schedules)[name].nextRun <= now
                then old(schedules)[name].(nextRun := SlotAfter(old(schedules)[name], SlotToRun(old(schedules)[name], now)))
                else old(schedules)[name]
      ensures fired.Some? ==> forall name <- old(schedules) |
                && name !in locked && old(schedules)[name].nextRun <= now
                && (|| old(schedules)[name].maxLateness.None?
                    || now - SlotToRun(old(schedules)[name], now) <= old(schedules)[name].maxLateness.value) ::
                exists id <- jobs.rows :: jobs.rows[id].key == Some(ScheduleKey(name, SlotToRun(old(schedules)[name], now)))
      ensures forall id <- old(jobs.rows) :: id in jobs.rows && jobs.rows[id] == old(jobs.rows)[id]
      ensures fired.Some? ==> forall id <- jobs.rows | id !in old(jobs.rows) ::
                exists name <- old(schedules) ::
                  && name !in locked && old(schedules)[name].nextRun <= now
                  && (|| old(schedules)[name].maxLateness.None?
                      || now - SlotToRun(old(schedules)[name], now) <= old(schedules)[name].maxLateness.value)
                  && jobs.rows[id].key == Some(ScheduleKey(name, SlotToRun(old(schedules)[name], now)))
      ensures fired.Some? ==>
                fired.value ==
                |set name | && name in old(schedules) && name !in locked && old(schedules)[name].nextRun <= now
                            && (|| old(schedules)[name].maxLateness.None?
                                || now - SlotToRun(old(schedules)[name], now) <= old(schedules)[name].maxLateness.value)|
    {
      hide JobsFor, FiredNames, Moved, Late, SlotToRun, SlotAfter, KeysUnique, DueNames, WellFormed;
      ZeroIntervals(schedules, now, locked);
      ghost var before, rows := schedules, jobs.rows;
      fired := FireDue(now, locked);
      if fired.Some? {
        PassInColumns(before, now, locked, rows, schedules, jobs.rows);
      }
    }
  }
}
