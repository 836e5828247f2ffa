/** Time zones and the slots of clock schedules. A zone is its list of UTC changes and the
    offset each brings; a local time is resolved as zoneinfo does with fold=0, which PEP 495
    describes under "In the DST Fold" and "In the DST Gap". */
module Zones {

  import J = Jobs

  /** Here a tick is a microsecond, the resolution of datetime. */
  type Time = J.Time
  const MINUTE := 60_000_000
  const HOUR := 3_600_000_000
  const DAY := 86_400_000_000

  datatype Change = Change(at: Time, offset: int)

  datatype Zone = Zone(first: int, changes: seq<Change>)

  /** The offset in force after i changes. */
  function Offset(z: Zone, i: nat): int
    requires i <= |z.changes|
  {
    if i == 0 then z.first else z.changes[i - 1].offset
  }

  function Jump(z: Zone, i: nat): int
    requires 1 <= i <= |z.changes|
  {
    Offset(z, i) - Offset(z, i - 1)
  }

  function Abs(x: int): nat {
    if x >= 0 then x else -x
  }

  function Max(x: int, y: int): int {
    if x >= y then x else y
  }

  function At(z: Zone, i: nat): Time
    requires 1 <= i <= |z.changes|
  {
    z.changes[i - 1].at
  }

  predicate FarApart(z: Zone, i: nat)
    requires 1 <= i < |z.changes|
  {
    At(z, i + 1) - At(z, i) > Abs(Jump(z, i)) + Abs(Jump(z, i + 1))
  }

  /** Changes come in order, further apart than the clock moves at the two of them. */
  ghost predicate Spaced(z: Zone) {
    forall i | 1 <= i < |z.changes| :: FarApart(z, i)
  }

  /** How many changes there have been by `t`, looking at the first n. */
  function EraWithin(z: Zone, t: Time, n: nat): (e: nat)
    requires n <= |z.changes|
    ensures e <= n && (e > 0 ==> At(z, e) <= t)
    ensures forall k | e < k <= n :: t < At(z, k)
  {
    if n == 0 || At(z, n) <= t then n else EraWithin(z, t, n - 1)
  }

  function Era(z: Zone, t: Time): (e: nat)
    ensures e <= |z.changes| && (e > 0 ==> At(z, e) <= t)
    ensures forall k | e < k <= |z.changes| :: t < At(z, k)
  {
    EraWithin(z, t, |z.changes|)
  }

  /** What the zone's clocks read at an instant. */
  function Local(z: Zone, t: Time): Time {
    t + Offset(z, Era(z, t))
  }

  /** When the clocks' reading says change i has happened, for fold=0: the later of the
      readings just before it and at it. */
  function Wall(z: Zone, i: nat): Time
    requires 1 <= i <= |z.changes|
  {
    At(z, i) + Max(Offset(z, i - 1), Offset(z, i))
  }

  function LocalEraWithin(z: Zone, w: Time, n: nat): (e: nat)
    requires n <= |z.changes|
    ensures e <= n && (e > 0 ==> Wall(z, e) <= w)
    ensures forall k | e < k <= n :: w < Wall(z, k)
  {
    if n == 0 || Wall(z, n) <= w then n else LocalEraWithin(z, w, n - 1)
  }

  function LocalEra(z: Zone, w: Time): (e: nat)
    ensures e <= |z.changes| && (e > 0 ==> Wall(z, e) <= w)
    ensures forall k | e < k <= |z.changes| :: w < Wall(z, k)
  {
    LocalEraWithin(z, w, |z.changes|)
  }

  /** The instant a local time names, with fold=0. */
  function FromLocal(z: Zone, w: Time): Time {
    w - Offset(z, LocalEra(z, w))
  }

  /** A reading the clocks skip at change i. */
  predicate InGap(z: Zone, w: Time, i: nat) {
    1 <= i <= |z.changes| && At(z, i) + Offset(z, i - 1) <= w < At(z, i) + Offset(z, i)
  }

  lemma {:induction false} InOrder(z: Zone, i: nat, j: nat)
    requires Spaced(z) && 1 <= i < j <= |z.changes|
    ensures At(z, i) < At(z, j)
    decreases j
  {
    assert FarApart(z, j - 1);
    if i < j - 1 {
      InOrder(z, i, j - 1);
    }
  }

  lemma {:induction false} WallsInOrder(z: Zone, i: nat, j: nat)
    requires Spaced(z) && 1 <= i < j <= |z.changes|
    ensures Wall(z, i) < At(z, j) + Offset(z, j - 1)
    ensures Wall(z, i) < At(z, j) + Offset(z, j)
    ensures Wall(z, i) < Wall(z, j)
    decreases j
  {
    assert FarApart(z, j - 1);
    if i < j - 1 {
      WallsInOrder(z, i, j - 1);
    }
  }

  lemma EraIs(z: Zone, t: Time, e: nat)
    requires Spaced(z) && e <= |z.changes|
    requires e > 0 ==> At(z, e) <= t
    requires e < |z.changes| ==> t < At(z, e + 1)
    ensures Era(z, t) == e
  {
    hide Era;
    var f := Era(z, t);
    if e + 1 < f {
      InOrder(z, e + 1, f);
    }
  }

  lemma GapResolves(z: Zone, w: Time, g: nat)
    requires Spaced(z) && InGap(z, w, g) && LocalEra(z, w) == g - 1
    ensures Local(z, FromLocal(z, w)) == w + Jump(z, g)
  {
    hide Era, LocalEra;
    if g < |z.changes| {
      assert FarApart(z, g);
    }
    EraIs(z, FromLocal(z, w), g);
  }

  lemma OneGap(z: Zone, w: Time, i: nat, j: nat)
    requires Spaced(z) && InGap(z, w, i) && InGap(z, w, j)
    ensures i == j
  {
    if i < j {
      WallsInOrder(z, i, j);
    } else if j < i {
      WallsInOrder(z, j, i);
    }
  }

  lemma SkippedReading(z: Zone, w: Time, t: Time, g: nat)
    requires Spaced(z) && InGap(z, w, g)
    ensures Local(z, t) != w
  {
    hide Era;
    var k := Era(z, t);
    if k < g - 1 {
      WallsInOrder(z, k + 1, g);
    } else if k > g {
      WallsInOrder(z, g, k);
    }
  }

  lemma NotSkipped(z: Zone, w: Time, i: nat)
    requires Spaced(z)
    requires var e := LocalEra(z, w); e < |z.changes| ==> w < At(z, e + 1) + Offset(z, e)
    ensures !InGap(z, w, i)
  {
    hide LocalEra;
    var e := LocalEra(z, w);
    if InGap(z, w, i) {
      if i < e {
        WallsInOrder(z, i, e);
      } else if i > e + 1 {
        WallsInOrder(z, e + 1, i);
      }
    }
  }

  lemma ReadLater(z: Zone, w: Time, t: Time)
    requires Spaced(z) && Local(z, t) == w
    requires var e := LocalEra(z, w); e < |z.changes| ==> w < At(z, e + 1) + Offset(z, e)
    ensures FromLocal(z, w) <= t
  {
    hide Era, LocalEra;
    var e, k := LocalEra(z, w), Era(z, t);
    if k + 1 < e {
      WallsInOrder(z, k + 1, e);
    } else if e + 1 < k {
      InOrder(z, e + 1, k);
    }
  }

  /** Main result, for any zone whose changes are spaced: a reading inside a gap is shown
      by no instant and resolves to one that reads later by exactly the gap; any other
      resolves to an instant that reads it, the first of the instants that do. */
  lemma Resolution(z: Zone, w: Time)
    requires Spaced(z)
    ensures var v := FromLocal(z, w);
            if exists i :: InGap(z, w, i)
            then (forall i | InGap(z, w, i) :: Local(z, v) == w + Jump(z, i)) && forall t :: Local(z, t) != w
            else Local(z, v) == w && forall t | Local(z, t) == w :: v <= t
  {
    hide Era, LocalEra;
    var e, v := LocalEra(z, w), FromLocal(z, w);
    if e < |z.changes| && At(z, e + 1) + Offset(z, e) <= w {
      assert w < Wall(z, e + 1);
      GapResolves(z, w, e + 1);
      forall i | InGap(z, w, i) ensures i == e + 1 {
        OneGap(z, w, i, e + 1);
      }
      forall t ensures Local(z, t) != w {
        SkippedReading(z, w, t, e + 1);
      }
    } else {
      EraIs(z, v, e);
      forall i ensures !InGap(z, w, i) {
        NotSkipped(z, w, i);
      }
      forall t | Local(z, t) == w ensures v <= t {
        ReadLater(z, w, t);
      }
    }
  }

  /** Sorted changes alone are not enough: a zone that goes two hours forward and an hour
      later back again shows, and resolves to itself, a reading the first change skipped. */
  lemma SortedIsNotEnough()
    ensures var z, w := Zone(0, [Change(0, 2 * HOUR), Change(HOUR, 0)]), 90 * MINUTE;
            && At(z, 1) < At(z, 2) && !Spaced(z)
            && InGap(z, w, 1) && Local(z, FromLocal(z, w)) == w != w + Jump(z, 1)
  {
    var z, w := Zone(0, [Change(0, 2 * HOUR), Change(HOUR, 0)]), 90 * MINUTE;
    assert Wall(z, 1) == 2 * HOUR && Wall(z, 2) == 3 * HOUR;
    assert LocalEra(z, w) == 0 && Era(z, w) == 2;
    assert !FarApart(z, 1);
  }

  // ---------- days ----------

  function Day(w: Time): int {
    w / DAY
  }

  function LocalDay(z: Zone, t: Time): int {
    Day(Local(z, t))
  }

  function Reading(at: int, day: int): Time {
    day * DAY + at
  }

  /** A daily clock's slot on a day. */
  function On(z: Zone, at: int, day: int): Time {
    FromLocal(z, Reading(at, day))
  }

  /** No change moves the local date backwards. */
  ghost predicate DateNeverGoesBack(z: Zone) {
    forall i | 1 <= i <= |z.changes| ::
      Day(At(z, i) - 1 + Offset(z, i - 1)) <= Day(At(z, i) + Offset(z, i))
  }

  /** No gap pushes this clock's slot past midnight. */
  ghost predicate GapsKeepDate(z: Zone, at: int) {
    forall i, day | InGap(z, Reading(at, day), i) :: at + Jump(z, i) < DAY
  }

  lemma DayInOrder(v: Time, w: Time)
    requires v <= w
    ensures Day(v) <= Day(w)
  {}

  lemma {:induction false} DateMovesForward(z: Zone, t: Time, u: Time)
    requires Spaced(z) && DateNeverGoesBack(z) && t <= u
    ensures LocalDay(z, t) <= LocalDay(z, u)
    decreases Era(z, u)
  {
    hide Era;
    var k := Era(z, u);
    if k > 0 && t < At(z, k) {
      var last := At(z, k) - 1;
      if k > 1 {
        InOrder(z, k - 1, k);
      }
      EraIs(z, last, k - 1);
      DateMovesForward(z, t, last);
      DayInOrder(At(z, k) + Offset(z, k), Local(z, u));
    } else {
      EraIs(z, t, k);
      DayInOrder(Local(z, t), Local(z, u));
    }
  }

  lemma DayOfReading(at: int, day: int)
    requires 0 <= at < DAY
    ensures Day(Reading(at, day)) == day
  {}

  lemma LocalDayIs(z: Zone, t: Time)
    ensures LocalDay(z, t) * 86_400_000_000 <= Local(z, t) < LocalDay(z, t) * 86_400_000_000 + 86_400_000_000
  {}

  /** Main result: on every day the clocks do not skip it, the slot is the first instant at
      which they read that day and the schedule's time of day; and if they do skip it, they
      read later than that by the gap. */
  lemma SlotReadsItsTime(z: Zone, at: int, day: int)
    requires Spaced(z)
    ensures var slot, w := On(z, at, day), day * 86_400_000_000 + at;
            if exists i :: InGap(z, w, i)
            then forall i | InGap(z, w, i) :: Local(z, slot) == w + Jump(z, i)
            else Local(z, slot) == w && forall t | Local(z, t) == w :: slot <= t
  {
    hide Local, FromLocal, InGap, Jump;
    Resolution(z, Reading(at, day));
  }

  lemma GapsAreForward(z: Zone, w: Time, i: nat)
    requires InGap(z, w, i)
    ensures 1 <= i <= |z.changes| && Jump(z, i) > 0
  {}

  lemma SlotFallsOnItsDay(z: Zone, at: int, day: int)
    requires Spaced(z) && GapsKeepDate(z, at) && 0 <= at < DAY
    ensures LocalDay(z, On(z, at, day)) == day
  {
    hide Local, FromLocal, InGap, Jump;
    var w := Reading(at, day);
    Resolution(z, w);
    if i :| InGap(z, w, i) {
      GapsAreForward(z, w, i);
      assert Local(z, On(z, at, day)) == w + Jump(z, i);
      DayOfReading(at + Jump(z, i), day);
    } else {
      DayOfReading(at, day);
    }
  }

  /** Slots come one a day, in order of their days. */
  ghost predicate Increasing(z: Zone, at: int) {
    forall a, b | a < b :: On(z, at, a) < On(z, at, b)
  }

  /** ... or two days may share one, as where the clocks skip a whole day. */
  ghost predicate NonDecreasing(z: Zone, at: int) {
    forall a, b | a <= b :: On(z, at, a) <= On(z, at, b)
  }

  /** How much the offset has grown when this clock's next day comes. */
  function Growth(z: Zone, at: int, day: int): int {
    Offset(z, LocalEra(z, Reading(at, day + 1))) - Offset(z, LocalEra(z, Reading(at, day)))
  }

  lemma {:induction false} SlotsApart(z: Zone, at: int, a: int, b: int, least: int)
    requires a < b && 0 <= least <= 1 && forall day :: Growth(z, at, day) + least <= DAY
    ensures On(z, at, a) + least <= On(z, at, b)
    decreases b - a
  {
    hide LocalEra;
    assert Growth(z, at, b - 1) + least <= DAY;
    if a < b - 1 {
      SlotsApart(z, at, a, b - 1, least);
    }
  }

  /** Exactly when the slots are in order: the offset must never grow by more than a day
      from one day's reading to the next day's, and by less if no two are to coincide. */
  lemma OrderExact(z: Zone, at: int)
    ensures NonDecreasing(z, at) <==> forall day :: Growth(z, at, day) <= DAY
    ensures Increasing(z, at) <==> forall day :: Growth(z, at, day) < DAY
  {
    hide LocalEra;
    forall day ensures On(z, at, day + 1) == On(z, at, day) + DAY - Growth(z, at, day) {
    }
    forall day ensures NonDecreasing(z, at) ==> Growth(z, at, day) <= DAY
               ensures Increasing(z, at) ==> Growth(z, at, day) < DAY
    {
      assert NonDecreasing(z, at) ==> On(z, at, day) <= On(z, at, day + 1);
      assert Increasing(z, at) ==> On(z, at, day) < On(z, at, day + 1);
    }
    if forall day :: Growth(z, at, day) <= DAY {
      forall a, b | a <= b ensures On(z, at, a) <= On(z, at, b) {
        if a < b {
          SlotsApart(z, at, a, b, 0);
        }
      }
    }
    if forall day :: Growth(z, at, day) < DAY {
      forall a, b | a < b ensures On(z, at, a) < On(z, at, b) {
        SlotsApart(z, at, a, b, 1);
      }
    }
  }

  /** No change moves the clocks forward by more than a day. */
  ghost predicate JumpsWithin(z: Zone, most: int) {
    forall i | 1 <= i <= |z.changes| :: Jump(z, i) <= most
  }

  lemma NextDaysSlot(z: Zone, at: int, day: int, most: int)
    requires Spaced(z) && JumpsWithin(z, most) && DAY - 1 <= most <= DAY
    ensures Growth(z, at, day) <= most
  {
    hide LocalEra;
    var w := Reading(at, day);
    var e, f := LocalEra(z, w), LocalEra(z, w + DAY);
    assert Reading(at, day + 1) == w + DAY;
    if f == e + 1 {
      assert Jump(z, f) <= most;
    } else if f > e + 1 {
      assert FarApart(z, e + 1);
      if f > e + 2 {
        InOrder(z, e + 2, f);
      }
      assert w < Wall(z, e + 1) && Wall(z, f) <= w + DAY;
      assert FromLocal(z, w) < At(z, e + 2) <= At(z, f) <= FromLocal(z, w + DAY);
    }
  }

  lemma LocalEraIs(z: Zone, w: Time, e: nat)
    requires Spaced(z) && e <= |z.changes|
    requires e > 0 ==> Wall(z, e) <= w
    requires e < |z.changes| ==> w < Wall(z, e + 1)
    ensures LocalEra(z, w) == e
  {
    hide LocalEra;
    var f := LocalEra(z, w);
    if e + 1 < f {
      WallsInOrder(z, e + 1, f);
    }
  }

  /** The days on either side of a jump: the offset has grown by all of it. */
  lemma JumpGrows(z: Zone, i: nat)
    requires Spaced(z) && 1 <= i <= |z.changes| && Jump(z, i) >= DAY
    ensures var w := Wall(z, i) - DAY; Growth(z, w % DAY, Day(w)) == Jump(z, i)
  {
    hide LocalEra;
    var w := Wall(z, i) - DAY;
    assert Reading(w % DAY, Day(w)) == w && Reading(w % DAY, Day(w) + 1) == Wall(z, i);
    LocalEraIs(z, Wall(z, i), i) by {
      if i < |z.changes| {
        WallsInOrder(z, i, i + 1);
      }
    }
    LocalEraIs(z, w, i - 1) by {
      if i > 1 {
        assert FarApart(z, i - 1);
      }
    }
  }

  /** Main result, for any zone whose changes are spaced: every daily clock has its slots
      in order exactly when no change is of more than a day forward, and no two of them
      coincide exactly when none is of a day. */
  lemma JumpsExact(z: Zone)
    requires Spaced(z)
    ensures (forall at | 0 <= at < DAY :: NonDecreasing(z, at)) <==> JumpsWithin(z, DAY)
    ensures (forall at | 0 <= at < DAY :: Increasing(z, at)) <==> JumpsWithin(z, DAY - 1)
  {
    hide Increasing, NonDecreasing, Spaced, Growth, Jump, Wall;
    forall at ensures JumpsWithin(z, DAY) ==> NonDecreasing(z, at) {
      OrderExact(z, at);
      if JumpsWithin(z, DAY) {
        forall day ensures Growth(z, at, day) <= DAY {
          NextDaysSlot(z, at, day, DAY);
        }
      }
    }
    forall at ensures JumpsWithin(z, DAY - 1) ==> Increasing(z, at) {
      OrderExact(z, at);
      if JumpsWithin(z, DAY - 1) {
        forall day ensures Growth(z, at, day) < DAY {
          NextDaysSlot(z, at, day, DAY - 1);
        }
      }
    }
    forall i | 1 <= i <= |z.changes| && Jump(z, i) >= DAY
      ensures exists at | 0 <= at < DAY :: !Increasing(z, at) && (Jump(z, i) > DAY ==> !NonDecreasing(z, at))
    {
      JumpGrows(z, i);
      OrderExact(z, (Wall(z, i) - DAY) % DAY);
      assert 0 <= (Wall(z, i) - DAY) % DAY < DAY;
    }
  }

  /** A slot is never later than the date after its day's. */
  lemma SlotDateIsNear(z: Zone, at: int, day: int)
    requires Spaced(z) && JumpsWithin(z, DAY) && 0 <= at < DAY
    ensures LocalDay(z, On(z, at, day)) <= day + 1
  {
    hide Local, FromLocal, InGap, Jump;
    var w := Reading(at, day);
    Resolution(z, w);
    if i :| InGap(z, w, i) {
      GapsAreForward(z, w, i);
      assert Local(z, On(z, at, day)) == w + Jump(z, i) && Jump(z, i) <= DAY;
    } else {
      DayOfReading(at, day);
    }
  }

  /** Main result: where no change moves the date back and no gap pushes the slot past
      midnight, slots increase with their days, and an instant lies between the slots of
      the days around its own. */
  lemma SlotsSurround(z: Zone, at: int, t: Time)
    requires Spaced(z) && DateNeverGoesBack(z) && GapsKeepDate(z, at) && 0 <= at < DAY
    ensures Increasing(z, at)
    ensures On(z, at, LocalDay(z, t) - 1) <= t < On(z, at, LocalDay(z, t) + 1)
  {
    hide On, LocalDay, Spaced, DateNeverGoesBack, GapsKeepDate;
    forall a, b | a < b ensures On(z, at, a) < On(z, at, b) {
      SlotFallsOnItsDay(z, at, a);
      SlotFallsOnItsDay(z, at, b);
      if On(z, at, b) <= On(z, at, a) {
        DateMovesForward(z, On(z, at, b), On(z, at, a));
      }
    }
    var d := LocalDay(z, t);
    SlotFallsOnItsDay(z, at, d - 1);
    SlotFallsOnItsDay(z, at, d + 1);
    if t < On(z, at, d - 1) {
      DateMovesForward(z, t, On(z, at, d - 1));
    }
    if On(z, at, d + 1) <= t {
      DateMovesForward(z, On(z, at, d + 1), t);
    }
  }

  // ---------- the day loops ----------

  function Lowest(z: Zone, n: nat): (o: int)
    requires n <= |z.changes|
    ensures forall i | 0 <= i <= n :: o <= Offset(z, i)
  {
    if n == 0 then z.first else var o := Lowest(z, n - 1); if o <= Offset(z, n) then o else Offset(z, n)
  }

  function Highest(z: Zone, n: nat): (o: int)
    requires n <= |z.changes|
    ensures forall i | 0 <= i <= n :: Offset(z, i) <= o
  {
    if n == 0 then z.first else Max(Highest(z, n - 1), Offset(z, n))
  }

  /** How far a day's slot can be from its wall reading, which is what ends the loops. */
  lemma SlotNearItsDay(z: Zone, at: int, day: int)
    ensures day * DAY + at - Highest(z, |z.changes|) <= On(z, at, day) <= day * DAY + at - Lowest(z, |z.changes|)
  {
    hide Highest, Lowest, LocalEra;
  }

  /** The last day from `day` down whose slot is not after `t`. */
  function DayDown(z: Zone, at: int, t: Time, day: int): (d: int)
    ensures d <= day && On(z, at, d) <= t && forall k | d < k <= day :: On(z, at, k) > t
    decreases day * DAY + at - Lowest(z, |z.changes|) - t
  {
    SlotNearItsDay(z, at, day);
    if On(z, at, day) > t then DayDown(z, at, t, day - 1) else day
  }

  /** The first day from `day` up whose slot is after `t`. */
  function DayUp(z: Zone, at: int, t: Time, day: int): (d: int)
    ensures d >= day && On(z, at, d) > t && forall k | day <= k < d :: On(z, at, k) <= t
    decreases t - (day * DAY + at - Highest(z, |z.changes|))
  {
    SlotNearItsDay(z, at, day);
    if On(z, at, day) <= t then DayUp(z, at, t, day + 1) else day
  }

  datatype Clock = Daily(at: int, zone: Zone) | Hourly(minute: int)

  predicate WellFormed(c: Clock) {
    match c
    case Daily(at, _) => 0 <= at < DAY
    case Hourly(minute) => 0 <= minute < 60
  }

  /** Slot n of a clock: a day's, or an hour's. */
  function Slot(c: Clock, n: int): Time {
    match c
    case Daily(at, zone) => On(zone, at, n)
    case Hourly(minute) => n * HOUR + minute * MINUTE
  }

  function AtOrBefore(c: Clock, t: Time): Time {
    match c
    case Daily(at, zone) => On(zone, at, DayDown(zone, at, t, LocalDay(zone, t)))
    case Hourly(minute) => ((t - minute * MINUTE) / HOUR) * HOUR + minute * MINUTE
  }

  function After(c: Clock, t: Time): Time {
    match c
    case Daily(at, zone) => On(zone, at, DayUp(zone, at, t, LocalDay(zone, t)))
    case Hourly(minute) => ((t - minute * MINUTE) / HOUR + 1) * HOUR + minute * MINUTE
  }

  method ClockAtOrBefore(c: Clock, t: Time) returns (slot: Time)
    requires WellFormed(c)
    ensures slot == AtOrBefore(c, t) && slot <= t
    ensures c.Hourly? ==> t < slot + 3_600_000_000 && (slot - c.minute * 60_000_000) % 3_600_000_000 == 0
  {
    match c {
      case Hourly(minute) =>
        slot := (t / HOUR) * HOUR + minute * MINUTE;
        if slot > t {
          slot := slot - HOUR;
        }
      case Daily(at, zone) =>
        var day := LocalDay(zone, t);
        while On(zone, at, day) > t
          invariant DayDown(zone, at, t, day) == DayDown(zone, at, t, LocalDay(zone, t))
          decreases day * DAY + at - Lowest(zone, |zone.changes|) - t
        {
          SlotNearItsDay(zone, at, day);
          day := day - 1;
        }
        slot := On(zone, at, day);
    }
  }

  method ClockAfter(c: Clock, t: Time) returns (slot: Time)
    requires WellFormed(c)
    ensures slot == After(c, t) && slot > t
    ensures c.Hourly? ==> slot <= t + 3_600_000_000 && (slot - c.minute * 60_000_000) % 3_600_000_000 == 0
  {
    match c {
      case Hourly(_) =>
        slot := ClockAtOrBefore(c, t);
        slot := slot + HOUR;
      case Daily(at, zone) =>
        var day := LocalDay(zone, t);
        while On(zone, at, day) <= t
          invariant DayUp(zone, at, t, day) == DayUp(zone, at, t, LocalDay(zone, t))
          decreases t - (day * DAY + at - Highest(zone, |zone.changes|))
        {
          SlotNearItsDay(zone, at, day);
          day := day + 1;
        }
        slot := On(zone, at, day);
    }
  }

  ghost predicate IsSlot(c: Clock, s: Time) {
    exists n :: Slot(c, n) == s
  }

  /** The greatest slot at or before an instant. */
  ghost predicate IsLastSlot(c: Clock, s: Time, t: Time) {
    IsSlot(c, s) && s <= t && forall n :: Slot(c, n) <= t ==> Slot(c, n) <= s
  }

  /** The least slot after an instant. */
  ghost predicate IsNextSlot(c: Clock, s: Time, t: Time) {
    IsSlot(c, s) && s > t && forall n :: Slot(c, n) > t ==> Slot(c, n) >= s
  }

  ghost predicate SlotsInOrder(c: Clock) {
    WellFormed(c) && (c.Daily? ==> NonDecreasing(c.zone, c.at))
  }

  /** No slot of a later date than the instant's has come already, other than its own
      date's slot under another name. */
  predicate NoneMissed(c: Clock, t: Time) {
    match c
    case Hourly(_) => true
    case Daily(at, z) =>
      var d := LocalDay(z, t);
      var up := DayUp(z, at, t, d);
      up == d || On(z, at, up - 1) == On(z, at, d)
  }

  /** No slot of an earlier date than the instant's is still to come, with the same exception. */
  predicate NoneSkipped(c: Clock, t: Time) {
    match c
    case Hourly(_) => true
    case Daily(at, z) =>
      var d := LocalDay(z, t);
      var down := DayDown(z, at, t, d);
      down == d || On(z, at, down + 1) == On(z, at, d)
  }

  lemma FoundAreSlots(c: Clock, t: Time)
    requires WellFormed(c)
    ensures IsSlot(c, AtOrBefore(c, t)) && AtOrBefore(c, t) <= t
    ensures IsSlot(c, After(c, t)) && After(c, t) > t
  {
    match c
    case Daily(at, z) =>
      hide On, LocalDay;
      var d := LocalDay(z, t);
      assert Slot(c, DayDown(z, at, t, d)) == AtOrBefore(c, t) && Slot(c, DayUp(z, at, t, d)) == After(c, t);
    case Hourly(minute) =>
      var n := (t - minute * MINUTE) / HOUR;
      assert Slot(c, n) == AtOrBefore(c, t) && Slot(c, n + 1) == After(c, t);
  }

  lemma HourlyExact(minute: int, t: Time)
    requires WellFormed(Hourly(minute))
    ensures IsLastSlot(Hourly(minute), AtOrBefore(Hourly(minute), t), t) && NoneMissed(Hourly(minute), t)
    ensures IsNextSlot(Hourly(minute), After(Hourly(minute), t), t) && NoneSkipped(Hourly(minute), t)
    ensures var slot := AtOrBefore(Hourly(minute), t);
            && slot <= t < slot + 3_600_000_000 == After(Hourly(minute), t)
            && (slot - minute * 60_000_000) % 3_600_000_000 == 0
  {
    assert (t - minute * MINUTE) / HOUR * HOUR % HOUR == 0;
    FoundAreSlots(Hourly(minute), t);
  }

  lemma LastExact(at: int, z: Zone, t: Time)
    requires SlotsInOrder(Daily(at, z))
    ensures (forall n | On(z, at, n) <= t :: On(z, at, n) <= AtOrBefore(Daily(at, z), t)) <==> NoneMissed(Daily(at, z), t)
  {
    hide On, LocalDay;
    var d := LocalDay(z, t);
    var up, down := DayUp(z, at, t, d), DayDown(z, at, t, d);
    if NoneMissed(Daily(at, z), t) {
      forall n | On(z, at, n) <= t ensures On(z, at, n) <= On(z, at, down) {
        assert up <= n ==> On(z, at, up) <= On(z, at, n);
        if up != d && d < n {
          assert On(z, at, n) <= On(z, at, up - 1);
        }
      }
    } else {
      assert On(z, at, d) <= On(z, at, up - 1) <= t;
    }
  }

  lemma NextExact(at: int, z: Zone, t: Time)
    requires SlotsInOrder(Daily(at, z))
    ensures (forall n | On(z, at, n) > t :: On(z, at, n) >= After(Daily(at, z), t)) <==> NoneSkipped(Daily(at, z), t)
  {
    hide On, LocalDay;
    var d := LocalDay(z, t);
    var up, down := DayUp(z, at, t, d), DayDown(z, at, t, d);
    if NoneSkipped(Daily(at, z), t) {
      forall n | On(z, at, n) > t ensures On(z, at, n) >= On(z, at, up) {
        assert n <= down ==> On(z, at, n) <= On(z, at, down);
        if down != d && n < d {
          assert On(z, at, down + 1) <= On(z, at, n);
        }
      }
    } else {
      assert t < On(z, at, down + 1) <= On(z, at, d);
    }
  }

  /** Main result: with slots in order, the loop down finds the last slot at or before an
      instant, and the loop up the next one after it, exactly when none was missed, and
      none skipped, by starting from the instant's own date. */
  lemma LoopsExact(c: Clock, t: Time)
    requires SlotsInOrder(c)
    ensures IsLastSlot(c, AtOrBefore(c, t), t) <==> NoneMissed(c, t)
    ensures IsNextSlot(c, After(c, t), t) <==> NoneSkipped(c, t)
  {
    hide On, NoneMissed, NoneSkipped, NonDecreasing;
    FoundAreSlots(c, t);
    match c
    case Hourly(minute) => HourlyExact(minute, t);
    case Daily(at, z) =>
      LastExact(at, z, t);
      NextExact(at, z, t);
      assert forall n :: Slot(c, n) == On(z, at, n);
  }

  /** Each half by the slot of one neighbouring day, and exactly so where no two coincide. */
  lemma Neighbours(at: int, z: Zone, t: Time)
    requires SlotsInOrder(Daily(at, z))
    ensures t < On(z, at, LocalDay(z, t) + 1) ==> NoneMissed(Daily(at, z), t)
    ensures On(z, at, LocalDay(z, t) - 1) <= t ==> NoneSkipped(Daily(at, z), t)
    ensures Increasing(z, at) && NoneMissed(Daily(at, z), t) ==> t < On(z, at, LocalDay(z, t) + 1)
    ensures Increasing(z, at) && NoneSkipped(Daily(at, z), t) ==> On(z, at, LocalDay(z, t) - 1) <= t
  {
    hide On, LocalDay;
    var d := LocalDay(z, t);
    var up, down := DayUp(z, at, t, d), DayDown(z, at, t, d);
    if up > d {
      assert up > d + 1 ==> On(z, at, d + 1) <= t;
      assert Increasing(z, at) && d < up - 1 ==> On(z, at, d) < On(z, at, up - 1);
    } else {
      assert On(z, at, d) <= On(z, at, d + 1);
    }
    if down < d {
      assert down < d - 1 ==> On(z, at, d - 1) > t;
      assert Increasing(z, at) && down + 1 < d ==> On(z, at, down + 1) < On(z, at, d);
    } else {
      assert On(z, at, d - 1) <= On(z, at, d);
    }
  }

  /** An instant whose offset is near enough that of the slots a day off: elsewhere the
      zone may do as it likes. */
  lemma QuietAround(at: int, z: Zone, t: Time)
    requires SlotsInOrder(Daily(at, z))
    ensures var c, d := Daily(at, z), LocalDay(z, t);
            && (Offset(z, LocalEra(z, Reading(at, d + 1))) - Offset(z, Era(z, t)) <= at ==> NoneMissed(c, t))
            && (Offset(z, Era(z, t)) - Offset(z, LocalEra(z, Reading(at, d - 1))) <= DAY - at ==> NoneSkipped(c, t))
  {
    hide Era, LocalEra, NoneMissed, NoneSkipped, NonDecreasing;
    Neighbours(at, z, t);
  }

  /** A zone whose changes leave its dates alone never misses or skips. */
  lemma KeepsDates(at: int, z: Zone, t: Time)
    requires Spaced(z) && DateNeverGoesBack(z) && GapsKeepDate(z, at) && 0 <= at < DAY
    ensures SlotsInOrder(Daily(at, z)) && NoneMissed(Daily(at, z), t) && NoneSkipped(Daily(at, z), t)
  {
    hide On, NoneMissed, NoneSkipped;
    SlotsSurround(z, at, t);
    forall a, b | a <= b ensures On(z, at, a) <= On(z, at, b) {
      assert a < b ==> On(z, at, a) < On(z, at, b);
    }
    Neighbours(at, z, t);
  }

  /** Main result: the slot fired and the one after it bracket now, with no slot between
      them, where the one is found and nothing is skipped for the other. */
  lemma NextIsLater(c: Clock, now: Time)
    requires SlotsInOrder(c) && NoneMissed(c, now) && NoneSkipped(c, AtOrBefore(c, now))
    ensures AtOrBefore(c, now) <= now < After(c, AtOrBefore(c, now))
    ensures forall n :: Slot(c, n) <= AtOrBefore(c, now) || After(c, AtOrBefore(c, now)) <= Slot(c, n)
  {
    hide On, NoneMissed, NoneSkipped;
    LoopsExact(c, now);
    LoopsExact(c, AtOrBefore(c, now));
    var next := After(c, AtOrBefore(c, now));
    var n :| Slot(c, n) == next;
  }

  /** Main result: of a slot that has come, the one fired is not an earlier one exactly
      when the slot of now's own date is still to come, or is no earlier. */
  lemma FiredNotBeforeExact(at: int, z: Zone, now: Time, n: int)
    requires SlotsInOrder(Daily(at, z)) && On(z, at, n) <= now
    ensures var d := LocalDay(z, now);
            On(z, at, n) <= AtOrBefore(Daily(at, z), now) <==> now < On(z, at, d) || On(z, at, n) <= On(z, at, d)
  {
    hide On, LocalDay;
    var d := LocalDay(z, now);
    var down := DayDown(z, at, now, d);
    if now < On(z, at, d) {
      assert n <= down || d <= n;
      assert d <= n ==> On(z, at, d) <= On(z, at, n);
    }
  }

  /** The slot two dates on is still to come. */
  predicate DateNearlyKept(c: Clock, t: Time) {
    match c
    case Hourly(_) => true
    case Daily(at, z) => t < On(z, at, LocalDay(z, t) + 2)
  }

  /** Then every slot before one that has come is at most the one fired. */
  lemma FiredNotBeforeEarlier(c: Clock, now: Time, m: int, n: int)
    requires SlotsInOrder(c) && DateNearlyKept(c, now) && Slot(c, m) < Slot(c, n) <= now
    ensures Slot(c, m) <= AtOrBefore(c, now)
  {
    match c
    case Hourly(_) =>
      LoopsExact(c, now);
    case Daily(at, z) =>
      hide On, LocalDay, DayDown;
      FiredNotBeforeExact(at, z, now, m);
      var d := LocalDay(z, now);
      assert n <= m ==> On(z, at, n) <= On(z, at, m);
      assert d + 2 <= n ==> On(z, at, d + 2) <= On(z, at, n);
      assert m <= d ==> On(z, at, m) <= On(z, at, d);
  }

  /** No change takes the clocks back by more than a day. */
  ghost predicate DropsWithinADay(z: Zone) {
    forall i | 1 <= i <= |z.changes| :: Jump(z, i) >= -DAY
  }

  lemma LocalDropsWithinADay(z: Zone, t: Time, u: Time)
    requires Spaced(z) && DropsWithinADay(z) && t <= u
    ensures Local(z, t) - DAY <= Local(z, u)
  {
    hide Era;
    var e, f := Era(z, t), Era(z, u);
    if e + 1 < f {
      WallsInOrder(z, e + 1, f);
    } else if f == e + 1 {
      assert Jump(z, f) >= -DAY;
    }
  }

  lemma DropsNearlyKeep(at: int, z: Zone, t: Time)
    requires Spaced(z) && DropsWithinADay(z) && 0 <= at < DAY
    ensures DateNearlyKept(Daily(at, z), t)
  {
    hide Local, FromLocal, InGap, Jump, Spaced, DropsWithinADay;
    var w := Reading(at, LocalDay(z, t) + 2);
    var slot := On(z, at, LocalDay(z, t) + 2);
    Resolution(z, w);
    if i :| InGap(z, w, i) {
      GapsAreForward(z, w, i);
      assert Local(z, slot) == w + Jump(z, i);
    }
    assert Local(z, t) < (LocalDay(z, t) + 1) * DAY;
    if slot <= t {
      LocalDropsWithinADay(z, slot, t);
    }
  }

  /** Main result: a fired schedule is not due again exactly when its slot was the last
      one, or the loop up from that slot starts past every slot that was missed. */
  lemma DueAgainExact(at: int, z: Zone, now: Time)
    requires SlotsInOrder(Daily(at, z))
    ensures var c, d := Daily(at, z), LocalDay(z, now);
            now < After(c, AtOrBefore(c, now))
            <==> NoneMissed(c, now) || DayUp(z, at, now, d) <= LocalDay(z, On(z, at, d))
  {
    hide On, LocalDay;
    var c, d := Daily(at, z), LocalDay(z, now);
    var up, down := DayUp(z, at, now, d), DayDown(z, at, now, d);
    var slot := On(z, at, down);
    var next := DayUp(z, at, slot, LocalDay(z, slot));
    assert down < next by {
      assert next <= down ==> On(z, at, next) <= slot;
    }
    assert up <= next ==> On(z, at, up) <= On(z, at, next);
    if up == d {
      assert d <= next || On(z, at, next) > now;
    } else {
      assert down == d && slot <= On(z, at, up - 1) <= now;
      if next < up {
        assert On(z, at, next) <= On(z, at, up - 1);
      }
    }
  }

  /** So where no two slots coincide and no change is of more than a day, a fired schedule
      is still due exactly when the slot of the date after now's has come. */
  lemma DueAgainByTomorrow(at: int, z: Zone, now: Time)
    requires 0 <= at < DAY && Increasing(z, at) && LocalDay(z, On(z, at, LocalDay(z, now))) <= LocalDay(z, now) + 1
    ensures var c := Daily(at, z); now < After(c, AtOrBefore(c, now)) <==> now < On(z, at, LocalDay(z, now) + 1)
  {
    hide On, LocalDay;
    var d := LocalDay(z, now);
    forall a, b | a <= b ensures On(z, at, a) <= On(z, at, b) {
      assert a < b ==> On(z, at, a) < On(z, at, b);
    }
    DueAgainExact(at, z, now);
    Neighbours(at, z, now);
  }

  /** Where the clocks go back over midnight it fails: at 00:30 back to 23:30, a 00:15
      schedule's slot has passed while the local date is the day before's again, and the
      slot found is that day's, with a next slot that is not later than now. */
  lemma BackOverMidnightFails()
    ensures var z := Zone(0, [Change(10 * DAY + 30 * MINUTE, -HOUR)]);
            var c, now := Daily(15 * MINUTE, z), 10 * DAY + 40 * MINUTE;
            && Spaced(z) && !DateNeverGoesBack(z)
            && AtOrBefore(c, now) == 9 * DAY + 15 * MINUTE < Slot(c, 10)
            && After(c, AtOrBefore(c, now)) == Slot(c, 10) == 10 * DAY + 15 * MINUTE <= now
  {
    var z := Zone(0, [Change(10 * DAY + 30 * MINUTE, -HOUR)]);
    var c, now := Daily(15 * MINUTE, z), 10 * DAY + 40 * MINUTE;
    EraIs(z, now, 1);
    EraIs(z, 9 * DAY + 15 * MINUTE, 0);
    assert LocalDay(z, now) == 9;
    assert LocalEra(z, 9 * DAY + 15 * MINUTE) == 0 && LocalEra(z, 10 * DAY + 15 * MINUTE) == 0;
    assert On(z, 15 * MINUTE, 9) == 9 * DAY + 15 * MINUTE;
    assert DayDown(z, 15 * MINUTE, now, 9) == 9;
    assert On(z, 15 * MINUTE, 10) == 10 * DAY + 15 * MINUTE;
    assert LocalDay(z, 9 * DAY + 15 * MINUTE) == 9;
    assert DayUp(z, 15 * MINUTE, 9 * DAY + 15 * MINUTE, 10) == 10;
    assert !DateNeverGoesBack(z) by {
      assert Day(z.changes[0].at - 1 + Offset(z, 0)) == 10;
      assert Day(z.changes[0].at + Offset(z, 1)) == 9;
    }
  }
}
