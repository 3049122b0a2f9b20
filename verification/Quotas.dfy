/** What the two quota checks really bound, over whole runs. Each check looks at one moment and one
    day; the bounds that hold for every instant and every day are not the ones in the settings. */
module Quotas {
  import opened Clock
  import opened Domain
  import opened Tally
  import opened Booking
  import opened Machine
  import opened BookingRuns
  import Terms

  /** No user has more than the limit of active reservations over any one instant, past or future. */
  ghost predicate CoverBounded(cfg: Settings, rs: seq<Reservation>) {
    forall user, t :: Total(rs, Covering(user, t)) <= cfg.maxConcurrent
  }

  /** Per user, offset and local day, the minutes counted to that day stay within the daily limit. */
  ghost predicate OwnBounded(cfg: Settings, rs: seq<Reservation>) {
    forall user, offset, day :: Total(rs, Own(user, offset, day)) <= cfg.maxHoursPerDay * 60
  }

  /** Whoever covers an instant of the new row was still open when it was admitted. */
  lemma CoveringWasOpen(cfg: Settings, s: State, r: Reservation, t: int)
    requires WholeSeconds(s.reservations) && Checked(cfg, s, r) && Covers(r, t)
    ensures Total(s.reservations, Covering(r.user, t)) <= Total(s.reservations, Open(r.user, s.now))
  {
    forall r' | r' in s.reservations
      ensures Covering(r.user, t)(r') <= Open(r.user, s.now)(r')
    {
      if s.now > r.start {
        WholeSecondPast(r'.end, r.start, s.now);
      }
    }
    TotalMono(s.reservations, Covering(r.user, t), Open(r.user, s.now));
  }

  lemma CoverKept(cfg: Settings, s: State, s': State)
    requires WholeSeconds(s.reservations) && TableStep(cfg, s, s') && CoverBounded(cfg, s.reservations)
    ensures CoverBounded(cfg, s'.reservations)
  {
    forall user, t
      ensures Total(s'.reservations, Covering(user, t)) <= cfg.maxConcurrent
    {
      assert Total(s.reservations, Covering(user, t)) <= cfg.maxConcurrent;
      if Inserted(cfg, s, s') {
        var r := s'.reservations[|s.reservations|];
        TotalAppend(s.reservations, r, Covering(user, t));
        if r.user == user && Covers(r, t) {
          CoveringWasOpen(cfg, s, r, t);
        }
      } else if CanceledOne(s, s') {
        var i :| 0 <= i < |s.reservations| &&
          s'.reservations == s.reservations[i := CanceledAt(s.reservations[i], s.now)];
        TotalUpdate(s.reservations, i, s'.reservations[i], Covering(user, t));
      }
    }
  }

  lemma OwnWithinHeld(rs: seq<Reservation>, user: int, offset: int, day: int)
    ensures Total(rs, Own(user, offset, day)) <= Total(rs, Held(user, day))
  {
    forall r | r in rs
      ensures Own(user, offset, day)(r) <= Held(user, day)(r)
    {
    }
    TotalMono(rs, Own(user, offset, day), Held(user, day));
  }

  lemma OwnKept(cfg: Settings, s: State, s': State)
    requires TableStep(cfg, s, s') && OwnBounded(cfg, s.reservations)
    ensures OwnBounded(cfg, s'.reservations)
  {
    forall user, offset, day
      ensures Total(s'.reservations, Own(user, offset, day)) <= cfg.maxHoursPerDay * 60
    {
      assert Total(s.reservations, Own(user, offset, day)) <= cfg.maxHoursPerDay * 60;
      if Inserted(cfg, s, s') {
        var r := s'.reservations[|s.reservations|];
        TotalAppend(s.reservations, r, Own(user, offset, day));
        if r.user == user && r.offset == offset && DayStart(r.start, offset) == day {
          OwnWithinHeld(s.reservations, user, offset, day);
        }
      } else if CanceledOne(s, s') {
        var i :| 0 <= i < |s.reservations| &&
          s'.reservations == s.reservations[i := CanceledAt(s.reservations[i], s.now)];
        TotalUpdate(s.reservations, i, s'.reservations[i], Own(user, offset, day));
      }
    }
  }

  /** Over every run: the concurrency limit holds at every instant, and the daily limit holds for the
      minutes counted to each local day, whatever mix of offsets the requests use. */
  lemma {:induction false} RunsWithinQuotas(cfg: Settings, start: int, run: seq<Request>)
    ensures CoverBounded(cfg, Run(cfg, start, run).reservations)
    ensures OwnBounded(cfg, Run(cfg, start, run).reservations)
  {
    if |run| > 0 {
      var s := Run(cfg, start, run[..|run| - 1]);
      RunsWithinQuotas(cfg, start, run[..|run| - 1]);
      RunsWellFormed(cfg, start, run[..|run| - 1]);
      TableStepHolds(cfg, s, run[|run| - 1]);
      CoverKept(cfg, s, Run(cfg, start, run));
      OwnKept(cfg, s, Run(cfg, start, run));
    }
  }

  /** The concurrency limit over runs, in rows: over any instant, past or future, a user has at most that
      many uncancelled rows. */
  lemma ConcurrentAtAnyInstant(cfg: Settings, start: int, run: seq<Request>, user: int, at: int)
    ensures var rs := Run(cfg, start, run).reservations;
      |set i | 0 <= i < |rs| && rs[i].user == user && rs[i].status != Canceled && rs[i].start <= at < rs[i].end|
        <= cfg.maxConcurrent
  {
    var rs := Run(cfg, start, run).reservations;
    RunsWithinQuotas(cfg, start, run);
    Terms.CoveringCounts(rs, user, at);
    assert Terms.CoveringRows(rs, user, at) ==
      set i | 0 <= i < |rs| && rs[i].user == user && rs[i].status != Canceled && rs[i].start <= at < rs[i].end;
  }

  lemma OwnDayOfInsert(cfg: Settings, s: State, s': State)
    requires Inserted(cfg, s, s')
    ensures var r := s'.reservations[|s.reservations|];
      Total(s'.reservations, Held(r.user, DayStart(r.start, r.offset))) <= cfg.maxHoursPerDay * 60
  {
    var r := s'.reservations[|s.reservations|];
    TotalAppend(s.reservations, r, Held(r.user, DayStart(r.start, r.offset)));
  }

  /** Just after any successful write, everything its user holds in the row's own day is within the
      limit, whatever the offsets of the other rows. */
  lemma OwnDayAfterInsert(cfg: Settings, start: int, run: seq<Request>, q: Request)
    requires |Step(cfg, Run(cfg, start, run), q).reservations| > |Run(cfg, start, run).reservations|
    ensures var rs := Step(cfg, Run(cfg, start, run), q).reservations;
      var r := rs[|rs| - 1];
      Total(rs, Held(r.user, DayStart(r.start, r.offset))) <= cfg.maxHoursPerDay * 60
  {
    var s := Run(cfg, start, run);
    RunsWellFormed(cfg, start, run);
    TableStepHolds(cfg, s, q);
    OwnDayOfInsert(cfg, s, Step(cfg, s, q));
  }

  /** The user's active rows that meet the day were booked with its offset. */
  ghost predicate OneOffset(rs: seq<Reservation>, user: int, offset: int, day: int) {
    forall r :: r in rs && r.user == user && Active(r) && Meets(r.start, r.end, day, day + DAY) ==> r.offset == offset
  }

  lemma Scaled(a: int, b: int, unit: nat)
    requires a <= b
    ensures a * unit <= b * unit
  {
  }

  /** On a local day whose rows all used its offset, the minutes a user holds exceed the daily limit at
      most by what the bookings running at its midnight can bring: with the defaults, 480 minutes become
      480 + 5 * 240. */
  lemma HeldPerDay(cfg: Settings, start: int, run: seq<Request>, user: int, offset: int, day: int)
    requires OneOffset(Run(cfg, start, run).reservations, user, offset, day) && (day + offset * MINUTE) % DAY == 0
    ensures Total(Run(cfg, start, run).reservations, Held(user, day))
      <= cfg.maxHoursPerDay * 60 + cfg.maxConcurrent * LongestMinutes(cfg)
  {
    HeldByOffsets(cfg, start, run, user, [offset], day);
    OneShare(cfg, offset, day);
  }

  /** Length of what an active row of the user has inside `[a, b)`, to the microsecond. */
  function Inside(user: int, a: int, b: int): Reservation -> int {
    (r: Reservation) => if r.user == user && Active(r) then Max(0, Min(r.end, b) - Max(r.start, a)) else 0
  }

  /** Bookings laid over any interval add up to at most the concurrency limit times its length. */
  lemma {:induction false} InsideBounded(cfg: Settings, rs: seq<Reservation>, user: int, a: int, length: nat)
    requires CoverBounded(cfg, rs)
    ensures Total(rs, Inside(user, a, a + length)) <= cfg.maxConcurrent * length
  {
    if length == 0 {
      TotalMono(rs, Inside(user, a, a), Covering(user, a));
      InsideNothing(rs, user, a);
    } else {
      var last := a + length - 1;
      InsideBounded(cfg, rs, user, a, length - 1);
      TotalSplit(rs, Inside(user, a, a + length), Inside(user, a, last), Covering(user, last));
      assert Total(rs, Covering(user, last)) <= cfg.maxConcurrent;
      assert cfg.maxConcurrent * length == cfg.maxConcurrent * (length - 1) + cfg.maxConcurrent;
    }
  }

  lemma {:induction false} InsideNothing(rs: seq<Reservation>, user: int, a: int)
    ensures Total(rs, Inside(user, a, a)) == 0
  {
    if |rs| > 0 {
      InsideNothing(rs[..|rs| - 1], user, a);
    }
  }

  /** Whole minutes are no more than the lengths they are the floors of. */
  lemma {:induction false} HeldIsInside(rs: seq<Reservation>, user: int, day: int)
    ensures Total(rs, Held(user, day)) * MINUTE <= Total(rs, Inside(user, day, day + DAY))
  {
    if |rs| > 0 {
      HeldIsInside(rs[..|rs| - 1], user, day);
    }
  }

  /** Over every run, for any mix of offsets and any 24 hours, local day or not, a user holds at most the
      concurrency limit times 1440 minutes. */
  lemma HeldAnyOffsets(cfg: Settings, start: int, run: seq<Request>, user: int, day: int)
    ensures Total(Run(cfg, start, run).reservations, Held(user, day)) <= cfg.maxConcurrent * 1440
  {
    var rs := Run(cfg, start, run).reservations;
    RunsWithinQuotas(cfg, start, run);
    InsideBounded(cfg, rs, user, day, DAY);
    HeldIsInside(rs, user, day);
    MinutesOfDays(Total(rs, Held(user, day)), cfg.maxConcurrent);
  }

  lemma MinutesOfDays(minutes: int, days: int)
    requires minutes * MINUTE <= days * DAY
    ensures minutes <= days * 1440
  {
  }

  /** Minutes inside a day of the rows of one offset that begin in it. */
  function BegunIn(user: int, offset: int, day: int): Reservation -> int {
    (r: Reservation) =>
      if r.user == user && Active(r) && r.offset == offset && day <= r.start then Clipped(r, day) else 0
  }

  /** Minutes inside a day of the rows that began before it. */
  function RunningInto(user: int, day: int): Reservation -> int {
    (r: Reservation) => if r.user == user && Active(r) && r.start < day then Clipped(r, day) else 0
  }

  /** A row of an offset that begins in a day is charged to one of the two days of its offset that meet
      that day, or runs on past the midnight between them. */
  lemma ChargedToTwoDays(cfg: Settings, r: Reservation, user: int, offset: int, day: int)
    requires r.start < r.end <= r.start + LongestMinutes(cfg) * MINUTE
    ensures var first := DayStart(day, offset);
      BegunIn(user, offset, day)(r) <=
        Own(user, offset, first)(r) + Own(user, offset, first + DAY)(r) +
        Covering(user, first + DAY)(r) * LongestMinutes(cfg)
  {
    var first := DayStart(day, offset);
    if BegunIn(user, offset, day)(r) > 0 {
      assert day <= r.start < day + DAY;
      NextDay(first, offset);
      if r.start < first + DAY {
        DayStartUnique(r.start, offset, first);
      } else {
        DayStartUnique(r.start, offset, first + DAY);
      }
    }
  }

  lemma NextDay(day: int, offset: int)
    requires (day + offset * MINUTE) % DAY == 0
    ensures (day + DAY + offset * MINUTE) % DAY == 0
  {
  }

  /** What rows of one offset can bring to a day in which they begin: one daily limit when the day is a
      local day of that offset; otherwise two, and what may run past the midnight inside the day. */
  function Share(cfg: Settings, offset: int, day: int): int {
    if (day + offset * MINUTE) % DAY == 0 then cfg.maxHoursPerDay * 60
    else 2 * (cfg.maxHoursPerDay * 60) + cfg.maxConcurrent * LongestMinutes(cfg)
  }

  lemma BegunWithinShare(cfg: Settings, rs: seq<Reservation>, user: int, offset: int, day: int)
    requires CoverBounded(cfg, rs) && OwnBounded(cfg, rs)
    requires forall r :: r in rs ==> r.start < r.end <= r.start + LongestMinutes(cfg) * MINUTE
    ensures Total(rs, BegunIn(user, offset, day)) <= Share(cfg, offset, day)
  {
    if (day + offset * MINUTE) % DAY == 0 {
      forall r | r in rs
        ensures BegunIn(user, offset, day)(r) <= Own(user, offset, day)(r)
      {
        if BegunIn(user, offset, day)(r) > 0 {
          DayStartUnique(r.start, offset, day);
        }
      }
      TotalMono(rs, BegunIn(user, offset, day), Own(user, offset, day));
      assert Total(rs, Own(user, offset, day)) <= cfg.maxHoursPerDay * 60;
    } else {
      BegunWithinTwoDays(cfg, rs, user, offset, day);
    }
  }

  lemma BegunWithinTwoDays(cfg: Settings, rs: seq<Reservation>, user: int, offset: int, day: int)
    requires CoverBounded(cfg, rs) && OwnBounded(cfg, rs)
    requires forall r :: r in rs ==> r.start < r.end <= r.start + LongestMinutes(cfg) * MINUTE
    ensures Total(rs, BegunIn(user, offset, day)) <=
      2 * (cfg.maxHoursPerDay * 60) + cfg.maxConcurrent * LongestMinutes(cfg)
  {
    var first := DayStart(day, offset);
    var longest := LongestMinutes(cfg);
    var second := (r: Reservation) => Own(user, offset, first + DAY)(r) + Covering(user, first + DAY)(r) * longest;
    var late := (r: Reservation) => Covering(user, first + DAY)(r) * longest;
    forall r | r in rs
      ensures BegunIn(user, offset, day)(r) <= Own(user, offset, first)(r) + second(r)
    {
      ChargedToTwoDays(cfg, r, user, offset, day);
    }
    TotalSplit(rs, BegunIn(user, offset, day), Own(user, offset, first), second);
    TotalSplit(rs, second, Own(user, offset, first + DAY), late);
    TotalScaled(rs, late, Covering(user, first + DAY), longest);
    Scaled(Total(rs, Covering(user, first + DAY)), cfg.maxConcurrent, longest);
    assert Total(rs, Own(user, offset, first)) <= cfg.maxHoursPerDay * 60;
    assert Total(rs, Own(user, offset, first + DAY)) <= cfg.maxHoursPerDay * 60;
  }

  /** The shares of several offsets together. */
  function Shares(cfg: Settings, offsets: seq<int>, day: int): int {
    if |offsets| == 0 then 0
    else Shares(cfg, offsets[..|offsets| - 1], day) + Share(cfg, offsets[|offsets| - 1], day)
  }

  lemma OneShare(cfg: Settings, offset: int, day: int)
    ensures Shares(cfg, [offset], day) == Share(cfg, offset, day)
  {
    assert [offset][..0] == [];
  }

  /** Minutes inside a day of the rows of some offsets that begin in it. */
  function BegunAmong(user: int, offsets: seq<int>, day: int): Reservation -> int {
    (r: Reservation) =>
      if r.user == user && Active(r) && r.offset in offsets && day <= r.start then Clipped(r, day) else 0
  }

  lemma {:induction false} AmongWithinShares(
    cfg: Settings, rs: seq<Reservation>, user: int, offsets: seq<int>, day: int)
    requires CoverBounded(cfg, rs) && OwnBounded(cfg, rs)
    requires forall r :: r in rs ==> r.start < r.end <= r.start + LongestMinutes(cfg) * MINUTE
    ensures Total(rs, BegunAmong(user, offsets, day)) <= Shares(cfg, offsets, day)
  {
    if |offsets| == 0 {
      TotalScaled(rs, BegunAmong(user, offsets, day), Covering(user, day), 0);
    } else {
      var n := |offsets| - 1;
      AmongWithinShares(cfg, rs, user, offsets[..n], day);
      BegunWithinShare(cfg, rs, user, offsets[n], day);
      assert offsets == offsets[..n] + [offsets[n]];
      TotalSplit(rs, BegunAmong(user, offsets, day),
        BegunAmong(user, offsets[..n], day), BegunIn(user, offsets[n], day));
    }
  }

  lemma IntoCoversMidnight(cfg: Settings, r: Reservation, user: int, day: int)
    requires r.start < r.end <= r.start + LongestMinutes(cfg) * MINUTE
    ensures RunningInto(user, day)(r) <= Covering(user, day)(r) * LongestMinutes(cfg)
  {
  }

  lemma HeldAmong(cfg: Settings, rs: seq<Reservation>, user: int, offsets: seq<int>, day: int)
    requires CoverBounded(cfg, rs) && OwnBounded(cfg, rs)
    requires forall r :: r in rs ==> r.start < r.end <= r.start + LongestMinutes(cfg) * MINUTE
    requires UsesOnly(rs, user, offsets, day)
    ensures Total(rs, Held(user, day)) <= Shares(cfg, offsets, day) + cfg.maxConcurrent * LongestMinutes(cfg)
  {
    forall r | r in rs
      ensures Held(user, day)(r) <= BegunAmong(user, offsets, day)(r) + RunningInto(user, day)(r)
      ensures RunningInto(user, day)(r) <= Covering(user, day)(r) * LongestMinutes(cfg)
    {
      IntoCoversMidnight(cfg, r, user, day);
    }
    TotalSplit(rs, Held(user, day), BegunAmong(user, offsets, day), RunningInto(user, day));
    TotalScaled(rs, RunningInto(user, day), Covering(user, day), LongestMinutes(cfg));
    AmongWithinShares(cfg, rs, user, offsets, day);
    assert Total(rs, Covering(user, day)) <= cfg.maxConcurrent;
    Scaled(Total(rs, Covering(user, day)), cfg.maxConcurrent, LongestMinutes(cfg));
  }

  /** The user's active rows that meet the day were booked with one of the offsets. */
  ghost predicate UsesOnly(rs: seq<Reservation>, user: int, offsets: seq<int>, day: int) {
    forall r :: r in rs && r.user == user && Active(r) && Meets(r.start, r.end, day, day + DAY) ==> r.offset in offsets
  }

  /** The tighter bound, by the offsets in use: their shares, and what runs into the day. With Korean
      bookings and UTC instants under the defaults, a Korean day holds at most 480 + (2 * 480 + 5 * 240)
      + 5 * 240 minutes. */
  lemma HeldByOffsets(cfg: Settings, start: int, run: seq<Request>, user: int, offsets: seq<int>, day: int)
    requires UsesOnly(Run(cfg, start, run).reservations, user, offsets, day)
    ensures Total(Run(cfg, start, run).reservations, Held(user, day))
      <= Shares(cfg, offsets, day) + cfg.maxConcurrent * LongestMinutes(cfg)
  {
    RunsWellFormed(cfg, start, run);
    RunsWithinQuotas(cfg, start, run);
    HeldAmong(cfg, Run(cfg, start, run).reservations, user, offsets, day);
  }

  /** The user's active rows that meet the day begin in it. */
  ghost predicate BeginInDay(rs: seq<Reservation>, user: int, day: int) {
    forall r :: r in rs && r.user == user && Active(r) && Meets(r.start, r.end, day, day + DAY) ==> day <= r.start
  }

  /** The plain daily limit holds on every local day whose rows all used its offset and began in it. */
  lemma PlainDailyLimit(cfg: Settings, start: int, run: seq<Request>, user: int, offset: int, day: int)
    requires OneOffset(Run(cfg, start, run).reservations, user, offset, day) && (day + offset * MINUTE) % DAY == 0
    requires BeginInDay(Run(cfg, start, run).reservations, user, day)
    ensures Total(Run(cfg, start, run).reservations, Held(user, day)) <= cfg.maxHoursPerDay * 60
  {
    var rs := Run(cfg, start, run).reservations;
    RunsWithinQuotas(cfg, start, run);
    forall r | r in rs
      ensures Held(user, day)(r) <= Own(user, offset, day)(r)
    {
      if r.user == user && Active(r) && Clipped(r, day) > 0 {
        DayStartUnique(r.start, offset, day);
      }
    }
    TotalMono(rs, Held(user, day), Own(user, offset, day));
  }

  lemma WholeDaysApart(a: int, b: int, offset: int)
    requires (a + offset * MINUTE) % DAY == 0 && (b + offset * MINUTE) % DAY == 0
    ensures a == b || a + DAY <= b || b + DAY <= a
  {
  }

  /** The plain daily limit, on every local day of one offset. */
  ghost predicate EveryDayWithin(cfg: Settings, rs: seq<Reservation>, user: int, offset: int) {
    forall day :: (day + offset * MINUTE) % DAY == 0 ==> Total(rs, Held(user, day)) <= cfg.maxHoursPerDay * 60
  }

  /** The day has room for what the row brings to it. */
  ghost predicate DayRoom(cfg: Settings, rs: seq<Reservation>, r: Reservation, day: int) {
    Total(rs, Held(r.user, day)) + Clipped(r, day) <= cfg.maxHoursPerDay * 60
  }

  /** Every local day of the offset that the row meets has room. */
  ghost predicate DaysHaveRoom(cfg: Settings, rs: seq<Reservation>, r: Reservation, offset: int) {
    forall day :: (day + offset * MINUTE) % DAY == 0 && Meets(r.start, r.end, day, day + DAY) ==>
      DayRoom(cfg, rs, r, day)
  }

  /** One more row keeps the limit on every local day of an offset, its own or another, exactly when
      the days of that offset it meets have room. */
  lemma EveryDayKeptIff(cfg: Settings, rs: seq<Reservation>, r: Reservation, offset: int)
    requires Active(r) && EveryDayWithin(cfg, rs, r.user, offset)
    ensures EveryDayWithin(cfg, rs + [r], r.user, offset) <==> DaysHaveRoom(cfg, rs, r, offset)
  {
    forall day | (day + offset * MINUTE) % DAY == 0
      ensures Total(rs + [r], Held(r.user, day)) <= cfg.maxHoursPerDay * 60 <==>
        Meets(r.start, r.end, day, day + DAY) ==> DayRoom(cfg, rs, r, day)
    {
      TotalAppend(rs, r, Held(r.user, day));
    }
  }

  /** From `s`, in which the user is within the limit on every local day of the offset, the row added
      last in `s'` keeps it so exactly when the days of that offset it meets have room. The day it is
      charged to always has. */
  ghost predicate KeptIffDaysHaveRoom(cfg: Settings, s: State, s': State, offset: int)
    requires |s'.reservations| > |s.reservations|
  {
    var r := s'.reservations[|s.reservations|];
    && DayRoom(cfg, s.reservations, r, DayStart(r.start, r.offset))
    && (EveryDayWithin(cfg, s.reservations, r.user, offset) ==>
          (EveryDayWithin(cfg, s'.reservations, r.user, offset) <==> DaysHaveRoom(cfg, s.reservations, r, offset)))
  }

  lemma DaysDecide(cfg: Settings, s: State, s': State, offset: int)
    requires TableStep(cfg, s, s') && |s'.reservations| > |s.reservations|
    ensures KeptIffDaysHaveRoom(cfg, s, s', offset)
  {
    assert Inserted(cfg, s, s');
    var r := s'.reservations[|s.reservations|];
    if EveryDayWithin(cfg, s.reservations, r.user, offset) {
      EveryDayKeptIff(cfg, s.reservations, r, offset);
    }
  }

  /** When an accepted booking, of whatever length, keeps the plain daily limit, for the days of any
      offset: exactly when the days it meets have room. The check looks at one of them, in the offset of
      the request, and at no other. */
  lemma DailyLimitKeptIff(cfg: Settings, start: int, run: seq<Request>, q: Request, offset: int)
    requires |Step(cfg, Run(cfg, start, run), q).reservations| > |Run(cfg, start, run).reservations|
    ensures KeptIffDaysHaveRoom(cfg, Run(cfg, start, run), Step(cfg, Run(cfg, start, run), q), offset)
  {
    var s := Run(cfg, start, run);
    RunsWellFormed(cfg, start, run);
    TableStepHolds(cfg, s, q);
    DaysDecide(cfg, s, Step(cfg, s, q), offset);
  }

  /** Bookings of user 2 on the first host, one after the other at time 0, under the defaults. */
  function Bookings(rows: seq<Reservation>): (run: seq<Request>)
    ensures |run| == |rows| + 1
  {
    [FIRST_HOST] + seq(|rows|, i requires 0 <= i < |rows| =>
      Book(User(2, false), 0, Aware(rows[i].start, rows[i].offset), Aware(rows[i].end, rows[i].offset)))
  }

  function Booked(start: int, end: int, offset: int): Reservation {
    Reservation(2, 0, start, end, offset, Confirmed, None)
  }

  /** The next of the bookings passes every check. */
  ghost predicate Passes(rows: seq<Reservation>, k: nat)
    requires k < |rows|
  {
    var r := rows[k];
    && r == Booked(r.start, r.end, r.offset)
    && WindowOk(DEFAULTS, 0, Aware(r.start, r.offset), Aware(r.end, r.offset))
    && Free(rows[..k], 0, r.start, r.end)
    && Total(rows[..k], Open(2, 0)) < 5
    && Total(rows[..k], Held(2, DayStart(r.start, r.offset))) + WholeMinutes(r.end - r.start) <= 480
  }

  lemma BookingPasses(s: State, rows: seq<Reservation>, k: nat)
    requires k < |rows| && Passes(rows, k)
    requires |s.hosts| == 1 && s.now == 0 && s.reservations == rows[..k]
    ensures var s' := Step(DEFAULTS, s, Bookings(rows)[k + 1]);
      s'.reservations == rows[..k + 1] && |s'.hosts| == 1 && s'.now == 0
  {
    assert rows[..k + 1] == rows[..k] + [rows[k]];
  }

  lemma BookingsRun(rows: seq<Reservation>, k: nat)
    requires k <= |rows| && forall i :: 0 <= i < k ==> Passes(rows, i)
    ensures var s := Run(DEFAULTS, 0, Bookings(rows)[..k + 1]);
      s.reservations == rows[..k] && |s.hosts| == 1 && s.now == 0
  {
    RunNext(DEFAULTS, 0, Bookings(rows), k);
    if k == 0 {
      FirstHostRegistered(DEFAULTS, 0);
    } else {
      BookingsRun(rows, k - 1);
      BookingPasses(Run(DEFAULTS, 0, Bookings(rows)[..k]), rows, k - 1);
    }
  }

  /** The minutes of three rows, one at a time. */
  lemma ThreeRows(rows: seq<Reservation>, weight: Reservation -> int)
    requires |rows| == 3
    ensures Total(rows[..0], weight) == 0
    ensures Total(rows[..1], weight) == weight(rows[0])
    ensures Total(rows[..2], weight) == weight(rows[0]) + weight(rows[1])
    ensures Total(rows, weight) == weight(rows[0]) + weight(rows[1]) + weight(rows[2])
  {
    assert rows[..1] == rows[..0] + [rows[0]] && rows[..2] == rows[..1] + [rows[1]] && rows == rows[..2] + [rows[2]];
    TotalAppend(rows[..0], rows[0], weight);
    TotalAppend(rows[..1], rows[1], weight);
    TotalAppend(rows[..2], rows[2], weight);
  }

  lemma ThreeOpen(rows: seq<Reservation>)
    requires |rows| == 3
    ensures Total(rows[..0], Open(2, 0)) < 5 && Total(rows[..1], Open(2, 0)) < 5 && Total(rows[..2], Open(2, 0)) < 5
  {
    ThreeRows(rows, Open(2, 0));
  }

  /** A full afternoon on the second day, then four hours across the midnight before it. */
  const ACROSS_MIDNIGHT: seq<Reservation> :=
    [ Booked(DAY + 24 * SLOT, DAY + 32 * SLOT, 0),
      Booked(DAY + 32 * SLOT, DAY + 40 * SLOT, 0),
      Booked(DAY - 4 * SLOT, DAY + 4 * SLOT, 0) ]

  /** Eight hours of a day in Seoul, then four more of the same day booked in UTC, whose day they begin. */
  const MIXED_OFFSETS: seq<Reservation> :=
    [ Booked(DAY - 18 * SLOT, DAY - 10 * SLOT, 540),
      Booked(DAY - 10 * SLOT, DAY - 2 * SLOT, 540),
      Booked(DAY, DAY + 8 * SLOT, 0) ]

  lemma AcrossMidnightFits(k: nat)
    requires k < 3
    ensures var r := ACROSS_MIDNIGHT[k];
      && WindowOk(DEFAULTS, 0, Aware(r.start, r.offset), Aware(r.end, r.offset))
      && Free(ACROSS_MIDNIGHT[..k], 0, r.start, r.end)
      && DayStart(r.start, r.offset) == if k < 2 then DAY else 0
  {
  }

  lemma AcrossMidnightPasses(k: nat)
    requires k < 3
    ensures Passes(ACROSS_MIDNIGHT, k)
  {
    AcrossMidnightFits(k);
    ThreeOpen(ACROSS_MIDNIGHT);
    ThreeRows(ACROSS_MIDNIGHT, Held(2, if k < 2 then DAY else 0));
  }

  lemma MixedOffsetsFit(k: nat)
    requires k < 3
    ensures var r := MIXED_OFFSETS[k];
      && WindowOk(DEFAULTS, 0, Aware(r.start, r.offset), Aware(r.end, r.offset))
      && Free(MIXED_OFFSETS[..k], 0, r.start, r.end)
      && DayStart(r.start, r.offset) == if k < 2 then DAY - 18 * SLOT else DAY
  {
  }

  lemma MixedOffsetsPass(k: nat)
    requires k < 3
    ensures Passes(MIXED_OFFSETS, k)
  {
    MixedOffsetsFit(k);
    ThreeOpen(MIXED_OFFSETS);
    ThreeRows(MIXED_OFFSETS, Held(2, if k < 2 then DAY - 18 * SLOT else DAY));
  }

  lemma Loads()
    ensures Total(ACROSS_MIDNIGHT, Held(2, DAY)) == 600
    ensures Total(MIXED_OFFSETS, Held(2, DAY - 18 * SLOT)) == 720
  {
    ThreeRows(ACROSS_MIDNIGHT, Held(2, DAY));
    ThreeRows(MIXED_OFFSETS, Held(2, DAY - 18 * SLOT));
  }

  lemma MixedOffsetsInDay()
    ensures (DAY - 18 * SLOT + 540 * MINUTE) % DAY == 0
    ensures forall r :: r in MIXED_OFFSETS ==> DAY - 18 * SLOT <= r.start && r.end <= DAY - 18 * SLOT + DAY
  {
  }

  /** Crossing midnight does break the plain limit: the defaults let a user hold ten hours in a day,
      because a window is charged to the day it starts in. */
  lemma AcrossMidnightExceeds()
    ensures var rs := Run(DEFAULTS, 0, Bookings(ACROSS_MIDNIGHT)).reservations;
      && OneOffset(rs, 2, 0, DAY) && Total(rs, Held(2, DAY)) == 600 > DEFAULTS.maxHoursPerDay * 60
  {
    forall k | 0 <= k < 3
      ensures Passes(ACROSS_MIDNIGHT, k)
    {
      AcrossMidnightPasses(k);
    }
    BookingsRun(ACROSS_MIDNIGHT, 3);
    Loads();
    assert Bookings(ACROSS_MIDNIGHT)[..4] == Bookings(ACROSS_MIDNIGHT) && ACROSS_MIDNIGHT[..3] == ACROSS_MIDNIGHT;
  }

  /** And so do two offsets: twelve hours in one day, although every row begins and ends in it. */
  lemma MixedOffsetsExceed()
    ensures var rs := Run(DEFAULTS, 0, Bookings(MIXED_OFFSETS)).reservations;
      var day := DAY - 18 * SLOT;
      && (day + 540 * MINUTE) % DAY == 0 && (forall r :: r in rs ==> day <= r.start && r.end <= day + DAY)
      && Total(rs, Held(2, day)) == 720 > DEFAULTS.maxHoursPerDay * 60
  {
    forall k | 0 <= k < 3
      ensures Passes(MIXED_OFFSETS, k)
    {
      MixedOffsetsPass(k);
    }
    BookingsRun(MIXED_OFFSETS, 3);
    Loads();
    MixedOffsetsInDay();
    assert Bookings(MIXED_OFFSETS)[..4] == Bookings(MIXED_OFFSETS) && MIXED_OFFSETS[..3] == MIXED_OFFSETS;
  }
}
