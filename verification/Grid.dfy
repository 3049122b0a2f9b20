/** The 30-minute grid is not checked on the instant path and not stored anywhere: it is an invariant
    of whole runs, and it is what makes the calendar's dictionary unambiguous. */
module Grid {
  import opened Clock
  import opened Domain
  import opened Tally
  import opened Booking
  import opened Machine
  import opened BookingRuns

  /** A request whose timestamps carry offsets that are multiples of 30 minutes. */
  ghost predicate Regular(q: Request) {
    q.Book? ==>
      && (q.starts.Aware? ==> q.starts.offset % SLOT_MINUTES == 0)
      && (q.ends.Aware? ==> q.ends.offset % SLOT_MINUTES == 0)
  }

  ghost predicate RegularRun(run: seq<Request>) {
    forall q :: q in run ==> Regular(q)
  }

  /** Every row ends on the grid, and so starts every row the clock has not reached. */
  ghost predicate Gridded(s: State) {
    forall r :: r in s.reservations ==> OnGrid(r.end) && (r.start > s.now ==> OnGrid(r.start))
  }

  /** No cell of the UTC grid meets two active reservations of one host. */
  ghost predicate Unambiguous(rs: seq<Reservation>) {
    forall i, j, c :: 0 <= i < j < |rs| && Active(rs[i]) && Active(rs[j]) && rs[i].host == rs[j].host && OnGrid(c) ==>
      !(Meets(rs[i].start, rs[i].end, c, c + SLOT) && Meets(rs[j].start, rs[j].end, c, c + SLOT))
  }

  lemma RegularBookingOnGrid(starts: Stamp, ends: Stamp)
    requires IsGridAligned(starts) && IsGridAligned(ends)
    requires starts.offset % SLOT_MINUTES == 0 && ends.offset % SLOT_MINUTES == 0
    ensures OnGrid(starts.utc) && OnGrid(ends.utc)
  {
    AlignmentIsUtcAlignment(starts);
    AlignmentIsUtcAlignment(ends);
  }

  /** An instant window ends on the grid because what cuts it, a later booking, starts there. */
  lemma InstantEndsOnGrid(s: State, host: int)
    requires Gridded(s)
    ensures OnGrid(WindowFor(s, host).1) && WindowFor(s, host).0 <= s.now
  {
  }

  lemma NewRowOnGrid(cfg: Settings, s: State, q: Request)
    requires Gridded(s) && Regular(q)
    requires |Step(cfg, s, q).reservations| == |s.reservations| + 1
    ensures var r := Step(cfg, s, q).reservations[|s.reservations|];
      OnGrid(r.end) && (r.start > s.now ==> OnGrid(r.start))
  {
    if q.Book? {
      RegularBookingOnGrid(q.starts, q.ends);
    } else if q.Instant? {
      InstantEndsOnGrid(s, q.host);
    }
  }

  lemma GriddedKept(s: State, s': State)
    requires Gridded(s) && s.now <= s'.now
    requires forall r :: r in s'.reservations ==>
      (exists r0 :: r0 in s.reservations && r0.start == r.start && r0.end == r.end)
      || (OnGrid(r.end) && (r.start > s.now ==> OnGrid(r.start)))
    ensures Gridded(s')
  {
  }

  lemma GriddedStep(cfg: Settings, s: State, q: Request)
    requires WholeSeconds(s.reservations) && Gridded(s) && Regular(q)
    ensures Gridded(Step(cfg, s, q))
  {
    var s' := Step(cfg, s, q);
    TableStepHolds(cfg, s, q);
    if Inserted(cfg, s, s') {
      NewRowOnGrid(cfg, s, q);
    } else if CanceledOne(s, s') {
      var i :| 0 <= i < |s.reservations| &&
        s'.reservations == s.reservations[i := CanceledAt(s.reservations[i], s.now)];
      assert s.reservations[i] in s.reservations;
    }
    GriddedKept(s, s');
  }

  /** Disjoint rows that end on the grid cannot meet the same cell. */
  lemma DisjointIsUnambiguous(rs: seq<Reservation>)
    requires Disjoint(rs)
    requires forall r :: r in rs ==> r.start < r.end && OnGrid(r.end)
    ensures Unambiguous(rs)
  {
    forall i, j, c | 0 <= i < j < |rs| && Active(rs[i]) && Active(rs[j]) && rs[i].host == rs[j].host && OnGrid(c)
      ensures !(Meets(rs[i].start, rs[i].end, c, c + SLOT) && Meets(rs[j].start, rs[j].end, c, c + SLOT))
    {
      assert rs[i] in rs && rs[j] in rs;
    }
  }

  /** Over every run of regular requests the grid invariant holds and no cell is shared. */
  lemma {:induction false} RunsUnambiguous(cfg: Settings, start: int, run: seq<Request>)
    requires RegularRun(run)
    ensures Gridded(Run(cfg, start, run))
    ensures Unambiguous(Run(cfg, start, run).reservations)
  {
    if |run| > 0 {
      var earlier := run[..|run| - 1];
      assert forall q :: q in earlier ==> q in run;
      RunsUnambiguous(cfg, start, earlier);
      RunsWellFormed(cfg, start, earlier);
      GriddedStep(cfg, Run(cfg, start, earlier), run[|run| - 1]);
    }
    RunsWellFormed(cfg, start, run);
    DisjointIsUnambiguous(Run(cfg, start, run).reservations);
  }

  /** Two back-to-back half hours booked on one host, both stamped with the given offset. */
  function BackToBack(t: int, offset: int): seq<Request> {
    [ FIRST_HOST,
      Book(User(2, false), 0, Aware(t, offset), Aware(t + SLOT, offset)),
      Book(User(2, false), 0, Aware(t + SLOT, offset), Aware(t + 2 * SLOT, offset)) ]
  }

  /** A table of one half hour at most weighs little. */
  lemma LightTable(rs: seq<Reservation>, user: int, now: int, day: int)
    requires |rs| <= 1 && forall r :: r in rs ==> r.end == r.start + SLOT
    ensures Total(rs, Open(user, now)) <= 1 && Total(rs, Held(user, day)) <= 30
  {
    if |rs| == 1 {
      assert rs[..0] == [] && rs[0] in rs;
      assert Total(rs, Open(user, now)) == Open(user, now)(rs[0]);
      assert Total(rs, Held(user, day)) == Held(user, day)(rs[0]) && Clipped(rs[0], day) <= WholeMinutes(SLOT);
    }
  }

  /** With the default limits a half hour is accepted when at most one other half hour is booked. */
  lemma HalfHourAccepted(s: State, t: int, offset: int)
    requires IsGridAligned(Aware(t, offset))
    requires s.now <= t <= s.now + 2 * SLOT && |s.hosts| == 1
    requires |s.reservations| <= 1 && forall r :: r in s.reservations ==> r.start == t - SLOT && r.end == t
    ensures Create(DEFAULTS, s, User(2, false), 0, Aware(t, offset), Aware(t + SLOT, offset)).0.reservations ==
      s.reservations + [Reservation(2, 0, t, t + SLOT, offset, Confirmed, None)]
    ensures var s' := Create(DEFAULTS, s, User(2, false), 0, Aware(t, offset), Aware(t + SLOT, offset)).0;
      s'.hosts == s.hosts && s'.now == s.now
  {
    AlignmentSteps(t, offset);
    LightTable(s.reservations, 2, s.now, DayStart(t, offset));
    assert CheckQuota(DEFAULTS, s, 2, t, offset, t + SLOT).None?;
    assert forall i :: 0 <= i < |s.reservations| ==> s.reservations[i] in s.reservations;
  }

  /** The rows that run writes. */
  function BackToBackRows(t: int, offset: int): seq<Reservation> {
    [ Reservation(2, 0, t, t + SLOT, offset, Confirmed, None),
      Reservation(2, 0, t + SLOT, t + 2 * SLOT, offset, Confirmed, None) ]
  }

  lemma BackToBackStep(s: State, t: int, offset: int, k: nat)
    requires IsGridAligned(Aware(t, offset)) && s.now <= t < s.now + SLOT && |s.hosts| == 1
    requires k < 2 && s.reservations == BackToBackRows(t, offset)[..k]
    ensures var s' := Step(DEFAULTS, s, BackToBack(t, offset)[k + 1]);
      s'.reservations == BackToBackRows(t, offset)[..k + 1] && s'.hosts == s.hosts && s'.now == s.now
  {
    if k == 0 {
      HalfHourAccepted(s, t, offset);
    } else {
      AlignmentSteps(t, offset);
      HalfHourAccepted(s, t + SLOT, offset);
    }
  }

  lemma BackToBackRuns(start: int, t: int, offset: int, k: nat)
    requires IsGridAligned(Aware(t, offset)) && start <= t < start + SLOT && k <= 2
    ensures var s := Run(DEFAULTS, start, BackToBack(t, offset)[..k + 1]);
      s.reservations == BackToBackRows(t, offset)[..k] && |s.hosts| == 1 && s.now == start
  {
    RunNext(DEFAULTS, start, BackToBack(t, offset), k);
    if k == 0 {
      FirstHostRegistered(DEFAULTS, start);
    } else {
      BackToBackRuns(start, t, offset, k - 1);
      BackToBackStep(Run(DEFAULTS, start, BackToBack(t, offset)[..k]), t, offset, k - 1);
    }
  }

  /** Inside the cell where one half hour ends and the next begins, both are met. */
  lemma OffGridRowsShare(t: int, offset: int)
    requires !OnGrid(t)
    ensures !Unambiguous(BackToBackRows(t, offset))
  {
    var rs := BackToBackRows(t, offset);
    var c := FloorSlot(t + SLOT);
    assert Meets(rs[0].start, rs[0].end, c, c + SLOT) && Meets(rs[1].start, rs[1].end, c, c + SLOT);
  }

  /** The condition on offsets is exact: whatever offset is not a multiple of 30 minutes, two
      accepted requests stamped with it put two reservations of one host into one cell. */
  lemma OffsetConditionIsExact(start: int, t: int, offset: int)
    requires start <= t < start + SLOT && IsGridAligned(Aware(t, offset))
    ensures RegularRun(BackToBack(t, offset)) <==> offset % SLOT_MINUTES == 0
    ensures Unambiguous(Run(DEFAULTS, start, BackToBack(t, offset)).reservations) <==> offset % SLOT_MINUTES == 0
  {
    var run := BackToBack(t, offset);
    if offset % SLOT_MINUTES == 0 {
      RunsUnambiguous(DEFAULTS, start, run);
    } else {
      assert run[1] in run && !Regular(run[1]);
      BackToBackRuns(start, t, offset, 2);
      assert run[..3] == run && BackToBackRows(t, offset)[..2] == BackToBackRows(t, offset);
      AlignmentIsUtcAlignment(Aware(t, offset));
      OffGridRowsShare(t, offset);
    }
  }
}
