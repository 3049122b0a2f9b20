/** What a step may do to the reservation table, and the invariants of that table over whole runs. */
module BookingRuns {
  import opened Clock
  import opened Domain
  import opened Tally
  import opened Booking
  import opened Machine
  import opened Terms

  ghost predicate WholeSeconds(rs: seq<Reservation>) {
    forall r :: r in rs ==> r.start % SECOND == 0 && r.end % SECOND == 0
  }

  /** The longest window either booking path writes, in minutes. */
  function LongestMinutes(cfg: Settings): nat {
    Max(cfg.maxDurationMinutes, 6 * SLOT_MINUTES)
  }

  /** What is known of a row at the moment either path has checked it. */
  ghost predicate Checked(cfg: Settings, s: State, r: Reservation) {
    && r.status == Confirmed
    && HostExists(s, r.host)
    && r.start % SECOND == 0 && r.end % SECOND == 0
    && r.start < r.end <= r.start + LongestMinutes(cfg) * MINUTE
    && (s.now <= r.start || r.start == FloorSecond(s.now))
    && Total(s.reservations, Open(r.user, s.now)) < cfg.maxConcurrent
    && Total(s.reservations, Held(r.user, DayStart(r.start, r.offset))) + WholeMinutes(r.end - r.start)
       <= cfg.maxHoursPerDay * 60
  }

  /** And at the moment it is inserted right away. */
  ghost predicate Admitted(cfg: Settings, s: State, r: Reservation) {
    Checked(cfg, s, r) && Free(s.reservations, r.host, r.start, r.end)
  }

  ghost predicate Inserted(cfg: Settings, s: State, s': State) {
    && |s'.reservations| == |s.reservations| + 1
    && s'.reservations == s.reservations + [s'.reservations[|s.reservations|]]
    && Admitted(cfg, s, s'.reservations[|s.reservations|])
  }

  ghost predicate CanceledOne(s: State, s': State) {
    exists i ::
      0 <= i < |s.reservations| && s'.reservations == s.reservations[i := CanceledAt(s.reservations[i], s.now)]
  }

  ghost predicate TableStep(cfg: Settings, s: State, s': State) {
    && |s.hosts| <= |s'.hosts|
    && s.now <= s'.now
    && (s'.reservations == s.reservations || s'.now == s.now)
    && (s'.reservations == s.reservations || Inserted(cfg, s, s') || CanceledOne(s, s'))
  }

  lemma BookingChecked(cfg: Settings, s: State, user: User, host: int, starts: Stamp, ends: Stamp)
    requires BookingDraft(cfg, s, user, host, starts, ends).Success?
    ensures Checked(cfg, s, BookingDraft(cfg, s, user, host, starts, ends).value)
  {
    AlignedIsWholeSecond(starts);
    AlignedIsWholeSecond(ends);
  }

  lemma InstantChecked(cfg: Settings, s: State, user: User, host: int)
    requires WholeSeconds(s.reservations)
    requires InstantDraft(cfg, s, user, host).Success?
    ensures Checked(cfg, s, InstantDraft(cfg, s, user, host).value)
  {
    var ends := WindowFor(s, host).1;
    if OnGrid(ends) {
      GridIsWholeSecond(ends);
    }
  }

  /** The requests that book nothing and cancel nothing leave the table alone. */
  lemma OthersLeaveTable(cfg: Settings, s: State, q: Request)
    requires !q.Book? && !q.Instant? && !q.Cancel?
    ensures var s' := Step(cfg, s, q);
      s'.reservations == s.reservations && |s.hosts| <= |s'.hosts| && s.now <= s'.now
  {
  }

  /** A step either leaves the table alone, or inserts one admitted row, or cancels one row. */
  lemma TableStepHolds(cfg: Settings, s: State, q: Request)
    requires WholeSeconds(s.reservations)
    ensures TableStep(cfg, s, Step(cfg, s, q))
  {
    match q
    case Book(user, host, starts, ends) =>
      var draft := BookingDraft(cfg, s, user, host, starts, ends);
      if draft.Success? && Free(s.reservations, draft.value.host, draft.value.start, draft.value.end) {
        BookingChecked(cfg, s, user, host, starts, ends);
      }
    case Instant(user, host, raw) =>
      var draft := InstantDraft(cfg, s, user, host);
      if draft.Success? && Free(s.reservations, draft.value.host, draft.value.start, draft.value.end) {
        InstantChecked(cfg, s, user, host);
      }
    case Cancel(user, id) =>
    case _ => OthersLeaveTable(cfg, s, q);
  }

  /** No two active reservations of one host share an instant. */
  ghost predicate Disjoint(rs: seq<Reservation>) {
    forall i, j :: 0 <= i < j < |rs| && Active(rs[i]) && Active(rs[j]) && rs[i].host == rs[j].host ==>
      !Meets(rs[i].start, rs[i].end, rs[j].start, rs[j].end)
  }

  ghost predicate WellFormed(cfg: Settings, s: State) {
    && WholeSeconds(s.reservations)
    && (forall r :: r in s.reservations ==>
          && HostExists(s, r.host)
          && r.status != Completed
          && r.start < r.end <= r.start + LongestMinutes(cfg) * MINUTE)
    && Disjoint(s.reservations)
  }

  lemma WellFormedKept(cfg: Settings, s: State, s': State)
    requires WellFormed(cfg, s) && TableStep(cfg, s, s')
    ensures WellFormed(cfg, s')
  {
    if CanceledOne(s, s') {
      var i :| 0 <= i < |s.reservations| &&
        s'.reservations == s.reservations[i := CanceledAt(s.reservations[i], s.now)];
      assert s.reservations[i] in s.reservations;
    }
  }

  /** Over every run: rows are well formed, none is ever marked completed, and the active rows of a
      host are pairwise disjoint. */
  lemma {:induction false} RunsWellFormed(cfg: Settings, start: int, run: seq<Request>)
    ensures WellFormed(cfg, Run(cfg, start, run))
  {
    if |run| > 0 {
      RunsWellFormed(cfg, start, run[..|run| - 1]);
      var s := Run(cfg, start, run[..|run| - 1]);
      TableStepHolds(cfg, s, run[|run| - 1]);
      WellFormedKept(cfg, s, Run(cfg, start, run));
    }
  }

  /** The window lies clear of every active row of the host; touching one is no obstacle. */
  ghost predicate Clear(rs: seq<Reservation>, host: int, start: int, end: int) {
    forall r :: r in rs && Active(r) && r.host == host ==> r.end <= start || end <= r.start
  }

  lemma FreeIsClear(rs: seq<Reservation>, host: int, start: int, end: int)
    requires start < end && forall r :: r in rs ==> r.start < r.end
    ensures Free(rs, host, start, end) <==> Clear(rs, host, start, end)
  {
    assert forall i :: 0 <= i < |rs| ==> rs[i] in rs;
    if !Clear(rs, host, start, end) {
      var r :| r in rs && Active(r) && r.host == host && r.end > start && end > r.start;
      var i :| 0 <= i < |rs| && rs[i] == r;
      assert Meets(rs[i].start, rs[i].end, start, end);
    }
  }

  /** The quota check, by the rows it counts and the minutes it adds up. */
  lemma QuotaExact(cfg: Settings, s: State, user: int, start: int, offset: int, end: int)
    ensures CheckQuota(cfg, s, user, start, offset, end).None? <==> QuotasLeaveRoom(cfg, s, user, start, offset, end)
    ensures CheckQuota(cfg, s, user, start, offset, end) == Some(ConcurrentQuota) <==>
      |OpenRows(s.reservations, user, s.now)| >= cfg.maxConcurrent
  {
    var day := DayStart(start, offset);
    OpenCounts(s.reservations, user, s.now);
    MinutesAreHeld(s.reservations, user, day);
    if QuotasLeaveRoom(cfg, s, user, start, offset, end) {
      var other :|
        && (other + offset * MINUTE) % (24 * 60 * MINUTE) == 0 && other <= start < other + 24 * 60 * MINUTE
        && MinutesInDay(s.reservations, user, other) + (end - start) / MINUTE <= cfg.maxHoursPerDay * 60;
      DayStartUnique(start, offset, other);
    }
    assert (day + offset * MINUTE) % (24 * 60 * MINUTE) == 0 && day <= start < day + 24 * 60 * MINUTE;
  }

  lemma NothingInIsFree(rs: seq<Reservation>, host: int, start: int, end: int)
    requires start < end && forall r :: r in rs ==> r.start < r.end
    ensures Free(rs, host, start, end) <==> NothingIn(rs, host, start, end)
  {
    assert forall i :: 0 <= i < |rs| ==> rs[i] in rs;
    forall i | 0 <= i < |rs| && rs[i].host == host && rs[i].status != Canceled
      ensures Meets(rs[i].start, rs[i].end, start, end) <==> !(rs[i].end <= start || end <= rs[i].start)
    {
    }
  }

  /** What an accepted booking adds, and that it adds nothing else. */
  ghost predicate Adds(s: State, s': State, r: Reservation) {
    s' == s.(reservations := s.reservations + [r], audit := s.audit + [BookingCreated(|s.reservations|, r.user)])
  }

  lemma MayBookIsChecks(cfg: Settings, s: State, user: User, host: int, starts: Stamp, ends: Stamp)
    requires WellFormed(cfg, s)
    ensures MayBook(cfg, s, user, host, starts, ends) <==>
      && WindowOk(cfg, s.now, starts, ends) && HostExists(s, host)
      && CheckQuota(cfg, s, user.id, starts.utc, starts.offset, ends.utc).None?
      && Free(s.reservations, host, starts.utc, ends.utc)
  {
    if starts.Aware? && ends.Aware? {
      QuotaExact(cfg, s, user.id, starts.utc, starts.offset, ends.utc);
      if starts.utc < ends.utc {
        NothingInIsFree(s.reservations, host, starts.utc, ends.utc);
      }
    }
  }

  lemma CreateOutcome(cfg: Settings, s: State, user: User, host: int, starts: Stamp, ends: Stamp)
    requires WellFormed(cfg, s)
    ensures var (s', booked) := Create(cfg, s, user, host, starts, ends);
      && (booked.Success? <==> MayBook(cfg, s, user, host, starts, ends))
      && (booked.Success? ==>
            && booked.value == |s.reservations|
            && Adds(s, s', Reservation(user.id, host, starts.utc, ends.utc, starts.offset, Confirmed, None)))
      && (booked.Failure? ==> s' == s)
  {
    MayBookIsChecks(cfg, s, user, host, starts, ends);
  }

  /** In every reachable state a booking is accepted exactly when both bounds read :00 or :30 on their
      own clocks, they are in order, no further apart than allowed, not past and not too far ahead, the
      host exists, the quotas leave room, and every uncancelled row of the host ends before the window or
      begins after it. It then adds that confirmed row and its audit entry and nothing else, and a
      refused one changes nothing. */
  lemma AcceptedIff(cfg: Settings, start: int, run: seq<Request>, user: User, host: int, starts: Stamp, ends: Stamp)
    ensures var s := Run(cfg, start, run);
      var (s', booked) := Answer(cfg, s, Book(user, host, starts, ends));
      && (booked.Success? <==> MayBook(cfg, s, user, host, starts, ends))
      && (booked.Success? ==>
            && |set i | 0 <= i < |s.reservations| && s.reservations[i].user == user.id
                 && s.reservations[i].status != Canceled && s.reservations[i].end > s.now| < cfg.maxConcurrent
            && booked.value == |s.reservations|
            && Adds(s, s', Reservation(user.id, host, starts.utc, ends.utc, starts.offset, Confirmed, None)))
      && (booked.Failure? ==> s' == s)
  {
    var s := Run(cfg, start, run);
    RunsWellFormed(cfg, start, run);
    CreateOutcome(cfg, s, user, host, starts, ends);
    assert OpenRows(s.reservations, user.id, s.now) ==
      set i | 0 <= i < |s.reservations| && s.reservations[i].user == user.id
        && s.reservations[i].status != Canceled && s.reservations[i].end > s.now;
  }

  /** What a cancellation answers and writes. */
  lemma CancelWrites(cfg: Settings, s: State, user: User, id: int)
    ensures var (s', answer) := Answer(cfg, s, Request.Cancel(user, id));
      && (answer.Success? <==> 0 <= id < |s.reservations| && (user.admin || s.reservations[id].user == user.id))
      && (answer.Failure? ==> s' == s)
      && (answer.Success? ==>
            && s'.reservations == (
                 if s.reservations[id].status == Canceled then s.reservations
                 else s.reservations[id := s.reservations[id].(status := Canceled, canceledAt := Some(s.now))])
            && s'.tokens == s.tokens && s'.inflight == s.inflight && s'.now == s.now)
  {
  }

  /** Non-empty windows, pairwise disjoint on each host. */
  ghost predicate Orderly(rs: seq<Reservation>) {
    Disjoint(rs) && forall r :: r in rs ==> r.start < r.end
  }

  lemma ClearWithout(rs: seq<Reservation>, without: seq<Reservation>, id: nat)
    requires Orderly(rs) && id < |rs| == |without| && without == rs[id := without[id]]
    requires Active(rs[id]) && !Active(without[id])
    ensures Clear(without, rs[id].host, rs[id].start, rs[id].end)
  {
    var gone := rs[id];
    assert gone in rs;
    forall r | r in without && Active(r) && r.host == gone.host
      ensures r.end <= gone.start || gone.end <= r.start
    {
      var i :| 0 <= i < |without| && without[i] == r;
      assert rs[i] == r && r in rs;
      assert i < id || id < i;
    }
  }

  lemma ClearIsNothingIn(rs: seq<Reservation>, host: int, start: int, end: int)
    requires Clear(rs, host, start, end)
    ensures NothingIn(rs, host, start, end)
  {
    assert forall i :: 0 <= i < |rs| ==> rs[i] in rs;
  }

  /** A cancellation succeeds exactly for the owner or an admin of an existing row, again and again.
      In every reachable state it marks an active row, which keeps its user, host and bounds, and clears
      its window on its host; it changes no other row and no token, repeated it changes no row, and
      refused it changes nothing. */
  lemma CancelOutcome(cfg: Settings, start: int, run: seq<Request>, user: User, id: int)
    ensures var s := Run(cfg, start, run);
      var (s', answer) := Answer(cfg, s, Request.Cancel(user, id));
      && (answer.Success? <==> 0 <= id < |s.reservations| && (user.admin || s.reservations[id].user == user.id))
      && (answer.Failure? ==> s' == s)
      && (answer.Success? ==>
            && var r := s.reservations[id];
            && s'.reservations == (
                 if r.status == Canceled then s.reservations
                 else s.reservations[id := r.(status := Canceled, canceledAt := Some(s.now))])
            && s'.tokens == s.tokens && s'.inflight == s.inflight && s'.now == s.now
            && (r.status != Canceled ==> NothingIn(s'.reservations, r.host, r.start, r.end))
            && var (s'', again) := Answer(cfg, s', Request.Cancel(user, id));
               again.Success? && s''.reservations == s'.reservations)
  {
    RunsWellFormed(cfg, start, run);
    var s := Run(cfg, start, run);
    var (s', answer) := Answer(cfg, s, Request.Cancel(user, id));
    CancelWrites(cfg, s, user, id);
    if answer.Success? {
      CancelWrites(cfg, s', user, id);
      if s.reservations[id].status != Canceled {
        ClearWithout(s.reservations, s'.reservations, id);
        ClearIsNothingIn(s'.reservations, s.reservations[id].host, s.reservations[id].start, s.reservations[id].end);
      }
    }
  }
}
