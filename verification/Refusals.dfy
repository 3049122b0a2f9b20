/** Two runs in which what the user was just shown or given is refused a moment later. */
module Refusals {
  import opened Clock
  import opened Domain
  import opened Tally
  import opened Booking
  import opened Tokens
  import opened Machine
  import opened Calendar
  import opened Drag
  import opened Scenario

  /** One microsecond before a half hour of user 3 begins, user 2 takes the idle host right away. */
  lemma WindowBeforeNext(s: State)
    requires s.hosts == [Host(Idle, Some(SLOT - 1))] && s.reservations == [HalfHour(SLOT)] && s.now == SLOT - 1
    ensures WindowFor(s, 0) == (SLOT - SECOND, SLOT)
    ensures CreateInstant(DEFAULTS, s, User(2, false), 0).1.Success?
  {
    var next := NextStart(s.reservations, 0, s.now);
    assert StartsLater(s.reservations[0], 0, s.now) && s.reservations[0] in s.reservations;
    assert next == Some(SLOT);
    assert WindowFor(s, 0) == (SLOT - SECOND, SLOT);
    NothingElseHeld(s.reservations, DayStart(SLOT - SECOND, 0));
    assert CheckQuota(DEFAULTS, s, 2, SLOT - SECOND, 0, SLOT).None?;
  }

  lemma NothingElseHeld(rs: seq<Reservation>, day: int)
    requires rs == [HalfHour(SLOT)]
    ensures Total(rs, Open(2, SLOT - 1)) == 0 && Total(rs, Held(2, day)) == 0
  {
    assert rs[..0] == [];
    assert Total(rs, Open(2, SLOT - 1)) == Open(2, SLOT - 1)(rs[0]);
    assert Total(rs, Held(2, day)) == Held(2, day)(rs[0]);
  }

  /** The second reading of the clock, one microsecond later, refuses the token of the booking just made. */
  lemma GateRefusesAfterBooking()
    ensures var s := Run(DEFAULTS, SLOT - 1, ONLINE + [BookHalfHour(SLOT)]);
      var (s1, booked) := CreateInstant(DEFAULTS, s, User(2, false), 0);
      && booked.Success? && booked.value < |s1.reservations|
      && ConnectGate(DEFAULTS, s1.(now := s.now + 1), User(2, false), booked.value) == Some(WindowExpired)
  {
    HalfHourBooked(SLOT - 1, SLOT);
    WindowBeforeNext(Run(DEFAULTS, SLOT - 1, ONLINE + [BookHalfHour(SLOT)]));
  }

  /** The calendar row of the host over the first four hours, and the answer of its query. */
  function FourHours(s: State, rows: seq<nat>): seq<Slot>
    requires RowsOf(s.reservations, rows)
  {
    Row(s.reservations, rows, User(2, false), 0, 0, 8 * SLOT, 8)
  }

  lemma CellsOfRow(s: State, rows: seq<nat>)
    requires s.reservations == (if rows == [] then [] else [HalfHour(4 * SLOT)])
    requires rows == [] || rows == [0]
    ensures Cells(0, 8 * SLOT) == 8
    ensures QueryResult(s.reservations, rows, None, 0, 8 * SLOT)
    ensures FourHours(s, rows)[4].status == if rows == [] then OPEN else OCCUPIED
  {
    assert FourHours(s, rows)[4] == SlotAt(s.reservations, rows, User(2, false), 0, 4 * SLOT, 8 * SLOT);
  }

  /** A click on column 4 while the host has no booking, released once user 3 has booked that half hour:
      the drag is committed all the same, its anchor is taken, and the request is refused. */
  lemma StaleAnchorRefused()
    ensures var shown := Run(DEFAULTS, 0, ONLINE);
      var s := Run(DEFAULTS, 0, ONLINE + [BookHalfHour(4 * SLOT)]);
      && |shown.hosts| == 1 && shown.reservations == [] && s.reservations == [HalfHour(4 * SLOT)]
      && QueryResult(shown.reservations, [], None, 0, 8 * SLOT) && QueryResult(s.reservations, [0], None, 0, 8 * SLOT)
      && Commits(FourHours(shown, []), shown.hosts[0].status, true, None, FourHours(s, [0]), None, 4, 4, 4, 4)
      && FourHours(s, [0])[4].status == OCCUPIED
      && Create(DEFAULTS, s, User(2, false), 0, Aware(4 * SLOT, 0), Aware(5 * SLOT, 0)).1.Failure?
  {
    OnlineReached(0);
    HalfHourBooked(0, 4 * SLOT);
    var shown, s := Run(DEFAULTS, 0, ONLINE), Run(DEFAULTS, 0, ONLINE + [BookHalfHour(4 * SLOT)]);
    CellsOfRow(shown, []);
    CellsOfRow(s, [0]);
    TakenRefused(s);
  }

  lemma TakenRefused(s: State)
    requires s.reservations == [HalfHour(4 * SLOT)]
    ensures Create(DEFAULTS, s, User(2, false), 0, Aware(4 * SLOT, 0), Aware(5 * SLOT, 0)).1.Failure?
  {
    assert Meets(s.reservations[0].start, s.reservations[0].end, 4 * SLOT, 5 * SLOT);
  }
}
