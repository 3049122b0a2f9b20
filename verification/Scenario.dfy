/** How the concrete runs begin: one host that has just reported, and perhaps one booking on it. */
module Scenario {
  import opened Clock
  import opened Domain
  import opened Booking
  import opened Tokens
  import opened Machine
  import Endpoints

  const ONLINE: seq<Request> := [FIRST_HOST, Heartbeat("a", false, 0.0, 0.0)]

  /** The state those two requests leave. */
  function Online(start: int): State {
    State(start, [Host(Idle, Some(start))], [], [NewToken("a", 1, 0, None, Agent, start, start + 3650 * DAY)], map[],
      [StatusChanged(0, Offline, Idle, HeartbeatReceived)])
  }

  function Registered(start: int): State {
    Online(start).(hosts := [Host(Offline, None)], audit := [])
  }

  lemma HostRegistered(start: int)
    ensures Step(DEFAULTS, Initial(start), FIRST_HOST) == Registered(start)
  {
    assert [] + [Host(Offline, None)] == [Host(Offline, None)];
  }

  lemma HostReports(start: int)
    ensures Endpoints.Heartbeat(DEFAULTS, Registered(start), "a", false, 0.0, 0.0).0 == Online(start)
  {
    var s := Registered(start);
    assert s.tokens[0] in s.tokens && Usable(s.tokens[0], "a", Agent, start);
    assert !HasActive(s.reservations, 0, start);
  }

  lemma OnlineReached(start: int)
    ensures Run(DEFAULTS, start, ONLINE) == Online(start)
  {
    HostRegistered(start);
    HostReports(start);
    assert ONLINE[..1] == [FIRST_HOST] && ONLINE[..2] == ONLINE;
    RunNext(DEFAULTS, start, ONLINE, 0);
    RunNext(DEFAULTS, start, ONLINE, 1);
  }

  /** User 3 books the host for one half hour, stamped in UTC. */
  function BookHalfHour(t: int): Request {
    Book(User(3, false), 0, Aware(t, 0), Aware(t + SLOT, 0))
  }

  function HalfHour(t: int): Reservation {
    Reservation(3, 0, t, t + SLOT, 0, Confirmed, None)
  }

  lemma HalfHourBooked(start: int, t: int)
    requires OnGrid(t) && start <= t <= start + DAY
    ensures var s := Run(DEFAULTS, start, ONLINE + [BookHalfHour(t)]);
      s.hosts == [Host(Idle, Some(start))] && s.reservations == [HalfHour(t)] && s.now == start
  {
    OnlineReached(start);
    RunAppend(DEFAULTS, start, ONLINE, BookHalfHour(t));
    HalfHourFits(start, t);
    HalfHourInserted(start, t);
  }

  lemma HalfHourFits(start: int, t: int)
    requires OnGrid(t) && start <= t <= start + DAY
    ensures BookingDraft(DEFAULTS, Online(start), User(3, false), 0, Aware(t, 0), Aware(t + SLOT, 0)) ==
      Success(HalfHour(t))
  {
    GridSteps(t, 1);
    assert WindowOk(DEFAULTS, start, Aware(t, 0), Aware(t + SLOT, 0));
    assert CheckQuota(DEFAULTS, Online(start), 3, t, 0, t + SLOT).None?;
  }

  lemma HalfHourInserted(start: int, t: int)
    ensures var s := Insert(Online(start), HalfHour(t)).0;
      s.hosts == [Host(Idle, Some(start))] && s.reservations == [HalfHour(t)] && s.now == start
  {
    assert [] + [HalfHour(t)] == [HalfHour(t)];
  }
}
