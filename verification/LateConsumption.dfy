/** A run in which a verify request consumes a token that has expired since the request selected it. */
module LateConsumption {
  import opened Clock
  import opened Domain
  import opened Booking
  import opened Tokens
  import opened Machine
  import opened TokenRuns
  import opened Scenario
  import Availability
  import Endpoints

  /** An online host, an instant booking of it with its token, select; three hours pass; finish. */
  const LATE: seq<Request> :=
    ONLINE + [
      Request.Instant(User(2, false), 0, "b"),
      Request.VerifySelect(1, "b"),
      Advance(6 * SLOT),
      Request.VerifyFinish(1, true)]

  lemma InstantAccepted(s: State)
    requires s.hosts == [Host(Idle, Some(0))] && s.reservations == [] && s.now == 0
    ensures CreateInstant(DEFAULTS, s, User(2, false), 0).1.Success?
    ensures WindowFor(s, 0) == (0, 6 * SLOT)
  {
    assert CheckQuota(DEFAULTS, s, 2, 0, 0, 6 * SLOT).None?;
  }

  /** The instant endpoint on that host, from any state with no token of that name. */
  lemma InstantIssues(s: State)
    requires s.hosts == [Host(Idle, Some(0))] && s.reservations == [] && s.now == 0
    requires |s.tokens| == 1 && s.tokens[0].jti == Sha("a") && !ConsumedExpired(s)
    ensures var s' := Endpoints.Instant(DEFAULTS, s, User(2, false), 0, "b").0;
      && |s'.tokens| == 2 && s'.inflight == s.inflight && s'.now == 0
      && s'.tokens[1].expiresAt == 6 * SLOT && Usable(s'.tokens[1], "b", Purpose.Connect, 0)
      && NoConsumption(s, s')
  {
    InstantAccepted(s);
    Availability.InstantDelivers(DEFAULTS, s, User(2, false), 0, "b");
    InstantConsumesNone(DEFAULTS, s, User(2, false), 0, "b");
  }

  lemma NoneExpired(s: State, s': State)
    requires NoConsumption(s, s')
    requires forall i :: 0 <= i < |s.audit| ==> !s.audit[i].TokenConsumed?
    ensures !ConsumedExpired(s')
  {
    assert forall i :: 0 <= i < |s.audit| ==> s'.audit[i] == s'.audit[..|s.audit|][i];
  }

  /** What the instant endpoint leaves of the online host's state. */
  lemma OnlineIssues()
    ensures var s := Endpoints.Instant(DEFAULTS, Online(0), User(2, false), 0, "b").0;
      && |s.tokens| == 2 && s.inflight == map[] && s.now == 0
      && s.tokens[1].expiresAt == 6 * SLOT && Usable(s.tokens[1], "b", Purpose.Connect, 0)
      && !ConsumedExpired(s)
  {
    InstantIssues(Online(0));
    NoneExpired(Online(0), Endpoints.Instant(DEFAULTS, Online(0), User(2, false), 0, "b").0);
  }

  lemma InstantNext()
    ensures Run(DEFAULTS, 0, LATE[..3]) == Endpoints.Instant(DEFAULTS, Online(0), User(2, false), 0, "b").0
  {
    OnlineReached(0);
    assert LATE[..2] == ONLINE;
    RunNext(DEFAULTS, 0, LATE, 2);
  }

  lemma TokenIssuedByInstant()
    ensures var s := Run(DEFAULTS, 0, LATE[..3]);
      && |s.tokens| == 2 && s.inflight == map[] && s.now == 0
      && s.tokens[1].expiresAt == 6 * SLOT && Usable(s.tokens[1], "b", Purpose.Connect, 0)
      && !ConsumedExpired(s)
  {
    OnlineIssues();
    InstantNext();
  }

  lemma TokenSelected()
    ensures var s := Run(DEFAULTS, 0, LATE[..4]);
      && |s.tokens| == 2 && s.inflight == map[1 := Ticket(1, 0)] && s.now == 0
      && s.tokens[1].expiresAt == 6 * SLOT && Live(s.tokens[1])
      && !ConsumedExpired(s)
  {
    TokenIssuedByInstant();
    RunNext(DEFAULTS, 0, LATE, 3);
    var s := Run(DEFAULTS, 0, LATE[..3]);
    RunsOneLive(DEFAULTS, 0, LATE[..3]);
    FindsRow(s.tokens, "b", Purpose.Connect, 0, 1);
  }

  /** The log of this run ends with a consumption that came after the expiry of its token. */
  lemma ExpiredTokenConsumed()
    ensures var s := Run(DEFAULTS, 0, LATE);
      && |s.audit| > 0 && s.audit[|s.audit| - 1] == TokenConsumed(1, 0, 6 * SLOT)
      && |s.tokens| == 2 && s.tokens[1].expiresAt <= 6 * SLOT
      && ConsumedExpired(s)
  {
    TokenSelected();
    assert LATE[..4] + [Advance(6 * SLOT)] == LATE[..5];
    ExpiredAcceptedIff(DEFAULTS, 0, LATE[..4], 1, 6 * SLOT);
    RunNext(DEFAULTS, 0, LATE, 5);
    assert LATE[..6] == LATE;
    RunNext(DEFAULTS, 0, LATE, 4);
  }
}
