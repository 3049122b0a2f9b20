/** The two availability queries, and their agreement with the instant booking that follows and with
    the calendar. */
module Availability {
  import opened Clock
  import opened Domain
  import opened Booking
  import opened Tokens
  import opened Machine
  import opened BookingRuns
  import opened Calendar
  import opened Terms
  import Endpoints

  /** WHERE clause of the query for hosts that can be used right now. */
  predicate UsableNow(s: State, host: int) {
    HostExists(s, host) && s.hosts[host].status == Idle && Vacant(s.reservations, host, s.now)
  }

  lemma UsableIsFreeNow(s: State, host: int)
    ensures UsableNow(s, host) <==> FreeNow(s, host)
  {
    assert forall i :: 0 <= i < |s.reservations| ==> s.reservations[i] in s.reservations;
    assert forall r :: r in s.reservations ==> exists i :: 0 <= i < |s.reservations| && s.reservations[i] == r;
  }

  /** The window of an instant booking ends where it must. */
  lemma WindowEnds(s: State, host: int)
    ensures InstantEnd(s.reservations, host, s.now, WindowFor(s, host).1)
  {
    var next := NextStart(s.reservations, host, s.now);
    var end := WindowFor(s, host).1;
    assert forall r :: r in s.reservations && Later(r, host, s.now) ==> next.Some? && next.value <= r.start;
    forall g | g % (30 * MINUTE) == 0 && g - 30 * MINUTE <= s.now + 150 * MINUTE < g
      ensures end <= g && (end == g || exists r :: r in s.reservations && Later(r, host, s.now) && r.start == end)
    {
      InstantWindowExact(s.now, next, g);
      if next.Some? {
        var r :| r in s.reservations && r.status == Confirmed && r.host == host && s.now < r.start == next.value;
        assert Later(r, host, s.now);
      }
    }
  }

  /** Only confirmed rows of the host that begin later cut a window: tables that agree on those, whatever
      else they hold, cancelled rows among it, give the same end. */
  lemma OthersCutNothing(s: State, s': State, host: int)
    requires s.now == s'.now
    requires forall r: Reservation :: r.status == Confirmed && r.host == host && s.now < r.start ==>
      (r in s.reservations <==> r in s'.reservations)
    ensures WindowFor(s, host).1 == WindowFor(s', host).1
  {
    WindowEnds(s, host);
    WindowEnds(s', host);
    InstantEndUnique(s.reservations, s'.reservations, host, s.now, WindowFor(s, host).1, WindowFor(s', host).1);
  }

  /** The first `k` hosts' share of the query's rows, by id. */
  function UsableHosts(s: State, k: nat): (rows: seq<int>)
    requires k <= |s.hosts|
    ensures forall host :: host in rows <==> host < k && UsableNow(s, host)
    ensures forall i :: 0 <= i < |rows| ==> 0 <= rows[i] < k
    ensures forall i, j :: 0 <= i < j < |rows| ==> rows[i] < rows[j]
  {
    if k == 0 then []
    else if UsableNow(s, k - 1) then UsableHosts(s, k - 1) + [k - 1] else UsableHosts(s, k - 1)
  }

  /** Hosts usable right now, each with the end an instant booking would get. */
  method ListInstantHosts(s: State) returns (result: seq<(int, int)>)
    ensures forall host, until ::
      (host, until) in result <==> FreeNow(s, host) && InstantEnd(s.reservations, host, s.now, until)
    ensures forall i, j :: 0 <= i < j < |result| ==> result[i].0 < result[j].0
  {
    var rows := UsableHosts(s, |s.hosts|);
    result := [];
    var i := 0;
    while i < |rows|
      invariant i == |result| <= |rows|
      invariant forall k :: 0 <= k < i ==> result[k] == (rows[k], WindowFor(s, rows[k]).1)
    {
      var next := NextStart(s.reservations, rows[i], s.now);
      result := result + [(rows[i], InstantWindow(s.now, next).1)];
      i := i + 1;
    }
    forall host, until
      ensures (host, until) in result <==> FreeNow(s, host) && InstantEnd(s.reservations, host, s.now, until)
    {
      UsableIsFreeNow(s, host);
      WindowEnds(s, host);
      if InstantEnd(s.reservations, host, s.now, until) {
        InstantEndUnique(s.reservations, s.reservations, host, s.now, until, WindowFor(s, host).1);
      }
      if UsableNow(s, host) && until == WindowFor(s, host).1 {
        var k :| 0 <= k < |rows| && rows[k] == host;
        assert result[k] == (host, until);
      }
    }
  }

  /** Where no active row covers the present, the instant window is free, and the other way round:
      rows end on whole seconds, so flooring `now` reaches none of them, and the cut at the next
      booking keeps the window clear of the rest. */
  lemma VacantIsFree(cfg: Settings, s: State, host: int)
    requires WellFormed(cfg, s)
    ensures Vacant(s.reservations, host, s.now) <==>
      Free(s.reservations, host, WindowFor(s, host).0, WindowFor(s, host).1)
  {
    forall i | 0 <= i < |s.reservations| && Active(s.reservations[i]) && s.reservations[i].host == host
      ensures Covers(s.reservations[i], s.now) <==>
        Meets(s.reservations[i].start, s.reservations[i].end, WindowFor(s, host).0, WindowFor(s, host).1)
    {
      assert s.reservations[i] in s.reservations;
      CoversIsMeets(s, host, s.reservations[i]);
    }
  }

  lemma CoversIsMeets(s: State, host: int, r: Reservation)
    requires r in s.reservations && r.host == host && r.status == Confirmed
    requires r.start < r.end && r.end % SECOND == 0
    ensures Covers(r, s.now) <==> Meets(r.start, r.end, WindowFor(s, host).0, WindowFor(s, host).1)
  {
    var w := WindowFor(s, host);
    if r.start > s.now {
      assert StartsLater(r, host, s.now);
    } else {
      WholeSecondPast(r.end, w.0, s.now);
    }
  }

  /** The list predicts the write: in every reachable state an instant booking succeeds exactly when the
      host is idle, no uncancelled row covers the present, and the quotas leave room; when all but the
      second hold it fails with the overlap. The stored row begins at the current second and ends where the
      list says: uncut on the grid, more than two and a half hours on, unless a confirmed row of the host
      begins before that. */
  lemma ListPredictsBooking(cfg: Settings, start: int, run: seq<Request>, user: User, host: int)
    ensures Predicted(cfg, Run(cfg, start, run), user, host)
  {
    RunsWellFormed(cfg, start, run);
    PredictedWhenWellFormed(cfg, Run(cfg, start, run), user, host);
  }

  /** What the list says of an instant booking, and what the booking does. */
  ghost predicate Predicted(cfg: Settings, s: State, user: User, host: int) {
    var (s', booked) := CreateInstant(cfg, s, user, host);
    var w := WindowFor(s, host);
    && w.0 % SECOND == 0 && w.0 <= s.now < w.0 + SECOND && InstantEnd(s.reservations, host, s.now, w.1)
    && (booked.Success? <==> FreeNow(s, host) && QuotasLeaveRoom(cfg, s, user.id, w.0, 0, w.1))
    && (booked == Failure(Overlap) <==>
          && 0 <= host < |s.hosts| && s.hosts[host].status == Idle
          && QuotasLeaveRoom(cfg, s, user.id, w.0, 0, w.1) && !FreeNow(s, host))
    && (booked == Failure(HostNotFound) <==> !(0 <= host < |s.hosts|))
    && (booked == Failure(HostNotAvailable) <==> 0 <= host < |s.hosts| && s.hosts[host].status != Idle)
    && (booked.Success? ==>
          && booked.value == |s.reservations|
          && Adds(s, s', Reservation(user.id, host, w.0, w.1, 0, Confirmed, None))
          && (|| (w.1 % (30 * MINUTE) == 0 && w.1 > s.now + 150 * MINUTE)
              || exists r :: r in s.reservations && r.status == Confirmed && r.host == host && s.now < r.start == w.1))
    && (booked.Failure? ==> s' == s && booked.error != DuplicateToken)
  }

  lemma PredictedWhenWellFormed(cfg: Settings, s: State, user: User, host: int)
    requires WellFormed(cfg, s)
    ensures Predicted(cfg, s, user, host)
  {
    VacantIsFree(cfg, s, host);
    UsableIsFreeNow(s, host);
    WindowEnds(s, host);
    WindowCut(s, host);
    QuotaExact(cfg, s, user.id, WindowFor(s, host).0, 0, WindowFor(s, host).1);
  }

  lemma WindowCut(s: State, host: int)
    ensures var end := WindowFor(s, host).1;
      || (end % (30 * MINUTE) == 0 && end > s.now + 150 * MINUTE)
      || exists r :: r in s.reservations && r.status == Confirmed && r.host == host && s.now < r.start == end
  {
    SlotEndExists(s.now);
    WindowEnds(s, host);
    var g :| g % (30 * MINUTE) == 0 && g - 30 * MINUTE <= s.now + 150 * MINUTE < g;
    var end := WindowFor(s, host).1;
    if end != g {
      var r :| r in s.reservations && Later(r, host, s.now) && r.start == end;
    }
  }

  /** The window arithmetic never breaks the instant endpoint: once the row is in, the token gate
      passes, and the whole call fails only if the random token repeats an old one. The new row covers
      the present, the token expires with it, and the host ends up in use. */
  lemma InstantDelivers(cfg: Settings, s: State, user: User, host: int, raw: string)
    requires CreateInstant(cfg, s, user, host).1.Success?
    ensures var (s', booked) := Endpoints.Instant(cfg, s, user, host, raw);
      && (booked.Success? <==> Fresh(s.tokens, raw))
      && (booked.Failure? ==> s' == s && booked.error == DuplicateToken)
      && (booked.Success? ==>
            && booked.value < |s'.reservations| == |s.reservations| + 1
            && |s'.tokens| == |s.tokens| + 1
            && var r := s'.reservations[booked.value];
               var t := s'.tokens[|s.tokens|];
            && r.user == user.id && r.host == host && r.status == Confirmed && Covers(r, s.now)
            && t.jti == Sha(raw) && Live(t) && t.reservation == Some(booked.value) && t.host == host
            && t.purpose == Purpose.Connect && t.expiresAt == r.end
            && s'.hosts[host].status == InUse)
  {
    var (s1, booked) := CreateInstant(cfg, s, user, host);
    assert ConnectGate(cfg, s1, user, booked.value).None?;
  }

  /** The booking and the token gate read the clock separately. However much later the gate reads it,
      it passes exactly while the window lasts; within the first two and a half hours it can only
      refuse because a later booking of the host has begun between the two readings. */
  lemma InstantGateLater(cfg: Settings, s: State, user: User, host: int, lag: nat)
    requires CreateInstant(cfg, s, user, host).1.Success?
    ensures var (s1, booked) := CreateInstant(cfg, s, user, host);
      var gate := ConnectGate(cfg, s1.(now := s.now + lag), user, booked.value);
      && (gate.None? <==> s.now + lag < WindowFor(s, host).1)
      && (gate.Some? ==> gate == Some(WindowExpired))
      && (gate.Some? && lag <= 150 * MINUTE ==>
            exists r ::
              r in s.reservations && r.status == Confirmed && r.host == host && s.now < r.start <= s.now + lag)
  {
    WindowCut(s, host);
  }

  /** WHERE clause of the slot-mode query. */
  predicate IdleThroughout(s: State, host: int, from: int, until: int) {
    && HostExists(s, host)
    && s.hosts[host].status == Idle
    && forall i ::
         0 <= i < |s.reservations| && s.reservations[i].host == host && s.reservations[i].status == Confirmed ==>
         !Meets(s.reservations[i].start, s.reservations[i].end, from, until)
  }

  function IdleHosts(s: State, from: int, until: int, k: nat): (rows: seq<int>)
    requires k <= |s.hosts|
    ensures forall host :: host in rows <==> host < k && IdleThroughout(s, host, from, until)
    ensures forall i :: 0 <= i < |rows| ==> 0 <= rows[i] < k
    ensures forall i, j :: 0 <= i < j < |rows| ==> rows[i] < rows[j]
  {
    if k == 0 then []
    else if IdleThroughout(s, k - 1, from, until) then IdleHosts(s, from, until, k - 1) + [k - 1]
    else IdleHosts(s, from, until, k - 1)
  }

  /** Slot mode: both bounds, on the grid and in order, or an error. */
  function AvailableThroughout(s: State, from: Stamp, until: Stamp): (r: Result<seq<int>>)
    ensures r.Success? <==> IsGridAligned(from) && IsGridAligned(until) && from.utc < until.utc
    ensures r.Success? ==> forall host :: host in r.value <==>
      && 0 <= host < |s.hosts| && s.hosts[host].status == Idle
      && forall r :: r in s.reservations && r.host == host && r.status == Confirmed && r.start < r.end ==>
           r.end <= from.utc || until.utc <= r.start
    ensures r.Success? ==> forall i, j :: 0 <= i < j < |r.value| ==> r.value[i] < r.value[j]
  {
    var bounds := CheckBounds(from, until);
    if bounds.Some? then Failure(bounds.value)
    else
      assert forall i :: 0 <= i < |s.reservations| ==> s.reservations[i] in s.reservations;
      assert forall r :: r in s.reservations ==> exists i :: 0 <= i < |s.reservations| && s.reservations[i] == r;
      Success(IdleHosts(s, from.utc, until.utc, |s.hosts|))
  }

  /** In every reachable state slot mode lists a host exactly when it is idle and every one of its
      calendar cells in the window is open. */
  lemma SlotModeIsCalendar(cfg: Settings, start: int, run: seq<Request>, rows: seq<nat>, filter: Option<int>,
    viewer: User, from: Stamp, until: Stamp, host: int)
    requires AvailableThroughout(Run(cfg, start, run), from, until).Success?
    requires QueryResult(Run(cfg, start, run).reservations, rows, filter, from.utc, until.utc)
    requires filter.Some? ==> host == filter.value
    ensures var s := Run(cfg, start, run);
      var row := Row(s.reservations, rows, viewer, host, from.utc, until.utc, Cells(from.utc, until.utc));
      host in AvailableThroughout(s, from, until).value <==>
        HostExists(s, host) && s.hosts[host].status == Idle && forall k :: 0 <= k < |row| ==> row[k].status == OPEN
  {
    RunsWellFormed(cfg, start, run);
    var s := Run(cfg, start, run);
    AllOpenIsFree(s.reservations, rows, filter, viewer, from.utc, until.utc, host);
    assert forall i :: 0 <= i < |s.reservations| ==> s.reservations[i] in s.reservations;
  }

  /** The cells of a window are all open exactly when the window is free. */
  lemma AllOpenIsFree(
    rs: seq<Reservation>, rows: seq<nat>, filter: Option<int>, viewer: User, from: int, until: int, host: int)
    requires from < until && QueryResult(rs, rows, filter, from, until) && (filter.Some? ==> host == filter.value)
    ensures var row := Row(rs, rows, viewer, host, from, until, Cells(from, until));
      Free(rs, host, from, until) <==> forall k :: 0 <= k < |row| ==> row[k].status == OPEN
  {
    var row := Row(rs, rows, viewer, host, from, until, Cells(from, until));
    forall k | 0 <= k < |row|
      ensures row[k].status == OPEN <==> Free(rs, host, from + k * SLOT, CellEnd(from + k * SLOT, until))
    {
      OpenIsFree(rs, rows, filter, from, until, host, from + k * SLOT);
    }
    if !Free(rs, host, from, until) {
      var i :| 0 <= i < |rs| && Active(rs[i]) && rs[i].host == host && Meets(rs[i].start, rs[i].end, from, until);
      var k := CellOf(rs[i], from, until);
      assert row[k].status != OPEN;
    }
  }

  /** The first cell of the window that a row meets. */
  function CellOf(r: Reservation, from: int, until: int): (k: nat)
    requires from < until && Meets(r.start, r.end, from, until)
    ensures k < Cells(from, until) && Meets(r.start, r.end, from + k * SLOT, CellEnd(from + k * SLOT, until))
  {
    (Max(r.start, from) - from) / SLOT
  }
}
