/** What the promises to users are stated in: the fields of the tables, written out. No step of the
    broker is defined by these; the lemmas about the steps say how they meet them. */
module Terms {
  import opened Clock
  import opened Domain
  import opened Tally

  /** The rows of the user that are not cancelled and not over. */
  ghost function OpenRows(rs: seq<Reservation>, user: int, now: int): set<int> {
    set i | 0 <= i < |rs| && rs[i].user == user && rs[i].status != Canceled && rs[i].end > now
  }

  /** Whole minutes of what the rows of the user that are not cancelled have inside the 24 hours from
      `day` on, row by row. */
  ghost function MinutesInDay(rs: seq<Reservation>, user: int, day: int): int {
    Total(rs, (r: Reservation) =>
      if r.user == user && r.status != Canceled && r.start < r.end && r.start < day + DAY && day < r.end
      then (Min(r.end, day + DAY) - Max(r.start, day)) / MINUTE
      else 0)
  }

  /** Both quotas leave room for `[start, end)`, whose day begins at the midnight before `start` on the
      clock that runs `offset` minutes ahead of UTC. */
  ghost predicate QuotasLeaveRoom(cfg: Settings, s: State, user: int, start: int, offset: int, end: int) {
    && |OpenRows(s.reservations, user, s.now)| < cfg.maxConcurrent
    && exists day ::
         && (day + offset * MINUTE) % (24 * 60 * MINUTE) == 0 && day <= start < day + 24 * 60 * MINUTE
         && MinutesInDay(s.reservations, user, day) + (end - start) / MINUTE <= cfg.maxHoursPerDay * 60
  }

  /** Every uncancelled row of the host ends before the window or begins after it. */
  ghost predicate NothingIn(rs: seq<Reservation>, host: int, start: int, end: int) {
    forall i :: 0 <= i < |rs| && rs[i].host == host && rs[i].status != Canceled ==>
      rs[i].end <= start || end <= rs[i].start
  }

  /** When a booking request must be accepted. */
  ghost predicate MayBook(cfg: Settings, s: State, user: User, host: int, starts: Stamp, ends: Stamp) {
    && starts.Aware? && ends.Aware?
    && (starts.utc + starts.offset * MINUTE) % (30 * MINUTE) == 0
    && (ends.utc + ends.offset * MINUTE) % (30 * MINUTE) == 0
    && starts.utc < ends.utc <= starts.utc + cfg.maxDurationMinutes * MINUTE
    && s.now <= starts.utc <= s.now + cfg.lookaheadDays * (24 * 60 * MINUTE)
    && 0 <= host < |s.hosts|
    && QuotasLeaveRoom(cfg, s, user.id, starts.utc, starts.offset, ends.utc)
    && NothingIn(s.reservations, host, starts.utc, ends.utc)
  }

  /** A confirmed reservation of the host covers the instant. */
  ghost predicate Covered(rs: seq<Reservation>, host: int, at: int) {
    exists i :: 0 <= i < |rs| && rs[i].host == host && rs[i].status == Confirmed && rs[i].start <= at < rs[i].end
  }

  /** A confirmed row of the host that begins later. */
  ghost predicate Later(r: Reservation, host: int, now: int) {
    r.status == Confirmed && r.host == host && now < r.start
  }

  /** Where an instant booking ends: with the half hour in which two and a half hours are over, unless a
      confirmed row of the host begins before that; then where the first of them begins. */
  ghost predicate InstantEnd(rs: seq<Reservation>, host: int, now: int, end: int) {
    && now < end
    && (forall r :: r in rs && Later(r, host, now) ==> end <= r.start)
    && (forall g :: g % (30 * MINUTE) == 0 && g - 30 * MINUTE <= now + 150 * MINUTE < g ==>
          end <= g && (end == g || exists r :: r in rs && Later(r, host, now) && r.start == end))
  }

  /** When a host can be used right away. */
  ghost predicate FreeNow(s: State, host: int) {
    && 0 <= host < |s.hosts| && s.hosts[host].status == Idle
    && forall r :: r in s.reservations && r.host == host && r.status != Canceled ==> !(r.start <= s.now < r.end)
  }

  /** The token is usable for the purpose: neither consumed nor revoked, and not expired. */
  ghost predicate Answers(t: Token, raw: string, purpose: Purpose, now: int) {
    && t.jti == Sha(raw) && t.purpose == purpose
    && t.consumedAt == None && t.revokedAt == None && now < t.expiresAt
  }

  lemma MinutesAreHeld(rs: seq<Reservation>, user: int, day: int)
    ensures MinutesInDay(rs, user, day) == Total(rs, Held(user, day))
  {
    TotalSame(rs, Held(user, day), (r: Reservation) =>
      if r.user == user && r.status != Canceled && r.start < r.end && r.start < day + DAY && day < r.end
      then (Min(r.end, day + DAY) - Max(r.start, day)) / MINUTE
      else 0);
  }

  /** The count of open bookings is the number of those rows. */
  lemma {:induction false} OpenCounts(rs: seq<Reservation>, user: int, now: int)
    ensures Total(rs, Open(user, now)) == |OpenRows(rs, user, now)|
  {
    if |rs| > 0 {
      var n := |rs| - 1;
      OpenCounts(rs[..n], user, now);
      LastOpen(rs, user, now, n);
    }
  }

  lemma LastOpen(rs: seq<Reservation>, user: int, now: int, n: nat)
    requires n == |rs| - 1
    ensures n !in OpenRows(rs[..n], user, now)
    ensures OpenRows(rs, user, now) ==
      OpenRows(rs[..n], user, now) +
      if rs[n].user == user && rs[n].status != Canceled && rs[n].end > now then {n} else {}
  {
    forall i
      ensures i in OpenRows(rs, user, now) <==>
        i in OpenRows(rs[..n], user, now) ||
        (i == n && rs[n].user == user && rs[n].status != Canceled && rs[n].end > now)
    {
      assert 0 <= i < n ==> rs[..n][i] == rs[i];
    }
  }

  /** The rows of the user that are not cancelled and cover the instant. */
  ghost function CoveringRows(rs: seq<Reservation>, user: int, at: int): set<int> {
    set i | 0 <= i < |rs| && rs[i].user == user && rs[i].status != Canceled && rs[i].start <= at < rs[i].end
  }

  lemma {:induction false} CoveringCounts(rs: seq<Reservation>, user: int, at: int)
    ensures Total(rs, Covering(user, at)) == |CoveringRows(rs, user, at)|
  {
    if |rs| > 0 {
      var n := |rs| - 1;
      CoveringCounts(rs[..n], user, at);
      LastCovering(rs, user, at, n);
    }
  }

  lemma LastCovering(rs: seq<Reservation>, user: int, at: int, n: nat)
    requires n == |rs| - 1
    ensures n !in CoveringRows(rs[..n], user, at)
    ensures CoveringRows(rs, user, at) ==
      CoveringRows(rs[..n], user, at) +
      if rs[n].user == user && rs[n].status != Canceled && rs[n].start <= at < rs[n].end then {n} else {}
  {
    forall i
      ensures i in CoveringRows(rs, user, at) <==>
        i in CoveringRows(rs[..n], user, at) ||
        (i == n && rs[n].user == user && rs[n].status != Canceled && rs[n].start <= at < rs[n].end)
    {
      assert 0 <= i < n ==> rs[..n][i] == rs[i];
    }
  }

  /** The slot whose end an uncut instant booking gets. */
  lemma SlotEndExists(now: int)
    ensures exists g :: g % (30 * MINUTE) == 0 && g - 30 * MINUTE <= now + 150 * MINUTE < g
  {
    var g := FloorSlot(now + 150 * MINUTE) + 30 * MINUTE;
    GridSteps(FloorSlot(now + 150 * MINUTE), 1);
    assert g % (30 * MINUTE) == 0;
  }

  /** There is one such end. */
  lemma InstantEndUnique(rs: seq<Reservation>, rs': seq<Reservation>, host: int, now: int, end: int, end': int)
    requires InstantEnd(rs, host, now, end) && InstantEnd(rs', host, now, end')
    requires forall r :: Later(r, host, now) ==> (r in rs <==> r in rs')
    ensures end == end'
  {
    SlotEndExists(now);
    var g :| g % (30 * MINUTE) == 0 && g - 30 * MINUTE <= now + 150 * MINUTE < g;
  }
}
