/** The two booking paths and cancellation, as functions from one table state to the next. */
module Booking {
  import opened Clock
  import opened Domain
  import opened Tally

  /** What a booking request must satisfy besides the quotas, in one sentence per check. */
  predicate WindowOk(cfg: Settings, now: int, starts: Stamp, ends: Stamp) {
    && IsGridAligned(starts)
    && IsGridAligned(ends)
    && starts.utc < ends.utc <= starts.utc + cfg.maxDurationMinutes * MINUTE
    && now <= starts.utc <= now + cfg.lookaheadDays * DAY
  }

  function CheckWindow(cfg: Settings, now: int, starts: Stamp, ends: Stamp): (e: Option<Error>)
    ensures e.None? <==> WindowOk(cfg, now, starts, ends)
    ensures e == Some(NaiveTime) <==> starts.Naive? || ends.Naive?
    ensures e == Some(Misaligned) <==> starts.Aware? && ends.Aware? && !(IsGridAligned(starts) && IsGridAligned(ends))
    ensures e == Some(EmptyWindow) <==> IsGridAligned(starts) && IsGridAligned(ends) && starts.utc >= ends.utc
    ensures e == Some(TooLong) ==> starts.utc < ends.utc && ends.utc > starts.utc + cfg.maxDurationMinutes * MINUTE
    ensures e == Some(InPast) ==>
      starts.utc < ends.utc <= starts.utc + cfg.maxDurationMinutes * MINUTE && starts.utc < now
    ensures e == Some(TooFarAhead) ==>
      && starts.utc < ends.utc <= starts.utc + cfg.maxDurationMinutes * MINUTE
      && starts.utc > now + cfg.lookaheadDays * DAY
  {
    if starts.Naive? || ends.Naive? then Some(NaiveTime)
    else if !IsGridAligned(starts) then Some(Misaligned)
    else if !IsGridAligned(ends) then Some(Misaligned)
    else if starts.utc >= ends.utc then Some(EmptyWindow)
    else if ends.utc - starts.utc > cfg.maxDurationMinutes * MINUTE then Some(TooLong)
    else if starts.utc < now then Some(InPast)
    else if starts.utc > now + cfg.lookaheadDays * DAY then Some(TooFarAhead)
    else None
  }

  /** The two quotas: open bookings of the user, and minutes held in the day of the request. */
  function CheckQuota(cfg: Settings, s: State, user: int, start: int, offset: int, end: int): (e: Option<Error>)
    ensures e.None? || e == Some(ConcurrentQuota) || e == Some(DailyQuota)
  {
    if Total(s.reservations, Open(user, s.now)) >= cfg.maxConcurrent then Some(ConcurrentQuota)
    else if Total(s.reservations, Held(user, DayStart(start, offset))) + WholeMinutes(end - start)
            > cfg.maxHoursPerDay * 60 then Some(DailyQuota)
    else None
  }

  /** The exclusion constraint lets `[start, end)` in on `host`. */
  predicate Free(rs: seq<Reservation>, host: int, start: int, end: int) {
    forall i :: 0 <= i < |rs| && Active(rs[i]) && rs[i].host == host ==> !Meets(rs[i].start, rs[i].end, start, end)
  }

  /** No reservation of the host covers the instant. */
  predicate Vacant(rs: seq<Reservation>, host: int, at: int) {
    forall i :: 0 <= i < |rs| && Active(rs[i]) && rs[i].host == host ==> !Covers(rs[i], at)
  }

  predicate StartsLater(r: Reservation, host: int, after: int) {
    r.status == Confirmed && r.host == host && r.start > after
  }

  /** Start of the next confirmed reservation of the host. */
  function NextStart(rs: seq<Reservation>, host: int, after: int): (next: Option<int>)
    ensures next.None? <==> forall r :: r in rs ==> !(r.status == Confirmed && r.host == host && after < r.start)
    ensures next.Some? ==>
      exists r :: r in rs && r.status == Confirmed && r.host == host && after < r.start == next.value
    ensures next.Some? ==>
      forall r :: r in rs && r.status == Confirmed && r.host == host && after < r.start ==> next.value <= r.start
  {
    if |rs| == 0 then None
    else
      var last := rs[|rs| - 1];
      assert rs == rs[..|rs| - 1] + [last];
      var earlier := NextStart(rs[..|rs| - 1], host, after);
      if !StartsLater(last, host, after) then earlier
      else if earlier.Some? && earlier.value <= last.start then earlier
      else Some(last.start)
  }

  /** Everything a booking request checks before it writes. */
  function BookingDraft(
    cfg: Settings, s: State, user: User, host: int, starts: Stamp, ends: Stamp): Result<Reservation> {
    var window := CheckWindow(cfg, s.now, starts, ends);
    if window.Some? then Failure(window.value)
    else if !HostExists(s, host) then Failure(HostNotFound)
    else
      var quota := CheckQuota(cfg, s, user.id, starts.utc, starts.offset, ends.utc);
      if quota.Some? then Failure(quota.value)
      else Success(Reservation(user.id, host, starts.utc, ends.utc, starts.offset, Confirmed, None))
  }

  /** The window the server computes for an instant booking of `host`. */
  function WindowFor(s: State, host: int): (w: (int, int))
    ensures w.0 % SECOND == 0 && w.0 <= s.now < w.0 + SECOND && s.now < w.1
    ensures forall r :: r in s.reservations && r.status == Confirmed && r.host == host && s.now < r.start ==>
      w.1 <= r.start
  {
    InstantWindow(s.now, NextStart(s.reservations, host, s.now))
  }

  /** Everything an instant request checks before it writes; its timestamps are in UTC. */
  function InstantDraft(cfg: Settings, s: State, user: User, host: int): Result<Reservation> {
    if !HostExists(s, host) then Failure(HostNotFound)
    else if s.hosts[host].status != Idle then Failure(HostNotAvailable)
    else
      var w := WindowFor(s, host);
      var quota := CheckQuota(cfg, s, user.id, w.0, 0, w.1);
      if quota.Some? then Failure(quota.value)
      else Success(Reservation(user.id, host, w.0, w.1, 0, Confirmed, None))
  }

  /** The insert: the exclusion constraint decides, and the booking is audited. */
  function Insert(s: State, r: Reservation): (State, Result<nat>) {
    if Free(s.reservations, r.host, r.start, r.end) then
      (s.(reservations := s.reservations + [r], audit := s.audit + [BookingCreated(|s.reservations|, r.user)]),
       Success(|s.reservations|))
    else (s, Failure(Overlap))
  }

  function InsertDraft(s: State, draft: Result<Reservation>): (State, Result<nat>) {
    match draft
    case Failure(e) => (s, Failure(e))
    case Success(r) => Insert(s, r)
  }

  function Create(cfg: Settings, s: State, user: User, host: int, starts: Stamp, ends: Stamp): (State, Result<nat>) {
    InsertDraft(s, BookingDraft(cfg, s, user, host, starts, ends))
  }

  function CreateInstant(cfg: Settings, s: State, user: User, host: int): (State, Result<nat>) {
    InsertDraft(s, InstantDraft(cfg, s, user, host))
  }

  predicate CanAccess(r: Reservation, user: User) {
    user.admin || r.user == user.id
  }

  function CanceledAt(r: Reservation, at: int): Reservation {
    r.(status := Canceled, canceledAt := Some(at))
  }

  /** Soft delete by the owner or an admin; a second cancellation changes nothing. */
  function Cancel(s: State, user: User, id: int): (State, Result<nat>) {
    if !(0 <= id < |s.reservations|) then (s, Failure(NotFound))
    else if !CanAccess(s.reservations[id], user) then (s, Failure(NotOwner))
    else if s.reservations[id].status == Canceled then (s, Success(id))
    else
      (s.(reservations := s.reservations[id := CanceledAt(s.reservations[id], s.now)],
          audit := s.audit + [BookingCanceled(id, user.id)]),
       Success(id))
  }

  /** Some confirmed reservation of the host covers the instant. */
  predicate HasActive(rs: seq<Reservation>, host: int, at: int) {
    exists i :: 0 <= i < |rs| && rs[i].host == host && rs[i].status == Confirmed && Covers(rs[i], at)
  }
}
