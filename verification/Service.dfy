/** The services and endpoints as they run: statements over a database session whose tables they
    update in place. Each is proved against the state function whose properties the rest of the
    project establishes; a call that fails leaves the tables as it found them. */
module Service {
  import opened Clock
  import opened Domain
  import opened Tally
  import opened Booking
  import opened Tokens
  import opened Hosts
  import Terms
  import BookingRuns
  import Availability
  import TokenRuns
  import HostRuns
  import Endpoints

  class Session {
    var now: int
    var hosts: seq<Host>
    var reservations: seq<Reservation>
    var tokens: seq<Token>
    var inflight: map<int, Ticket>
    var audit: seq<Audit>

    constructor (start: int)
      ensures Snapshot() == Initial(start)
    {
      now, hosts, reservations, tokens, inflight, audit := start, [], [], [], map[], [];
    }

    function Snapshot(): State
      reads this
    {
      State(now, hosts, reservations, tokens, inflight, audit)
    }

    method Rollback(saved: State)
      modifies this
      ensures Snapshot() == saved
    {
      now, hosts, reservations := saved.now, saved.hosts, saved.reservations;
      tokens, inflight, audit := saved.tokens, saved.inflight, saved.audit;
    }

    method WriteAudit(e: Audit)
      modifies this`audit
      ensures audit == old(audit) + [e]
    {
      audit := audit + [e];
    }
  }

  /** The loop over the rows of the day that the daily query selected. */
  method SumUsedMinutes(db: Session, user: int, dayStart: int) returns (usedMinutes: int)
    ensures usedMinutes == Terms.MinutesInDay(db.reservations, user, dayStart)
    ensures usedMinutes == Total(db.reservations, Held(user, dayStart))
  {
    var dayEnd := dayStart + DAY;
    var rows := Select(db.reservations, OfUserInDay(user, dayStart));
    usedMinutes := 0;
    var i := 0;
    while i < |rows|
      invariant 0 <= i <= |rows| && usedMinutes == Total(rows[..i], Held(user, dayStart))
    {
      assert rows[i] in rows && rows[..i + 1][..i] == rows[..i];
      var clippedLower := Max(rows[i].start, dayStart);
      var clippedUpper := Min(rows[i].end, dayEnd);
      if clippedUpper > clippedLower {
        usedMinutes := usedMinutes + WholeMinutes(clippedUpper - clippedLower);
      }
      i := i + 1;
    }
    assert rows[..|rows|] == rows;
    TotalSelected(db.reservations, OfUserInDay(user, dayStart), Held(user, dayStart));
    Terms.MinutesAreHeld(db.reservations, user, dayStart);
  }

  /** The quota check: it passes exactly when both quotas leave room. */
  method ValidateQuota(
    db: Session, cfg: Settings, user: int, start: int, offset: int, end: int) returns (e: Option<Error>)
    ensures e.None? <==> Terms.QuotasLeaveRoom(cfg, db.Snapshot(), user, start, offset, end)
    ensures e == Some(ConcurrentQuota) <==> |Terms.OpenRows(db.reservations, user, db.now)| >= cfg.maxConcurrent
    ensures e == CheckQuota(cfg, db.Snapshot(), user, start, offset, end)
  {
    BookingRuns.QuotaExact(cfg, db.Snapshot(), user, start, offset, end);
    if Total(db.reservations, Open(user, db.now)) >= cfg.maxConcurrent {
      return Some(ConcurrentQuota);
    }
    var newMinutes := WholeMinutes(end - start);
    var usedMinutes := SumUsedMinutes(db, user, DayStart(start, offset));
    if usedMinutes + newMinutes > cfg.maxHoursPerDay * 60 {
      return Some(DailyQuota);
    }
    return None;
  }

  /** INSERT under the exclusion constraint, then the audit entry. */
  method InsertReservation(db: Session, r: Reservation) returns (id: Result<nat>)
    modifies db
    ensures (db.Snapshot(), id) == Insert(old(db.Snapshot()), r)
  {
    if !Free(db.reservations, r.host, r.start, r.end) {
      return Failure(Overlap);
    }
    var newId := |db.reservations|;
    db.reservations := db.reservations + [r];
    db.WriteAudit(BookingCreated(newId, r.user));
    return Success(newId);
  }

  method CreateReservation(
    db: Session, cfg: Settings, user: User, host: int, starts: Stamp, ends: Stamp) returns (id: Result<nat>)
    modifies db
    ensures BookingRuns.WellFormed(cfg, old(db.Snapshot())) ==>
      (id.Success? <==> Terms.MayBook(cfg, old(db.Snapshot()), user, host, starts, ends))
    ensures (db.Snapshot(), id) == Create(cfg, old(db.Snapshot()), user, host, starts, ends)
  {
    if BookingRuns.WellFormed(cfg, db.Snapshot()) {
      BookingRuns.CreateOutcome(cfg, db.Snapshot(), user, host, starts, ends);
    }
    var window := CheckWindow(cfg, db.now, starts, ends);
    if window.Some? {
      return Failure(window.value);
    }
    if !(0 <= host < |db.hosts|) {
      return Failure(HostNotFound);
    }
    var quota := ValidateQuota(db, cfg, user.id, starts.utc, starts.offset, ends.utc);
    if quota.Some? {
      return Failure(quota.value);
    }
    id := InsertReservation(db, Reservation(user.id, host, starts.utc, ends.utc, starts.offset, Confirmed, None));
  }

  method CreateInstantReservation(db: Session, cfg: Settings, user: User, host: int) returns (id: Result<nat>)
    modifies db
    ensures id.Success? ==>
      && |db.reservations| == |old(db.reservations)| + 1 && id.value == |old(db.reservations)|
      && Terms.InstantEnd(old(db.reservations), host, db.now, db.reservations[id.value].end)
    ensures (db.Snapshot(), id) == CreateInstant(cfg, old(db.Snapshot()), user, host)
  {
    Availability.WindowEnds(db.Snapshot(), host);
    if !(0 <= host < |db.hosts|) {
      return Failure(HostNotFound);
    }
    if db.hosts[host].status != Idle {
      return Failure(HostNotAvailable);
    }
    var next := NextStart(db.reservations, host, db.now);
    var (starts, ends) := InstantWindow(db.now, next);
    var quota := ValidateQuota(db, cfg, user.id, starts, 0, ends);
    if quota.Some? {
      return Failure(quota.value);
    }
    id := InsertReservation(db, Reservation(user.id, host, starts, ends, 0, Confirmed, None));
  }

  /** Cancelled, and by whom it may be; the window of an active row is clear on its host afterwards, and
      nothing but that row, which keeps its user, host and bounds, changes in the table. */
  method CancelReservation(db: Session, user: User, id: int) returns (r: Result<nat>)
    modifies db
    ensures |db.reservations| == |old(db.reservations)|
    ensures r.Success? <==> 0 <= id < |old(db.reservations)| && CanAccess(old(db.reservations)[id], user)
    ensures forall i :: 0 <= i < |db.reservations| ==>
      if i == id && r.Success? then
        && db.reservations[i].status == Canceled
        && db.reservations[i] ==
             old(db.reservations)[i].(status := Canceled, canceledAt := db.reservations[i].canceledAt)
      else db.reservations[i] == old(db.reservations)[i]
    ensures r.Success? && Active(old(db.reservations)[id]) && BookingRuns.Orderly(old(db.reservations)) ==>
      var row := old(db.reservations)[id]; BookingRuns.Clear(db.reservations, row.host, row.start, row.end)
    ensures (db.Snapshot(), r) == Cancel(old(db.Snapshot()), user, id)
  {
    if !(0 <= id < |db.reservations|) {
      return Failure(NotFound);
    }
    if !CanAccess(db.reservations[id], user) {
      return Failure(NotOwner);
    }
    if db.reservations[id].status == Canceled {
      return Success(id);
    }
    ghost var before := db.reservations;
    db.reservations := db.reservations[id := CanceledAt(db.reservations[id], db.now)];
    db.WriteAudit(BookingCanceled(id, user.id));
    if Active(before[id]) && BookingRuns.Orderly(before) {
      BookingRuns.ClearWithout(before, db.reservations, id);
    }
    return Success(id);
  }

  /** The rows of a bulk revocation. */
  function HitRows(tokens: seq<Token>, scope: Scope): set<nat> {
    set i: nat | i < |tokens| && Hit(tokens[i], scope)
  }

  /** The row count of a bulk revocation is the number of rows it hits. */
  lemma {:induction false} RevokedCountIsCardinality(tokens: seq<Token>, scope: Scope)
    ensures RevokedCount(tokens, scope) == |HitRows(tokens, scope)|
  {
    if |tokens| > 0 {
      var n := |tokens| - 1;
      RevokedCountIsCardinality(tokens[..n], scope);
      LastRow(tokens, scope, n);
    }
  }

  lemma LastRow(tokens: seq<Token>, scope: Scope, n: nat)
    requires n == |tokens| - 1
    ensures n !in HitRows(tokens[..n], scope)
    ensures HitRows(tokens, scope) == HitRows(tokens[..n], scope) + if Hit(tokens[n], scope) then {n} else {}
  {
    forall i: nat
      ensures i in HitRows(tokens, scope) <==> i in HitRows(tokens[..n], scope) || (i == n && Hit(tokens[n], scope))
    {
      assert i < n ==> tokens[..n][i] == tokens[i];
    }
  }

  /** UPDATE tokens SET revoked_at = now, row by row, with its row count: the live tokens of the scope
      get the mark, no other token changes, none of the scope is live afterwards, and the count is the
      number of rows that changed. */
  method RevokeActiveTokens(db: Session, scope: Scope) returns (count: nat)
    modifies db`tokens
    ensures |db.tokens| == |old(db.tokens)|
    ensures forall i :: 0 <= i < |db.tokens| ==>
      db.tokens[i] == old(db.tokens[i]).(
        revokedAt := if Hit(old(db.tokens[i]), scope) then Some(db.now) else old(db.tokens[i]).revokedAt)
    ensures forall t :: t in db.tokens ==> !Hit(t, scope)
    ensures count == |HitRows(old(db.tokens), scope)|
    ensures db.tokens == Revoke(old(db.tokens), scope, db.now) && count == RevokedCount(old(db.tokens), scope)
  {
    ghost var before := db.tokens;
    var i := 0;
    count := 0;
    while i < |db.tokens|
      invariant i <= |db.tokens| == |before|
      invariant forall k :: 0 <= k < i ==>
        db.tokens[k] == if Hit(before[k], scope) then before[k].(revokedAt := Some(db.now)) else before[k]
      invariant forall k :: i <= k < |before| ==> db.tokens[k] == before[k]
      invariant count == RevokedCount(before[..i], scope)
    {
      assert before[..i + 1][..i] == before[..i];
      if Hit(db.tokens[i], scope) {
        db.tokens := db.tokens[i := db.tokens[i].(revokedAt := Some(db.now))];
        count := count + 1;
      }
      i := i + 1;
    }
    assert before[..i] == before;
    RevokedCountIsCardinality(before, scope);
  }

  /** Adds the token row; the unique digest refuses a repeated raw token. */
  method AddToken(db: Session, t: Token, raw: string) returns (id: Result<nat>)
    modifies db`tokens
    ensures Fresh(old(db.tokens), raw) ==> id == Success(|old(db.tokens)|) && db.tokens == old(db.tokens) + [t]
    ensures !Fresh(old(db.tokens), raw) ==> id == Failure(DuplicateToken) && db.tokens == old(db.tokens)
  {
    if !Fresh(db.tokens, raw) {
      return Failure(DuplicateToken);
    }
    id := Success(|db.tokens|);
    db.tokens := db.tokens + [t];
  }

  method IssueConnectToken(
    db: Session, cfg: Settings, user: User, id: nat, raw: string) returns (token: Result<nat>, revoked: nat)
    requires id < |db.reservations|
    modifies db`tokens
    ensures token == IssueConnect(cfg, old(db.Snapshot()), user, id, raw).1
    ensures token.Success? ==>
      && db.Snapshot() == IssueConnect(cfg, old(db.Snapshot()), user, id, raw).0
      && revoked == RevokedCount(old(db.tokens), OfReservation(id))
  {
    revoked := 0;
    var r := db.reservations[id];
    if !CanAccess(r, user) {
      return Failure(NotOwner), revoked;
    }
    if r.status != Confirmed {
      return Failure(NotActive), revoked;
    }
    if db.now < r.start - cfg.graceSeconds * SECOND {
      return Failure(TooEarly), revoked;
    }
    if db.now >= r.end {
      return Failure(WindowExpired), revoked;
    }
    revoked := RevokeActiveTokens(db, OfReservation(id));
    token := AddToken(db, NewToken(raw, user.id, r.host, Some(id), Purpose.Connect, db.now, r.end), raw);
  }

  method IssueAgentToken(
    db: Session, cfg: Settings, host: int, issuer: User, raw: string) returns (token: Result<nat>, revoked: nat)
    modifies db`tokens
    ensures token == IssueAgent(cfg, old(db.Snapshot()), host, issuer, raw).1
    ensures token.Success? ==>
      && db.Snapshot() == IssueAgent(cfg, old(db.Snapshot()), host, issuer, raw).0
      && revoked == RevokedCount(old(db.tokens), OfHost(host))
  {
    revoked := RevokeActiveTokens(db, OfHost(host));
    var t := NewToken(raw, issuer.id, host, None, Purpose.Agent, db.now, db.now + cfg.agentTtlDays * DAY);
    token := AddToken(db, t, raw);
  }

  /** The host has the status afterwards and no other host changes; a log that replayed to the statuses
      before still does, so it has an entry for a change and none for no change. Answers whether the
      status changed. */
  method TransitionHost(db: Session, host: int, status: HostStatus, reason: Reason) returns (changed: bool)
    requires 0 <= host < |db.hosts|
    modifies db
    ensures forall h ::
      HostRuns.StatusOf(db.Snapshot(), h) == if h == host then status else HostRuns.StatusOf(old(db.Snapshot()), h)
    ensures HostRuns.Replays(old(db.Snapshot())) ==> HostRuns.Replays(db.Snapshot())
    ensures db.Snapshot() == Transition(old(db.Snapshot()), host, status, reason)
    ensures changed <==> old(db.hosts[host].status) != status
  {
    ghost var s := db.Snapshot();
    var before := db.hosts[host].status;
    if before == status {
      return false;
    }
    if HostRuns.Replays(s) {
      HostRuns.TransitionKeeps(s, host, status, reason);
    }
    db.hosts := db.hosts[host := db.hosts[host].(status := status)];
    db.WriteAudit(StatusChanged(host, before, status, reason));
    return true;
  }

  /** SELECT the stale hosts among the first `k`. */
  function StaleRows(cfg: Settings, s: State, k: nat): (rows: seq<int>)
    requires k <= |s.hosts|
    ensures forall i :: 0 <= i < |rows| ==> 0 <= rows[i] < k && Stale(cfg, s.hosts[rows[i]], s.now)
    ensures forall i, j :: 0 <= i < j < |rows| ==> rows[i] < rows[j]
    ensures forall h :: 0 <= h < k && Stale(cfg, s.hosts[h], s.now) ==> h in rows
  {
    if k == 0 then []
    else if Stale(cfg, s.hosts[k - 1], s.now) then StaleRows(cfg, s, k - 1) + [k - 1]
    else StaleRows(cfg, s, k - 1)
  }

  /** Sweeping hosts that are not stale changes nothing. */
  lemma {:induction false} SweepSkips(cfg: Settings, s: State, a: nat, b: nat)
    requires a <= b <= |s.hosts| && forall h :: a <= h < b ==> !Stale(cfg, s.hosts[h], s.now)
    ensures Sweep(cfg, s, b) == Sweep(cfg, s, a)
  {
    if a < b {
      SweepSkips(cfg, s, a, b - 1);
    }
  }

  /** The first host the monitor has not passed once it has handled `i` of its rows. */
  function Passed(rows: seq<int>, i: nat): int
    requires i <= |rows|
  {
    if i == 0 then 0 else rows[i - 1] + 1
  }

  /** The ids of the stale hosts, ascending. */
  ghost predicate ListsStale(cfg: Settings, s: State, rows: seq<int>) {
    && (forall i :: 0 <= i < |rows| ==> 0 <= rows[i] < |s.hosts| && Stale(cfg, s.hosts[rows[i]], s.now))
    && (forall i, j :: 0 <= i < j < |rows| ==> rows[i] < rows[j])
    && (forall h :: 0 <= h < |s.hosts| && Stale(cfg, s.hosts[h], s.now) ==> h in rows)
  }

  /** No stale host lies between two rows, before the first or behind the last. */
  lemma NoneBetween(cfg: Settings, s: State, rows: seq<int>, i: nat, h: int)
    requires ListsStale(cfg, s, rows) && i <= |rows|
    requires Passed(rows, i) <= h < if i < |rows| then rows[i] else |s.hosts|
    ensures 0 <= h < |s.hosts| && !Stale(cfg, s.hosts[h], s.now)
  {
    assert i > 0 ==> 0 <= rows[i - 1];
    forall j | 0 <= j < |rows|
      ensures rows[j] != h
    {
      if j < i {
        assert rows[j] <= rows[i - 1];
      } else {
        assert rows[i] <= rows[j];
      }
    }
  }

  /** One unfolding: the sweep takes a stale host offline, which it has left as it was. */
  lemma SweepOne(cfg: Settings, s: State, h: nat)
    requires h < |s.hosts| && Stale(cfg, s.hosts[h], s.now)
    ensures Sweep(cfg, s, h).hosts[h] == s.hosts[h] && s.hosts[h].status != Offline
    ensures Sweep(cfg, s, h + 1) == Transition(Sweep(cfg, s, h), h, Offline, HeartbeatStale)
  {
  }

  /** Up to and including the next row, the sweep is one more host taken offline. */
  lemma SweepNext(cfg: Settings, s: State, rows: seq<int>, i: nat)
    requires ListsStale(cfg, s, rows) && i < |rows|
    ensures 0 <= Passed(rows, i) <= rows[i] < |s.hosts|
    ensures Sweep(cfg, s, Passed(rows, i)).hosts[rows[i]].status != Offline
    ensures Sweep(cfg, s, rows[i] + 1) == Transition(Sweep(cfg, s, Passed(rows, i)), rows[i], Offline, HeartbeatStale)
  {
    assert 0 <= rows[i] && (i > 0 ==> rows[i - 1] < rows[i]);
    forall h | Passed(rows, i) <= h < rows[i]
      ensures !Stale(cfg, s.hosts[h], s.now)
    {
      NoneBetween(cfg, s, rows, i, h);
    }
    SweepSkips(cfg, s, Passed(rows, i), rows[i]);
    SweepOne(cfg, s, rows[i]);
  }

  /** Past the last row nothing is left to sweep. */
  lemma SweepDone(cfg: Settings, s: State, rows: seq<int>)
    requires ListsStale(cfg, s, rows)
    ensures 0 <= Passed(rows, |rows|) <= |s.hosts| && Sweep(cfg, s, Passed(rows, |rows|)) == Tick(cfg, s)
  {
    forall h | Passed(rows, |rows|) <= h < |s.hosts|
      ensures !Stale(cfg, s.hosts[h], s.now)
    {
      NoneBetween(cfg, s, rows, |rows|, h);
    }
    SweepSkips(cfg, s, Passed(rows, |rows|), |s.hosts|);
  }

  lemma StaleRowsListed(cfg: Settings, s: State)
    ensures ListsStale(cfg, s, StaleRows(cfg, s, |s.hosts|))
  {
  }

  /** One run of the monitor; answers how many hosts it took offline. */
  method RunOneTick(db: Session, cfg: Settings) returns (transitioned: nat)
    modifies db
    ensures db.Snapshot() == Tick(cfg, old(db.Snapshot()))
    ensures transitioned == |StaleRows(cfg, old(db.Snapshot()), |old(db.hosts)|)|
  {
    ghost var s := db.Snapshot();
    var rows := StaleRows(cfg, db.Snapshot(), |db.hosts|);
    StaleRowsListed(cfg, s);
    transitioned := 0;
    while transitioned < |rows|
      invariant transitioned <= |rows| && 0 <= Passed(rows, transitioned) <= |s.hosts|
      invariant db.Snapshot() == Sweep(cfg, s, Passed(rows, transitioned))
    {
      SweepNext(cfg, s, rows, transitioned);
      var changed := TransitionHost(db, rows[transitioned], Offline, HeartbeatStale);
      transitioned := transitioned + if changed then 1 else 0;
    }
    SweepDone(cfg, s, rows);
  }

  /** Token, audit entries, answer; shared by the two endpoints that hand out connect tokens. */
  method IssueConnectTokenResponse(
    db: Session, cfg: Settings, user: User, id: nat, raw: string) returns (token: Result<nat>)
    requires id < |db.reservations|
    modifies db
    ensures token == Endpoints.ConnectResponse(cfg, old(db.Snapshot()), user, id, raw).1
    ensures token.Success? ==> db.Snapshot() == Endpoints.ConnectResponse(cfg, old(db.Snapshot()), user, id, raw).0
  {
    var revoked;
    token, revoked := IssueConnectToken(db, cfg, user, id, raw);
    if token.Failure? {
      return;
    }
    if revoked > 0 {
      db.WriteAudit(PreviousRevoked(id, revoked));
    }
    db.WriteAudit(TokenIssued(token.value));
  }

  method ConnectEndpoint(db: Session, cfg: Settings, user: User, id: int, raw: string) returns (token: Result<nat>)
    modifies db
    ensures (db.Snapshot(), token) == Endpoints.Connect(cfg, old(db.Snapshot()), user, id, raw)
  {
    var saved := db.Snapshot();
    if !(0 <= id < |db.reservations|) {
      return Failure(NotFound);
    }
    if !CanAccess(db.reservations[id], user) {
      return Failure(NotOwner);
    }
    token := IssueConnectTokenResponse(db, cfg, user, id, raw);
    if token.Failure? {
      db.Rollback(saved);
    }
  }

  method InstantEndpoint(db: Session, cfg: Settings, user: User, host: int, raw: string) returns (booked: Result<nat>)
    modifies db
    ensures (db.Snapshot(), booked) == Endpoints.Instant(cfg, old(db.Snapshot()), user, host, raw)
  {
    var saved := db.Snapshot();
    booked := CreateInstantReservation(db, cfg, user, host);
    if booked.Failure? {
      return;
    }
    var token := IssueConnectTokenResponse(db, cfg, user, booked.value, raw);
    if token.Failure? {
      db.Rollback(saved);
      return Failure(token.error);
    }
    if 0 <= host < |db.hosts| {
      var _ := TransitionHost(db, host, InUse, InstantUse);
    }
  }

  /** After a success the host of the row is in use exactly when it was and a confirmed reservation still
      covers the present, and no status changes but that host's, from in use to idle; the log still replays. */
  method CancelEndpoint(db: Session, user: User, id: int) returns (canceled: Result<nat>)
    modifies db
    ensures canceled.Success? ==>
      0 <= id < |old(db.reservations)| == |db.reservations| && db.reservations[id].status == Canceled
    ensures canceled.Success? ==>
      var host := db.reservations[id].host;
      HostRuns.StatusOf(db.Snapshot(), host) == InUse <==>
        HostRuns.StatusOf(old(db.Snapshot()), host) == InUse && Terms.Covered(db.reservations, host, db.now)
    ensures forall h :: HostRuns.StatusOf(db.Snapshot(), h) != HostRuns.StatusOf(old(db.Snapshot()), h) ==>
      && canceled.Success? && h == db.reservations[id].host
      && HostRuns.StatusOf(old(db.Snapshot()), h) == InUse && HostRuns.StatusOf(db.Snapshot(), h) == Idle
    ensures HostRuns.Replays(old(db.Snapshot())) ==> HostRuns.Replays(db.Snapshot())
    ensures (db.Snapshot(), canceled) == Endpoints.CancelAndRelease(old(db.Snapshot()), user, id)
  {
    ghost var s := db.Snapshot();
    if HostRuns.Replays(s) {
      HostRuns.CancelReplays(s, user, id);
    }
    canceled := CancelReservation(db, user, id);
    if canceled.Failure? {
      return;
    }
    HostRuns.CancelReleases(s, user, id);
    var host := db.reservations[canceled.value].host;
    if 0 <= host < |db.hosts| && db.hosts[host].status == InUse {
      if !HasActive(db.reservations, host, db.now) {
        var _ := TransitionHost(db, host, Idle, ReservationCanceled);
      }
    }
  }

  /** An accepted heartbeat stamps the host its token speaks for and gives it the status the report
      stands for, and changes no other host; the log still replays. */
  method HeartbeatEndpoint(
    db: Session, cfg: Settings, raw: string, sunshine: bool, cpu: real, mem: real) returns (r: Result<nat>)
    modifies db
    ensures r.Success? ==>
      && r.value < |db.tokens| && Terms.Answers(db.tokens[r.value], raw, Agent, db.now)
      && HostRuns.Beat(cfg, old(db.Snapshot()), db.Snapshot(), db.tokens[r.value].host, sunshine, cpu, mem)
    ensures r.Failure? ==> db.Snapshot() == old(db.Snapshot())
    ensures HostRuns.Replays(old(db.Snapshot())) ==> HostRuns.Replays(db.Snapshot())
    ensures (db.Snapshot(), r) == Endpoints.Heartbeat(cfg, old(db.Snapshot()), raw, sunshine, cpu, mem)
  {
    ghost var s := db.Snapshot();
    HostRuns.BeatHolds(cfg, s, raw, sunshine, cpu, mem);
    if HostRuns.Replays(s) {
      HostRuns.HeartbeatReplays(cfg, s, raw, sunshine, cpu, mem);
    }
    var token := Find(db.tokens, raw, Purpose.Agent, db.now);
    if token.None? || !(0 <= db.tokens[token.value].host < |db.hosts|) {
      return Failure(InvalidToken);
    }
    var host := db.tokens[token.value].host;
    db.hosts := db.hosts[host := db.hosts[host].(lastHeartbeat := Some(db.now))];
    var active := HasActive(db.reservations, host, db.now);
    var status := Evaluate(cfg, db.now, Some(db.now), active, sunshine, Some(cpu), Some(mem));
    var _ := TransitionHost(db, host, status, HeartbeatReceived);
    return Success(token.value);
  }

  method RotateAgentToken(db: Session, cfg: Settings, admin: User, host: int, raw: string) returns (token: Result<nat>)
    modifies db
    ensures (db.Snapshot(), token) == Endpoints.RotateAgentToken(cfg, old(db.Snapshot()), admin, host, raw)
  {
    var saved := db.Snapshot();
    if !admin.admin {
      return Failure(Forbidden);
    }
    if !(0 <= host < |db.hosts|) {
      return Failure(NotFound);
    }
    var revoked;
    token, revoked := IssueAgentToken(db, cfg, host, admin, raw);
    if token.Failure? {
      db.Rollback(saved);
    }
  }

  method RegisterHost(db: Session, cfg: Settings, admin: User, raw: string) returns (host: Result<nat>)
    modifies db
    ensures (db.Snapshot(), host) == Endpoints.RegisterHost(cfg, old(db.Snapshot()), admin, raw)
  {
    var saved := db.Snapshot();
    if !admin.admin {
      return Failure(Forbidden);
    }
    var id := |db.hosts|;
    db.hosts := db.hosts + [Host(Offline, None)];
    var token, revoked := IssueAgentToken(db, cfg, id, admin, raw);
    if token.Failure? {
      db.Rollback(saved);
      return Failure(token.error);
    }
    return Success(id);
  }

  /** The part of a verify request before its conditional update: it finds a usable connect token when
      there is one, remembers it for this request alone, and changes no token. Requests in flight stay
      valid. */
  method VerifyTokenSelect(db: Session, request: int, raw: string) returns (r: Result<nat>)
    modifies db
    ensures r.Success? <==>
      request !in old(db.inflight) && raw != "" && exists t :: t in db.tokens && Usable(t, raw, Purpose.Connect, db.now)
    ensures r.Success? ==>
      && r.value < |db.tokens| && Usable(db.tokens[r.value], raw, Purpose.Connect, db.now)
      && request in db.inflight && db.inflight[request] == Ticket(r.value, db.now)
    ensures forall p :: p != request ==>
      (p in db.inflight <==> p in old(db.inflight)) && (p in db.inflight ==> db.inflight[p] == old(db.inflight)[p])
    ensures db.tokens == old(db.tokens) && db.now == old(db.now)
    ensures TokenRuns.TicketsValid(old(db.Snapshot())) ==> TokenRuns.TicketsValid(db.Snapshot())
    ensures (db.Snapshot(), r) == VerifySelect(old(db.Snapshot()), request, raw)
  {
    if request in db.inflight {
      return Failure(NoSuchRequest);
    }
    var token := Find(db.tokens, raw, Purpose.Connect, db.now);
    if token.None? {
      db.WriteAudit(VerifyFailed(None));
      return Failure(InvalidToken);
    }
    assert db.tokens[token.value] in db.tokens;
    db.inflight := db.inflight[request := Ticket(token.value, db.now)];
    return Success(token.value);
  }

  predicate LiveAt(tokens: seq<Token>, token: nat) {
    token < |tokens| && Live(tokens[token])
  }

  /** UPDATE ... WHERE neither mark is set. Of two calls for one token the second fails: a call succeeds
      exactly on a live token, which is not live afterwards. Only that row changes, and only its mark. */
  method MarkTokenConsumed(db: Session, token: nat) returns (consumed: bool)
    modifies db`tokens
    ensures consumed <==> LiveAt(old(db.tokens), token)
    ensures |db.tokens| == |old(db.tokens)| && (token < |db.tokens| ==> !Live(db.tokens[token]))
    ensures forall i :: 0 <= i < |db.tokens| && (i != token || !consumed) ==> db.tokens[i] == old(db.tokens)[i]
    ensures consumed ==>
      && db.tokens[token].consumedAt == Some(db.now)
      && db.tokens[token] == old(db.tokens)[token].(consumedAt := db.tokens[token].consumedAt)
    ensures (db.tokens, consumed) == MarkConsumed(old(db.tokens), token, db.now)
  {
    if token < |db.tokens| && Live(db.tokens[token]) {
      db.tokens := db.tokens[token := db.tokens[token].(consumedAt := Some(db.now))];
      return true;
    }
    return false;
  }

  /** The part from the conditional update on: a consuming request is answered yes exactly when its
      token is live, and never twice; a request that does not consume changes no token. The invariants
      of one-time consumption are kept. */
  method VerifyTokenFinish(db: Session, request: int, consume: bool) returns (r: Result<nat>)
    modifies db
    ensures r.Success? <==>
      request in old(db.inflight) && (consume ==> LiveAt(old(db.tokens), old(db.inflight)[request].token))
    ensures r.Success? && consume ==> r.value < |db.tokens| && !Live(db.tokens[r.value])
    ensures !consume || r.Failure? ==> db.tokens == old(db.tokens)
    ensures request !in db.inflight
    ensures TokenRuns.OneTime(old(db.Snapshot())) ==> TokenRuns.OneTime(db.Snapshot())
    ensures (db.Snapshot(), r) == VerifyFinish(old(db.Snapshot()), request, consume)
  {
    ghost var s := db.Snapshot();
    if TokenRuns.OneTime(s) {
      TokenRuns.FinishKeeps(s, request, consume);
    }
    if request !in db.inflight {
      return Failure(NoSuchRequest);
    }
    var ticket := db.inflight[request];
    db.inflight := db.inflight - {request};
    if consume {
      var consumed := MarkTokenConsumed(db, ticket.token);
      if !consumed {
        db.WriteAudit(VerifyFailed(Some(ticket.token)));
        return Failure(AlreadyConsumed);
      }
      db.WriteAudit(TokenConsumed(ticket.token, ticket.selectedAt, db.now));
    } else {
      db.WriteAudit(TokenVerified(ticket.token));
    }
    return Success(ticket.token);
  }
}
