/** The broker's tables and settings as values. A row's id is its position in its table: the broker
    never deletes a row, so ids are unique and never reused, as the database's own ids are. */
module Domain {
  import opened Clock

  /** The limits an operator sets. All of them stay symbolic. */
  datatype Settings = Settings(
    maxConcurrent: nat,
    maxHoursPerDay: nat,
    maxDurationMinutes: nat,
    lookaheadDays: nat,
    graceSeconds: nat,
    agentTtlDays: nat,
    sessionTtlSeconds: nat,
    offlineAfterSeconds: nat,
    degradedCpu: real,
    degradedMem: real)

  const DEFAULTS := Settings(5, 8, 240, 14, 60, 3650, 28_800, 90, 90.0, 95.0)

  datatype User = User(id: int, admin: bool)

  datatype HostStatus = Offline | Idle | InUse | Degraded

  datatype Host = Host(status: HostStatus, lastHeartbeat: Option<int>)

  datatype BookingStatus = Confirmed | Canceled | Completed

  /** A reservation row. `offset` is the UTC offset of the requested start, which the broker keeps
      in the audit entry of the booking rather than in the row. */
  datatype Reservation = Reservation(
    user: int,
    host: int,
    start: int,
    end: int,
    offset: int,
    status: BookingStatus,
    canceledAt: Option<int>)

  datatype Purpose = Connect | Agent | Session

  /** What the database keeps of a raw token: its digest, free of collisions. */
  datatype Digest = Sha(raw: string)

  /** The host of a token that has none. */
  const NO_HOST := -1

  datatype Token = Token(
    jti: Digest,
    user: int,
    host: int,
    reservation: Option<nat>,
    purpose: Purpose,
    issuedAt: int,
    expiresAt: int,
    consumedAt: Option<int>,
    revokedAt: Option<int>)

  datatype Reason = HeartbeatReceived | HeartbeatStale | InstantUse | ReservationCanceled

  /** One audit entry. `TokenConsumed` also keeps when its request selected the token. */
  datatype Audit =
    | BookingCreated(reservation: nat, actor: int)
    | BookingCanceled(reservation: nat, actor: int)
    | StatusChanged(host: int, before: HostStatus, after: HostStatus, reason: Reason)
    | TokenIssued(token: nat)
    | PreviousRevoked(reservation: nat, count: nat)
    | TokenVerified(token: nat)
    | LoggedIn(token: nat)
    | LoggedOut
    | TokenConsumed(token: nat, selectedAt: int, at: int)
    | VerifyFailed(wanted: Option<nat>)

  /** A verify request between its select and its conditional update. */
  datatype Ticket = Ticket(token: nat, selectedAt: int)

  /** Everything the steps read and write. */
  datatype State = State(
    now: int,
    hosts: seq<Host>,
    reservations: seq<Reservation>,
    tokens: seq<Token>,
    inflight: map<int, Ticket>,
    audit: seq<Audit>)

  function Initial(now: int): State {
    State(now, [], [], [], map[], [])
  }

  datatype Error =
    | NaiveTime | Misaligned | EmptyWindow | TooLong | InPast | TooFarAhead
    | HostNotFound | HostNotAvailable | ConcurrentQuota | DailyQuota | Overlap
    | NotFound | NotOwner | NotActive | TooEarly | WindowExpired | DuplicateToken
    | Forbidden | InvalidToken | AlreadyConsumed | NoSuchRequest

  datatype Result<+T> = Success(value: T) | Failure(error: Error)

  /** Rows that count: cancelled ones are out of every check and of the exclusion constraint. */
  predicate Active(r: Reservation) {
    r.status == Confirmed || r.status == Completed
  }

  /** The database's `&&` on half-open ranges; an empty range meets nothing. */
  predicate Meets(a: int, b: int, c: int, d: int) {
    a < b && c < d && a < d && c < b
  }

  /** The database's `@>`. */
  predicate Covers(r: Reservation, t: int) {
    r.start <= t < r.end
  }

  predicate HostExists(s: State, host: int) {
    0 <= host < |s.hosts|
  }

  predicate Live(t: Token) {
    t.consumedAt.None? && t.revokedAt.None?
  }

  predicate Fresh(tokens: seq<Token>, raw: string) {
    forall i :: 0 <= i < |tokens| ==> tokens[i].jti != Sha(raw)
  }
}
