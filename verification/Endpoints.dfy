/** The API calls: each is one transaction that commits all of its writes or none. */
module Endpoints {
  import opened Clock
  import opened Domain
  import opened Booking
  import opened Tokens
  import opened Hosts

  /** Issue a connect token and audit it, with an entry for replaced tokens when there are any. */
  function ConnectResponse(cfg: Settings, s: State, user: User, id: int, raw: string): (State, Result<nat>)
    requires 0 <= id < |s.reservations|
  {
    var (s1, token) := IssueConnect(cfg, s, user, id, raw);
    if token.Failure? then (s, token)
    else
      var revoked := RevokedCount(s.tokens, OfReservation(id));
      var previous := if revoked > 0 then [PreviousRevoked(id, revoked)] else [];
      (s1.(audit := s1.audit + previous + [TokenIssued(token.value)]), token)
  }

  function Connect(cfg: Settings, s: State, user: User, id: int, raw: string): (State, Result<nat>) {
    if !(0 <= id < |s.reservations|) then (s, Failure(NotFound)) else ConnectResponse(cfg, s, user, id, raw)
  }

  /** Book from now on, issue the token, and put the host in use; answers with the reservation. */
  function Instant(cfg: Settings, s: State, user: User, host: int, raw: string): (State, Result<nat>) {
    var (s1, booked) := CreateInstant(cfg, s, user, host);
    if booked.Failure? then (s, booked)
    else
      var (s2, token) := Connect(cfg, s1, user, booked.value, raw);
      if token.Failure? then (s, token)
      else if HostExists(s2, host) then (Transition(s2, host, InUse, InstantUse), booked)
      else (s2, booked)
  }

  /** Cancel, then release the host when nothing confirmed covers the present any more. */
  function CancelAndRelease(s: State, user: User, id: int): (State, Result<nat>) {
    var (s1, canceled) := Cancel(s, user, id);
    if canceled.Failure? then (s, canceled)
    else
      var host := s1.reservations[canceled.value].host;
      if HostExists(s1, host) && s1.hosts[host].status == InUse && !HasActive(s1.reservations, host, s1.now)
      then (Transition(s1, host, Idle, ReservationCanceled), canceled)
      else (s1, canceled)
  }

  function RotateAgentToken(cfg: Settings, s: State, admin: User, host: int, raw: string): (State, Result<nat>) {
    if !admin.admin then (s, Failure(Forbidden))
    else if !HostExists(s, host) then (s, Failure(NotFound))
    else IssueAgent(cfg, s, host, admin, raw)
  }

  /** A new host starts offline, with its first agent token. */
  function RegisterHost(cfg: Settings, s: State, admin: User, raw: string): (State, Result<nat>) {
    if !admin.admin then (s, Failure(Forbidden))
    else
      var (s1, token) := IssueAgent(cfg, s.(hosts := s.hosts + [Host(Offline, None)]), |s.hosts|, admin, raw);
      if token.Failure? then (s, token) else (s1, Success(|s.hosts|))
  }

  /** A login adds a session to the token table, next to connect and agent tokens. */
  function Login(cfg: Settings, s: State, user: User, cookie: string): (State, Result<nat>) {
    if !Fresh(s.tokens, cookie) then (s, Failure(DuplicateToken))
    else
      var t := NewToken(cookie, user.id, NO_HOST, None, Purpose.Session, s.now, s.now + cfg.sessionTtlSeconds * SECOND);
      (s.(tokens := s.tokens + [t], audit := s.audit + [LoggedIn(|s.tokens|)]), Success(|s.tokens|))
  }

  /** A logout revokes the session of the cookie, when there is one, and always succeeds. */
  function Logout(s: State, cookie: string): (State, Result<nat>) {
    if cookie == "" || forall t :: t in s.tokens ==> !InSession(t, cookie) then (s, Success(0))
    else (s.(tokens := EndSession(s.tokens, cookie, s.now), audit := s.audit + [LoggedOut]), Success(0))
  }

  /** A heartbeat stamps the host of its agent token and re-evaluates the status. */
  function Heartbeat(cfg: Settings, s: State, raw: string, sunshine: bool, cpu: real, mem: real): (State, Result<nat>) {
    var token := Find(s.tokens, raw, Agent, s.now);
    if token.None? || !HostExists(s, s.tokens[token.value].host) then (s, Failure(InvalidToken))
    else
      var host := s.tokens[token.value].host;
      var s1 := s.(hosts := s.hosts[host := s.hosts[host].(lastHeartbeat := Some(s.now))]);
      var active := HasActive(s.reservations, host, s.now);
      var status := Evaluate(cfg, s.now, Some(s.now), active, sunshine, Some(cpu), Some(mem));
      (Transition(s1, host, status, HeartbeatReceived), Success(token.value))
  }
}
