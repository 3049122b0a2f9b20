/** Token issue, revocation, selection and one-time consumption over the token table. */
module Tokens {
  import opened Clock
  import opened Domain
  import opened Booking

  /** What a bulk revocation is aimed at. */
  datatype Scope = OfReservation(reservation: nat) | OfHost(host: int)

  /** Connect tokens are replaced per reservation and agent tokens per host; login sessions never. */
  function ScopeOf(t: Token): Option<Scope> {
    match t.purpose
    case Connect => if t.reservation.Some? then Some(OfReservation(t.reservation.value)) else None
    case Agent => Some(OfHost(t.host))
    case Session => None
  }

  predicate Hit(t: Token, scope: Scope) {
    Live(t) && ScopeOf(t) == Some(scope)
  }

  /** UPDATE tokens SET revoked_at = now on the live tokens of a scope. */
  function Revoke(tokens: seq<Token>, scope: Scope, now: int): (r: seq<Token>)
    ensures |r| == |tokens|
    ensures forall i :: 0 <= i < |tokens| ==>
      r[i] == if Hit(tokens[i], scope) then tokens[i].(revokedAt := Some(now)) else tokens[i]
  {
    seq(|tokens|, i requires 0 <= i < |tokens| =>
      if Hit(tokens[i], scope) then tokens[i].(revokedAt := Some(now)) else tokens[i])
  }

  /** The row count of that update. */
  function RevokedCount(tokens: seq<Token>, scope: Scope): nat {
    if |tokens| == 0 then 0
    else RevokedCount(tokens[..|tokens| - 1], scope) + if Hit(tokens[|tokens| - 1], scope) then 1 else 0
  }

  function NewToken(
    raw: string, user: int, host: int, reservation: Option<nat>, purpose: Purpose, now: int, expires: int): Token {
    Token(Sha(raw), user, host, reservation, purpose, now, expires, None, None)
  }

  /** Revoke, then insert; the digest column is unique, so a repeated raw token fails the insert. */
  function Replace(s: State, scope: Scope, t: Token, raw: string): (State, Result<nat>) {
    if Fresh(s.tokens, raw) then
      (s.(tokens := Revoke(s.tokens, scope, s.now) + [t]), Success(|s.tokens|))
    else (s, Failure(DuplicateToken))
  }

  /** Who may get a connect token for a reservation, and when. */
  function ConnectGate(cfg: Settings, s: State, user: User, id: int): (e: Option<Error>)
    requires 0 <= id < |s.reservations|
    ensures e.None? <==>
      && CanAccess(s.reservations[id], user)
      && s.reservations[id].status == Confirmed
      && s.reservations[id].start - cfg.graceSeconds * SECOND <= s.now < s.reservations[id].end
  {
    var r := s.reservations[id];
    if !CanAccess(r, user) then Some(NotOwner)
    else if r.status != Confirmed then Some(NotActive)
    else if s.now < r.start - cfg.graceSeconds * SECOND then Some(TooEarly)
    else if s.now >= r.end then Some(WindowExpired)
    else None
  }

  function IssueConnect(cfg: Settings, s: State, user: User, id: int, raw: string): (State, Result<nat>)
    requires 0 <= id < |s.reservations|
  {
    var gate := ConnectGate(cfg, s, user, id);
    if gate.Some? then (s, Failure(gate.value))
    else
      var r := s.reservations[id];
      Replace(s, OfReservation(id), NewToken(raw, user.id, r.host, Some(id), Connect, s.now, r.end), raw)
  }

  function IssueAgent(cfg: Settings, s: State, host: int, issuer: User, raw: string): (State, Result<nat>) {
    Replace(s, OfHost(host), NewToken(raw, issuer.id, host, None, Agent, s.now, s.now + cfg.agentTtlDays * DAY), raw)
  }

  /** The live session a cookie stands for, as a logout sees it. */
  predicate InSession(t: Token, cookie: string) {
    t.jti == Sha(cookie) && t.purpose == Purpose.Session && t.revokedAt.None?
  }

  /** UPDATE tokens SET revoked_at = now on the session of a cookie. */
  function EndSession(tokens: seq<Token>, cookie: string, now: int): (r: seq<Token>)
    ensures |r| == |tokens|
    ensures forall i :: 0 <= i < |tokens| ==>
      r[i] == if InSession(tokens[i], cookie) then tokens[i].(revokedAt := Some(now)) else tokens[i]
  {
    seq(|tokens|, i requires 0 <= i < |tokens| =>
      if InSession(tokens[i], cookie) then tokens[i].(revokedAt := Some(now)) else tokens[i])
  }

  predicate Usable(t: Token, raw: string, purpose: Purpose, now: int) {
    t.jti == Sha(raw) && t.purpose == purpose && Live(t) && t.expiresAt > now
  }

  /** SELECT the usable token a raw string stands for. */
  function Find(tokens: seq<Token>, raw: string, purpose: Purpose, now: int): (found: Option<nat>)
    ensures found.None? <==> raw == "" || forall t :: t in tokens ==> !Usable(t, raw, purpose, now)
    ensures found.Some? ==> found.value < |tokens| && Usable(tokens[found.value], raw, purpose, now)
  {
    if raw == "" || |tokens| == 0 then None
    else
      assert tokens == tokens[..|tokens| - 1] + [tokens[|tokens| - 1]];
      if Usable(tokens[|tokens| - 1], raw, purpose, now) then Some(|tokens| - 1)
      else Find(tokens[..|tokens| - 1], raw, purpose, now)
  }

  /** First half of a verify request: select, or fail and audit. */
  function VerifySelect(s: State, request: int, raw: string): (State, Result<nat>) {
    var found := Find(s.tokens, raw, Connect, s.now);
    if request in s.inflight then (s, Failure(NoSuchRequest))
    else if found.None? then (s.(audit := s.audit + [VerifyFailed(None)]), Failure(InvalidToken))
    else (s.(inflight := s.inflight[request := Ticket(found.value, s.now)]), Success(found.value))
  }

  /** UPDATE tokens SET consumed_at = now WHERE id = token and neither mark is set. */
  function MarkConsumed(tokens: seq<Token>, token: nat, now: int): (seq<Token>, bool) {
    if token < |tokens| && Live(tokens[token]) then (tokens[token := tokens[token].(consumedAt := Some(now))], true)
    else (tokens, false)
  }

  /** Second half: consume conditionally when asked to, audit the outcome, answer. */
  function VerifyFinish(s: State, request: int, consume: bool): (State, Result<nat>) {
    if request !in s.inflight then (s, Failure(NoSuchRequest))
    else
      var ticket := s.inflight[request];
      var s1 := s.(inflight := s.inflight - {request});
      if !consume then (s1.(audit := s.audit + [TokenVerified(ticket.token)]), Success(ticket.token))
      else
        var (tokens, done) := MarkConsumed(s.tokens, ticket.token, s.now);
        if done then
          (s1.(tokens := tokens, audit := s.audit + [TokenConsumed(ticket.token, ticket.selectedAt, s.now)]),
           Success(ticket.token))
        else (s1.(audit := s.audit + [VerifyFailed(Some(ticket.token))]), Failure(AlreadyConsumed))
  }
}
