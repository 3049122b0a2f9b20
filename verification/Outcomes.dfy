/** What each call leaves behind, whole: its answer and the complete new state, in the fields of the
    tables, for every state a run reaches. Bookings and cancellations are in BookingRuns, heartbeats in
    HostRuns. */
module Outcomes {
  import opened Clock
  import opened Domain
  import opened Booking
  import opened Machine
  import opened Tokens
  import opened TokenRuns
  import opened Terms
  import Availability
  import Endpoints
  import Hosts
  import HostRuns

  /** No token has the digest of the raw token yet. */
  ghost predicate Unused(tokens: seq<Token>, raw: string) {
    forall t :: t in tokens ==> t.jti != Sha(raw)
  }

  /** The tokens after an issue: those hit are revoked, the others as they were, the new one is last. */
  ghost predicate Issues(s: State, s': State, hit: Token -> bool, t: Token) {
    && |s'.tokens| == |s.tokens| + 1 && s'.tokens[|s.tokens|] == t
    && forall i :: 0 <= i < |s.tokens| ==>
         s'.tokens[i] == if hit(s.tokens[i]) then s.tokens[i].(revokedAt := Some(s.now)) else s.tokens[i]
  }

  /** The live connect tokens of a reservation. */
  function ConnectTokens(id: int): Token -> bool {
    (t: Token) =>
      t.purpose == Purpose.Connect && t.reservation == Some(id) && t.consumedAt == None && t.revokedAt == None
  }

  /** The live agent tokens of a host. */
  function AgentTokens(host: int): Token -> bool {
    (t: Token) => t.purpose == Purpose.Agent && t.host == host && t.consumedAt == None && t.revokedAt == None
  }

  /** Tokens name reservations that exist. */
  ghost predicate TokensBooked(s: State) {
    forall t :: t in s.tokens && t.reservation.Some? ==> t.reservation.value < |s.reservations|
  }

  lemma TokensBookedStep(cfg: Settings, s: State, q: Request)
    requires TokensBooked(s)
    ensures TokensBooked(Step(cfg, s, q))
  {
    var s' := Step(cfg, s, q);
    TokenStepHolds(cfg, s, q);
    HostRuns.RowsStay(cfg, s, q);
    forall t | t in s'.tokens && t.reservation.Some?
      ensures t.reservation.value < |s'.reservations|
    {
      var i :| 0 <= i < |s'.tokens| && s'.tokens[i] == t;
      if i < |s.tokens| {
        assert s.tokens[i] in s.tokens;
        SameReservation(cfg, s, q, i);
      } else {
        NewReservation(cfg, s, q);
      }
    }
  }

  lemma SameReservation(cfg: Settings, s: State, q: Request, i: nat)
    requires i < |s.tokens|
    ensures i < |Step(cfg, s, q).tokens| && Step(cfg, s, q).tokens[i].reservation == s.tokens[i].reservation
  {
    TokenStepHolds(cfg, s, q);
    if Issued(s, Step(cfg, s, q), Target(s, q)) {
      IssuedRow(s, Step(cfg, s, q), Target(s, q), i);
    } else if SignedIn(s, Step(cfg, s, q)) {
      assert Step(cfg, s, q).tokens[i] == Step(cfg, s, q).tokens[..|s.tokens|][i];
    }
  }

  lemma NewReservation(cfg: Settings, s: State, q: Request)
    requires |Step(cfg, s, q).tokens| == |s.tokens| + 1
    ensures var t := Step(cfg, s, q).tokens[|s.tokens|];
      t.reservation.Some? ==> t.reservation.value < |Step(cfg, s, q).reservations|
  {
  }

  lemma {:induction false} RunsTokensBooked(cfg: Settings, start: int, run: seq<Request>)
    ensures TokensBooked(Run(cfg, start, run))
  {
    if |run| > 0 {
      RunsTokensBooked(cfg, start, run[..|run| - 1]);
      TokensBookedStep(cfg, Run(cfg, start, run[..|run| - 1]), run[|run| - 1]);
    }
  }

  /** An instant use: booking, token, host and log, all at once. */
  ghost predicate UsedInstantly(s: State, s': State, user: User, host: int, raw: string, starts: int, ends: int) {
    && 0 <= host < |s.hosts|
    && s' == s.(
         hosts := s.hosts[host := s.hosts[host].(status := InUse)],
         reservations := s.reservations + [Reservation(user.id, host, starts, ends, 0, Confirmed, None)],
         tokens := s.tokens +
           [Token(Sha(raw), user.id, host, Some(|s.reservations|), Purpose.Connect, s.now, ends, None, None)],
         audit := s.audit + [
           BookingCreated(|s.reservations|, user.id),
           TokenIssued(|s.tokens|),
           StatusChanged(host, Idle, InUse, InstantUse)])
  }

  lemma FreshIsUnused(tokens: seq<Token>, raw: string)
    ensures Fresh(tokens, raw) <==> Unused(tokens, raw)
  {
    assert forall i :: 0 <= i < |tokens| ==> tokens[i] in tokens;
  }

  lemma NoneToRevoke(s: State)
    requires TokensBooked(s)
    ensures Revoke(s.tokens, OfReservation(|s.reservations|), s.now) == s.tokens
    ensures RevokedCount(s.tokens, OfReservation(|s.reservations|)) == 0
  {
    assert forall i :: 0 <= i < |s.tokens| ==> s.tokens[i] in s.tokens;
    NoneCounted(s.tokens, OfReservation(|s.reservations|));
  }

  lemma {:induction false} NoneCounted(tokens: seq<Token>, scope: Scope)
    requires forall i :: 0 <= i < |tokens| ==> !Hit(tokens[i], scope)
    ensures RevokedCount(tokens, scope) == 0
  {
    if |tokens| > 0 {
      NoneCounted(tokens[..|tokens| - 1], scope);
    }
  }

  lemma InstantWrites(cfg: Settings, s: State, user: User, host: int, raw: string)
    requires TokensBooked(s)
    ensures var (s1, made) := CreateInstant(cfg, s, user, host);
      var (s', answer) := Endpoints.Instant(cfg, s, user, host, raw);
      var w := WindowFor(s, host);
      && (made.Failure? ==> answer == made && s' == s)
      && (made.Success? && !Unused(s.tokens, raw) ==> answer == Failure(DuplicateToken) && s' == s)
      && (made.Success? && Unused(s.tokens, raw) ==>
            answer == Success(|s.reservations|) && UsedInstantly(s, s', user, host, raw, w.0, w.1))
  {
    var (s1, made) := CreateInstant(cfg, s, user, host);
    FreshIsUnused(s.tokens, raw);
    if made.Success? {
      NoneToRevoke(s);
      assert s1.reservations[|s.reservations|] ==
        Reservation(user.id, host, WindowFor(s, host).0, WindowFor(s, host).1, 0, Confirmed, None);
      TokenForInstant(cfg, s1, user, |s.reservations|, raw);
    }
  }

  lemma TokenForInstant(cfg: Settings, s: State, user: User, id: nat, raw: string)
    requires id < |s.reservations| && s.reservations[id].user == user.id && s.reservations[id].status == Confirmed
    requires s.reservations[id].start <= s.now < s.reservations[id].end
    requires Revoke(s.tokens, OfReservation(id), s.now) == s.tokens
    requires RevokedCount(s.tokens, OfReservation(id)) == 0
    ensures Endpoints.Connect(cfg, s, user, id, raw) ==
      if Fresh(s.tokens, raw) then
        (s.(tokens := s.tokens + [Token(Sha(raw), user.id, s.reservations[id].host, Some(id), Purpose.Connect, s.now,
              s.reservations[id].end, None, None)],
            audit := s.audit + [TokenIssued(|s.tokens|)]),
         Success(|s.tokens|))
      else (s, Failure(DuplicateToken))
  {
    assert s.audit + [] == s.audit;
    assert ConnectGate(cfg, s, user, id).None?;
  }

  /** When and how a host can be taken right away, in every reachable state. A window that begins at the
      current second and ends where an instant booking ends is stored exactly when the host is idle and
      nothing covers the present, the quotas leave room and the raw token is unused. Then booking, token,
      host and log change together; otherwise nothing does, and the answer names the first obstacle. */
  lemma InstantOutcome(cfg: Settings, start: int, run: seq<Request>, user: User, host: int, raw: string)
    ensures var s := Run(cfg, start, run);
      var (s', answer) := Endpoints.Instant(cfg, s, user, host, raw);
      InstantHappens(cfg, s, s', answer, user, host, raw)
  {
    RunsTokensBooked(cfg, start, run);
    Availability.ListPredictsBooking(cfg, start, run, user, host);
    InstantFromPrediction(cfg, Run(cfg, start, run), user, host, raw);
  }

  ghost predicate InstantHappens(
    cfg: Settings, s: State, s': State, answer: Result<nat>, user: User, host: int, raw: string)
  {
    var (from, until) := (WindowFor(s, host).0, WindowFor(s, host).1);
    var room := QuotasLeaveRoom(cfg, s, user.id, from, 0, until);
    && from % 1_000_000 == 0 && from <= s.now < from + 1_000_000 && InstantEnd(s.reservations, host, s.now, until)
    && (answer.Success? <==> FreeNow(s, host) && room && Unused(s.tokens, raw))
    && (answer.Success? ==>
          answer.value == |s.reservations| && UsedInstantly(s, s', user, host, raw, from, until))
    && (answer.Failure? ==> s' == s)
    && (answer == Failure(HostNotFound) <==> !(0 <= host < |s.hosts|))
    && (answer == Failure(HostNotAvailable) <==> 0 <= host < |s.hosts| && s.hosts[host].status != Idle)
    && (answer == Failure(Overlap) <==>
          0 <= host < |s.hosts| && s.hosts[host].status == Idle && room && !FreeNow(s, host))
    && (answer == Failure(DuplicateToken) <==> FreeNow(s, host) && room && !Unused(s.tokens, raw))
  }

  lemma InstantFromPrediction(cfg: Settings, s: State, user: User, host: int, raw: string)
    requires TokensBooked(s) && Availability.Predicted(cfg, s, user, host)
    ensures var (s', answer) := Endpoints.Instant(cfg, s, user, host, raw);
      InstantHappens(cfg, s, s', answer, user, host, raw)
  {
    InstantWrites(cfg, s, user, host, raw);
  }

  /** A connect token, whole. */
  lemma ConnectWrites(cfg: Settings, start: int, run: seq<Request>, user: User, id: int, raw: string)
    ensures var s := Run(cfg, start, run);
      var (s', answer) := Answer(cfg, s, Request.Connect(user, id, raw));
      && (answer.Success? <==>
            && 0 <= id < |s.reservations| && (user.admin || s.reservations[id].user == user.id)
            && s.reservations[id].status == Confirmed
            && s.reservations[id].start - cfg.graceSeconds * 1_000_000 <= s.now < s.reservations[id].end
            && Unused(s.tokens, raw))
      && (answer.Failure? ==> s' == s)
      && (answer.Success? ==>
            && answer.value == |s.tokens|
            && s' == s.(tokens := s'.tokens, audit := s'.audit)
            && Issues(s, s', ConnectTokens(id), Token(Sha(raw), user.id, s.reservations[id].host, Some(id),
                 Purpose.Connect, s.now, s.reservations[id].end, None, None))
            && s'.audit == s.audit +
                 (if exists t :: t in s.tokens && ConnectTokens(id)(t) then [PreviousRevoked(id, 1)] else []) +
                 [TokenIssued(|s.tokens|)])
  {
    var s := Run(cfg, start, run);
    ConnectOutcome(cfg, start, run, user, id, raw);
    FreshIsUnused(s.tokens, raw);
    if 0 <= id {
      assert forall t: Token :: Hit(t, OfReservation(id)) <==> ConnectTokens(id)(t);
    }
  }

  /** A rotation, whole. */
  lemma RotationWrites(cfg: Settings, s: State, user: User, host: int, raw: string)
    ensures var (s', answer) := Answer(cfg, s, Request.RotateAgentToken(user, host, raw));
      && (answer.Success? <==> user.admin && 0 <= host < |s.hosts| && Unused(s.tokens, raw))
      && (answer.Failure? ==> s' == s)
      && (answer.Success? ==>
            && answer.value == |s.tokens| && s' == s.(tokens := s'.tokens)
            && Issues(s, s', AgentTokens(host), Token(Sha(raw), user.id, host, None, Purpose.Agent, s.now,
                 s.now + cfg.agentTtlDays * (24 * 60 * MINUTE), None, None)))
  {
    FreshIsUnused(s.tokens, raw);
  }

  /** A registration, whole. */
  lemma RegistrationWrites(cfg: Settings, s: State, user: User, raw: string)
    ensures var (s', answer) := Answer(cfg, s, Request.RegisterHost(user, raw));
      && (answer.Success? <==> user.admin && Unused(s.tokens, raw))
      && (answer.Failure? ==> s' == s)
      && (answer.Success? ==>
            && answer.value == |s.hosts|
            && s' == s.(hosts := s.hosts + [Host(Offline, None)], tokens := s'.tokens)
            && Issues(s, s', AgentTokens(|s.hosts|), Token(Sha(raw), user.id, |s.hosts|, None, Purpose.Agent, s.now,
                 s.now + cfg.agentTtlDays * (24 * 60 * MINUTE), None, None)))
  {
    FreshIsUnused(s.tokens, raw);
  }

  /** The first half of a verify request, in every reachable state: it selects exactly when some connect
      token with the digest is neither consumed nor revoked and not expired, so a live token can be
      selected until the very moment it expires; only the ticket is new, or only the failure's entry. */
  lemma SelectOutcome(cfg: Settings, start: int, run: seq<Request>, request: int, raw: string)
    ensures var s := Run(cfg, start, run);
      var (s', answer) := Answer(cfg, s, Request.VerifySelect(request, raw));
      && (request in s.inflight ==> s' == s && answer.Failure?)
      && (request !in s.inflight ==>
            && (answer.Success? <==> raw != "" && exists t :: t in s.tokens && Answers(t, raw, Purpose.Connect, s.now))
            && (answer.Success? ==>
                  && answer.value < |s.tokens| && Answers(s.tokens[answer.value], raw, Purpose.Connect, s.now)
                  && s' == s.(inflight := s.inflight[request := Ticket(answer.value, s.now)]))
            && (answer.Failure? ==> answer.error == InvalidToken && s' == s.(audit := s.audit + [VerifyFailed(None)])))
  {
    var s := Run(cfg, start, run);
    assert forall t: Token ::
      Answers(t, raw, Purpose.Connect, s.now) <==> Tokens.Usable(t, raw, Purpose.Connect, s.now);
  }

  /** The second half, in every reachable state and whole: a request in flight ends; without consuming it
      is answered yes; consuming, exactly when its token is neither consumed nor revoked, whose mark is
      then the one change to the tokens. */
  lemma FinishOutcomes(cfg: Settings, start: int, run: seq<Request>, request: int, consume: bool)
    ensures var s := Run(cfg, start, run);
      var (s', answer) := Answer(cfg, s, Request.VerifyFinish(request, consume));
      && (request !in s.inflight ==> s' == s && answer.Failure?)
      && (request in s.inflight ==>
            && var ticket := s.inflight[request];
            && ticket.token < |s.tokens|
            && var t := s.tokens[ticket.token];
            && (answer.Success? <==> !consume || (t.consumedAt == None && t.revokedAt == None))
            && (answer.Success? ==> answer.value == ticket.token)
            && s' == s.(
                 inflight := s.inflight - {request},
                 tokens :=
                   if consume && answer.Success? then s.tokens[ticket.token := t.(consumedAt := Some(s.now))]
                   else s.tokens,
                 audit := s.audit + [
                   if !consume then TokenVerified(ticket.token)
                   else if answer.Success? then TokenConsumed(ticket.token, ticket.selectedAt, s.now)
                   else VerifyFailed(Some(ticket.token))]))
  {
    RunsOneLive(cfg, start, run);
  }

  lemma {:induction false} SweepLogs(cfg: Settings, s: State, k: nat)
    requires k <= |s.hosts|
    ensures Hosts.Sweep(cfg, s, k).audit == s.audit + SweepEntries(cfg, s, k)
  {
    if k > 0 {
      SweepLogs(cfg, s, k - 1);
    }
  }

  /** The host is to be taken offline at this moment. */
  predicate Silent(cfg: Settings, h: Host, now: int) {
    && h.status != Offline
    && (h.lastHeartbeat == None || now - h.lastHeartbeat.value > cfg.offlineAfterSeconds * 1_000_000)
  }

  function SweepEntries(cfg: Settings, s: State, k: nat): seq<Audit>
    requires k <= |s.hosts|
  {
    if k == 0 then []
    else if Silent(cfg, s.hosts[k - 1], s.now) then
      SweepEntries(cfg, s, k - 1) + [StatusChanged(k - 1, s.hosts[k - 1].status, Offline, HeartbeatStale)]
    else SweepEntries(cfg, s, k - 1)
  }

  /** The monitor's tick, whole: every host that is not offline and has no heartbeat within the threshold
      goes offline, no other field of any table changes, and the log gains one entry for each of them, in
      order of id. */
  lemma TickOutcome(cfg: Settings, s: State)
    ensures var s' := Step(cfg, s, Request.Tick);
      && s' == s.(hosts := s'.hosts, audit := s.audit + SweepEntries(cfg, s, |s.hosts|))
      && |s'.hosts| == |s.hosts|
      && forall h :: 0 <= h < |s.hosts| ==>
           s'.hosts[h] == if Silent(cfg, s.hosts[h], s.now) then s.hosts[h].(status := Offline) else s.hosts[h]
  {
    SweepLogs(cfg, s, |s.hosts|);
  }

  /** A cancellation, whole: the row, the status of its host, and one entry for each that changed. */
  lemma CancelWhole(cfg: Settings, s: State, user: User, id: int)
    requires Answer(cfg, s, Request.Cancel(user, id)).1.Success?
    ensures var s' := Step(cfg, s, Request.Cancel(user, id));
      && 0 <= id < |s.reservations|
      && var r := s.reservations[id];
      && var rs := if r.status == Canceled then s.reservations
                   else s.reservations[id := r.(status := Canceled, canceledAt := Some(s.now))];
      && var frees := 0 <= r.host < |s.hosts| && s.hosts[r.host].status == InUse && !Covered(rs, r.host, s.now);
      && s' == s.(
           reservations := rs,
           hosts := if frees then s.hosts[r.host := s.hosts[r.host].(status := Idle)] else s.hosts,
           audit := s.audit
             + (if r.status == Canceled then [] else [BookingCanceled(id, user.id)])
             + (if frees then [StatusChanged(r.host, InUse, Idle, ReservationCanceled)] else []))
  {
  }
}
