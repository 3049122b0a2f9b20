/** The token protocol over whole runs: any number of verify requests interleave with reissues and
    with the clock, and the conditional update alone decides who consumes a token. */
module TokenRuns {
  import opened Clock
  import opened Domain
  import opened Booking
  import opened Tokens
  import opened Hosts
  import opened Machine
  import Endpoints

  /** Rows stay, identities stay, and a mark once set stays as it is. */
  ghost predicate Grows(before: seq<Token>, after: seq<Token>) {
    && |before| <= |after|
    && forall i :: 0 <= i < |before| ==>
         && after[i] == before[i].(consumedAt := after[i].consumedAt, revokedAt := after[i].revokedAt)
         && (before[i].consumedAt.Some? ==> after[i].consumedAt == before[i].consumedAt)
         && (before[i].revokedAt.Some? ==> after[i].revokedAt == before[i].revokedAt)
  }

  ghost predicate NeverBoth(tokens: seq<Token>) {
    forall t :: t in tokens ==> t.consumedAt.None? || t.revokedAt.None?
  }

  /** At most one live token per scope: one connect token a reservation, one agent token a host. */
  ghost predicate OneLive(tokens: seq<Token>) {
    forall i, j :: 0 <= i < j < |tokens| && Live(tokens[i]) && Live(tokens[j]) && ScopeOf(tokens[i]).Some? ==>
      ScopeOf(tokens[i]) != ScopeOf(tokens[j])
  }

  /** Every request between its two halves selected a token that had not expired then. */
  ghost predicate TicketsValid(s: State) {
    forall p :: p in s.inflight ==>
      && s.inflight[p].token < |s.tokens|
      && s.inflight[p].selectedAt < s.tokens[s.inflight[p].token].expiresAt
      && s.inflight[p].selectedAt <= s.now
      && s.tokens[s.inflight[p].token].purpose == Purpose.Connect
  }

  /** What a step may do to the token table. */
  ghost predicate Issued(s: State, s': State, scope: Scope) {
    && |s'.tokens| == |s.tokens| + 1
    && s'.tokens[..|s.tokens|] == Revoke(s.tokens, scope, s.now)
    && ScopeOf(s'.tokens[|s.tokens|]) == Some(scope)
    && Live(s'.tokens[|s.tokens|])
    && (forall i :: 0 <= i < |s.tokens| ==> s.tokens[i].jti != s'.tokens[|s.tokens|].jti)
  }

  ghost predicate Consumed(s: State, s': State, token: nat) {
    && token < |s.tokens| && Live(s.tokens[token])
    && s'.tokens == s.tokens[token := s.tokens[token].(consumedAt := Some(s.now))]
  }

  /** A login adds one session. */
  ghost predicate SignedIn(s: State, s': State) {
    && |s'.tokens| == |s.tokens| + 1
    && s'.tokens[..|s.tokens|] == s.tokens
    && s'.tokens[|s.tokens|].purpose == Purpose.Session
    && Live(s'.tokens[|s.tokens|])
    && (forall i :: 0 <= i < |s.tokens| ==> s.tokens[i].jti != s'.tokens[|s.tokens|].jti)
  }

  /** A logout sets the revocation mark of sessions only. */
  ghost predicate SignedOut(s: State, s': State) {
    && |s'.tokens| == |s.tokens|
    && forall i :: 0 <= i < |s.tokens| ==>
         || s'.tokens[i] == s.tokens[i]
         || (s.tokens[i].purpose == Purpose.Session && s.tokens[i].revokedAt.None?
             && s'.tokens[i] == s.tokens[i].(revokedAt := Some(s.now)))
  }

  /** The scope a request reissues, when it issues a token that replaces others. */
  function Target(s: State, q: Request): Scope {
    match q
    case RotateAgentToken(user, host, raw) => OfHost(host)
    case RegisterHost(user, raw) => OfHost(|s.hosts|)
    case Connect(user, id, raw) => OfReservation(if 0 <= id then id else 0)
    case _ => OfReservation(|s.reservations|)
  }

  /** A login succeeds exactly with a new cookie, and adds its session; a logout revokes the sessions of
      its cookie and no other token. */
  lemma SessionStepHolds(cfg: Settings, s: State, q: Request)
    requires q.Login? || q.Logout?
    ensures var (s', answer) := Answer(cfg, s, q);
      && (q.Login? ==>
            && (answer.Success? <==> Fresh(s.tokens, q.cookie))
            && (answer.Failure? ==> s' == s)
            && (answer.Success? ==>
                  && SignedIn(s, s') && answer.value == |s.tokens|
                  && var t := s'.tokens[|s.tokens|];
                  && t.jti == Sha(q.cookie) && t.user == q.user.id && t.reservation.None? && t.host == NO_HOST
                  && t.issuedAt == s.now && t.expiresAt == s.now + cfg.sessionTtlSeconds * SECOND))
      && (q.Logout? ==>
            && SignedOut(s, s') && answer.Success?
            && forall i :: 0 <= i < |s.tokens| ==>
                 s'.tokens[i] ==
                   if q.cookie != "" && InSession(s.tokens[i], q.cookie) then s.tokens[i].(revokedAt := Some(s.now))
                   else s.tokens[i])
  {
    assert forall i :: 0 <= i < |s.tokens| ==> s.tokens[i] in s.tokens;
  }

  /** In every reachable state a login and the logout with its cookie are a round trip on what is live:
      the logout revokes that one session and changes no other token. */
  lemma LogoutEndsLogin(cfg: Settings, start: int, run: seq<Request>, user: User, cookie: string)
    requires cookie != "" && Fresh(Run(cfg, start, run).tokens, cookie)
    ensures var s := Run(cfg, start, run);
      var s' := Run(cfg, start, run + [Request.Login(user, cookie)] + [Request.Logout(cookie)]);
      && |s'.tokens| == |s.tokens| + 1
      && s'.tokens[..|s.tokens|] == s.tokens
      && s'.tokens[|s.tokens|].jti == Sha(cookie) && s'.tokens[|s.tokens|].revokedAt == Some(s.now)
  {
    var s := Run(cfg, start, run);
    var s1 := Step(cfg, s, Request.Login(user, cookie));
    RunAppend(cfg, start, run, Request.Login(user, cookie));
    RunAppend(cfg, start, run + [Request.Login(user, cookie)], Request.Logout(cookie));
    SessionStepHolds(cfg, s, Request.Login(user, cookie));
    SessionStepHolds(cfg, s1, Request.Logout(cookie));
    assert forall i :: 0 <= i < |s.tokens| ==> s1.tokens[i] == s1.tokens[..|s.tokens|][i];
  }

  /** What each request may do to the token table. */
  lemma TokenStepHolds(cfg: Settings, s: State, q: Request)
    ensures var s' := Step(cfg, s, q);
      || s'.tokens == s.tokens
      || (!q.Login? && Issued(s, s', Target(s, q)))
      || (q.VerifyFinish? && q.request in s.inflight && Consumed(s, s', s.inflight[q.request].token))
      || (q.Login? && SignedIn(s, s'))
      || (q.Logout? && SignedOut(s, s'))
  {
    if q.Login? || q.Logout? {
      SessionStepHolds(cfg, s, q);
    }
  }

  /** No two tokens share a digest. */
  ghost predicate Distinct(tokens: seq<Token>) {
    forall i, j :: 0 <= i < j < |tokens| ==> tokens[i].jti != tokens[j].jti
  }

  /** Sessions and agent tokens are never consumed. */
  ghost predicate ConnectConsumed(tokens: seq<Token>) {
    forall t :: t in tokens && t.consumedAt.Some? ==> t.purpose == Purpose.Connect
  }

  ghost predicate TokensSound(s: State) {
    NeverBoth(s.tokens) && OneLive(s.tokens) && Distinct(s.tokens) && ConnectConsumed(s.tokens)
  }

  lemma IssuedRow(s: State, s': State, scope: Scope, i: nat)
    requires Issued(s, s', scope) && i < |s.tokens|
    ensures s'.tokens[i] == if Hit(s.tokens[i], scope) then s.tokens[i].(revokedAt := Some(s.now)) else s.tokens[i]
  {
    assert s'.tokens[i] == s'.tokens[..|s.tokens|][i];
  }

  lemma IssuedGrows(s: State, s': State, scope: Scope)
    requires NeverBoth(s.tokens) && ConnectConsumed(s.tokens) && Issued(s, s', scope)
    ensures NeverBoth(s'.tokens) && ConnectConsumed(s'.tokens) && Grows(s.tokens, s'.tokens)
  {
    forall i | 0 <= i < |s.tokens|
      ensures s'.tokens[i] == if Hit(s.tokens[i], scope) then s.tokens[i].(revokedAt := Some(s.now)) else s.tokens[i]
    {
      IssuedRow(s, s', scope, i);
    }
    assert forall i :: 0 <= i < |s.tokens| ==> s.tokens[i] in s.tokens;
  }

  lemma IssuedOneLive(s: State, s': State, scope: Scope)
    requires OneLive(s.tokens) && Distinct(s.tokens) && Issued(s, s', scope)
    ensures OneLive(s'.tokens) && Distinct(s'.tokens)
  {
    forall i | 0 <= i < |s.tokens|
      ensures Live(s'.tokens[i]) ==> s'.tokens[i] == s.tokens[i] && ScopeOf(s'.tokens[i]) != Some(scope)
      ensures s'.tokens[i].jti == s.tokens[i].jti
    {
      IssuedRow(s, s', scope, i);
    }
  }

  lemma IssuedKeeps(s: State, s': State, scope: Scope)
    requires TokensSound(s) && Issued(s, s', scope)
    ensures TokensSound(s')
    ensures Grows(s.tokens, s'.tokens)
  {
    IssuedGrows(s, s', scope);
    IssuedOneLive(s, s', scope);
  }

  lemma ConsumedKeeps(s: State, s': State, token: nat)
    requires TokensSound(s) && Consumed(s, s', token) && s.tokens[token].purpose == Purpose.Connect
    ensures TokensSound(s')
    ensures Grows(s.tokens, s'.tokens)
  {
    assert forall i :: 0 <= i < |s.tokens| ==> s.tokens[i] in s.tokens;
  }

  lemma SignedInKeeps(s: State, s': State)
    requires TokensSound(s) && SignedIn(s, s')
    ensures TokensSound(s')
    ensures Grows(s.tokens, s'.tokens)
  {
    assert forall i :: 0 <= i < |s.tokens| ==> s'.tokens[i] == s'.tokens[..|s.tokens|][i];
    assert forall i :: 0 <= i < |s.tokens| ==> s.tokens[i] in s.tokens;
  }

  /** A logout does not ask whether the session was consumed; it never was. */
  lemma SignedOutKeeps(s: State, s': State)
    requires TokensSound(s) && SignedOut(s, s')
    ensures TokensSound(s')
    ensures Grows(s.tokens, s'.tokens)
  {
    forall i | 0 <= i < |s.tokens|
      ensures s'.tokens[i].consumedAt.None? || s'.tokens[i].revokedAt.None?
      ensures s'.tokens[i].consumedAt.Some? ==> s'.tokens[i].purpose == Purpose.Connect
    {
      assert s.tokens[i] in s.tokens;
    }
  }

  lemma TokensStep(cfg: Settings, s: State, q: Request)
    requires TokensSound(s) && TicketsValid(s)
    ensures TokensSound(Step(cfg, s, q))
    ensures Grows(s.tokens, Step(cfg, s, q).tokens)
  {
    var s' := Step(cfg, s, q);
    TokenStepHolds(cfg, s, q);
    if s'.tokens != s.tokens {
      if q.Login? {
        SignedInKeeps(s, s');
      } else if q.Logout? && SignedOut(s, s') {
        SignedOutKeeps(s, s');
      } else if Issued(s, s', Target(s, q)) {
        IssuedKeeps(s, s', Target(s, q));
      } else {
        ConsumedKeeps(s, s', s.inflight[q.request].token);
      }
    }
  }

  /** Only the verify halves touch the requests in flight, and the select adds the ticket it found. */
  lemma InflightStep(cfg: Settings, s: State, q: Request, p: int)
    requires p in Step(cfg, s, q).inflight
    ensures var s' := Step(cfg, s, q);
      (p in s.inflight && s'.inflight[p] == s.inflight[p]) ||
      (q.VerifySelect? && s'.now == s.now && s'.tokens == s.tokens
       && s'.inflight[p].selectedAt == s.now && s'.inflight[p].token < |s.tokens|
       && Usable(s.tokens[s'.inflight[p].token], q.raw, Purpose.Connect, s.now))
  {
  }

  /** The ticket of request `p` was just taken, for a connect token that has not expired. */
  ghost predicate NewTicket(s: State, s': State, p: int)
    requires p in s'.inflight
  {
    && s'.tokens == s.tokens && s'.now == s.now
    && s'.inflight[p].selectedAt == s.now && s'.inflight[p].token < |s.tokens|
    && s.tokens[s'.inflight[p].token].expiresAt > s.now
    && s.tokens[s'.inflight[p].token].purpose == Purpose.Connect
  }

  lemma TicketsKept(s: State, s': State)
    requires TicketsValid(s) && Grows(s.tokens, s'.tokens) && s.now <= s'.now
    requires forall p :: p in s'.inflight ==>
      (p in s.inflight && s'.inflight[p] == s.inflight[p]) ||
      NewTicket(s, s', p)
    ensures TicketsValid(s')
  {
  }

  lemma TicketsStep(cfg: Settings, s: State, q: Request)
    requires TicketsValid(s) && Grows(s.tokens, Step(cfg, s, q).tokens)
    ensures TicketsValid(Step(cfg, s, q))
  {
    var s' := Step(cfg, s, q);
    ClockStep(cfg, s, q);
    forall p | p in s'.inflight
      ensures (p in s.inflight && s'.inflight[p] == s.inflight[p]) ||
        NewTicket(s, s', p)
    {
      InflightStep(cfg, s, q, p);
    }
    TicketsKept(s, s');
  }

  /** In all runs at most one token per scope is live, none is both consumed and revoked, no digest
      occurs twice, and only connect tokens are consumed. */
  lemma {:induction false} RunsOneLive(cfg: Settings, start: int, run: seq<Request>)
    ensures TokensSound(Run(cfg, start, run))
    ensures TicketsValid(Run(cfg, start, run))
  {
    if |run| > 0 {
      var s, q := Run(cfg, start, run[..|run| - 1]), run[|run| - 1];
      RunsOneLive(cfg, start, run[..|run| - 1]);
      TokensStep(cfg, s, q);
      TicketsStep(cfg, s, q);
    }
  }

  /** Two tokens that are neither consumed nor revoked are not connect tokens of one reservation, nor agent
      tokens of one host. */
  ghost predicate LiveApart(t: Token, t': Token) {
    t.consumedAt == None && t.revokedAt == None && t'.consumedAt == None && t'.revokedAt == None ==>
      && !(t.purpose == Purpose.Connect == t'.purpose && t.reservation == t'.reservation != None)
      && !(t.purpose == Purpose.Agent == t'.purpose && t.host == t'.host)
  }

  /** The same in fields: any two tokens of a reachable state are apart, and none carries both marks. */
  lemma AtMostOneLive(cfg: Settings, start: int, run: seq<Request>)
    ensures var tokens := Run(cfg, start, run).tokens;
      && (forall i, j :: 0 <= i < j < |tokens| ==> LiveApart(tokens[i], tokens[j]))
      && (forall t :: t in tokens ==> t.consumedAt == None || t.revokedAt == None)
  {
    RunsOneLive(cfg, start, run);
    OneLiveInFields(Run(cfg, start, run).tokens);
  }

  lemma OneLiveInFields(tokens: seq<Token>)
    requires OneLive(tokens)
    ensures forall i, j :: 0 <= i < j < |tokens| ==> LiveApart(tokens[i], tokens[j])
  {
  }

  /** Neither mark is ever cleared, from any point of a run to its end. */
  lemma {:induction false} MarksStay(cfg: Settings, start: int, run: seq<Request>, k: nat)
    requires k <= |run|
    ensures Grows(Run(cfg, start, run[..k]).tokens, Run(cfg, start, run).tokens)
  {
    if k == |run| {
      assert run[..k] == run;
    } else {
      var n := |run| - 1;
      assert run[..n][..k] == run[..k];
      MarksStay(cfg, start, run[..n], k);
      RunsOneLive(cfg, start, run[..n]);
      TokensStep(cfg, Run(cfg, start, run[..n]), run[n]);
    }
  }

  /** The row count of a bulk revocation is 0 or 1: it is 1 exactly when the scope has a live token. */
  lemma {:induction false} RevokedCountIsOne(tokens: seq<Token>, scope: Scope)
    requires OneLive(tokens)
    ensures RevokedCount(tokens, scope) == if exists t :: t in tokens && Hit(t, scope) then 1 else 0
  {
    if |tokens| > 0 {
      var n := |tokens| - 1;
      var rest := tokens[..n];
      assert tokens == rest + [tokens[n]];
      assert OneLive(rest) by {
        assert forall i :: 0 <= i < n ==> rest[i] == tokens[i];
      }
      RevokedCountIsOne(rest, scope);
    }
  }

  /** One issue: at most one token replaced, no token outside the scope touched, and the new token is
      the one live token of the scope. */
  ghost predicate ReplacesOne(s: State, s': State, scope: Scope) {
    && |s'.tokens| == |s.tokens| + 1
    && RevokedCount(s.tokens, scope) <= 1
    && (forall i :: 0 <= i < |s.tokens| ==>
          s'.tokens[i] == if Hit(s.tokens[i], scope) then s.tokens[i].(revokedAt := Some(s.now)) else s.tokens[i])
    && ScopeOf(s'.tokens[|s.tokens|]) == Some(scope)
    && (forall i :: 0 <= i < |s'.tokens| && Hit(s'.tokens[i], scope) ==> i == |s.tokens|)
  }

  lemma IssuedReplacesOne(s: State, s': State, scope: Scope)
    requires TokensSound(s) && Issued(s, s', scope)
    ensures ReplacesOne(s, s', scope)
  {
    RevokedCountIsOne(s.tokens, scope);
    assert forall i :: 0 <= i < |s.tokens| ==> s'.tokens[i] == s'.tokens[..|s.tokens|][i];
  }

  /** In all runs an issue replaces at most one token, and touches no token outside its scope: other
      purposes, login sessions among them, other reservations and other hosts keep their tokens
      exactly. A login touches none at all. */
  lemma IssueReplacesOne(cfg: Settings, start: int, run: seq<Request>, q: Request)
    requires |Step(cfg, Run(cfg, start, run), q).tokens| > |Run(cfg, start, run).tokens|
    ensures var s, s' := Run(cfg, start, run), Step(cfg, Run(cfg, start, run), q);
      if q.Login? then SignedIn(s, s') else ReplacesOne(s, s', Target(s, q))
  {
    var s := Run(cfg, start, run);
    RunsOneLive(cfg, start, run);
    TokenStepHolds(cfg, s, q);
    if !q.Login? {
      IssuedReplacesOne(s, Step(cfg, s, q), Target(s, q));
    }
  }

  /** What the log says of an accepted consumption, against the token row. */
  ghost predicate Accepted(s: State, i: nat)
    requires i < |s.audit| && s.audit[i].TokenConsumed?
  {
    var e := s.audit[i];
    && e.token < |s.tokens|
    && s.tokens[e.token].consumedAt == Some(e.at)
    && s.tokens[e.token].revokedAt.None?
    && s.tokens[e.token].purpose == Purpose.Connect
    && e.selectedAt < s.tokens[e.token].expiresAt
    && e.selectedAt <= e.at
  }

  ghost predicate ConsumptionsSound(s: State) {
    && (forall i :: 0 <= i < |s.audit| && s.audit[i].TokenConsumed? ==> Accepted(s, i))
    && (forall i, j :: 0 <= i < j < |s.audit| && s.audit[i].TokenConsumed? && s.audit[j].TokenConsumed? ==>
          s.audit[i].token != s.audit[j].token)
    && (forall t :: 0 <= t < |s.tokens| && s.tokens[t].consumedAt.Some? ==>
          exists i :: 0 <= i < |s.audit| && s.audit[i].TokenConsumed? && s.audit[i].token == t)
  }

  /** A step that is not an accepted consumption logs none, and leaves every consumption mark alone. */
  ghost predicate NoConsumption(s: State, s': State) {
    && |s.audit| <= |s'.audit| && s'.audit[..|s.audit|] == s.audit
    && (forall i :: |s.audit| <= i < |s'.audit| ==> !s'.audit[i].TokenConsumed?)
    && |s.tokens| <= |s'.tokens|
    && (forall i :: 0 <= i < |s.tokens| ==> s'.tokens[i].consumedAt == s.tokens[i].consumedAt)
    && (forall i :: |s.tokens| <= i < |s'.tokens| ==> s'.tokens[i].consumedAt.None?)
  }

  ghost predicate Consumption(s: State, s': State, request: int) {
    && request in s.inflight
    && var ticket := s.inflight[request];
    && Consumed(s, s', ticket.token)
    && s'.audit == s.audit + [TokenConsumed(ticket.token, ticket.selectedAt, s.now)]
  }

  lemma ConnectConsumesNone(cfg: Settings, s: State, user: User, id: int, raw: string)
    ensures NoConsumption(s, Endpoints.Connect(cfg, s, user, id, raw).0)
  {
  }

  lemma InstantConsumesNone(cfg: Settings, s: State, user: User, host: int, raw: string)
    ensures NoConsumption(s, Endpoints.Instant(cfg, s, user, host, raw).0)
  {
    var (s1, booked) := CreateInstant(cfg, s, user, host);
    if booked.Success? {
      ConnectConsumesNone(cfg, s1, user, booked.value, raw);
    }
  }

  lemma AgentCallsConsumeNone(cfg: Settings, s: State, q: Request)
    requires q.RegisterHost? || q.RotateAgentToken? || q.Heartbeat?
    ensures NoConsumption(s, Step(cfg, s, q))
  {
  }

  lemma SessionsConsumeNone(cfg: Settings, s: State, q: Request)
    requires q.Login? || q.Logout?
    ensures NoConsumption(s, Step(cfg, s, q))
  {
  }

  lemma BookingCallsConsumeNone(cfg: Settings, s: State, q: Request)
    requires q.Book? || q.Cancel?
    ensures NoConsumption(s, Step(cfg, s, q))
  {
  }

  lemma ConsumptionStepHolds(cfg: Settings, s: State, q: Request)
    ensures var s' := Step(cfg, s, q);
      NoConsumption(s, s') || (q.VerifyFinish? && q.consume && Consumption(s, s', q.request))
  {
    match q
    case Tick => SweepLogsNoConsumption(cfg, s, |s.hosts|);
    case Connect(user, id, raw) => ConnectConsumesNone(cfg, s, user, id, raw);
    case Instant(user, host, raw) => InstantConsumesNone(cfg, s, user, host, raw);
    case Book(user, host, starts, ends) => BookingCallsConsumeNone(cfg, s, q);
    case Cancel(user, id) => BookingCallsConsumeNone(cfg, s, q);
    case VerifySelect(request, raw) =>
    case VerifyFinish(request, consume) =>
    case Advance(duration) =>
    case Login(user, cookie) => SessionsConsumeNone(cfg, s, q);
    case Logout(cookie) => SessionsConsumeNone(cfg, s, q);
    case _ => AgentCallsConsumeNone(cfg, s, q);
  }

  lemma {:induction false} SweepLogsNoConsumption(cfg: Settings, s: State, k: nat)
    requires k <= |s.hosts|
    ensures NoConsumption(s, Sweep(cfg, s, k))
  {
    if k > 0 {
      SweepLogsNoConsumption(cfg, s, k - 1);
    }
  }

  lemma NoConsumptionKeeps(s: State, s': State)
    requires ConsumptionsSound(s) && NoConsumption(s, s') && Grows(s.tokens, s'.tokens) && NeverBoth(s'.tokens)
    ensures ConsumptionsSound(s')
  {
    assert forall i :: 0 <= i < |s.audit| ==> s'.audit[i] == s'.audit[..|s.audit|][i] == s.audit[i];
    forall i | 0 <= i < |s'.audit| && s'.audit[i].TokenConsumed?
      ensures Accepted(s', i)
    {
      assert Accepted(s, i) && s'.tokens[s.audit[i].token] in s'.tokens;
    }
    forall t | 0 <= t < |s'.tokens| && s'.tokens[t].consumedAt.Some?
      ensures exists i :: 0 <= i < |s'.audit| && s'.audit[i].TokenConsumed? && s'.audit[i].token == t
    {
      var i :| 0 <= i < |s.audit| && s.audit[i].TokenConsumed? && s.audit[i].token == t;
      assert s'.audit[i] == s.audit[i];
    }
  }

  lemma ConsumptionKeeps(s: State, s': State, request: int)
    requires ConsumptionsSound(s) && TicketsValid(s) && Consumption(s, s', request) && NeverBoth(s'.tokens)
    ensures ConsumptionsSound(s')
  {
    var token := s.inflight[request].token;
    forall i | 0 <= i < |s'.audit| && s'.audit[i].TokenConsumed?
      ensures Accepted(s', i) && (i < |s.audit| ==> s'.audit[i].token != token)
    {
      assert i < |s.audit| ==> Accepted(s, i);
      assert s'.tokens[token] in s'.tokens;
    }
    forall t | 0 <= t < |s'.tokens| && s'.tokens[t].consumedAt.Some?
      ensures exists i :: 0 <= i < |s'.audit| && s'.audit[i].TokenConsumed? && s'.audit[i].token == t
    {
      if t == token {
        assert s'.audit[|s.audit|].token == t;
      } else {
        var i :| 0 <= i < |s.audit| && s.audit[i].TokenConsumed? && s.audit[i].token == t;
        assert s'.audit[i] == s.audit[i];
      }
    }
  }

  /** One-time consumption: in all runs, for any interleaving of verify requests with reissues and the
      clock, no token is accepted twice; each accepted one was unexpired when its request selected it
      and was never revoked, before or after; and a token is marked exactly when it was accepted. */
  lemma {:induction false} RunsConsumeOnce(cfg: Settings, start: int, run: seq<Request>)
    ensures ConsumptionsSound(Run(cfg, start, run))
  {
    if |run| > 0 {
      var n := |run| - 1;
      var s, s', q := Run(cfg, start, run[..n]), Run(cfg, start, run), run[n];
      RunsConsumeOnce(cfg, start, run[..n]);
      RunsOneLive(cfg, start, run[..n]);
      TokensStep(cfg, s, q);
      ConsumptionStepHolds(cfg, s, q);
      if NoConsumption(s, s') {
        NoConsumptionKeeps(s, s');
      } else {
        ConsumptionKeeps(s, s', q.request);
      }
    }
  }

  /** All that one-time consumption rests on, in one state. */
  ghost predicate OneTime(s: State) {
    TokensSound(s) && TicketsValid(s) && ConsumptionsSound(s)
  }

  /** The second half keeps every invariant of the token table and its log. */
  lemma FinishKeeps(s: State, request: int, consume: bool)
    requires OneTime(s)
    ensures OneTime(Tokens.VerifyFinish(s, request, consume).0)
  {
    var q := Request.VerifyFinish(request, consume);
    var s' := Step(DEFAULTS, s, q);
    TokensStep(DEFAULTS, s, q);
    TicketsStep(DEFAULTS, s, q);
    ConsumptionStepHolds(DEFAULTS, s, q);
    if NoConsumption(s, s') {
      NoConsumptionKeeps(s, s');
    } else {
      ConsumptionKeeps(s, s', request);
    }
  }

  /** The answer "valid" to a consuming request is that log entry: the second half succeeds exactly
      when the token it selected carries neither mark at that moment. */
  lemma AcceptedIffLive(cfg: Settings, start: int, run: seq<Request>, request: int)
    requires request in Run(cfg, start, run).inflight
    ensures var s := Run(cfg, start, run);
      var (s', answer) := Answer(cfg, s, VerifyFinish(request, true));
      var ticket := s.inflight[request];
      && ticket.token < |s.tokens|
      && (answer.Success? <==> Live(s.tokens[ticket.token]))
      && (answer.Success? ==> s'.audit == s.audit + [TokenConsumed(ticket.token, ticket.selectedAt, s.now)])
      && (answer.Failure? ==> s'.tokens == s.tokens && answer.error == AlreadyConsumed)
  {
    RunsOneLive(cfg, start, run);
  }

  /** Some accepted consumption came at or after the expiry of its token. */
  ghost predicate ConsumedExpired(s: State) {
    exists i :: 0 <= i < |s.audit| && s.audit[i].TokenConsumed? && s.audit[i].token < |s.tokens|
      && s.audit[i].at >= s.tokens[s.audit[i].token].expiresAt
  }

  /** The second half, `delay` after `s`: what it writes, and when it is the first to accept an expired
      token. */
  ghost predicate LateFinish(s: State, s': State, answer: Result<nat>, ticket: Ticket, delay: nat) {
    && ticket.token < |s.tokens| == |s'.tokens|
    && (forall i :: 0 <= i < |s.tokens| ==> s'.tokens[i].expiresAt == s.tokens[i].expiresAt)
    && (answer.Success? <==> Live(s.tokens[ticket.token]))
    && s'.audit == s.audit + [if answer.Success? then TokenConsumed(ticket.token, ticket.selectedAt, s.now + delay)
                              else VerifyFailed(Some(ticket.token))]
  }

  lemma FinishLater(cfg: Settings, s: State, request: int, delay: nat)
    requires request in s.inflight && s.inflight[request].token < |s.tokens|
    ensures var (s', answer) := Answer(cfg, Step(cfg, s, Advance(delay)), VerifyFinish(request, true));
      LateFinish(s, s', answer, s.inflight[request], delay)
  {
  }

  lemma FinishExpires(s: State, s': State, answer: Result<nat>, ticket: Ticket, delay: nat)
    requires LateFinish(s, s', answer, ticket, delay) && !ConsumedExpired(s)
    ensures ConsumedExpired(s') <==> answer.Success? && s.now + delay >= s.tokens[ticket.token].expiresAt
  {
    var n := |s.audit|;
    assert forall i :: 0 <= i < n ==> s'.audit[i] == s.audit[i];
    if answer.Success? && s.now + delay >= s.tokens[ticket.token].expiresAt {
      assert s'.audit[n].TokenConsumed? && s'.audit[n].at >= s'.tokens[ticket.token].expiresAt;
    }
  }

  /** The conditional update does not look at the expiry again. After any delay a request that has
      selected a token consumes it exactly when it is live; and a log without an expired consumption
      gets one exactly when the token is live and the delay has reached past its expiry. */
  lemma ExpiredAcceptedIff(cfg: Settings, start: int, run: seq<Request>, request: int, delay: nat)
    requires request in Run(cfg, start, run).inflight
    ensures var s := Run(cfg, start, run);
      var ticket := s.inflight[request];
      var (s', answer) := Answer(cfg, Run(cfg, start, run + [Advance(delay)]), VerifyFinish(request, true));
      && LateFinish(s, s', answer, ticket, delay)
      && (!ConsumedExpired(s) ==> (ConsumedExpired(s') <==>
            Live(s.tokens[ticket.token]) && s.now + delay >= s.tokens[ticket.token].expiresAt))
  {
    RunsOneLive(cfg, start, run);
    RunAppend(cfg, start, run, Advance(delay));
    FinishOutcome(cfg, Run(cfg, start, run), request, delay);
  }

  lemma FinishOutcome(cfg: Settings, s: State, request: int, delay: nat)
    requires request in s.inflight && s.inflight[request].token < |s.tokens|
    ensures var ticket := s.inflight[request];
      var (s', answer) := Answer(cfg, Step(cfg, s, Advance(delay)), VerifyFinish(request, true));
      && LateFinish(s, s', answer, ticket, delay)
      && (!ConsumedExpired(s) ==> (ConsumedExpired(s') <==>
            Live(s.tokens[ticket.token]) && s.now + delay >= s.tokens[ticket.token].expiresAt))
  {
    var (s', answer) := Answer(cfg, Step(cfg, s, Advance(delay)), VerifyFinish(request, true));
    FinishLater(cfg, s, request, delay);
    if !ConsumedExpired(s) {
      FinishExpires(s, s', answer, s.inflight[request], delay);
    }
  }

  /** A connect token is issued exactly when the reservation exists, the caller may use it, it is
      confirmed and within its window, and the random token is new; the token belongs to that
      reservation and its host and expires with it, and the log tells of a replaced token first. */
  lemma ConnectOutcome(cfg: Settings, start: int, run: seq<Request>, user: User, id: int, raw: string)
    ensures var s := Run(cfg, start, run);
      var (s', answer) := Answer(cfg, s, Request.Connect(user, id, raw));
      && (answer.Success? <==>
            && 0 <= id < |s.reservations| && CanAccess(s.reservations[id], user)
            && s.reservations[id].status == Confirmed
            && s.reservations[id].start - cfg.graceSeconds * SECOND <= s.now < s.reservations[id].end
            && Fresh(s.tokens, raw))
      && (answer.Failure? ==> s' == s)
      && (answer.Success? ==>
            && answer.value == |s.tokens| && |s'.tokens| == |s.tokens| + 1
            && s'.tokens[|s.tokens|] ==
                 NewToken(raw, user.id, s.reservations[id].host, Some(id), Purpose.Connect, s.now,
                   s.reservations[id].end)
            && s'.audit == s.audit +
                 (if exists t :: t in s.tokens && Hit(t, OfReservation(id)) then [PreviousRevoked(id, 1)] else []) +
                 [TokenIssued(|s.tokens|)])
  {
    RunsOneLive(cfg, start, run);
    if 0 <= id {
      RevokedCountIsOne(Run(cfg, start, run).tokens, OfReservation(id));
    }
  }

  /** Digests are distinct, so a usable row is the row its raw token selects. */
  lemma FindsRow(tokens: seq<Token>, raw: string, purpose: Purpose, now: int, n: nat)
    requires Distinct(tokens) && n < |tokens| && Usable(tokens[n], raw, purpose, now) && raw != ""
    ensures Find(tokens, raw, purpose, now) == Some(n)
  {
    assert tokens[n] in tokens;
  }

  /** With row `n` the one live token of a reservation, only its raw token selects for it. */
  lemma SelectsOnly(s: State, id: nat, n: nat, raw: string, request: int, other: string)
    requires Distinct(s.tokens) && n < |s.tokens| && Usable(s.tokens[n], raw, Purpose.Connect, s.now) && raw != ""
    requires forall i :: 0 <= i < |s.tokens| && Hit(s.tokens[i], OfReservation(id)) ==> i == n
    requires request !in s.inflight
    ensures Tokens.VerifySelect(s, request, raw).1 == Success(n)
    ensures other != raw ==> var selected := Tokens.VerifySelect(s, request, other).1;
      selected.Success? ==> selected.value < |s.tokens| && s.tokens[selected.value].reservation != Some(id)
  {
    FindsRow(s.tokens, raw, Purpose.Connect, s.now, n);
    var found := Find(s.tokens, other, Purpose.Connect, s.now);
    if found.Some? && s.tokens[found.value].reservation == Some(id) {
      assert Hit(s.tokens[found.value], OfReservation(id));
    }
  }

  /** What a successful connect leaves for the verify requests after it. */
  lemma ConnectLeaves(cfg: Settings, s: State, user: User, id: int, raw: string)
    requires Endpoints.Connect(cfg, s, user, id, raw).1.Success?
    ensures var s' := Endpoints.Connect(cfg, s, user, id, raw).0;
      && 0 <= id && |s'.tokens| == |s.tokens| + 1
      && s'.inflight == s.inflight
      && s'.now == s.now
      && Usable(s'.tokens[|s.tokens|], raw, Purpose.Connect, s'.now)
  {
  }

  lemma ConnectThenSelect(cfg: Settings, s: State, user: User, id: int, raw: string, request: int, other: string)
    requires TokensSound(s) && Endpoints.Connect(cfg, s, user, id, raw).1.Success?
    requires raw != "" && request !in s.inflight
    ensures var s' := Endpoints.Connect(cfg, s, user, id, raw).0;
      && |s'.tokens| > 0
      && Tokens.VerifySelect(s', request, raw).1 == Success(|s'.tokens| - 1)
      && (other != raw ==> var selected := Tokens.VerifySelect(s', request, other).1;
            selected.Success? ==> selected.value < |s'.tokens| && s'.tokens[selected.value].reservation != Some(id))
  {
    var s' := Endpoints.Connect(cfg, s, user, id, raw).0;
    ConnectLeaves(cfg, s, user, id, raw);
    TokenStepHolds(cfg, s, Request.Connect(user, id, raw));
    IssuedKeeps(s, s', OfReservation(id));
    IssuedReplacesOne(s, s', OfReservation(id));
    SelectsOnly(s', id, |s.tokens|, raw, request, other);
  }

  /** Issue, then verify: right after an issue the new raw token selects the new row, and no other raw
      token selects a row of that reservation any more. */
  lemma IssuedTokenVerifies(
    cfg: Settings, start: int, run: seq<Request>, user: User, id: int, raw: string, request: int, other: string)
    requires Answer(cfg, Run(cfg, start, run), Request.Connect(user, id, raw)).1.Success?
    requires raw != "" && request !in Run(cfg, start, run).inflight
    ensures var s' := Run(cfg, start, run + [Request.Connect(user, id, raw)]);
      && |s'.tokens| > 0
      && Tokens.VerifySelect(s', request, raw).1 == Success(|s'.tokens| - 1)
      && (other != raw ==> var selected := Tokens.VerifySelect(s', request, other).1;
            selected.Success? ==> selected.value < |s'.tokens| && s'.tokens[selected.value].reservation != Some(id))
  {
    RunsOneLive(cfg, start, run);
    ConnectThenSelect(cfg, Run(cfg, start, run), user, id, raw, request, other);
    RunAppend(cfg, start, run, Request.Connect(user, id, raw));
  }

  /** `raw` speaks for the host in heartbeats, and no other raw token does. */
  ghost predicate AgentKey(s: State, host: int, raw: string) {
    && (var found := Find(s.tokens, raw, Agent, s.now); found.Some? && s.tokens[found.value].host == host)
    && forall other :: other != raw ==>
         var found := Find(s.tokens, other, Agent, s.now);
         found.Some? ==> s.tokens[found.value].host != host
  }

  lemma OneAgentKey(s: State, host: int, raw: string, n: nat)
    requires Distinct(s.tokens) && n < |s.tokens| && Usable(s.tokens[n], raw, Agent, s.now) && raw != ""
    requires s.tokens[n].host == host
    requires forall i :: 0 <= i < |s.tokens| && Hit(s.tokens[i], OfHost(host)) ==> i == n
    ensures AgentKey(s, host, raw)
  {
    FindsRow(s.tokens, raw, Agent, s.now, n);
    forall other | other != raw && Find(s.tokens, other, Agent, s.now).Some?
      ensures s.tokens[Find(s.tokens, other, Agent, s.now).value].host != host
    {
      var found := Find(s.tokens, other, Agent, s.now).value;
      assert Hit(s.tokens[found], OfHost(s.tokens[found].host));
    }
  }

  /** A step that issued an agent token for the host left it the one key of that host. */
  lemma IssuedAgentKey(cfg: Settings, s: State, q: Request, host: int, raw: string)
    requires TokensSound(s) && Issued(s, Step(cfg, s, q), OfHost(host)) && raw != ""
    requires var s' := Step(cfg, s, q);
      Usable(s'.tokens[|s.tokens|], raw, Agent, s'.now) && s'.tokens[|s.tokens|].host == host
    ensures AgentKey(Step(cfg, s, q), host, raw)
  {
    var s' := Step(cfg, s, q);
    IssuedKeeps(s, s', OfHost(host));
    IssuedReplacesOne(s, s', OfHost(host));
    OneAgentKey(s', host, raw, |s.tokens|);
  }

  lemma RotationAnswer(cfg: Settings, s: State, user: User, host: int, raw: string)
    ensures var (s', answer) := Answer(cfg, s, Request.RotateAgentToken(user, host, raw));
      && (answer.Success? <==> user.admin && HostExists(s, host) && Fresh(s.tokens, raw))
      && (answer.Failure? ==> s' == s)
      && (answer.Success? && cfg.agentTtlDays > 0 ==>
            && Issued(s, s', OfHost(host))
            && Usable(s'.tokens[|s.tokens|], raw, Agent, s'.now) && s'.tokens[|s.tokens|].host == host
            && s'.hosts == s.hosts)
  {
  }

  /** Rotation succeeds exactly for an admin, an existing host and a new raw token; the raw token is
      then the one key of that host, and whichever was the key before is refused from now on. */
  lemma RotationOutcome(cfg: Settings, start: int, run: seq<Request>, user: User, host: int, raw: string)
    ensures var s := Run(cfg, start, run);
      var (s', answer) := Answer(cfg, s, Request.RotateAgentToken(user, host, raw));
      && (answer.Success? <==> user.admin && HostExists(s, host) && Fresh(s.tokens, raw))
      && (answer.Failure? ==> s' == s)
      && (answer.Success? && cfg.agentTtlDays > 0 && raw != "" ==> AgentKey(s', host, raw) && s'.hosts == s.hosts)
  {
    var s, q := Run(cfg, start, run), Request.RotateAgentToken(user, host, raw);
    RunsOneLive(cfg, start, run);
    RotationAnswer(cfg, s, user, host, raw);
    if Answer(cfg, s, q).1.Success? && cfg.agentTtlDays > 0 && raw != "" {
      IssuedAgentKey(cfg, s, q, host, raw);
    }
  }

  lemma RegistrationAnswer(cfg: Settings, s: State, user: User, raw: string)
    ensures var (s', answer) := Answer(cfg, s, Request.RegisterHost(user, raw));
      && (answer.Success? <==> user.admin && Fresh(s.tokens, raw))
      && (answer.Failure? ==> s' == s)
      && (answer.Success? ==> answer.value == |s.hosts| && s'.hosts == s.hosts + [Host(Offline, None)])
      && (answer.Success? && cfg.agentTtlDays > 0 ==>
            && Issued(s, s', OfHost(|s.hosts|))
            && Usable(s'.tokens[|s.tokens|], raw, Agent, s'.now) && s'.tokens[|s.tokens|].host == |s.hosts|)
  {
  }

  /** Registration succeeds exactly for an admin and a new raw token; it adds one offline host, and the
      raw token is the one key of it. */
  lemma RegistrationOutcome(cfg: Settings, start: int, run: seq<Request>, user: User, raw: string)
    ensures var s := Run(cfg, start, run);
      var (s', answer) := Answer(cfg, s, Request.RegisterHost(user, raw));
      && (answer.Success? <==> user.admin && Fresh(s.tokens, raw))
      && (answer.Failure? ==> s' == s)
      && (answer.Success? ==> answer.value == |s.hosts| && s'.hosts == s.hosts + [Host(Offline, None)])
      && (answer.Success? && cfg.agentTtlDays > 0 && raw != "" ==> AgentKey(s', answer.value, raw))
  {
    var s, q := Run(cfg, start, run), Request.RegisterHost(user, raw);
    RunsOneLive(cfg, start, run);
    RegistrationAnswer(cfg, s, user, raw);
    if Answer(cfg, s, q).1.Success? && cfg.agentTtlDays > 0 && raw != "" {
      IssuedAgentKey(cfg, s, q, |s.hosts|, raw);
    }
  }
}
