/** The broker as one state machine over a clock that never runs backwards. Every transaction is one
    step, except a verify request, which is two. */
module Machine {
  import opened Clock
  import opened Domain
  import opened Booking
  import opened Tokens
  import opened Hosts
  import Endpoints

  datatype Request =
    | Advance(duration: nat)
    | Tick
    | RegisterHost(user: User, raw: string)
    | RotateAgentToken(user: User, host: int, raw: string)
    | Heartbeat(raw: string, sunshine: bool, cpu: real, mem: real)
    | Book(user: User, host: int, starts: Stamp, ends: Stamp)
    | Instant(user: User, host: int, raw: string)
    | Cancel(user: User, id: int)
    | Connect(user: User, id: int, raw: string)
    | Login(user: User, cookie: string)
    | Logout(cookie: string)
    | VerifySelect(request: int, raw: string)
    | VerifyFinish(request: int, consume: bool)

  /** The state after a request, and its answer. */
  function Answer(cfg: Settings, s: State, q: Request): (State, Result<nat>) {
    match q
    case Advance(d) => (s.(now := s.now + d), Success(0))
    case Tick => (Hosts.Tick(cfg, s), Success(0))
    case RegisterHost(user, raw) => Endpoints.RegisterHost(cfg, s, user, raw)
    case RotateAgentToken(user, host, raw) => Endpoints.RotateAgentToken(cfg, s, user, host, raw)
    case Heartbeat(raw, sunshine, cpu, mem) => Endpoints.Heartbeat(cfg, s, raw, sunshine, cpu, mem)
    case Book(user, host, starts, ends) => Create(cfg, s, user, host, starts, ends)
    case Instant(user, host, raw) => Endpoints.Instant(cfg, s, user, host, raw)
    case Cancel(user, id) => Endpoints.CancelAndRelease(s, user, id)
    case Connect(user, id, raw) => Endpoints.Connect(cfg, s, user, id, raw)
    case Login(user, cookie) => Endpoints.Login(cfg, s, user, cookie)
    case Logout(cookie) => Endpoints.Logout(s, cookie)
    case VerifySelect(request, raw) => Tokens.VerifySelect(s, request, raw)
    case VerifyFinish(request, consume) => Tokens.VerifyFinish(s, request, consume)
  }

  function Step(cfg: Settings, s: State, q: Request): State {
    Answer(cfg, s, q).0
  }

  /** The requests whose outcomes are stated of the endpoints. */
  lemma RequestsAreCalls(
    cfg: Settings, s: State, user: User, host: int, raw: string, sunshine: bool, cpu: real, mem: real)
    ensures Answer(cfg, s, Instant(user, host, raw)) == Endpoints.Instant(cfg, s, user, host, raw)
    ensures Answer(cfg, s, Heartbeat(raw, sunshine, cpu, mem)) == Endpoints.Heartbeat(cfg, s, raw, sunshine, cpu, mem)
  {
  }

  /** The clock never runs backwards. */
  lemma ClockStep(cfg: Settings, s: State, q: Request)
    ensures s.now <= Step(cfg, s, q).now
  {
  }

  /** The state after a whole run from empty tables. */
  function Run(cfg: Settings, start: int, run: seq<Request>): State {
    if |run| == 0 then Initial(start) else Step(cfg, Run(cfg, start, run[..|run| - 1]), run[|run| - 1])
  }

  /** One more request of a run is one more step. */
  lemma RunNext(cfg: Settings, start: int, run: seq<Request>, k: nat)
    requires k < |run|
    ensures Run(cfg, start, run[..k + 1]) == Step(cfg, Run(cfg, start, run[..k]), run[k])
  {
    assert run[..k + 1][..k] == run[..k];
  }

  lemma RunAppend(cfg: Settings, start: int, run: seq<Request>, q: Request)
    ensures Run(cfg, start, run + [q]) == Step(cfg, Run(cfg, start, run), q)
  {
    assert (run + [q])[..|run|] == run;
  }

  /** A first host to book, for the concrete runs that show what can happen. */
  const FIRST_HOST := RegisterHost(User(1, true), "a")

  lemma FirstHostRegistered(cfg: Settings, start: int)
    ensures var s := Step(cfg, Initial(start), FIRST_HOST);
      s.reservations == [] && s.hosts == [Host(Offline, None)] && s.now == start
  {
  }
}
