/** The host status machine over whole runs: the audit log replays to the current statuses, failures
    are detected in bounded time, and a host in use has a booking that has begun. */
module HostRuns {
  import opened Clock
  import opened Domain
  import opened Booking
  import opened Tokens
  import opened Hosts
  import opened Machine
  import opened Terms
  import Endpoints
  import TokenRuns

  /** The status of a host according to the audit log alone: the last change, offline before any. */
  function Replay(audit: seq<Audit>, host: int): HostStatus {
    if |audit| == 0 then Offline
    else
      var last := audit[|audit| - 1];
      if last.StatusChanged? && last.host == host then last.after else Replay(audit[..|audit| - 1], host)
  }

  /** Every change starts from the status the log has reached for that host, and changes it. */
  ghost predicate Chained(audit: seq<Audit>) {
    forall i :: 0 <= i < |audit| && audit[i].StatusChanged? ==>
      audit[i].before == Replay(audit[..i], audit[i].host) && audit[i].before != audit[i].after
  }

  function StatusOf(s: State, host: int): HostStatus {
    if HostExists(s, host) then s.hosts[host].status else Offline
  }

  ghost predicate Replays(s: State) {
    Chained(s.audit) && forall host :: Replay(s.audit, host) == StatusOf(s, host)
  }

  /** No status differs, and no change is logged. */
  ghost predicate Quiet(s: State, s': State) {
    && (forall host :: StatusOf(s', host) == StatusOf(s, host))
    && |s.audit| <= |s'.audit| && s'.audit[..|s.audit|] == s.audit
    && forall i :: |s.audit| <= i < |s'.audit| ==> !s'.audit[i].StatusChanged?
  }

  lemma {:induction false} QuietReplay(audit: seq<Audit>, n: nat, host: int)
    requires n <= |audit| && forall i :: n <= i < |audit| ==> !audit[i].StatusChanged?
    ensures Replay(audit, host) == Replay(audit[..n], host)
  {
    if n < |audit| {
      var m := |audit| - 1;
      assert audit[..m][..n] == audit[..n];
      QuietReplay(audit[..m], n, host);
    } else {
      assert audit[..n] == audit;
    }
  }

  lemma QuietKeeps(s: State, s': State)
    requires Replays(s) && Quiet(s, s')
    ensures Replays(s')
  {
    forall host
      ensures Replay(s'.audit, host) == StatusOf(s', host)
    {
      QuietReplay(s'.audit, |s.audit|, host);
    }
    forall i | 0 <= i < |s'.audit| && s'.audit[i].StatusChanged?
      ensures s'.audit[i].before == Replay(s'.audit[..i], s'.audit[i].host) && s'.audit[i].before != s'.audit[i].after
    {
      assert s'.audit[i] == s.audit[i] && s'.audit[..i] == s.audit[..i];
    }
  }

  lemma TransitionKeeps(s: State, host: int, status: HostStatus, reason: Reason)
    requires Replays(s) && HostExists(s, host)
    ensures Replays(Transition(s, host, status, reason))
  {
    var s' := Transition(s, host, status, reason);
    if s' != s {
      assert s'.audit[..|s.audit|] == s.audit;
      forall i | 0 <= i < |s'.audit| && s'.audit[i].StatusChanged?
        ensures s'.audit[i].before == Replay(s'.audit[..i], s'.audit[i].host) && s'.audit[i].before != s'.audit[i].after
      {
        if i < |s.audit| {
          assert s'.audit[i] == s.audit[i] && s'.audit[..i] == s.audit[..i];
        } else {
          assert Replay(s.audit, host) == StatusOf(s, host);
        }
      }
      forall h
        ensures Replay(s'.audit, h) == StatusOf(s', h)
      {
        assert Replay(s.audit, h) == StatusOf(s, h);
      }
    }
  }

  lemma {:induction false} SweepKeeps(cfg: Settings, s: State, k: nat)
    requires Replays(s) && k <= |s.hosts|
    ensures Replays(Sweep(cfg, s, k))
  {
    if k > 0 {
      SweepKeeps(cfg, s, k - 1);
      if Stale(cfg, s.hosts[k - 1], s.now) {
        TransitionKeeps(Sweep(cfg, s, k - 1), k - 1, Offline, HeartbeatStale);
      }
    }
  }

  lemma HeartbeatReplays(cfg: Settings, s: State, raw: string, sunshine: bool, cpu: real, mem: real)
    requires Replays(s)
    ensures Replays(Endpoints.Heartbeat(cfg, s, raw, sunshine, cpu, mem).0)
  {
    var token := Find(s.tokens, raw, Agent, s.now);
    if token.Some? && HostExists(s, s.tokens[token.value].host) {
      var host := s.tokens[token.value].host;
      var s1 := s.(hosts := s.hosts[host := s.hosts[host].(lastHeartbeat := Some(s.now))]);
      QuietKeeps(s, s1);
      var active := HasActive(s.reservations, host, s.now);
      var status := Evaluate(cfg, s.now, Some(s.now), active, sunshine, Some(cpu), Some(mem));
      TransitionKeeps(s1, host, status, HeartbeatReceived);
    }
  }

  lemma InstantReplays(cfg: Settings, s: State, user: User, host: int, raw: string)
    requires Replays(s)
    ensures Replays(Endpoints.Instant(cfg, s, user, host, raw).0)
  {
    var (s1, booked) := CreateInstant(cfg, s, user, host);
    if booked.Success? {
      var (s2, token) := Endpoints.Connect(cfg, s1, user, booked.value, raw);
      if token.Success? {
        assert Quiet(s, s2);
        QuietKeeps(s, s2);
        TransitionKeeps(s2, host, InUse, InstantUse);
      }
    }
  }

  lemma CancelReplays(s: State, user: User, id: int)
    requires Replays(s)
    ensures Replays(Endpoints.CancelAndRelease(s, user, id).0)
  {
    var (s1, canceled) := Booking.Cancel(s, user, id);
    QuietKeeps(s, s1);
    if canceled.Success? && HostExists(s1, s1.reservations[canceled.value].host) {
      TransitionKeeps(s1, s1.reservations[canceled.value].host, Idle, ReservationCanceled);
    }
  }

  lemma OthersQuiet(cfg: Settings, s: State, q: Request)
    requires !q.Tick? && !q.Heartbeat? && !q.Instant? && !q.Cancel?
    ensures Quiet(s, Step(cfg, s, q))
  {
  }

  lemma ReplaysStep(cfg: Settings, s: State, q: Request)
    requires Replays(s)
    ensures Replays(Step(cfg, s, q))
  {
    match q
    case Tick => SweepKeeps(cfg, s, |s.hosts|);
    case Heartbeat(raw, sunshine, cpu, mem) => HeartbeatReplays(cfg, s, raw, sunshine, cpu, mem);
    case Instant(user, host, raw) => InstantReplays(cfg, s, user, host, raw);
    case Cancel(user, id) => CancelReplays(s, user, id);
    case _ =>
      OthersQuiet(cfg, s, q);
      QuietKeeps(s, Step(cfg, s, q));
  }

  /** Audit replay: over every run the log alone, folded from offline, gives every host's status,
      each change begins where the one before it for that host ended, and none changes nothing. */
  lemma {:induction false} RunsReplay(cfg: Settings, start: int, run: seq<Request>)
    ensures Replays(Run(cfg, start, run))
  {
    if |run| > 0 {
      RunsReplay(cfg, start, run[..|run| - 1]);
      ReplaysStep(cfg, Run(cfg, start, run[..|run| - 1]), run[|run| - 1]);
    }
  }

  /** Request `j` of the run is a heartbeat that brings the host back from offline. */
  ghost predicate Revives(cfg: Settings, start: int, run: seq<Request>, j: nat, host: int)
    requires j < |run|
  {
    var s, s' := Run(cfg, start, run[..j]), Run(cfg, start, run[..j + 1]);
    && run[j].Heartbeat?
    && StatusOf(s, host) == Offline && StatusOf(s', host) != Offline
    && s'.hosts[host].lastHeartbeat == Some(s.now)
  }

  /** The five things a step may do to the status and the heartbeat of one host. */
  ghost predicate HostStep(s: State, s': State, q: Request, host: int) {
    var before, after := StatusOf(s, host), StatusOf(s', host);
    && |s.hosts| <= |s'.hosts|
    && (after == Offline
        || (HostExists(s, host) && HostExists(s', host)
            && var kept := s'.hosts[host].lastHeartbeat == s.hosts[host].lastHeartbeat;
            || (after == before && kept)
            || (q.Instant? && before == Idle && after == InUse && kept && q.host == host)
            || (q.Cancel? && before == InUse && after == Idle && kept)
            || (q.Heartbeat? && s'.hosts[host].lastHeartbeat == Some(s.now)
                && (after == InUse ==> HasActive(s.reservations, host, s.now)))))
  }

  lemma HostStepHolds(cfg: Settings, s: State, q: Request, host: int)
    ensures HostStep(s, Step(cfg, s, q), q, host)
  {
  }

  lemma StepRevives(cfg: Settings, s: State, q: Request, host: int)
    requires StatusOf(s, host) == Offline && StatusOf(Step(cfg, s, q), host) != Offline
    ensures q.Heartbeat? && Step(cfg, s, q).hosts[host].lastHeartbeat == Some(s.now)
  {
    HostStepHolds(cfg, s, q, host);
  }

  lemma RequestRevives(cfg: Settings, start: int, run: seq<Request>, j: nat, host: int)
    requires j < |run|
    requires StatusOf(Run(cfg, start, run[..j]), host) == Offline
    requires StatusOf(Run(cfg, start, run[..j + 1]), host) != Offline
    ensures Revives(cfg, start, run, j, host)
  {
    RunNext(cfg, start, run, j);
    StepRevives(cfg, Run(cfg, start, run[..j]), run[j], host);
  }

  /** Only a heartbeat leaves offline: between a moment at which a host is offline and a later one at
      which it is not, some heartbeat of that very host revived it. */
  lemma {:induction false} OnlyHeartbeatRevives(cfg: Settings, start: int, run: seq<Request>, k: nat, n: nat, host: int)
    requires k <= n <= |run|
    requires StatusOf(Run(cfg, start, run[..k]), host) == Offline
    requires StatusOf(Run(cfg, start, run[..n]), host) != Offline
    ensures exists j :: k <= j < n && Revives(cfg, start, run, j, host)
  {
    var m := n - 1;
    if StatusOf(Run(cfg, start, run[..m]), host) == Offline {
      RequestRevives(cfg, start, run, m, host);
    } else {
      OnlyHeartbeatRevives(cfg, start, run, k, m, host);
    }
  }

  /** Online hosts have reported, and were not stale at time `tick`. */
  ghost predicate BeatingSince(cfg: Settings, s: State, tick: int) {
    tick <= s.now && forall host :: StatusOf(s, host) != Offline ==>
      s.hosts[host].lastHeartbeat.Some? && tick - s.hosts[host].lastHeartbeat.value <= cfg.offlineAfterSeconds * SECOND
  }

  lemma BeatingKept(cfg: Settings, s: State, s': State, q: Request, tick: int)
    requires BeatingSince(cfg, s, tick) && s.now <= s'.now
    requires forall host :: HostStep(s, s', q, host)
    ensures BeatingSince(cfg, s', tick)
  {
    forall host | StatusOf(s', host) != Offline
      ensures s'.hosts[host].lastHeartbeat.Some?
      ensures tick - s'.hosts[host].lastHeartbeat.value <= cfg.offlineAfterSeconds * SECOND
    {
      assert HostStep(s, s', q, host);
    }
  }

  lemma TickBeats(cfg: Settings, s: State)
    ensures BeatingSince(cfg, Hosts.Tick(cfg, s), s.now)
  {
  }

  lemma {:induction false} BeatingAfterTick(cfg: Settings, start: int, run: seq<Request>, k: nat)
    requires k < |run| && run[k].Tick?
    ensures BeatingSince(cfg, Run(cfg, start, run), Run(cfg, start, run[..k]).now)
  {
    var n := |run| - 1;
    var s := Run(cfg, start, run[..n]);
    if k == n {
      TickBeats(cfg, s);
    } else {
      assert run[..n][..k] == run[..k];
      BeatingAfterTick(cfg, start, run[..n], k);
      ClockStep(cfg, s, run[n]);
      forall host
        ensures HostStep(s, Step(cfg, s, run[n]), run[n], host)
      {
        HostStepHolds(cfg, s, run[n], host);
      }
      BeatingKept(cfg, s, Step(cfg, s, run[n]), run[n], Run(cfg, start, run[..k]).now);
    }
  }

  /** From the start, before any tick, heartbeats are at least as young as the run. */
  lemma {:induction false} BeatingFromStart(cfg: Settings, start: int, run: seq<Request>)
    ensures BeatingSince(cfg, Run(cfg, start, run), start)
  {
    if |run| > 0 {
      var n := |run| - 1;
      var s := Run(cfg, start, run[..n]);
      BeatingFromStart(cfg, start, run[..n]);
      ClockStep(cfg, s, run[n]);
      forall host
        ensures HostStep(s, Step(cfg, s, run[n]), run[n], host)
      {
        HostStepHolds(cfg, s, run[n], host);
      }
      BeatingKept(cfg, s, Step(cfg, s, run[n]), run[n], start);
    }
  }

  /** After `m` requests the last tick, or the start, is at most `interval` ago. */
  ghost predicate Watched(cfg: Settings, start: int, run: seq<Request>, interval: nat, m: nat)
    requires m <= |run|
  {
    var now := Run(cfg, start, run[..m]).now;
    || now - start <= interval
    || exists k :: 0 <= k < m && run[k].Tick? && now - Run(cfg, start, run[..k]).now <= interval
  }

  /** Every host that is not offline has a heartbeat no older than `age`. */
  ghost predicate HeartbeatsWithin(s: State, age: int) {
    forall host :: StatusOf(s, host) != Offline ==>
      s.hosts[host].lastHeartbeat.Some? && s.now - s.hosts[host].lastHeartbeat.value <= age
  }

  /** Bounded failure detection: in a run whose every moment has a tick at most one interval before
      it, no state, at any moment, shows a host that is not offline and whose heartbeat is older than
      threshold plus interval. */
  lemma FailureDetected(cfg: Settings, start: int, run: seq<Request>, interval: nat)
    requires forall m :: 0 <= m <= |run| ==> Watched(cfg, start, run, interval, m)
    ensures forall m :: 0 <= m <= |run| ==>
      HeartbeatsWithin(Run(cfg, start, run[..m]), cfg.offlineAfterSeconds * SECOND + interval)
  {
    forall m | 0 <= m <= |run|
      ensures HeartbeatsWithin(Run(cfg, start, run[..m]), cfg.offlineAfterSeconds * SECOND + interval)
    {
      assert Watched(cfg, start, run, interval, m);
      var now := Run(cfg, start, run[..m]).now;
      if now - start <= interval {
        BeatingFromStart(cfg, start, run[..m]);
      } else {
        var k :| 0 <= k < m && run[k].Tick? && now - Run(cfg, start, run[..k]).now <= interval;
        assert run[..m][..k] == run[..k];
        BeatingAfterTick(cfg, start, run[..m], k);
      }
    }
  }

  /** Some non-cancelled reservation of the host has begun. */
  ghost predicate Begun(s: State, host: int) {
    exists i :: 0 <= i < |s.reservations| && s.reservations[i].host == host &&
      s.reservations[i].status == Confirmed && s.reservations[i].start <= s.now
  }

  ghost predicate InUseBegun(s: State) {
    forall host :: StatusOf(s, host) == InUse ==> Begun(s, host)
  }

  /** Rows stay; only a cancellation changes one. */
  lemma RowsStay(cfg: Settings, s: State, q: Request)
    ensures |s.reservations| <= |Step(cfg, s, q).reservations|
    ensures forall i :: 0 <= i < |s.reservations| && !(q.Cancel? && q.id == i) ==>
      Step(cfg, s, q).reservations[i] == s.reservations[i]
  {
  }

  /** A successful cancellation, also a repeated one, leaves the host of its row in use exactly when it
      was and some confirmed reservation still covers the present, and idle when none does; it changes no
      other status. */
  lemma CancelReleases(s: State, user: User, id: int)
    requires Endpoints.CancelAndRelease(s, user, id).1.Success?
    ensures 0 <= id < |s.reservations|
    ensures var s' := Endpoints.CancelAndRelease(s, user, id).0;
      var host := s.reservations[id].host;
      var covered := exists i ::
        && 0 <= i < |s'.reservations| && s'.reservations[i].host == host
        && s'.reservations[i].status == Confirmed && s'.reservations[i].start <= s'.now < s'.reservations[i].end;
      && (StatusOf(s', host) == InUse <==> StatusOf(s, host) == InUse && covered)
      && (StatusOf(s, host) == InUse && !covered ==> StatusOf(s', host) == Idle)
      && (StatusOf(s, host) != InUse ==> StatusOf(s', host) == StatusOf(s, host))
      && (forall h :: h != host ==> StatusOf(s', h) == StatusOf(s, h))
  {
  }

  lemma InstantBegins(cfg: Settings, s: State, q: Request)
    requires q.Instant? && StatusOf(s, q.host) == Idle && StatusOf(Step(cfg, s, q), q.host) == InUse
    ensures Begun(Step(cfg, s, q), q.host)
  {
    assert Step(cfg, s, q).reservations[|s.reservations|].host == q.host;
  }

  lemma InUseStep(cfg: Settings, s: State, q: Request, host: int)
    requires StatusOf(s, host) == InUse ==> Begun(s, host)
    requires StatusOf(Step(cfg, s, q), host) == InUse
    ensures Begun(Step(cfg, s, q), host)
  {
    var s' := Step(cfg, s, q);
    HostStepHolds(cfg, s, q, host);
    RowsStay(cfg, s, q);
    ClockStep(cfg, s, q);
    if StatusOf(s, host) == InUse {
      var i :| 0 <= i < |s.reservations| && s.reservations[i].host == host &&
        s.reservations[i].status == Confirmed && s.reservations[i].start <= s.now;
      if s'.reservations[i] != s.reservations[i] {
        CancelReleases(s, q.user, q.id);
      }
    } else if q.Instant? {
      InstantBegins(cfg, s, q);
    } else {
      var i :| 0 <= i < |s.reservations| && s.reservations[i].host == host &&
        s.reservations[i].status == Confirmed && Covers(s.reservations[i], s.now);
      assert s'.reservations[i] == s.reservations[i];
    }
  }

  /** A host is in use only if some reservation of it that was not cancelled has begun, across
      heartbeats, the monitor, instant bookings and cancellations. */
  lemma {:induction false} RunsInUseBegun(cfg: Settings, start: int, run: seq<Request>)
    ensures InUseBegun(Run(cfg, start, run))
  {
    if |run| > 0 {
      RunsInUseBegun(cfg, start, run[..|run| - 1]);
      forall host | StatusOf(Run(cfg, start, run), host) == InUse
        ensures Begun(Run(cfg, start, run), host)
      {
        InUseStep(cfg, Run(cfg, start, run[..|run| - 1]), run[|run| - 1], host);
      }
    }
  }

  /** What an accepted heartbeat of `host` leaves behind. */
  ghost predicate Beat(cfg: Settings, s: State, s': State, host: int, sunshine: bool, cpu: real, mem: real) {
    && |s'.hosts| == |s.hosts| && HostExists(s, host)
    && (forall h :: 0 <= h < |s.hosts| && h != host ==> s'.hosts[h] == s.hosts[h])
    && s'.hosts[host].lastHeartbeat == Some(s.now)
    && s' == s.(hosts := s'.hosts, audit := s'.audit)
    && s'.audit == s.audit + (
         if s'.hosts[host].status == s.hosts[host].status then []
         else [StatusChanged(host, s.hosts[host].status, s'.hosts[host].status, HeartbeatReceived)])
    && s'.hosts[host].status ==
         if Covered(s.reservations, host, s.now) then if sunshine then InUse else Degraded
         else if cpu < cfg.degradedCpu && mem < cfg.degradedMem then Idle
         else Degraded
  }

  lemma BeatHolds(cfg: Settings, s: State, raw: string, sunshine: bool, cpu: real, mem: real)
    ensures var (s', answer) := Endpoints.Heartbeat(cfg, s, raw, sunshine, cpu, mem);
      && (answer.Failure? ==> s' == s)
      && (answer.Success? ==>
            && answer.value < |s.tokens| && Usable(s.tokens[answer.value], raw, Agent, s.now)
            && Beat(cfg, s, s', s.tokens[answer.value].host, sunshine, cpu, mem))
  {
  }

  /** In every reachable state a heartbeat is accepted exactly when an agent token of a host answers
      to its raw token. That host then carries the time and is never offline: it is in use when a
      reservation covers the present and the streaming server runs, degraded when it should stream and
      cannot or is overloaded, idle otherwise. A refused heartbeat changes nothing. */
  lemma HeartbeatOutcome(
    cfg: Settings, start: int, run: seq<Request>, raw: string, sunshine: bool, cpu: real, mem: real)
    ensures var s := Run(cfg, start, run);
      var (s', answer) := Endpoints.Heartbeat(cfg, s, raw, sunshine, cpu, mem);
      && (answer.Success? <==>
            raw != "" && exists k ::
              0 <= k < |s.tokens| && Answers(s.tokens[k], raw, Agent, s.now) && 0 <= s.tokens[k].host < |s.hosts|)
      && (answer.Failure? ==> s' == s)
      && (answer.Success? ==>
            && answer.value < |s.tokens| && Answers(s.tokens[answer.value], raw, Agent, s.now)
            && var host := s.tokens[answer.value].host;
            && Beat(cfg, s, s', host, sunshine, cpu, mem)
            && (s'.hosts[host].status == InUse <==> sunshine && exists i ::
                  && 0 <= i < |s.reservations| && s.reservations[i].host == host
                  && s.reservations[i].status == Confirmed
                  && s.reservations[i].start <= s.now < s.reservations[i].end))
  {
    var s := Run(cfg, start, run);
    TokenRuns.RunsOneLive(cfg, start, run);
    BeatHolds(cfg, s, raw, sunshine, cpu, mem);
    forall k | 0 <= k < |s.tokens| && Usable(s.tokens[k], raw, Agent, s.now) && raw != ""
      ensures Find(s.tokens, raw, Agent, s.now) == Some(k)
    {
      TokenRuns.FindsRow(s.tokens, raw, Agent, s.now, k);
    }
  }
}
