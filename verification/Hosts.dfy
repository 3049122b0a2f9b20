/** The host status machine: one pure evaluator, one transition that writes the audit entry, and the
    monitor's sweep for stale heartbeats. */
module Hosts {
  import opened Clock
  import opened Domain

  /** A reported load is at or above its threshold. */
  ghost predicate Overloaded(cfg: Settings, cpu: Option<real>, mem: Option<real>) {
    !((cpu.Some? ==> cpu.value < cfg.degradedCpu) && (mem.Some? ==> mem.value < cfg.degradedMem))
  }

  function Evaluate(
    cfg: Settings, now: int, lastHeartbeat: Option<int>, hasReservation: bool, sunshine: bool,
    cpu: Option<real>, mem: Option<real>): (status: HostStatus)
    ensures status == Offline <==> lastHeartbeat.None? || now - lastHeartbeat.value > cfg.offlineAfterSeconds * SECOND
    ensures status == InUse <==> status != Offline && hasReservation && sunshine
    ensures status == Idle <==> status != Offline && !hasReservation && !Overloaded(cfg, cpu, mem)
  {
    if lastHeartbeat.None? then Offline
    else if now - lastHeartbeat.value > cfg.offlineAfterSeconds * SECOND then Offline
    else if hasReservation then if sunshine then InUse else Degraded
    else if cpu.Some? && cpu.value >= cfg.degradedCpu then Degraded
    else if mem.Some? && mem.value >= cfg.degradedMem then Degraded
    else Idle
  }

  /** Changes the status and audits the change; the same status again is no change at all. */
  function Transition(s: State, host: int, status: HostStatus, reason: Reason): (s': State)
    requires HostExists(s, host)
  {
    if s.hosts[host].status == status then s
    else s.(
      hosts := s.hosts[host := s.hosts[host].(status := status)],
      audit := s.audit + [StatusChanged(host, s.hosts[host].status, status, reason)])
  }

  /** The monitor's WHERE clause. It picks a host exactly when the host is online and the evaluator,
      whatever else the host reports, would call it offline. */
  predicate Stale(cfg: Settings, h: Host, now: int): (stale: bool)
    ensures forall has, sunshine, cpu, mem ::
      stale <==> h.status != Offline && Evaluate(cfg, now, h.lastHeartbeat, has, sunshine, cpu, mem) == Offline
  {
    h.status != Offline && (h.lastHeartbeat.None? || h.lastHeartbeat.value < now - cfg.offlineAfterSeconds * SECOND)
  }

  /** The sweep of the first `k` hosts. */
  function Sweep(cfg: Settings, s: State, k: nat): (s': State)
    requires k <= |s.hosts|
    ensures s' == s.(hosts := s'.hosts, audit := s'.audit) && |s'.hosts| == |s.hosts|
    ensures forall h :: k <= h < |s.hosts| ==> s'.hosts[h] == s.hosts[h]
    ensures forall h :: 0 <= h < k ==>
      s'.hosts[h] == if Stale(cfg, s.hosts[h], s.now) then s.hosts[h].(status := Offline) else s.hosts[h]
  {
    if k == 0 then s
    else
      var before := Sweep(cfg, s, k - 1);
      if Stale(cfg, s.hosts[k - 1], s.now) then Transition(before, k - 1, Offline, HeartbeatStale) else before
  }

  function Tick(cfg: Settings, s: State): State {
    Sweep(cfg, s, |s.hosts|)
  }
}
