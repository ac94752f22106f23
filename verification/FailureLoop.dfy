/** One round of the background failure-detection loop: scan, then open the breakers of the dead. */
module FailureLoop {
  import opened Sequences
  import opened BreakerModel
  import CircuitBreaker
  import ClusterManager
  import ClusterModel

  type Circuits = CircuitBreaker.Circuits

  /** The circuits after `threshold` failures are recorded against each listed node. */
  function ForceOpen(cfg: Settings, circuits: Circuits, ids: seq<string>, now: real): Circuits {
    if ids == [] || Burst(cfg) == 0 then circuits
    else
      var before, id := ForceOpen(cfg, circuits, ids[..|ids| - 1], now), ids[|ids| - 1];
      before[id := Fail(cfg, CircuitBreaker.Lookup(before, id, now), now, Burst(cfg))]
  }

  /** Exactly the listed nodes' circuits change, and with a threshold of at least 1 they are all
      open, with the cool-down starting now, whatever state they were in. */
  lemma {:induction false} ForceOpenOpens(cfg: Settings, circuits: Circuits, ids: seq<string>, now: real)
    requires cfg.threshold >= 1
    ensures var after := ForceOpen(cfg, circuits, ids, now);
      && after.Keys == circuits.Keys + (set id | id in ids)
      && (forall id :: id in ids ==> after[id].state == Open && after[id].lastFailure == now)
      && (forall id :: id in circuits && id !in ids ==> after[id] == circuits[id])
  {
    if ids != [] {
      var init, id := ids[..|ids| - 1], ids[|ids| - 1];
      assert ids == init + [id];
      ForceOpenOpens(cfg, circuits, init, now);
      var before := ForceOpen(cfg, circuits, init, now);
      FailCounts(cfg, CircuitBreaker.Lookup(before, id, now), now, Burst(cfg));
    }
  }

  /** How often each listed node's failure is recorded: `threshold` times for each time it is listed;
      for a threshold of 0 or less nothing changes. */
  lemma {:induction false} ForceOpenCounts(cfg: Settings, circuits: Circuits, ids: seq<string>, now: real, id: string)
    requires NoDuplicates(ids)
    ensures var after := ForceOpen(cfg, circuits, ids, now);
      && (cfg.threshold <= 0 ==> after == circuits)
      && (cfg.threshold > 0 && id in ids ==>
        id in after && after[id].failures == CircuitBreaker.Lookup(circuits, id, now).failures + cfg.threshold)
      && (id !in ids ==> (id in after <==> id in circuits) && (id in after ==> after[id] == circuits[id]))
  {
    if ids != [] {
      var init, last := ids[..|ids| - 1], ids[|ids| - 1];
      assert ids == init + [last] && last !in init;
      ForceOpenCounts(cfg, circuits, init, now, id);
      FailCounts(cfg, CircuitBreaker.Lookup(ForceOpen(cfg, circuits, init, now), last, now), now, Burst(cfg));
    }
  }

  /** A node reported dead is refused from then on, until the timeout has passed or a call to it
      succeeds: no query in between is let through, however many more failures are recorded. */
  lemma DeadNodesRefused(cfg: Settings, circuits: Circuits, env: ClusterModel.Env, c: ClusterModel.Cluster,
                         now: real, id: string, calls: seq<Call>, later: real)
    requires cfg.threshold >= 1
    requires id in ClusterModel.NewlyDead(env, c, now)
    requires forall i :: 0 <= i < |calls| ==>
      !calls[i].Success? && now <= calls[i].at < now + cfg.timeout
    requires later < now + cfg.timeout
    ensures var after := ForceOpen(cfg, circuits, ClusterModel.NewlyDead(env, c, now), now);
      id in after && !Available(cfg, Continue(cfg, after[id], calls), later)
  {
    var ids := ClusterModel.NewlyDead(env, c, now);
    ForceOpenOpens(cfg, circuits, ids, now);
    OpenRefuses(cfg, ForceOpen(cfg, circuits, ids, now)[id], calls, later);
  }

  method DetectFailures(cm: ClusterManager.ClusterManager, cb: CircuitBreaker.CircuitBreaker, now: real)
    returns (newlyDead: seq<string>)
    requires cm.Valid() && cb.Valid()
    modifies cm, cm.nodes.Values, cb, cb.states.Values
    ensures cm.Valid() && cb.Valid()
    ensures cm.View() == ClusterModel.Scan(cm.E(), old(cm.View()), now)
    ensures newlyDead == ClusterModel.NewlyDead(cm.E(), old(cm.View()), now)
    ensures cb.View() == ForceOpen(cb.Cfg(), old(cb.View()), newlyDead, now)
  {
    newlyDead := ScanCluster(cm, cb, now);
    OpenBreakersOf(cm, cb, newlyDead, now);
  }

  /** A scan leaves the breakers alone. */
  method ScanCluster(cm: ClusterManager.ClusterManager, cb: CircuitBreaker.CircuitBreaker, now: real)
    returns (newlyDead: seq<string>)
    requires cm.Valid() && cb.Valid()
    modifies cm, cm.nodes.Values
    ensures cm.Valid() && cm.nodes == old(cm.nodes)
    ensures cb.Valid() && cb.View() == old(cb.View()) && cb.states == old(cb.states)
    ensures cm.View() == ClusterModel.Scan(cm.E(), old(cm.View()), now)
    ensures newlyDead == ClusterModel.NewlyDead(cm.E(), old(cm.View()), now)
  {
    newlyDead := cm.CheckHeartbeatTimeouts(now);
  }

  /** Opening breakers leaves the cluster alone. */
  method OpenBreakersOf(cm: ClusterManager.ClusterManager, cb: CircuitBreaker.CircuitBreaker, ids: seq<string>,
                        now: real)
    requires cm.Valid() && cb.Valid()
    modifies cb, cb.states.Values
    ensures cm.Valid() && cm.View() == old(cm.View())
    ensures cb.Valid() && cb.View() == ForceOpen(cb.Cfg(), old(cb.View()), ids, now)
  {
    OpenBreakers(cb, ids, now);
  }

  method OpenBreakers(cb: CircuitBreaker.CircuitBreaker, ids: seq<string>, now: real)
    requires cb.Valid()
    modifies cb, cb.states.Values
    ensures cb.Valid() && cb.View() == ForceOpen(cb.Cfg(), old(cb.View()), ids, now)
  {
    ghost var circuits := cb.View();
    for i := 0 to |ids|
      invariant cb.Valid() && fresh(cb.states.Values - old(cb.states.Values))
      invariant cb.View() == ForceOpen(cb.Cfg(), circuits, ids[..i], now)
    {
      RecordFailures(cb, ids[i], now);
      assert ids[..i + 1][..i] == ids[..i];
    }
    assert ids[..|ids|] == ids;
  }

  method RecordFailures(cb: CircuitBreaker.CircuitBreaker, id: string, now: real)
    requires cb.Valid()
    modifies cb, cb.states.Values
    ensures cb.Valid() && fresh(cb.states.Values - old(cb.states.Values))
    ensures cb.View() == if Burst(cb.Cfg()) == 0 then old(cb.View())
      else old(cb.View())[id := Fail(cb.Cfg(), CircuitBreaker.Lookup(old(cb.View()), id, now), now, Burst(cb.Cfg()))]
  {
    var k := 0;
    ghost var before := cb.View();
    while k < cb.failureThreshold
      invariant 0 <= k <= Burst(cb.Cfg())
      invariant cb.Valid() && fresh(cb.states.Values - old(cb.states.Values))
      invariant cb.View() == if k == 0 then before
        else before[id := Fail(cb.Cfg(), CircuitBreaker.Lookup(before, id, now), now, k)]
    {
      cb.RecordFailure(id, now);
      k := k + 1;
    }
  }
}
