/** The cache API: request handlers over the shared manager, breaker and router, and the nodes they
    call. */
module Gateway {
  import opened Options
  import L = LruModel
  import CB = CircuitBreaker
  import CM = ClusterManager
  import Z = ZoneRouter
  import opened GatewayModel

  /** The remote nodes. A call acts on one node or not, and is answered or not. */
  class Network {
    const cfg: Node -> L.Config
    var lists: map<Node, seq<L.Entry>>

    constructor (cfg: Node -> L.Config)
      ensures this.cfg == cfg && lists == map[]
    {
      this.cfg, lists := cfg, map[];
    }

    method Perform(n: Node, op: L.Op, fate: Fate) returns (hit: Option<L.Value>, found: bool)
      modifies this
      ensures var before := if n in old(lists) then old(lists)[n] else [];
        && lists == (if Acts(fate) then old(lists)[n := L.Step(cfg(n), before, op).list] else old(lists))
        && hit == L.Step(cfg(n), before, op).hit
        && (op.Remove? ==> (found <==> L.Find(before, op.key).Some?))
    {
      var before := if n in lists then lists[n] else [];
      var outcome := L.Step(cfg(n), before, op);
      hit := outcome.hit;
      found := op.Remove? && L.Find(before, op.key).Some?;
      if Acts(fate) {
        lists := lists[n := outcome.list];
      }
    }
  }

  class Gateway {
    const cm: CM.ClusterManager
    const cb: CB.CircuitBreaker
    const zr: Z.ZoneRouter
    const net: Network

    constructor (cm: CM.ClusterManager, cb: CB.CircuitBreaker, zr: Z.ZoneRouter, net: Network)
      ensures this.cm == cm && this.cb == cb && this.zr == zr && this.net == net
    {
      this.cm, this.cb, this.zr, this.net := cm, cb, zr, net;
    }

    ghost predicate Valid()
      reads cm, cm.nodes.Values, cm.hashRing, cb
    {
      cm.Valid() && cb.Valid()
    }

    ghost function E(): Env
      reads cm, cm.nodes.Values, cm.hashRing
    {
      Fixed(cm.hash, cm.View(), cm.replicationFactor, net.cfg, cb.Cfg())
    }

    ghost function View(): Gate
      reads cb, cb.states.Values, zr, net
    {
      Gate(cb.View(), zr.latencyMap, zr.recentWrites, net.lists)
    }

    /** Records the outcome of a call with the node's breaker, if it counts. */
    method Record(n: Node, ending: Ending, at: real)
      requires cb.Valid()
      modifies cb, cb.states.Values
      ensures cb.Valid() && fresh(cb.states.Values - old(cb.states.Values))
      ensures cb.View() == Noted(cb.Cfg(), old(cb.View()), n, GatewayModel.Outcome(ending, at))
    {
      if ending == Errored || ending == Unreachable {
        cb.RecordFailure(n, at);
      } else if ending == Answered || ending == Refused {
        cb.RecordSuccess(n, at);
      }
    }

    /** The environment has this gateway's breaker and network settings. */
    ghost predicate Serves(e: Env) {
      e.breaker == cb.Cfg() && e.cfg == net.cfg
    }

    /** The environment knows the registered nodes. */
    ghost predicate Knows(e: Env)
      reads cm`nodes
    {
      forall n :: n in cm.nodes <==> n in e.known
    }

    /** Where a read of a key may go, and the environment that says so. */
    method ReadRoute(key: L.Key) returns (replicas: seq<Node>, ghost e: Env)
      requires Valid()
      ensures e == E() && Serves(e) && Knows(e) && replicas == e.replicas(key)
    {
      e := E();
      cm.ViewTabled();
      replicas := cm.GetReplicasForKey(key);
    }

    /** Where a write of a key goes, and the environment that says so. */
    method WriteRoute(key: L.Key) returns (primary: Option<Node>, ghost e: Env)
      requires Valid()
      ensures e == E() && Serves(e) && Knows(e) && primary == e.primary(key)
    {
      e := E();
      cm.ViewTabled();
      primary := cm.GetNodeForKey(key);
    }

    /** Calls a node, if it is registered, and records the outcome with its breaker. */
    method CallNode(n: Node, known: bool, op: L.Op, at: real, fate: Fate, ghost e: Env)
      returns (failed: Option<Reply>, hit: Option<L.Value>, found: bool)
      requires cb.Valid() && Serves(e) && (known <==> n in e.known)
      modifies cb, cb.states.Values, net
      ensures cb.Valid() && fresh(cb.states.Values - old(cb.states.Values))
      ensures View() == Call(e, old(View()), n, op, at, fate)
      ensures failed == Failed(e, n, fate.ending)
      ensures failed.None? ==> hit == L.Step(net.cfg(n), ListOf(old(View()), n), op).hit
      ensures failed.None? && op.Remove? ==> (found <==> L.Find(ListOf(old(View()), n), op.key).Some?)
    {
      hit, found := None, false;
      if !known {
        return Some(Unavailable), hit, found;
      }
      hit, found := net.Perform(n, op, fate);
      Record(n, fate.ending, at);
      failed := match fate.ending
        case Answered => None
        case Refused => Some(Error)
        case Errored => Some(Error)
        case Unreachable => Some(Unavailable)
        case Broken => Some(Error);
    }

    /** Asks the breaker about each replica in turn. */
    method AvailableReplicas(replicas: seq<Node>, at: real) returns (available: seq<Node>)
      requires cb.Valid()
      modifies cb, cb.states.Values
      ensures cb.Valid() && fresh(cb.states.Values - old(cb.states.Values))
      ensures (cb.View(), available) == Filtered(cb.Cfg(), old(cb.View()), replicas, at)
    {
      available := [];
      for i := 0 to |replicas|
        invariant cb.Valid() && fresh(cb.states.Values - old(cb.states.Values))
        invariant (cb.View(), available) == Filtered(cb.Cfg(), old(cb.View()), replicas[..i], at)
      {
        var ok := cb.IsAvailable(replicas[i], at);
        assert replicas[..i + 1][..i] == replicas[..i];
        if ok {
          available := available + [replicas[i]];
        }
      }
      assert replicas[..|replicas|] == replicas;
    }

    method GetFrom(target: Node, known: bool, key: L.Key, at: real, tick: L.Time, fate: Fate, ghost e: Env)
      returns (reply: Reply)
      requires cb.Valid() && Serves(e) && (known <==> target in e.known)
      modifies cb, cb.states.Values, net
      ensures cb.Valid() && fresh(cb.states.Values - old(cb.states.Values))
      ensures Handled(View(), reply) == GetAt(e, old(View()), target, Request.Get(key, at, tick, fate))
    {
      var failed, hit, _ := CallNode(target, known, L.Get(key, tick), at, fate, e);
      if failed.Some? {
        return failed.value;
      }
      return if hit.Some? then Hit(hit.value) else NotFound;
    }

    method GetRouted(replicas: seq<Node>, key: L.Key, at: real, tick: L.Time, fate: Fate, ghost e: Env)
      returns (reply: Reply)
      requires cb.Valid() && Serves(e) && Knows(e) && replicas == e.replicas(key)
      modifies cb, cb.states.Values, net
      ensures cb.Valid() && fresh(cb.states.Values - old(cb.states.Values))
      ensures Handled(View(), reply) == Handle(e, old(View()), Request.Get(key, at, tick, fate))
    {
      if replicas == [] {
        return Unavailable;
      }
      var primary := replicas[0];
      var available := AvailableReplicas(replicas, at);
      if available == [] {
        return Unavailable;
      }
      var target := Z.PickReplica(zr.latencyMap, available, primary);
      reply := GetFrom(target, target in cm.nodes, key, at, tick, fate, e);
    }

    method GetKey(key: L.Key, at: real, tick: L.Time, fate: Fate) returns (reply: Reply)
      requires Valid()
      modifies cb, cb.states.Values, net
      ensures cb.Valid() && fresh(cb.states.Values - old(cb.states.Values))
      ensures Handled(View(), reply) == Handle(old(E()), old(View()), Request.Get(key, at, tick, fate))
    {
      var replicas, e := ReadRoute(key);
      reply := GetRouted(replicas, key, at, tick, fate, e);
    }

    /** Asks the primary's breaker; a write is sent only if there is a primary and it is let through. */
    method MayWrite(key: L.Key, primary: Option<Node>, at: real, ghost e: Env) returns (ok: bool)
      requires cb.Valid() && Serves(e) && primary == e.primary(key)
      modifies cb, cb.states.Values
      ensures cb.Valid() && fresh(cb.states.Values - old(cb.states.Values))
      ensures View() == Asked(e, old(View()), key, at)
      ensures ok == Sent(e, old(View()), key, at)
    {
      if primary.None? || primary.value == "" {
        return false;
      }
      ok := cb.IsAvailable(primary.value, at);
    }

    /** Writes to the primary and, if it acknowledges, pins the key to it. */
    method PutAtPrimary(primary: Node, known: bool, key: L.Key, value: L.Value, ttl: L.Seconds,
                        at: real, tick: L.Time, fate: Fate, ghost e: Env)
      returns (reply: Reply)
      requires cb.Valid() && Serves(e) && (known <==> primary in e.known)
      modifies cb, cb.states.Values, net, zr
      ensures cb.Valid() && fresh(cb.states.Values - old(cb.states.Values))
      ensures Handled(View(), reply) == PutAt(e, old(View()), primary, Request.Put(key, value, ttl, at, tick, fate))
    {
      var failed, _, _ := CallNode(primary, known, L.Put(key, value, ttl, tick), at, fate, e);
      if failed.Some? {
        return failed.value;
      }
      zr.PinWrite(key, primary, at);
      return Done;
    }

    method PutRouted(primary: Option<Node>, key: L.Key, value: L.Value, ttl: L.Seconds,
                     at: real, tick: L.Time, fate: Fate, ghost e: Env)
      returns (reply: Reply)
      requires cb.Valid() && Serves(e) && Knows(e) && primary == e.primary(key)
      modifies cb, cb.states.Values, net, zr
      ensures cb.Valid() && fresh(cb.states.Values - old(cb.states.Values))
      ensures Handled(View(), reply) == Handle(e, old(View()), Request.Put(key, value, ttl, at, tick, fate))
    {
      var ok := MayWrite(key, primary, at, e);
      if !ok {
        return Unavailable;
      }
      reply := PutAtPrimary(primary.value, primary.value in cm.nodes, key, value, ttl, at, tick, fate, e);
    }

    method PutKey(key: L.Key, value: L.Value, ttl: L.Seconds, at: real, tick: L.Time, fate: Fate) returns (reply: Reply)
      requires Valid()
      modifies cb, cb.states.Values, net, zr
      ensures cb.Valid() && fresh(cb.states.Values - old(cb.states.Values))
      ensures Handled(View(), reply) == Handle(old(E()), old(View()), Request.Put(key, value, ttl, at, tick, fate))
    {
      var primary, e := WriteRoute(key);
      reply := PutRouted(primary, key, value, ttl, at, tick, fate, e);
    }

    method DeleteFrom(primary: Node, known: bool, key: L.Key, at: real, tick: L.Time, fate: Fate, ghost e: Env)
      returns (reply: Reply)
      requires cb.Valid() && Serves(e) && (known <==> primary in e.known)
      modifies cb, cb.states.Values, net
      ensures cb.Valid() && fresh(cb.states.Values - old(cb.states.Values))
      ensures Handled(View(), reply) == DeleteAt(e, old(View()), primary, Request.Delete(key, at, tick, fate))
    {
      var failed, _, found := CallNode(primary, known, L.Remove(key), at, fate, e);
      if failed.Some? {
        return failed.value;
      }
      return if found then Done else NotFound;
    }

    method DeleteRouted(primary: Option<Node>, key: L.Key, at: real, tick: L.Time, fate: Fate, ghost e: Env)
      returns (reply: Reply)
      requires cb.Valid() && Serves(e) && Knows(e) && primary == e.primary(key)
      modifies cb, cb.states.Values, net
      ensures cb.Valid() && fresh(cb.states.Values - old(cb.states.Values))
      ensures Handled(View(), reply) == Handle(e, old(View()), Request.Delete(key, at, tick, fate))
    {
      var ok := MayWrite(key, primary, at, e);
      if !ok {
        return Unavailable;
      }
      reply := DeleteFrom(primary.value, primary.value in cm.nodes, key, at, tick, fate, e);
    }

    method DeleteKey(key: L.Key, at: real, tick: L.Time, fate: Fate) returns (reply: Reply)
      requires Valid()
      modifies cb, cb.states.Values, net
      ensures cb.Valid() && fresh(cb.states.Values - old(cb.states.Values))
      ensures Handled(View(), reply) == Handle(old(E()), old(View()), Request.Delete(key, at, tick, fate))
    {
      var primary, e := WriteRoute(key);
      reply := DeleteRouted(primary, key, at, tick, fate, e);
    }
  }
}
