/** What a read finds: which replica it goes to, and when it sees an acknowledged write. */
module ReadTheorems {
  import opened Options
  import opened Sequences
  import L = LruModel
  import B = BreakerModel
  import CB = CircuitBreaker
  import Z = ZoneRouter
  import opened GatewayModel

  // ----- where a read goes

  /** The node's breaker lets a call through. */
  function Admits(cfg: B.Settings, circuits: CB.Circuits, at: real): Node -> bool {
    (n: Node) => B.Available(cfg, CB.Lookup(circuits, n, at), at)
  }

  /** Asking the breakers of different replicas asks each of them once, and no other. */
  lemma {:induction false} FilteredAsks(cfg: B.Settings, circuits: CB.Circuits, replicas: seq<Node>, at: real, n: Node)
    requires NoDuplicates(replicas)
    ensures CB.Lookup(Filtered(cfg, circuits, replicas, at).0, n, at) == if n in replicas
      then B.After(cfg, CB.Lookup(circuits, n, at), B.Query(at)) else CB.Lookup(circuits, n, at)
  {
    if replicas != [] {
      var init, last := replicas[..|replicas| - 1], replicas[|replicas| - 1];
      FilteredAsks(cfg, circuits, init, at, n);
      assert replicas == init + [last] && last !in init;
      CalledLookup(cfg, Filtered(cfg, circuits, init, at).0, last, n, at);
    }
  }

  /** It keeps those that admit, in order. */
  lemma {:induction false} FilteredAdmits(cfg: B.Settings, circuits: CB.Circuits, replicas: seq<Node>, at: real)
    requires NoDuplicates(replicas)
    ensures Filtered(cfg, circuits, replicas, at).1 == Filter(replicas, Admits(cfg, circuits, at))
  {
    if replicas != [] {
      var init, last := replicas[..|replicas| - 1], replicas[|replicas| - 1];
      FilteredAdmits(cfg, circuits, init, at);
      FilteredAsks(cfg, circuits, init, at, last);
      assert replicas == init + [last] && last !in init;
      FilterSnoc(init, last, Admits(cfg, circuits, at));
    }
  }

  /** The available replicas are those whose breakers admit the call, in order, and each breaker is
      asked once. */
  lemma {:induction false} FilteredExact(cfg: B.Settings, circuits: CB.Circuits, replicas: seq<Node>, at: real)
    requires NoDuplicates(replicas)
    ensures Filtered(cfg, circuits, replicas, at).1 == Filter(replicas, Admits(cfg, circuits, at))
    ensures var after := Filtered(cfg, circuits, replicas, at).0;
      forall n :: CB.Lookup(after, n, at) == if n in replicas
        then B.After(cfg, CB.Lookup(circuits, n, at), B.Query(at)) else CB.Lookup(circuits, n, at)
  {
    FilteredAdmits(cfg, circuits, replicas, at);
    forall n
      ensures CB.Lookup(Filtered(cfg, circuits, replicas, at).0, n, at) == if n in replicas
        then B.After(cfg, CB.Lookup(circuits, n, at), B.Query(at)) else CB.Lookup(circuits, n, at)
    {
      FilteredAsks(cfg, circuits, replicas, at, n);
    }
  }

  /** Asking one breaker changes what is found for that node only. */
  lemma CalledLookup(cfg: B.Settings, circuits: CB.Circuits, asked: Node, n: Node, at: real)
    ensures CB.Lookup(CB.Called(cfg, circuits, asked, B.Query(at)), n, at) ==
      if n == asked then B.After(cfg, CB.Lookup(circuits, n, at), B.Query(at)) else CB.Lookup(circuits, n, at)
  {
  }

  /** The primary's breaker admits the read, and no admitted replica has strictly lower latency. */
  ghost predicate Served(env: Env, g: Gate, key: Key, at: real) {
    var p := env.primary(key);
    && p.Some? && Admits(env.breaker, g.circuits, at)(p.value)
    && forall n :: n in env.replicas(key) && Admits(env.breaker, g.circuits, at)(n) ==>
      Z.LatencyOf(g.latency, p.value) <= Z.LatencyOf(g.latency, n)
  }

  /** A read goes to the primary if and only if it is served there. */
  lemma {:induction false} ReadsPrimaryIff(env: Env, g: Gate, key: Key, at: real)
    requires Routed(env)
    ensures env.primary(key).Some? && ReadTarget(env, g, key, at) == env.primary(key) <==> Served(env, g, key, at)
    ensures ReadTarget(env, g, key, at).Some? ==> ReadTarget(env, g, key, at).value in env.known
    ensures ReadTarget(env, g, key, at).Some? <==>
      exists n :: n in env.replicas(key) && Admits(env.breaker, g.circuits, at)(n)
  {
    var replicas, admits := env.replicas(key), Admits(env.breaker, g.circuits, at);
    FilteredExact(env.breaker, g.circuits, replicas, at);
    var available := Filter(replicas, admits);
    FilterNoDuplicates(replicas, admits);
    if available != [] {
      assert available[0] in available;
      var i := Z.FirstLeast(g.latency, available);
      assert available[i] in available;
      if admits(replicas[0]) {
        assert available[0] == replicas[0];
        FirstIsLeast(g.latency, available);
      }
    }
  }

  /** The first of several candidates is picked if and only if none is strictly faster. */
  lemma {:induction false} FirstIsLeast(table: Z.Latencies, nodes: seq<Node>)
    requires nodes != [] && NoDuplicates(nodes)
    ensures Z.PickByLatency(table, nodes) == nodes[0] <==>
      forall n :: n in nodes ==> Z.LatencyOf(table, nodes[0]) <= Z.LatencyOf(table, n)
  {
    var i := Z.FirstLeast(table, nodes);
    if i == 0 {
      forall n | n in nodes
        ensures Z.LatencyOf(table, nodes[0]) <= Z.LatencyOf(table, n)
      {
        var j :| 0 <= j < |nodes| && nodes[j] == n;
      }
    } else {
      assert nodes[i] in nodes;
    }
  }

  // ----- which reads hit

  /** In every reachable state, an answered get hits if and only if it is served by the primary and
      the primary still holds the key unexpired. Otherwise the key is reported missing, or every
      replica as unavailable. */
  lemma {:induction false} GetHitsIff(env: Env, requests: seq<Request>, r: Request)
    requires Routed(env) && r.Get? && r.fate.ending == Answered
    ensures var g := Run(env, requests);
      var reply := Handle(env, g, r).reply;
      && (reply.Hit? <==> Served(env, g, r.key, r.at) && Holds(env, g, r.key, r.tick))
      && (!reply.Hit? ==> reply == if Target(env, g, r).Some? then NotFound else Unavailable)
  {
    RunConsistent(env, requests);
    var g := Run(env, requests);
    ReadsPrimaryIff(env, g, r.key, r.at);
    if Target(env, g, r).Some? {
      var t := Target(env, g, r).value;
      assert OnlyAtPrimary(env, requests, ListOf(g, t), t);
    }
  }

  /** The primary stores the key unexpired. */
  predicate Holds(env: Env, g: Gate, key: Key, tick: L.Time) {
    && env.primary(key).Some?
    && var stored := L.Find(ListOf(g, env.primary(key).value), key);
    stored.Some? && !L.Expired(stored.value, tick)
  }

  /** An acknowledged put leaves its entry at the front of the primary's list, and the primary's
      breaker closed. */
  lemma {:induction false} StoredAfterPut(env: Env, g: Gate, put: Request)
    requires put.Put? && Handle(env, g, put).reply == Done
    ensures var p := env.primary(put.key);
      var after := Handle(env, g, put).gate;
      && p.Some? && p.value in env.known && put.fate.ending == Answered
      && L.Find(ListOf(after, p.value), put.key) == Some(Written(env, put))
      && p.value in after.circuits && after.circuits[p.value].state == B.Closed
      && after.circuits[p.value].failures == 0
      && after.latency == g.latency
  {
  }

  /** The entry that a put writes at its primary. */
  function Written(env: Env, put: Request): L.Entry
    requires put.Put? && env.primary(put.key).Some?
  {
    L.Entry(put.key, put.value, L.Expiry(env.cfg(env.primary(put.key).value), put.ttl, put.tick))
  }

  /** The put was acknowledged, and the get asks for its key before its entry expires. */
  ghost predicate Follows(env: Env, requests: seq<Request>, put: Request, get: Request) {
    && put.Put? && get.Get? && put.key == get.key && get.fate.ending == Answered
    && Handle(env, Run(env, requests), put).reply == Done
    && env.primary(put.key).Some? && !L.Expired(Written(env, put), get.tick)
  }

  /** Read-your-writes: an answered get right after an acknowledged put returns the value put, if and
      only if no replica that its breaker admits has strictly lower latency than the primary. The
      pin that the put recorded plays no part. */
  lemma {:induction false} ReadYourWritesIff(env: Env, requests: seq<Request>, put: Request, get: Request)
    requires Routed(env) && Follows(env, requests, put, get)
    ensures var g := Run(env, requests + [put]);
      var p := env.primary(put.key).value;
      && (Handle(env, g, get).reply == Hit(put.value) <==>
        forall n :: n in env.replicas(put.key) && Admits(env.breaker, g.circuits, get.at)(n) ==>
          Z.LatencyOf(g.latency, p) <= Z.LatencyOf(g.latency, n))
      && (Handle(env, g, get).reply != Hit(put.value) ==> Handle(env, g, get).reply == NotFound)
  {
    var longer := requests + [put];
    RunSnoc(env, requests, put);
    StoredAfterPut(env, Run(env, requests), put);
    var g := Run(env, longer);
    GetHitsIff(env, longer, get);
    ReadsPrimaryIff(env, g, get.key, get.at);
    assert Admits(env.breaker, g.circuits, get.at)(env.primary(put.key).value);
  }

  /** A faster admitted replica makes a get miss, whatever was written. */
  lemma {:induction false} FasterReplicaMisses(env: Env, requests: seq<Request>, get: Request, n: Node)
    requires Routed(env) && get.Get? && get.fate.ending == Answered && env.primary(get.key).Some?
    requires var g := Run(env, requests);
      && n in env.replicas(get.key) && Admits(env.breaker, g.circuits, get.at)(n)
      && Z.LatencyOf(g.latency, n) < Z.LatencyOf(g.latency, env.primary(get.key).value)
    ensures Handle(env, Run(env, requests), get).reply == NotFound
  {
    GetHitsIff(env, requests, get);
    ReadsPrimaryIff(env, Run(env, requests), get.key, get.at);
  }

  // ----- without latency measurements

  ghost predicate Unmeasured(requests: seq<Request>) {
    forall i :: 0 <= i < |requests| ==> !requests[i].Measured?
  }

  lemma {:induction false} UnmeasuredLatencies(env: Env, requests: seq<Request>)
    requires Unmeasured(requests)
    ensures Run(env, requests).latency == map[]
  {
    if requests != [] {
      var n := |requests| - 1;
      UnmeasuredLatencies(env, requests[..n]);
      HandleKeepsLatency(env, Run(env, requests[..n]), requests[n]);
    }
  }

  lemma HandleKeepsLatency(env: Env, g: Gate, r: Request)
    requires !r.Measured?
    ensures Handle(env, g, r).gate.latency == g.latency
  {
    match r
    case Get(_, _, _, _) =>
    case Put(_, _, _, _, _, _) =>
    case Delete(_, _, _, _) =>
    case DeclaredDead(_, _) =>
    case Purged(_, _) =>
    case Restarted(_) =>
  }

  /** Nothing in the gateway records a latency, and without a record all replicas count as equally
      far: a read goes to the primary if and only if the primary's breaker admits it. */
  lemma {:induction false} UnmeasuredReadsPrimaryIff(env: Env, requests: seq<Request>, key: Key, at: real)
    requires Routed(env) && Unmeasured(requests) && env.primary(key).Some?
    ensures var g := Run(env, requests);
      ReadTarget(env, g, key, at) == env.primary(key) <==> Admits(env.breaker, g.circuits, at)(env.primary(key).value)
  {
    UnmeasuredLatencies(env, requests);
    ReadsPrimaryIff(env, Run(env, requests), key, at);
  }

  /** So a get right after an acknowledged put does return the value. */
  lemma {:induction false} UnmeasuredReadsItsWrite(env: Env, requests: seq<Request>, put: Request, get: Request)
    requires Routed(env) && Unmeasured(requests) && Follows(env, requests, put, get)
    ensures Handle(env, Run(env, requests + [put]), get).reply == Hit(put.value)
  {
    UnmeasuredLatencies(env, requests + [put]);
    ReadYourWritesIff(env, requests, put, get);
  }

  // ----- a write hidden by an open breaker

  /** Reads that the primary does not answer: the connection is refused, or times out. */
  function FailedReads(key: Key, at: real, tick: L.Time, n: nat): (r: seq<Request>)
    ensures |r| == n
  {
    seq(n, i => Get(key, at, tick, Fate(Unreachable, false)))
  }

  /** The primary has failed `n` times in a row at time `at`; another replica is in order. */
  ghost predicate Failing(env: Env, g: Gate, key: Key, other: Node, at: real, n: nat)
    requires env.primary(key).Some?
  {
    var p := env.primary(key).value;
    && g.latency == map[]
    && p in g.circuits && g.circuits[p].failures == n
    && g.circuits[p].state == (if n >= env.breaker.threshold then B.Open else B.Closed)
    && (n > 0 ==> g.circuits[p].lastFailure == at)
    && (other in g.circuits ==> g.circuits[other].state == B.Closed)
  }

  /** One more read fails at the primary. */
  lemma {:induction false} OneMoreFailure(env: Env, g: Gate, key: Key, other: Node, at: real, tick: L.Time, n: nat)
    requires Routed(env) && env.primary(key).Some? && other != env.primary(key).value
    requires Failing(env, g, key, other, at, n) && n < env.breaker.threshold
    ensures var after := Handle(env, g, Get(key, at, tick, Fate(Unreachable, false))).gate;
      Failing(env, after, key, other, at, n + 1) && after.nodes == g.nodes
  {
    var p := env.primary(key).value;
    var asked := Filtered(env.breaker, g.circuits, env.replicas(key), at).0;
    FilteredExact(env.breaker, g.circuits, env.replicas(key), at);
    ReadsPrimaryIff(env, g, key, at);
    assert CB.Lookup(asked, p, at) == CB.Lookup(g.circuits, p, at);
    assert CB.Lookup(asked, other, at) == CB.Lookup(g.circuits, other, at);
    FailedReadAt(env, g, key, p, at, tick);
  }

  /** A failed read leaves a failure with the breaker of the node it was sent to, and nothing else but
      the questions to the breakers. */
  lemma FailedReadAt(env: Env, g: Gate, key: Key, p: Node, at: real, tick: L.Time)
    requires ReadTarget(env, g, key, at) == Some(p) && p in env.known
    ensures Handle(env, g, Get(key, at, tick, Fate(Unreachable, false))).gate
      == g.(circuits := CB.Called(env.breaker, Filtered(env.breaker, g.circuits, env.replicas(key), at).0, p,
                                  B.Failure(at)))
  {
  }

  lemma RunSnoc(env: Env, requests: seq<Request>, r: Request)
    ensures Run(env, requests + [r]) == Handle(env, Run(env, requests), r).gate
  {
    assert (requests + [r])[..|requests|] == requests;
  }

  lemma {:induction false} RepeatedFailures(env: Env, requests: seq<Request>, key: Key, other: Node,
                                    at: real, tick: L.Time, n: nat)
    requires Routed(env) && env.primary(key).Some? && other != env.primary(key).value
    requires Failing(env, Run(env, requests), key, other, at, 0) && n <= env.breaker.threshold
    ensures var g := Run(env, requests + FailedReads(key, at, tick, n));
      Failing(env, g, key, other, at, n) && g.nodes == Run(env, requests).nodes
  {
    var all := requests + FailedReads(key, at, tick, n);
    if n == 0 {
      assert all == requests;
    } else {
      RepeatedFailures(env, requests, key, other, at, tick, n - 1);
      var init := requests + FailedReads(key, at, tick, n - 1);
      assert all == init + [Get(key, at, tick, Fate(Unreachable, false))];
      RunSnoc(env, init, Get(key, at, tick, Fate(Unreachable, false)));
      OneMoreFailure(env, Run(env, init), key, other, at, tick, n - 1);
    }
  }

  /** Read-your-writes does fail: after an acknowledged put, `threshold` reads that fail to reach the
      primary open its breaker, and until its timeout has passed a read is sent to another replica,
      which has nothing, although the primary still holds the value. */
  lemma {:induction false} FailuresHideWrite(env: Env, requests: seq<Request>, put: Request, get: Request,
                                             other: Node, at: real, tick: L.Time)
    requires Routed(env) && env.breaker.threshold >= 1
    requires Unmeasured(requests) && Follows(env, requests, put, get)
    requires other in env.replicas(put.key) && other != env.primary(put.key).value
    requires var g := Run(env, requests + [put]);
      other in g.circuits ==> g.circuits[other].state == B.Closed
    requires get.at - at < env.breaker.timeout
    ensures var g := Run(env, requests + [put] + FailedReads(put.key, at, tick, env.breaker.threshold));
      && Holds(env, g, put.key, get.tick)
      && Handle(env, g, get).reply == NotFound
  {
    var written := requests + [put];
    RunSnoc(env, requests, put);
    StoredAfterPut(env, Run(env, requests), put);
    UnmeasuredLatencies(env, written);
    RepeatedFailures(env, written, put.key, other, at, tick, env.breaker.threshold);
    var all := written + FailedReads(put.key, at, tick, env.breaker.threshold);
    GetHitsIff(env, all, get);
    ReadsPrimaryIff(env, Run(env, all), get.key, get.at);
    assert Admits(env.breaker, Run(env, all).circuits, get.at)(other);
  }

  const FIRST_PUT := Put("k", "v", 0, 0.0, 0, Fate(Answered, true))
  const MISSING_GET := Get("k", 0.2, 2, Fate(Answered, true))

  /** Two nodes and the default breaker settings. */
  function TwoNodes(): Env {
    Env((k: Key) => Some("p"), (k: Key) => ["p", "q"], {"p", "q"}, (n: Node) => L.Config(1, 0), B.Settings(5, 30.0))
  }

  lemma TwoNodesRouted()
    ensures Routed(TwoNodes())
  {
  }

  lemma FirstPutFollowed()
    ensures Follows(TwoNodes(), [], FIRST_PUT, MISSING_GET)
    ensures "q" !in Run(TwoNodes(), [FIRST_PUT]).circuits
  {
    assert [] + [FIRST_PUT] == [FIRST_PUT];
    RunSnoc(TwoNodes(), [], FIRST_PUT);
  }

  /** Such a run with the default settings, within half a second of the write: a put at 0.0 s, five
      reads at 0.1 s that are refused a connection, and a read at 0.2 s that finds nothing. */
  lemma {:induction false} HiddenWrite()
    ensures var g := Run(TwoNodes(), [FIRST_PUT] + FailedReads("k", 0.1, 1, 5));
      Holds(TwoNodes(), g, "k", 2) && Handle(TwoNodes(), g, MISSING_GET).reply == NotFound
  {
    TwoNodesRouted();
    FirstPutFollowed();
    assert [] + [FIRST_PUT] == [FIRST_PUT];
    FailuresHideWrite(TwoNodes(), [], FIRST_PUT, MISSING_GET, "q", 0.1, 1);
  }
}
