/** The gateway's request handlers on values, over a fixed routing table, and what clients may
    rely on. */
module GatewayModel {
  import opened Options
  import opened Sequences
  import L = LruModel
  import B = BreakerModel
  import CB = CircuitBreaker
  import Z = ZoneRouter
  import C = ClusterModel
  import R = RingTheorems
  import F = FailureLoop

  type Node = string
  type Key = L.Key
  type Value = L.Value

  /** How a remote call ends: answered normally, refused with a client error, a server error, no
      connection or a timeout, or another transport failure. */
  datatype Ending = Answered | Refused | Errored | Unreachable | Broken

  /** A failed call may have been carried out all the same; a refused one was not. */
  datatype Fate = Fate(ending: Ending, acted: bool)

  predicate Acts(f: Fate) {
    f.ending == Answered || (f.acted && f.ending != Refused)
  }

  /** What the breaker is told about a call, if anything. */
  function Outcome(ending: Ending, at: real): Option<B.Call> {
    match ending
    case Answered => Some(B.Success(at))
    case Refused => Some(B.Success(at))
    case Errored => Some(B.Failure(at))
    case Unreachable => Some(B.Failure(at))
    case Broken => None
  }

  function Noted(cfg: B.Settings, circuits: CB.Circuits, n: Node, outcome: Option<B.Call>): CB.Circuits {
    match outcome
    case None => circuits
    case Some(call) => CB.Called(cfg, circuits, n, call)
  }

  /** Routing, node configurations, breaker settings, and the registered nodes. */
  datatype Env = Env(primary: Key -> Option<Node>, replicas: Key -> seq<Node>, known: set<Node>,
                     cfg: Node -> L.Config, breaker: B.Settings)

  /** The routing of a cluster that does not change. */
  function RoutePrimary(hash: string -> int, c: C.Cluster): Key -> Option<Node> {
    (k: Key) => C.Primary(c, hash(k))
  }

  function RouteReplicas(hash: string -> int, c: C.Cluster, rf: int): Key -> seq<Node> {
    (k: Key) => C.Replicas(c, hash(k), rf)
  }

  function Fixed(hash: string -> int, c: C.Cluster, rf: int, cfg: Node -> L.Config, breaker: B.Settings): Env {
    Env(RoutePrimary(hash, c), RouteReplicas(hash, c, rf), c.members.Keys, cfg, breaker)
  }

  /** Every key's replicas are different registered nodes, the primary first. */
  ghost predicate Routed(env: Env) {
    forall k ::
      && NoDuplicates(env.replicas(k)) && (forall n :: n in env.replicas(k) ==> n in env.known)
      && env.primary(k) == if env.replicas(k) == [] then None else Some(env.replicas(k)[0])
  }

  /** With a reachable cluster the gateway never routes to a node it does not know, and with a
      replication factor of at least 1 the routing is as the handlers expect. */
  lemma {:induction false} RoutedNodesKnown(env: C.Env, events: seq<C.Event>, rf: int, cfg: Node -> L.Config,
                                            breaker: B.Settings)
    ensures var e := Fixed(env.hash, C.Run(env, events), rf, cfg, breaker);
      && (forall k, n :: n in e.replicas(k) ==> n in e.known)
      && (forall k :: e.primary(k).Some? ==> e.primary(k).value in e.known)
      && (rf > 0 ==> Routed(e))
  {
    var c := C.Run(env, events);
    var e := Fixed(env.hash, c, rf, cfg, breaker);
    C.RingStatusInvariant(env, events, 0, 0.0);
    forall k
      ensures forall n :: n in e.replicas(k) ==> n in e.known
      ensures e.primary(k).Some? ==> e.primary(k).value in e.known
      ensures rf > 0 ==> NoDuplicates(e.replicas(k))
      ensures rf > 0 ==> e.primary(k) == if e.replicas(k) == [] then None else Some(e.replicas(k)[0])
    {
      C.ReplicasHealthy(c, env.hash(k), rf);
      if c.ring.Some? {
        R.ReplicasExact(c.ring.value.ring, env.hash(k), rf, rf);
      }
    }
  }

  datatype Gate = Gate(circuits: CB.Circuits, latency: Z.Latencies, pins: Z.Pins, nodes: map<Node, seq<L.Entry>>)

  const NEW_GATE := Gate(map[], map[], map[], map[])

  /** Client requests, each with the gateway's clock, the node's clock and the fate of its remote
      call; and what else happens to the gateway's tables and the nodes. */
  datatype Request =
    | Get(key: Key, at: real, tick: L.Time, fate: Fate)
    | Put(key: Key, value: Value, ttl: L.Seconds, at: real, tick: L.Time, fate: Fate)
    | Delete(key: Key, at: real, tick: L.Time, fate: Fate)
    | Measured(node: Node, latency: real)
    | DeclaredDead(node: Node, at: real)
    | Purged(node: Node, tick: L.Time)
    | Restarted(node: Node)

  datatype Reply = Hit(value: Value) | NotFound | Unavailable | Error | Done

  datatype Handled = Handled(gate: Gate, reply: Reply)

  function ListOf(g: Gate, n: Node): seq<L.Entry> {
    if n in g.nodes then g.nodes[n] else []
  }

  /** `is_available` on each replica in turn; it may move circuits to half-open. */
  function Filtered(cfg: B.Settings, circuits: CB.Circuits, replicas: seq<Node>, at: real): (CB.Circuits, seq<Node>) {
    if replicas == [] then (circuits, [])
    else
      var (before, available) := Filtered(cfg, circuits, replicas[..|replicas| - 1], at);
      var n := replicas[|replicas| - 1];
      (CB.Called(cfg, before, n, B.Query(at)),
       if B.Available(cfg, CB.Lookup(before, n, at), at) then available + [n] else available)
  }

  /** `call_node`: the node acts or not, and the breaker records the outcome. */
  function Call(env: Env, g: Gate, n: Node, op: L.Op, at: real, fate: Fate): Gate {
    if n !in env.known then g
    else
      g.(circuits := Noted(env.breaker, g.circuits, n, Outcome(fate.ending, at)),
         nodes := if Acts(fate) then g.nodes[n := L.Step(env.cfg(n), ListOf(g, n), op).list] else g.nodes)
  }

  /** The reply to a call whose node did not answer normally, if so. */
  function Failed(env: Env, n: Node, ending: Ending): Option<Reply> {
    if n !in env.known then Some(Unavailable)
    else
      match ending
      case Answered => None
      case Refused => Some(Error)
      case Errored => Some(Error)
      case Unreachable => Some(Unavailable)
      case Broken => Some(Error)
  }

  /** Where a read is sent: the available replica of least latency. */
  function ReadTarget(env: Env, g: Gate, key: Key, at: real): Option<Node> {
    var available := Filtered(env.breaker, g.circuits, env.replicas(key), at).1;
    if available == [] then None else Some(Z.PickByLatency(g.latency, available))
  }

  function Target(env: Env, g: Gate, r: Request): Option<Node>
    requires r.Get?
  {
    ReadTarget(env, g, r.key, r.at)
  }

  function HandleGet(env: Env, g: Gate, r: Request): Handled
    requires r.Get?
  {
    var next := g.(circuits := Filtered(env.breaker, g.circuits, env.replicas(r.key), r.at).0);
    match Target(env, g, r)
    case None => Handled(next, Unavailable)
    case Some(n) => GetAt(env, next, n, r)
  }

  function GetAt(env: Env, g: Gate, n: Node, r: Request): Handled
    requires r.Get?
  {
    var op := L.Get(r.key, r.tick);
    var answer := L.Step(env.cfg(n), ListOf(g, n), op).hit;
    Handled(Call(env, g, n, op, r.at, r.fate),
            if Failed(env, n, r.fate.ending).Some? then Failed(env, n, r.fate.ending).value
            else if answer.Some? then Hit(answer.value) else NotFound)
  }

  /** The primary a write may use. An empty name counts as none. */
  function Writable(env: Env, key: Key): Option<Node> {
    if env.primary(key) == Some("") then None else env.primary(key)
  }

  /** A write is sent to the primary if there is one and its breaker lets it through. */
  predicate Sent(env: Env, g: Gate, key: Key, at: real) {
    var p := Writable(env, key);
    p.Some? && B.Available(env.breaker, CB.Lookup(g.circuits, p.value, at), at)
  }

  /** The breaker question about the primary, which comes before any write. */
  function Asked(env: Env, g: Gate, key: Key, at: real): Gate {
    match Writable(env, key)
    case None => g
    case Some(p) => g.(circuits := CB.Called(env.breaker, g.circuits, p, B.Query(at)))
  }

  function HandlePut(env: Env, g: Gate, r: Request): Handled
    requires r.Put?
  {
    var next := Asked(env, g, r.key, r.at);
    if !Sent(env, g, r.key, r.at) then Handled(next, Unavailable)
    else PutAt(env, next, env.primary(r.key).value, r)
  }

  /** The write itself, and the pin that records it. */
  function PutAt(env: Env, g: Gate, p: Node, r: Request): Handled
    requires r.Put?
  {
    var called := Call(env, g, p, L.Put(r.key, r.value, r.ttl, r.tick), r.at, r.fate);
    if Failed(env, p, r.fate.ending).Some? then Handled(called, Failed(env, p, r.fate.ending).value)
    else Handled(called.(pins := called.pins[r.key := (p, r.at)]), Done)
  }

  function HandleDelete(env: Env, g: Gate, r: Request): Handled
    requires r.Delete?
  {
    var next := Asked(env, g, r.key, r.at);
    if !Sent(env, g, r.key, r.at) then Handled(next, Unavailable)
    else
      DeleteAt(env, next, env.primary(r.key).value, r)
  }

  function DeleteAt(env: Env, g: Gate, p: Node, r: Request): Handled
    requires r.Delete?
  {
    Handled(Call(env, g, p, L.Remove(r.key), r.at, r.fate),
            if Failed(env, p, r.fate.ending).Some? then Failed(env, p, r.fate.ending).value
            else if L.Find(ListOf(g, p), r.key).Some? then Done else NotFound)
  }

  function Handle(env: Env, g: Gate, r: Request): Handled {
    match r
    case Get(_, _, _, _) => HandleGet(env, g, r)
    case Put(_, _, _, _, _, _) => HandlePut(env, g, r)
    case Delete(_, _, _, _) => HandleDelete(env, g, r)
    case Measured(n, latency) => Handled(g.(latency := Z.Smoothed(g.latency, n, latency)), Done)
    case DeclaredDead(n, at) =>
      Handled(g.(circuits := F.ForceOpen(env.breaker, g.circuits, [n], at)), Done)
    case Purged(n, tick) => Handled(g.(nodes := g.nodes[n := L.Live(ListOf(g, n), tick)]), Done)
    case Restarted(n) => Handled(g.(nodes := g.nodes[n := []]), Done)
  }

  function Run(env: Env, requests: seq<Request>): Gate {
    if requests == [] then NEW_GATE
    else Handle(env, Run(env, requests[..|requests| - 1]), requests[|requests| - 1]).gate
  }

  function ReplyTo(env: Env, requests: seq<Request>, i: nat): Reply
    requires i < |requests|
  {
    Handle(env, Run(env, requests[..i]), requests[i]).reply
  }

  // ----- never a wrong value

  /** The write reaches its primary and is carried out there, answered or not. */
  predicate Reaches(env: Env, g: Gate, r: Request) {
    (r.Put? || r.Delete?) && Sent(env, g, r.key, r.at) && env.primary(r.key).value in env.known && Acts(r.fate)
  }

  /** The last value put for the key at its primary, unless a delete reached it since. */
  function LastWrite(env: Env, requests: seq<Request>, k: Key): Option<Value> {
    if requests == [] then None
    else
      var init, r := requests[..|requests| - 1], requests[|requests| - 1];
      if (r.Put? || r.Delete?) && r.key == k && Reaches(env, Run(env, init), r)
      then (if r.Put? then Some(r.value) else None)
      else LastWrite(env, init, k)
  }

  /** A node holds `k` only if it is its primary, and then with the last value written. */
  ghost predicate OnlyAtPrimary(env: Env, requests: seq<Request>, s: seq<L.Entry>, n: Node) {
    forall e :: e in s ==> env.primary(e.key) == Some(n) && LastWrite(env, requests, e.key) == Some(e.value)
  }

  ghost predicate Consistent(env: Env, requests: seq<Request>, g: Gate) {
    forall n :: n in g.nodes ==> OnlyAtPrimary(env, requests, g.nodes[n], n)
  }

  /** What a node's operation leaves was there before, or was just put. */
  lemma {:induction false} StepMembers(cfg: L.Config, s: seq<L.Entry>, op: L.Op)
    ensures forall e :: e in L.Step(cfg, s, op).list ==>
      (e in s && (op.Remove? ==> e.key != op.key) && (op.Put? ==> e.key != op.key))
      || (op.Put? && e.key == op.key && e.value == op.value)
  {
    if op.Put? && L.Find(s, op.key).None? && |s| >= cfg.capacity && s != [] {
      assert forall e :: e in s[..|s| - 1] ==> e in s;
    }
  }

  /** In every reachable state, whatever the breakers, latencies, evictions, expiries, restarts and
      lost answers did. */
  lemma {:induction false} RunConsistent(env: Env, requests: seq<Request>)
    ensures Consistent(env, requests, Run(env, requests))
  {
    if requests != [] {
      RunConsistent(env, requests[..|requests| - 1]);
      StepConsistent(env, requests);
    }
  }

  predicate Writes(env: Env, g: Gate, r: Request, k: Key) {
    (r.Put? || r.Delete?) && r.key == k && Reaches(env, g, r)
  }

  predicate MayHold(env: Env, g: Gate, r: Request, n: Node, e: L.Entry) {
    || (e in ListOf(g, n) && (Writes(env, g, r, e.key) ==> env.primary(e.key) != Some(n)))
    || (r.Put? && Writes(env, g, r, e.key) && e.value == r.value && env.primary(e.key) == Some(n))
  }

  /** An entry on a node after a request was there before and its key not written there, or it is
      what the request put at its primary. */
  lemma {:induction false} MembersAfter(env: Env, g: Gate, r: Request, n: Node, e: L.Entry)
    requires e in ListOf(Handle(env, g, r).gate, n)
    ensures MayHold(env, g, r, n, e)
  {
    if r.Get? {
      GetLists(env, g, r, n);
      StepMembers(env.cfg(n), ListOf(g, n), L.Get(r.key, r.tick));
    } else if r.Put? {
      PutLists(env, g, r, n);
      StepMembers(env.cfg(n), ListOf(g, n), L.Put(r.key, r.value, r.ttl, r.tick));
    } else if r.Delete? {
      DeleteLists(env, g, r, n);
      StepMembers(env.cfg(n), ListOf(g, n), L.Remove(r.key));
    } else {
      OtherLists(env, g, r, n);
    }
  }

  /** What each kind of request does to a node's list. */
  lemma GetLists(env: Env, g: Gate, r: Request, n: Node)
    requires r.Get?
    ensures var after := ListOf(Handle(env, g, r).gate, n);
      after == ListOf(g, n) || after == L.Step(env.cfg(n), ListOf(g, n), L.Get(r.key, r.tick)).list
  {
  }

  lemma PutLists(env: Env, g: Gate, r: Request, n: Node)
    requires r.Put?
    ensures ListOf(Handle(env, g, r).gate, n) ==
      if Reaches(env, g, r) && env.primary(r.key) == Some(n)
      then L.Step(env.cfg(n), ListOf(g, n), L.Put(r.key, r.value, r.ttl, r.tick)).list else ListOf(g, n)
  {
  }

  lemma DeleteLists(env: Env, g: Gate, r: Request, n: Node)
    requires r.Delete?
    ensures ListOf(Handle(env, g, r).gate, n) ==
      if Reaches(env, g, r) && env.primary(r.key) == Some(n)
      then L.Step(env.cfg(n), ListOf(g, n), L.Remove(r.key)).list else ListOf(g, n)
  {
  }

  lemma OtherLists(env: Env, g: Gate, r: Request, n: Node)
    requires !r.Get? && !r.Put? && !r.Delete?
    ensures forall e :: e in ListOf(Handle(env, g, r).gate, n) ==> e in ListOf(g, n)
  {
  }

  lemma {:induction false} StepConsistent(env: Env, requests: seq<Request>)
    requires requests != []
    requires Consistent(env, requests[..|requests| - 1], Run(env, requests[..|requests| - 1]))
    ensures Consistent(env, requests, Run(env, requests))
  {
    var init, r := requests[..|requests| - 1], requests[|requests| - 1];
    var g := Run(env, init);
    var next := Run(env, requests);
    forall n, e | n in next.nodes && e in next.nodes[n]
      ensures env.primary(e.key) == Some(n) && LastWrite(env, requests, e.key) == Some(e.value)
    {
      assert OnlyAtPrimary(env, init, ListOf(g, n), n);
      MembersAfter(env, g, r, n, e);
    }
  }

  /** End to end: a get is answered with a value only if it is the last value put for the key at
      its primary with no delete there since. The cache may forget, but never lies. */
  lemma NeverAWrongValue(env: Env, requests: seq<Request>, i: nat)
    requires i < |requests| && requests[i].Get? && ReplyTo(env, requests, i).Hit?
    ensures LastWrite(env, requests[..i], requests[i].key) == Some(ReplyTo(env, requests, i).value)
  {
    RunConsistent(env, requests[..i]);
    var g, r := Run(env, requests[..i]), requests[i];
    var n := Target(env, g, r).value;
    assert OnlyAtPrimary(env, requests[..i], ListOf(g, n), n);
  }
}
