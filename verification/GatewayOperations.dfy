/** What each request does, said by its ending and by the primary's breaker, and every breaker's circuit
    read off the requests. */
module GatewayOperations {
  import opened Options
  import opened Sequences
  import L = LruModel
  import B = BreakerModel
  import CB = CircuitBreaker
  import F = FailureLoop
  import Z = ZoneRouter
  import C = ClusterModel
  import R = RingTheorems
  import RingModel
  import T = RingTrace
  import D = DetectionTheorems
  import opened GatewayModel
  import opened ReadTheorems

  // ----- routing

  /** Over every run of the cluster, a key goes by its own hash: its primary has the nearest point
      clockwise from there among the nodes on the ring, and each replica is the nearest of those not yet
      named, as many as asked for or as own points. The gateway knows exactly the registered nodes. */
  lemma {:induction false} RoutedByHash(env: C.Env, events: seq<C.Event>, rf: int, cfg: Node -> L.Config,
                                        breaker: B.Settings, k: Key)
    returns (h: int)
    ensures var c := C.Run(env, events);
      var e := Fixed(env.hash, c, rf, cfg, breaker);
      && RoutedFrom(env.hash, c, rf, env.hash(k), h, e.primary(k), e.replicas(k))
      && forall n :: n in e.known <==> D.RegisteredAt(events, n) >= 0
  {
    var c := C.Run(env, events);
    var x := env.hash(k);
    h := T.PrimaryIsNearest(env, events, x);
    T.ReplicasCounted(env, events, x, rf);
    if c.ring.Some? {
      forall i | 0 <= i < |C.Replicas(c, x, rf)|
        ensures NextInTurn(c.ring.value.ring, x, C.Replicas(c, x, rf), i)
      {
        R.ReplicaIsNextOwner(c.ring.value.ring, x, rf, i);
      }
    }
    forall n
      ensures n in c.members <==> D.RegisteredAt(events, n) >= 0
    {
      D.DetectorCharacterised(env, events, n);
    }
  }

  /** Seen from `x`, the primary is the node that has the nearest point, `h`, and the replicas follow in
      clockwise order. */
  ghost predicate RoutedFrom(hash: string -> int, c: C.Cluster, rf: int, x: int, h: int, primary: Option<Node>,
                             replicas: seq<Node>)
  {
    && T.OwnsNearest(hash, c, x, h, primary)
    && (c.ring.None? ==> replicas == [])
    && (c.ring.Some? ==>
      var ring := c.ring.value.ring;
      && |replicas| == (if rf <= 0 then 0 else if rf < |ring.Values| then rf else |ring.Values|)
      && forall i :: 0 <= i < |replicas| ==> NextInTurn(ring, x, replicas, i))
  }

  /** Without the points of the replicas before it, the i-th one owns the nearest point. */
  ghost predicate NextInTurn(ring: RingModel.Ring, x: int, replicas: seq<Node>, i: nat)
    requires i < |replicas|
  {
    RingModel.Owner(RingModel.Restrict(ring, R.NoneOf(replicas[..i])), x) == Some(replicas[i])
  }

  // ----- one call

  /** The node's circuit before a call at `at`; a node never called before has a fresh one. */
  function CircuitOf(g: Gate, n: Node, at: real): B.Circuit {
    if n in g.circuits then g.circuits[n] else B.Circuit(B.Closed, 0, at, at)
  }

  /** Every other node's circuit and list are as before. */
  ghost predicate OthersSame(before: Gate, after: Gate, n: Node) {
    && (forall m :: m != n ==> (m in after.circuits <==> m in before.circuits))
    && (forall m :: m != n && m in before.circuits && m in after.circuits ==> after.circuits[m] == before.circuits[m])
    && (forall m :: m != n ==> ListOf(after, m) == ListOf(before, m))
    && after.latency == before.latency && after.pins == before.pins
  }

  /** What the breaker makes of a call's ending: an answer, a refusal by the node included, closes the
      circuit; a server error, a refused connection or a timeout counts as a failure; any other
      transport failure is not noted. */
  ghost predicate NotedBy(env: Env, before: Gate, after: Gate, n: Node, at: real, ending: Ending) {
    var c := CircuitOf(before, n, at);
    match ending
    case Answered => n in after.circuits && after.circuits[n] == B.Circuit(B.Closed, 0, c.lastFailure, at)
    case Refused => n in after.circuits && after.circuits[n] == B.Circuit(B.Closed, 0, c.lastFailure, at)
    case Errored => n in after.circuits && after.circuits[n] == B.Circuit(
      if c.failures + 1 >= env.breaker.threshold then B.Open else c.state, c.failures + 1, at, c.lastSuccess)
    case Unreachable => n in after.circuits && after.circuits[n] == B.Circuit(
      if c.failures + 1 >= env.breaker.threshold then B.Open else c.state, c.failures + 1, at, c.lastSuccess)
    case Broken => after.circuits == before.circuits
  }

  /** The call was carried out: it was answered, or it failed at some point after that. */
  predicate CarriedOut(fate: Fate) {
    match fate.ending
    case Answered => true
    case Refused => false
    case Errored => fate.acted
    case Unreachable => fate.acted
    case Broken => fate.acted
  }

  /** A call of a registered node changes that node's list by the operation exactly if it is carried
      out, and that node's circuit by its ending. An unregistered node is not called. */
  lemma CallExact(env: Env, g: Gate, n: Node, op: L.Op, at: real, fate: Fate)
    ensures var after := Call(env, g, n, op, at, fate);
      && OthersSame(g, after, n)
      && (n !in env.known ==> after == g)
      && (n in env.known ==>
        && NotedBy(env, g, after, n, at, fate.ending)
        && ListOf(after, n) ==
          if CarriedOut(fate) then L.Step(env.cfg(n), ListOf(g, n), op).list else ListOf(g, n))
  {
  }

  // ----- writes

  /** The write has no primary to go to, or its breaker is open and has not cooled down. */
  ghost predicate Barred(env: Env, g: Gate, key: Key, at: real) {
    match env.primary(key)
    case None => true
    case Some(p) =>
      p == "" || (CircuitOf(g, p, at).state == B.Open && at - CircuitOf(g, p, at).lastFailure < env.breaker.timeout)
  }

  /** The node operation of a write request. */
  function OpOf(r: Request): L.Op
    requires r.Put? || r.Delete?
  {
    if r.Put? then L.Put(r.key, r.value, r.ttl, r.tick) else L.Remove(r.key)
  }

  /** The reply to a write that was sent to a registered primary. */
  function WriteReply(g: Gate, p: Node, r: Request): Reply
    requires r.Put? || r.Delete?
  {
    match r.fate.ending
    case Answered => if r.Put? || L.Find(ListOf(g, p), r.key).Some? then Done else NotFound
    case Refused => Error
    case Errored => Error
    case Unreachable => Unavailable
    case Broken => Error
  }

  /** What a write comes to. */
  ghost predicate WriteComesTo(env: Env, g: Gate, r: Request, h: Handled)
    requires r.Put? || r.Delete?
  {
    if Barred(env, g, r.key, r.at) then
      h.reply == Unavailable && h.gate.nodes == g.nodes && h.gate.pins == g.pins
    else
      var p := env.primary(r.key).value;
      && (forall m :: m != p ==> ListOf(h.gate, m) == ListOf(g, m))
      && ListOf(h.gate, p) == (if p in env.known && CarriedOut(r.fate)
                               then L.Step(env.cfg(p), ListOf(g, p), OpOf(r)).list else ListOf(g, p))
      && h.reply == (if p in env.known then WriteReply(g, p, r) else Unavailable)
      && h.gate.pins ==
        if p in env.known && r.Put? && r.fate.ending == Answered then g.pins[r.key := (p, r.at)] else g.pins
  }

  /** A put or delete, in any state: barred, it is refused and no node's list changes. Otherwise the
      primary's list changes by that one put or removal, exactly if the primary is registered and
      carries it out, and no other list changes; the reply follows from how the call ended; and the
      key is pinned exactly by an acknowledged put. */
  lemma {:induction false} WriteExact(env: Env, g: Gate, r: Request)
    requires r.Put? || r.Delete?
    ensures WriteComesTo(env, g, r, Handle(env, g, r))
  {
    if Barred(env, g, r.key, r.at) {
      BarredWrite(env, g, r);
    } else if r.Put? {
      SentPut(env, g, r);
    } else {
      SentDelete(env, g, r);
    }
  }

  lemma {:induction false} BarredWrite(env: Env, g: Gate, r: Request)
    requires (r.Put? || r.Delete?) && Barred(env, g, r.key, r.at)
    ensures WriteComesTo(env, g, r, Handle(env, g, r))
  {
  }

  lemma {:induction false} SentPut(env: Env, g: Gate, r: Request)
    requires r.Put? && !Barred(env, g, r.key, r.at)
    ensures WriteComesTo(env, g, r, Handle(env, g, r))
  {
    var p := env.primary(r.key).value;
    var next := Asked(env, g, r.key, r.at);
    assert Handle(env, g, r) == PutAt(env, next, p, r);
    assert next.nodes == g.nodes && next.pins == g.pins;
    CallExact(env, next, p, OpOf(r), r.at, r.fate);
  }

  lemma {:induction false} SentDelete(env: Env, g: Gate, r: Request)
    requires r.Delete? && !Barred(env, g, r.key, r.at)
    ensures WriteComesTo(env, g, r, Handle(env, g, r))
  {
  }

  // ----- reads

  /** The reply to a read that was sent to a registered node. */
  function ReadReply(g: Gate, n: Node, r: Request): Reply
    requires r.Get?
  {
    match r.fate.ending
    case Answered =>
      var e := L.Find(ListOf(g, n), r.key);
      if e.Some? && (e.value.expires.Some? ==> r.tick < e.value.expires.value) then Hit(e.value.value) else NotFound
    case Refused => Error
    case Errored => Error
    case Unreachable => Unavailable
    case Broken => Error
  }

  /** The node's breaker does not stand in the way of a call at `at`. */
  ghost predicate Open(env: Env, g: Gate, n: Node, at: real) {
    CircuitOf(g, n, at).state != B.Open || at - CircuitOf(g, n, at).lastFailure >= env.breaker.timeout
  }

  /** The replica at place `i` is let through by its breaker, and is the nearest of those that are: none
      is nearer, and those named before it are farther. Unmeasured nodes count as 100 ms away. */
  ghost predicate NearestOpen(env: Env, g: Gate, replicas: seq<Node>, at: real, i: nat)
    requires i < |replicas|
  {
    && Open(env, g, replicas[i], at)
    && forall j :: 0 <= j < |replicas| && Open(env, g, replicas[j], at) ==>
      && Z.Distance(g.latency, replicas[i]) <= Z.Distance(g.latency, replicas[j])
      && (j < i ==> Z.Distance(g.latency, replicas[i]) < Z.Distance(g.latency, replicas[j]))
  }

  /** The target is the nearest replica that is let through, or there is neither. */
  ghost predicate ToNearest(env: Env, g: Gate, replicas: seq<Node>, at: real, target: Option<Node>) {
    match target
    case None => forall n :: n in replicas ==> !Open(env, g, n, at)
    case Some(n) => exists i :: 0 <= i < |replicas| && n == replicas[i] && NearestOpen(env, g, replicas, at, i)
  }

  /** Where a read goes, in any state: to the nearest replica that is let through, or nowhere if none
      is. */
  lemma {:induction false} ReadTargetExact(env: Env, g: Gate, key: Key, at: real)
    requires NoDuplicates(env.replicas(key))
    ensures ToNearest(env, g, env.replicas(key), at, ReadTarget(env, g, key, at))
  {
    var replicas, admits := env.replicas(key), Admits(env.breaker, g.circuits, at);
    FilteredExact(env.breaker, g.circuits, replicas, at);
    var available := Filter(replicas, admits);
    forall n
      ensures admits(n) <==> Open(env, g, n, at)
    {
    }
    if available == [] {
      forall n | n in replicas
        ensures !Open(env, g, n, at)
      {
        assert n !in available;
      }
    } else {
      var k: nat :| k < |available| && Z.PickByLatency(g.latency, available) == available[k]
        && Z.Nearest(g.latency, available, k);
      var i := NearestKept(env, g, replicas, at, k);
    }
  }

  /** The nearest of the kept replicas is the nearest of those let through. */
  lemma {:induction false} NearestKept(env: Env, g: Gate, replicas: seq<Node>, at: real, k: nat) returns (i: nat)
    requires var available := Filter(replicas, Admits(env.breaker, g.circuits, at));
      k < |available| && Z.Nearest(g.latency, available, k)
    ensures i < |replicas| && replicas[i] == Filter(replicas, Admits(env.breaker, g.circuits, at))[k]
    ensures NearestOpen(env, g, replicas, at, i)
  {
    var admits := Admits(env.breaker, g.circuits, at);
    i := PlaceIn(replicas, admits, k);
    forall j | 0 <= j < |replicas| && Open(env, g, replicas[j], at)
      ensures Z.Distance(g.latency, replicas[i]) <= Z.Distance(g.latency, replicas[j])
      ensures j < i ==> Z.Distance(g.latency, replicas[i]) < Z.Distance(g.latency, replicas[j])
    {
      var l := PlaceOf(replicas, admits, j, i, k);
    }
  }

  /** The place in the whole list of the k-th element kept by a filter. */
  lemma {:induction false} PlaceIn(s: seq<Node>, p: Node -> bool, k: nat) returns (i: nat)
    requires k < |Filter(s, p)|
    ensures i < |s| && s[i] == Filter(s, p)[k] && p(s[i])
    ensures |Filter(s[..i], p)| == k
  {
    if p(s[0]) && k == 0 {
      i := 0;
    } else {
      i := PlaceIn(s[1..], p, if p(s[0]) then k - 1 else k);
      i := i + 1;
      assert s[..i][1..] == s[1..][..i - 1];
    }
  }

  /** A kept element's place among the kept ones; the order is the same. */
  lemma {:induction false} PlaceOf(s: seq<Node>, p: Node -> bool, j: nat, i: nat, k: nat) returns (l: nat)
    requires j < |s| && p(s[j]) && i < |s| && |Filter(s[..i], p)| == k
    ensures l < |Filter(s, p)| && Filter(s, p)[l] == s[j] && (j < i ==> l < k)
  {
    l := |Filter(s[..j], p)|;
    FilterTake(s, j, p);
    assert s == s[..j + 1] + s[j + 1..];
    FilterAppend(s[..j + 1], s[j + 1..], p);
    if j < i {
      assert s[..i] == s[..j + 1] + s[j + 1..i];
      FilterAppend(s[..j + 1], s[j + 1..i], p);
    }
  }

  /** What a read comes to when it goes to the target. */
  ghost predicate ReadComesTo(env: Env, g: Gate, r: Request, target: Option<Node>, h: Handled)
    requires r.Get?
  {
    match target
    case None => h.reply == Unavailable && h.gate.nodes == g.nodes
    case Some(n) =>
      && h.reply == (if n in env.known then ReadReply(g, n, r) else Unavailable)
      && (forall m :: m != n ==> ListOf(h.gate, m) == ListOf(g, m))
      && ListOf(h.gate, n) ==
        if n in env.known && CarriedOut(r.fate)
        then L.Step(env.cfg(n), ListOf(g, n), L.Get(r.key, r.tick)).list else ListOf(g, n)
  }

  /** A get, in any state: without an admitted replica it is refused; otherwise it is answered from the
      list of the node it goes to, and only that list may change. */
  lemma {:induction false} ReadExact(env: Env, g: Gate, r: Request)
    requires r.Get?
    ensures ReadComesTo(env, g, r, ReadTarget(env, g, r.key, r.at), Handle(env, g, r))
  {
  }

  // ----- the breakers over a run

  function Questions(replicas: seq<Node>, at: real): seq<CB.NodeCall> {
    if replicas == [] then []
    else Questions(replicas[..|replicas| - 1], at) + [CB.NodeCall(replicas[|replicas| - 1], B.Query(at))]
  }

  /** The result of a call, as the breaker hears of it. */
  function Result(env: Env, n: Node, at: real, ending: Ending): seq<CB.NodeCall> {
    if n !in env.known then []
    else
      match ending
      case Answered => [CB.NodeCall(n, B.Success(at))]
      case Refused => [CB.NodeCall(n, B.Success(at))]
      case Errored => [CB.NodeCall(n, B.Failure(at))]
      case Unreachable => [CB.NodeCall(n, B.Failure(at))]
      case Broken => []
  }

  function Repeated(call: CB.NodeCall, n: int): seq<CB.NodeCall> {
    if n <= 0 then [] else Repeated(call, n - 1) + [call]
  }

  /** The calls on the breakers that one request makes. */
  ghost function LogOf(env: Env, g: Gate, r: Request): seq<CB.NodeCall> {
    match r
    case Get(key, at, _, fate) =>
      Questions(env.replicas(key), at) +
        (match ReadTarget(env, g, key, at)
         case None => []
         case Some(n) => Result(env, n, at, fate.ending))
    case Put(key, _, _, at, _, fate) => WriteLog(env, g, key, at, fate)
    case Delete(key, at, _, fate) => WriteLog(env, g, key, at, fate)
    case DeclaredDead(n, at) => Repeated(CB.NodeCall(n, B.Failure(at)), env.breaker.threshold)
    case Measured(_, _) => []
    case Purged(_, _) => []
    case Restarted(_) => []
  }

  ghost function WriteLog(env: Env, g: Gate, key: Key, at: real, fate: Fate): seq<CB.NodeCall> {
    if env.primary(key).None? || env.primary(key).value == "" then []
    else
      var p := env.primary(key).value;
      [CB.NodeCall(p, B.Query(at))] + if Barred(env, g, key, at) then [] else Result(env, p, at, fate.ending)
  }

  /** The calls on the breakers over a run. */
  ghost function Log(env: Env, requests: seq<Request>): seq<CB.NodeCall> {
    if requests == [] then []
    else
      var init := requests[..|requests| - 1];
      Log(env, init) + LogOf(env, Run(env, init), requests[|requests| - 1])
  }

  lemma {:induction false} QuestionsLogged(cfg: B.Settings, circuits: CB.Circuits, replicas: seq<Node>, at: real)
    ensures CB.Logged(cfg, circuits, Questions(replicas, at)) == Filtered(cfg, circuits, replicas, at).0
  {
    if replicas != [] {
      var init := replicas[..|replicas| - 1];
      QuestionsLogged(cfg, circuits, init, at);
      LoggedOne(cfg, circuits, Questions(init, at), CB.NodeCall(replicas[|replicas| - 1], B.Query(at)));
    }
  }

  lemma LoggedOne(cfg: B.Settings, circuits: CB.Circuits, log: seq<CB.NodeCall>, call: CB.NodeCall)
    ensures CB.Logged(cfg, circuits, log + [call])
      == CB.Called(cfg, CB.Logged(cfg, circuits, log), call.node, call.call)
  {
    assert (log + [call])[..|log|] == log;
  }

  lemma {:induction false} FailuresLogged(cfg: B.Settings, circuits: CB.Circuits, n: Node, at: real, count: nat)
    ensures CB.Logged(cfg, circuits, Repeated(CB.NodeCall(n, B.Failure(at)), count)) ==
      if count == 0 then circuits else circuits[n := B.Fail(cfg, CB.Lookup(circuits, n, at), at, count)]
  {
    if count > 0 {
      FailuresLogged(cfg, circuits, n, at, count - 1);
      LoggedOne(cfg, circuits, Repeated(CB.NodeCall(n, B.Failure(at)), count - 1), CB.NodeCall(n, B.Failure(at)));
    }
  }

  lemma ResultLogged(env: Env, circuits: CB.Circuits, n: Node, at: real, ending: Ending)
    ensures CB.Logged(env.breaker, circuits, Result(env, n, at, ending)) ==
      if n in env.known then Noted(env.breaker, circuits, n, Outcome(ending, at)) else circuits
  {
    if n in env.known && ending != Broken {
      var call := Result(env, n, at, ending)[0];
      assert [call][..0] == [];
    }
  }

  /** One request changes the breakers as its log says. */
  lemma {:induction false} HandleLogged(env: Env, g: Gate, r: Request)
    ensures Handle(env, g, r).gate.circuits == CB.Logged(env.breaker, g.circuits, LogOf(env, g, r))
  {
    if r.Get? {
      GetLogged(env, g, r);
    } else if r.Put? || r.Delete? {
      WriteLogged(env, g, r);
    } else if r.DeclaredDead? {
      DeadLogged(env, g, r);
    }
  }

  lemma {:induction false} GetLogged(env: Env, g: Gate, r: Request)
    requires r.Get?
    ensures Handle(env, g, r).gate.circuits == CB.Logged(env.breaker, g.circuits, LogOf(env, g, r))
  {
    var questions := Questions(env.replicas(r.key), r.at);
    var asked := Filtered(env.breaker, g.circuits, env.replicas(r.key), r.at).0;
    QuestionsLogged(env.breaker, g.circuits, env.replicas(r.key), r.at);
    match ReadTarget(env, g, r.key, r.at)
    case None => assert questions + [] == questions;
    case Some(n) =>
      CB.LoggedAppend(env.breaker, g.circuits, questions, Result(env, n, r.at, r.fate.ending));
      ResultLogged(env, asked, n, r.at, r.fate.ending);
  }

  /** What a write does to the breakers. */
  lemma {:induction false} WriteCircuits(env: Env, g: Gate, r: Request, p: Node)
    requires (r.Put? || r.Delete?) && env.primary(r.key) == Some(p) && p != ""
    ensures var asked := CB.Called(env.breaker, g.circuits, p, B.Query(r.at));
      Handle(env, g, r).gate.circuits ==
        if Barred(env, g, r.key, r.at) || p !in env.known then asked
        else Noted(env.breaker, asked, p, Outcome(r.fate.ending, r.at))
  {
  }

  lemma {:induction false} WriteLogged(env: Env, g: Gate, r: Request)
    requires r.Put? || r.Delete?
    ensures Handle(env, g, r).gate.circuits == CB.Logged(env.breaker, g.circuits, LogOf(env, g, r))
  {
    if env.primary(r.key).Some? && env.primary(r.key).value != "" {
      var p := env.primary(r.key).value;
      WriteCircuits(env, g, r, p);
      WriteLogIs(env, g, r.key, r.at, r.fate, p);
    }
  }

  lemma {:induction false} WriteLogIs(env: Env, g: Gate, key: Key, at: real, fate: Fate, p: Node)
    requires env.primary(key) == Some(p) && p != ""
    ensures var asked := CB.Called(env.breaker, g.circuits, p, B.Query(at));
      CB.Logged(env.breaker, g.circuits, WriteLog(env, g, key, at, fate)) ==
        if Barred(env, g, key, at) || p !in env.known then asked
        else Noted(env.breaker, asked, p, Outcome(fate.ending, at))
  {
    var question := [CB.NodeCall(p, B.Query(at))];
    var asked := CB.Called(env.breaker, g.circuits, p, B.Query(at));
    LoggedOne(env.breaker, g.circuits, [], question[0]);
    assert [] + question == question;
    if Barred(env, g, key, at) {
      assert question + [] == question;
    } else {
      CB.LoggedAppend(env.breaker, g.circuits, question, Result(env, p, at, fate.ending));
      ResultLogged(env, asked, p, at, fate.ending);
    }
  }

  lemma {:induction false} DeadLogged(env: Env, g: Gate, r: Request)
    requires r.DeclaredDead?
    ensures Handle(env, g, r).gate.circuits == CB.Logged(env.breaker, g.circuits, LogOf(env, g, r))
  {
    var call := CB.NodeCall(r.node, B.Failure(r.at));
    FailuresLogged(env.breaker, g.circuits, r.node, r.at, B.Burst(env.breaker));
    assert Repeated(call, env.breaker.threshold) == Repeated(call, B.Burst(env.breaker));
    ForceOpenOne(env.breaker, g.circuits, r.node, r.at);
  }

  lemma ForceOpenOne(cfg: B.Settings, circuits: CB.Circuits, n: Node, at: real)
    ensures F.ForceOpen(cfg, circuits, [n], at) ==
      if B.Burst(cfg) == 0 then circuits
      else circuits[n := B.Fail(cfg, CB.Lookup(circuits, n, at), at, B.Burst(cfg))]
  {
    assert [n][..0] == [];
    assert F.ForceOpen(cfg, circuits, [], at) == circuits;
  }

  /** Over every run, every node's circuit is the one that the calls read off the requests make of a
      fresh circuit. */
  lemma {:induction false} CircuitsByRequests(env: Env, requests: seq<Request>, n: Node)
    ensures CB.IsRun(env.breaker, Run(env, requests).circuits, n, CB.CallsOn(Log(env, requests), n))
  {
    RunLogged(env, requests);
    CB.CircuitsAreRuns(env.breaker, Log(env, requests), n);
  }

  lemma {:induction false} RunLogged(env: Env, requests: seq<Request>)
    ensures Run(env, requests).circuits == CB.Logged(env.breaker, map[], Log(env, requests))
  {
    if requests != [] {
      var init, r := requests[..|requests| - 1], requests[|requests| - 1];
      RunLogged(env, init);
      HandleLogged(env, Run(env, init), r);
      CB.LoggedAppend(env.breaker, map[], Log(env, init), LogOf(env, Run(env, init), r));
    }
  }

  /** The key has no primary, or the calls on its breaker end in a full streak of failures, the last one
      younger than the timeout. */
  ghost predicate BarredAfter(env: Env, log: seq<CB.NodeCall>, key: Key, at: real) {
    match env.primary(key)
    case None => true
    case Some(p) =>
      var calls := CB.CallsOn(log, p);
      p == "" || (
        && calls != []
        && B.Streak(env.breaker, calls[0].at, calls) >= B.Full(env.breaker)
        && at - B.LastFailure(calls[0].at, calls) < env.breaker.timeout)
  }

  /** Over every run, a write is barred exactly if it has no primary, or the calls on the primary's
      breaker end in a full streak whose last failure is younger than the timeout. */
  lemma {:induction false} BarredByRequests(env: Env, requests: seq<Request>, key: Key, at: real)
    ensures Barred(env, Run(env, requests), key, at) <==> BarredAfter(env, Log(env, requests), key, at)
  {
    if env.primary(key).Some? {
      var p := env.primary(key).value;
      CircuitsByRequests(env, requests, p);
      var calls := CB.CallsOn(Log(env, requests), p);
      if calls != [] {
        B.BreakerCharacterised(env.breaker, calls[0].at, calls);
      }
    }
  }

  /** A node that keeps failing is cut off: once the calls on its breaker end in a stretch with at least
      `threshold` failures (or one, if that is below 1), and with no success and no half-open transition,
      the next call is not let through before the timeout has passed since the last failure. */
  lemma {:induction false} FailingNodeCutOff(env: Env, requests: seq<Request>, n: Node, from: nat, at: real)
    requires var calls := CB.CallsOn(Log(env, requests), n);
      && calls != [] && from <= |calls| && B.Unbroken(env.breaker, calls[0].at, calls, from)
      && B.Failures(calls[from..]) >= B.Full(env.breaker)
      && at - B.LastFailure(calls[0].at, calls) < env.breaker.timeout
    ensures !Open(env, Run(env, requests), n, at)
  {
    var calls := CB.CallsOn(Log(env, requests), n);
    CircuitsByRequests(env, requests, n);
    B.StreakAtLeast(env.breaker, calls[0].at, calls, from);
    B.BreakerCharacterised(env.breaker, calls[0].at, calls);
  }
}
