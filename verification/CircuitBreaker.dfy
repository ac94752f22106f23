/** The circuit breaker object: one mutable circuit per node, created on first use. */
module CircuitBreaker {
  import opened BreakerModel

  type Node = string
  type Circuits = map<Node, Circuit>

  class NodeCircuit {
    var state: BreakerState
    var failureCount: nat
    var lastFailureTime: real
    var lastSuccessTime: real

    constructor (now: real)
      ensures View() == Fresh(now)
    {
      state, failureCount := Closed, 0;
      lastFailureTime, lastSuccessTime := now, now;
    }

    ghost function View(): Circuit
      reads this
    {
      Circuit(state, failureCount, lastFailureTime, lastSuccessTime)
    }

    method Succeed(cfg: Settings, now: real)
      modifies this
      ensures View() == After(cfg, old(View()), Success(now))
    {
      lastSuccessTime := now;
      state := Closed;
      failureCount := 0;
    }

    method Fail(cfg: Settings, now: real)
      modifies this
      ensures View() == After(cfg, old(View()), Failure(now))
    {
      failureCount := failureCount + 1;
      lastFailureTime := now;
      if failureCount >= cfg.threshold && state != Open {
        state := Open;
      }
    }

    method Ask(cfg: Settings, now: real) returns (available: bool)
      modifies this
      ensures View() == After(cfg, old(View()), Query(now))
      ensures available == Available(cfg, old(View()), now)
    {
      if state == Closed {
        return true;
      }
      if state == Open {
        if now - lastFailureTime >= cfg.timeout {
          state := HalfOpen;
          failureCount := 0;
          return true;
        }
        return false;
      }
      return true;
    }
  }

  /** The circuit of a node, or a fresh one. */
  function Lookup(circuits: Circuits, node: Node, now: real): Circuit {
    if node in circuits then circuits[node] else Fresh(now)
  }

  /** One call on one node leaves every other node's circuit alone. */
  function Called(cfg: Settings, circuits: Circuits, node: Node, call: Call): Circuits {
    circuits[node := After(cfg, Lookup(circuits, node, call.at), call)]
  }

  // ----- the table as a log of calls

  datatype NodeCall = NodeCall(node: Node, call: Call)

  /** The circuits after a log of calls, from an empty table. */
  function Logged(cfg: Settings, circuits: Circuits, log: seq<NodeCall>): Circuits {
    if log == [] then circuits
    else
      var last := log[|log| - 1];
      Called(cfg, Logged(cfg, circuits, log[..|log| - 1]), last.node, last.call)
  }

  /** The calls on one node, in order. */
  function CallsOn(log: seq<NodeCall>, n: Node): seq<Call> {
    if log == [] then []
    else
      var last := log[|log| - 1];
      CallsOn(log[..|log| - 1], n) + if last.node == n then [last.call] else []
  }

  /** The node has a circuit exactly if there was a call on it, and it is the one that these calls make
      of a fresh circuit created at the first of them. */
  ghost predicate IsRun(cfg: Settings, circuits: Circuits, n: Node, calls: seq<Call>) {
    && (n in circuits <==> calls != [])
    && (calls != [] ==> n in circuits && circuits[n] == Run(cfg, calls[0].at, calls))
  }

  /** Nodes do not disturb each other: over every log a node's circuit is what its own calls make of
      it. */
  lemma {:induction false} CircuitsAreRuns(cfg: Settings, log: seq<NodeCall>, n: Node)
    ensures IsRun(cfg, Logged(cfg, map[], log), n, CallsOn(log, n))
  {
    if log != [] {
      var init, last := log[..|log| - 1], log[|log| - 1];
      CircuitsAreRuns(cfg, init, n);
      var circuits := Logged(cfg, map[], init);
      if last.node == n {
        OwnCall(cfg, circuits, n, CallsOn(init, n), last.call);
      } else {
        OtherCall(cfg, circuits, n, CallsOn(init, n), last);
      }
    }
  }

  lemma OtherCall(cfg: Settings, circuits: Circuits, n: Node, calls: seq<Call>, other: NodeCall)
    requires IsRun(cfg, circuits, n, calls) && other.node != n
    ensures IsRun(cfg, Called(cfg, circuits, other.node, other.call), n, calls + [])
  {
    assert calls + [] == calls;
  }

  lemma OwnCall(cfg: Settings, circuits: Circuits, n: Node, calls: seq<Call>, call: Call)
    requires IsRun(cfg, circuits, n, calls)
    ensures IsRun(cfg, Called(cfg, circuits, n, call), n, calls + [call])
  {
    var born := if calls == [] then call.at else calls[0].at;
    assert Lookup(circuits, n, call.at) == Run(cfg, born, calls);
    RunSnoc(cfg, born, calls, call);
  }

  lemma RunSnoc(cfg: Settings, born: real, calls: seq<Call>, call: Call)
    ensures Run(cfg, born, calls + [call]) == After(cfg, Run(cfg, born, calls), call)
  {
    assert (calls + [call])[..|calls|] == calls;
  }

  lemma {:induction false} LoggedAppend(cfg: Settings, circuits: Circuits, a: seq<NodeCall>, b: seq<NodeCall>)
    ensures Logged(cfg, circuits, a + b) == Logged(cfg, Logged(cfg, circuits, a), b)
  {
    if b == [] {
      assert a + b == a;
    } else {
      LoggedAppend(cfg, circuits, a, b[..|b| - 1]);
      assert (a + b)[..|a + b| - 1] == a + b[..|b| - 1];
    }
  }

  class CircuitBreaker {
    const failureThreshold: int
    const timeout: real
    var states: map<Node, NodeCircuit>

    ghost function Cfg(): Settings {
      Settings(failureThreshold, timeout)
    }

    ghost predicate Valid()
      reads this
    {
      forall a, b :: a in states && b in states && a != b ==> states[a] != states[b]
    }

    ghost function View(): Circuits
      reads this, states.Values
    {
      map n | n in states :: states[n].View()
    }

    constructor (failureThreshold: int, timeout: real)
      ensures Valid() && View() == map[] && states == map[]
      ensures Cfg() == Settings(failureThreshold, timeout)
    {
      this.failureThreshold, this.timeout := failureThreshold, timeout;
      states := map[];
    }

    method GetCircuit(node: Node, now: real) returns (c: NodeCircuit)
      requires Valid()
      modifies this
      ensures Valid() && fresh(states.Values - old(states.Values))
      ensures node in states && states[node] == c && c.View() == Lookup(old(View()), node, now)
      ensures View() == old(View())[node := Lookup(old(View()), node, now)]
    {
      if node !in states {
        c := new NodeCircuit(now);
        states := states[node := c];
      }
      c := states[node];
    }

    method RecordSuccess(node: Node, now: real)
      requires Valid()
      modifies this, states.Values
      ensures Valid() && fresh(states.Values - old(states.Values))
      ensures View() == Called(Cfg(), old(View()), node, Success(now))
    {
      var c := GetCircuit(node, now);
      c.Succeed(Settings(failureThreshold, timeout), now);
    }

    method RecordFailure(node: Node, now: real)
      requires Valid()
      modifies this, states.Values
      ensures Valid() && fresh(states.Values - old(states.Values))
      ensures View() == Called(Cfg(), old(View()), node, Failure(now))
    {
      var c := GetCircuit(node, now);
      c.Fail(Settings(failureThreshold, timeout), now);
    }

    method IsAvailable(node: Node, now: real) returns (available: bool)
      requires Valid()
      modifies this, states.Values
      ensures Valid() && fresh(states.Values - old(states.Values))
      ensures View() == Called(Cfg(), old(View()), node, Query(now))
      ensures available == Available(Cfg(), Lookup(old(View()), node, now), now)
    {
      var c := GetCircuit(node, now);
      available := c.Ask(Settings(failureThreshold, timeout), now);
    }
  }
}
