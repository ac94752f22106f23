/** The zone router: latency table, read-your-writes pins, and the choice of a replica to read. */
module ZoneRouter {
  type Node = string
  type Latencies = map<Node, real>
  type Pins = map<string, (Node, real)>

  const UNKNOWN_LATENCY := 100.0

  function LatencyOf(table: Latencies, n: Node): real {
    if n in table then table[n] else UNKNOWN_LATENCY
  }

  /** Position of the first node with the lowest latency: the head of a stable sort. */
  function FirstLeast(table: Latencies, nodes: seq<Node>): (i: nat)
    requires nodes != []
    ensures i < |nodes|
    ensures forall j :: 0 <= j < |nodes| ==> LatencyOf(table, nodes[i]) <= LatencyOf(table, nodes[j])
    ensures forall j :: 0 <= j < i ==> LatencyOf(table, nodes[i]) < LatencyOf(table, nodes[j])
  {
    if |nodes| == 1 then 0
    else
      var n := |nodes| - 1;
      var m := FirstLeast(table, nodes[..n]);
      if LatencyOf(table, nodes[n]) < LatencyOf(table, nodes[m]) then n else m
  }

  /** A node that was never measured counts as 100 ms away. */
  function Distance(table: Latencies, n: Node): real {
    if n in table then table[n] else 100.0
  }

  /** The node at place `i` has the lowest latency, and the nodes before it have greater ones. */
  ghost predicate Nearest(table: Latencies, nodes: seq<Node>, i: nat)
    requires i < |nodes|
  {
    && (forall j :: 0 <= j < |nodes| ==> Distance(table, nodes[i]) <= Distance(table, nodes[j]))
    && (forall j :: 0 <= j < i ==> Distance(table, nodes[i]) < Distance(table, nodes[j]))
  }

  function PickByLatency(table: Latencies, nodes: seq<Node>): (n: Node)
    requires nodes != []
    ensures exists i :: 0 <= i < |nodes| && n == nodes[i] && Nearest(table, nodes, i)
  {
    assert Nearest(table, nodes, FirstLeast(table, nodes));
    nodes[FirstLeast(table, nodes)]
  }

  /** The choice for a read: the client's zone is accepted but makes no difference. */
  function PickReplica(table: Latencies, replicas: seq<Node>, primary: Node): (n: Node)
    ensures replicas == [] ==> n == primary
    ensures replicas != [] ==> exists i :: 0 <= i < |replicas| && n == replicas[i] && Nearest(table, replicas, i)
  {
    if replicas == [] then primary else PickByLatency(table, replicas)
  }

  function Smoothed(table: Latencies, n: Node, measured: real): Latencies {
    if n !in table then table[n := measured] else table[n := 0.3 * measured + 0.7 * table[n]]
  }

  datatype Measurement = Measurement(node: Node, latency: real)

  /** The table after the measurements, starting from an empty one. */
  function Recorded(history: seq<Measurement>): Latencies {
    if history == [] then map[]
    else
      var last := history[|history| - 1];
      Smoothed(Recorded(history[..|history| - 1]), last.node, last.latency)
  }

  /** A node's latency never leaves the range of what was measured for it, and a node has one exactly
      if something was measured. */
  lemma {:induction false} LatencyWithin(history: seq<Measurement>, n: Node, lo: real, hi: real)
    requires forall i :: 0 <= i < |history| && history[i].node == n ==> lo <= history[i].latency <= hi
    ensures n in Recorded(history) <==> exists i :: 0 <= i < |history| && history[i].node == n
    ensures n in Recorded(history) ==> lo <= Recorded(history)[n] <= hi
  {
    if history != [] {
      var init := history[..|history| - 1];
      LatencyWithin(init, n, lo, hi);
      if n in Recorded(init) {
        var i :| 0 <= i < |init| && init[i].node == n;
        assert history[i].node == n;
      }
    }
  }

  function Power(x: real, n: nat): real {
    if n == 0 then 1.0 else Power(x, n - 1) * x
  }

  /** Steady measurements win: after `n` equal ones the distance to them has shrunk to 0.7^n of what
      it was. */
  lemma {:induction false} LatencyConverges(history: seq<Measurement>, node: Node, latency: real, n: nat)
    requires node in Recorded(history)
    ensures var after := Recorded(history + seq(n, i => Measurement(node, latency)));
      node in after && latency - after[node] == Power(0.7, n) * (latency - Recorded(history)[node])
  {
    var all := history + seq(n, i => Measurement(node, latency));
    if n == 0 {
      assert all == history;
    } else {
      LatencyConverges(history, node, latency, n - 1);
      assert all[..|all| - 1] == history + seq(n - 1, i => Measurement(node, latency));
      var before := Recorded(all[..|all| - 1])[node];
      assert Recorded(all)[node] == 0.3 * latency + 0.7 * before;
      assert latency - Recorded(all)[node] == 0.7 * (latency - before);
      Regroup(Power(0.7, n - 1), latency - Recorded(history)[node]);
    }
  }

  lemma Regroup(p: real, d: real)
    ensures 0.7 * (p * d) == (p * 0.7) * d
  {
  }

  class ZoneRouter {
    var latencyMap: Latencies
    var recentWrites: Pins

    constructor ()
      ensures latencyMap == map[] && recentWrites == map[]
    {
      latencyMap, recentWrites := map[], map[];
    }

    /** The first measurement is taken as it is; a later one draws the value three tenths of the way
        towards it. */
    method UpdateLatency(node: Node, measured: real)
      modifies `latencyMap
      ensures latencyMap == Smoothed(old(latencyMap), node, measured)
      ensures latencyMap.Keys == old(latencyMap).Keys + {node}
      ensures forall n :: n in old(latencyMap) && n != node ==> latencyMap[n] == old(latencyMap)[n]
      ensures node !in old(latencyMap) ==> latencyMap[node] == measured
      ensures node in old(latencyMap) ==>
        latencyMap[node] - old(latencyMap)[node] == 0.3 * (measured - old(latencyMap)[node])
    {
      if node !in latencyMap {
        latencyMap := latencyMap[node := measured];
      } else {
        latencyMap := latencyMap[node := 0.3 * measured + (1.0 - 0.3) * latencyMap[node]];
      }
    }

    method PinWrite(key: string, primary: Node, now: real)
      modifies `recentWrites
      ensures recentWrites == old(recentWrites)[key := (primary, now)]
    {
      recentWrites := recentWrites[key := (primary, now)];
    }
  }
}
