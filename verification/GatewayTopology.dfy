/** Requests and cluster events in one run: what a read may return when the routing changes. */
module GatewayTopology {
  import opened Options
  import opened Sequences
  import L = LruModel
  import B = BreakerModel
  import C = ClusterModel
  import opened GatewayModel

  /** What stays fixed: the hash, the heartbeat timeout, the replication factor, the nodes'
      configurations and the breaker settings. */
  datatype Fixture = Fixture(hash: string -> int, timeout: real, rf: int, cfg: Node -> L.Config, breaker: B.Settings)

  datatype Site = Site(cluster: C.Cluster, gate: Gate)

  datatype Happening = Topology(event: C.Event) | Client(request: Request)

  /** The routing at the moment. */
  function EnvAt(f: Fixture, s: Site): Env {
    Fixed(f.hash, s.cluster, f.rf, f.cfg, f.breaker)
  }

  function Advance(f: Fixture, s: Site, h: Happening): Site {
    match h
    case Topology(e) => s.(cluster := C.Handle(C.Env(f.hash, f.timeout), s.cluster, e))
    case Client(r) => s.(gate := Handle(EnvAt(f, s), s.gate, r).gate)
  }

  /** The site after a run that starts without nodes. */
  function History(f: Fixture, run: seq<Happening>): Site {
    if run == [] then Site(C.NO_CLUSTER, NEW_GATE)
    else Advance(f, History(f, run[..|run| - 1]), run[|run| - 1])
  }

  /** The sites that a run passes through. */
  ghost predicate Chain(f: Fixture, run: seq<Happening>, sites: seq<Site>) {
    && |sites| == |run| + 1 && sites[0] == Site(C.NO_CLUSTER, NEW_GATE)
    && forall t {:trigger Advance(f, sites[t], run[t])} ::
      0 <= t < |run| ==> sites[t + 1] == Advance(f, sites[t], run[t])
  }

  lemma {:induction false} ChainOf(f: Fixture, run: seq<Happening>) returns (sites: seq<Site>)
    ensures Chain(f, run, sites)
    ensures forall t {:trigger sites[t]} :: 0 <= t <= |run| ==> sites[t] == History(f, run[..t])
  {
    if run == [] {
      sites := [Site(C.NO_CLUSTER, NEW_GATE)];
    } else {
      var m := |run| - 1;
      var earlier := ChainOf(f, run[..m]);
      sites := earlier + [History(f, run)];
      assert run[..m][..m] == run[..m];
      ChainExtends(f, run, earlier, History(f, run));
      forall t | 0 <= t <= |run|
        ensures sites[t] == History(f, run[..t])
      {
        assert if t < |run| then run[..m][..t] == run[..t] else run[..t] == run;
      }
    }
  }

  lemma ChainExtends(f: Fixture, run: seq<Happening>, earlier: seq<Site>, last: Site)
    requires run != [] && Chain(f, run[..|run| - 1], earlier)
    requires last == Advance(f, earlier[|run| - 1], run[|run| - 1])
    ensures Chain(f, run, earlier + [last])
  {
    var sites, init := earlier + [last], run[..|run| - 1];
    forall t | 0 <= t < |run|
      ensures sites[t + 1] == Advance(f, sites[t], run[t])
    {
      if t < |init| {
        assert earlier[t + 1] == Advance(f, earlier[t], init[t]);
      }
    }
  }

  // ----- writes

  /** The request at `t` writes or deletes the key, and node `n` carries it out. */
  predicate WritesAt(f: Fixture, run: seq<Happening>, t: nat, n: Node, k: Key) {
    && t < |run| && run[t].Client?
    && var s := History(f, run[..t]);
    Writes(EnvAt(f, s), s.gate, run[t].request, k) && EnvAt(f, s).primary(k) == Some(n)
  }

  /** The last write of the key carried out at the node, or -1. */
  function LastAt(f: Fixture, run: seq<Happening>, n: Node, k: Key): (t: int)
    ensures -1 <= t < |run|
  {
    if run == [] then -1
    else if WritesAt(f, run, |run| - 1, n, k) then |run| - 1
    else LastAt(f, run[..|run| - 1], n, k)
  }

  /** What that write left: a value, or nothing if there is none or it was a deletion. */
  function ValueAt(f: Fixture, run: seq<Happening>, n: Node, k: Key): Option<Value> {
    var t := LastAt(f, run, n, k);
    if t >= 0 && run[t].Client? && run[t].request.Put? then Some(run[t].request.value) else None
  }

  lemma WritesAtPrefix(f: Fixture, run: seq<Happening>, m: nat, t: nat, n: Node, k: Key)
    requires t < m <= |run|
    ensures WritesAt(f, run[..m], t, n, k) <==> WritesAt(f, run, t, n, k)
  {
    assert run[..m][..t] == run[..t];
  }

  // ----- the invariant

  /** Every node holds for a key only the value of the last write carried out at that node. */
  ghost predicate Faithful(f: Fixture, run: seq<Happening>, g: Gate) {
    forall n, e :: n in g.nodes && e in g.nodes[n] ==> ValueAt(f, run, n, e.key) == Some(e.value)
  }

  lemma {:induction false} HistoryFaithful(f: Fixture, run: seq<Happening>)
    ensures Faithful(f, run, History(f, run).gate)
  {
    if run != [] {
      var m := |run| - 1;
      HistoryFaithful(f, run[..m]);
      forall n, e | n in History(f, run).gate.nodes && e in History(f, run).gate.nodes[n]
        ensures ValueAt(f, run, n, e.key) == Some(e.value)
      {
        StepFaithful(f, run, n, e);
      }
    }
  }

  lemma {:induction false} StepFaithful(f: Fixture, run: seq<Happening>, n: Node, e: L.Entry)
    requires run != [] && Faithful(f, run[..|run| - 1], History(f, run[..|run| - 1]).gate)
    requires e in ListOf(History(f, run).gate, n)
    ensures ValueAt(f, run, n, e.key) == Some(e.value)
  {
    var m := |run| - 1;
    var s := History(f, run[..m]);
    if run[m].Client? {
      MembersAfter(EnvAt(f, s), s.gate, run[m].request, n, e);
    }
    if !WritesAt(f, run, m, n, e.key) {
      assert e in ListOf(s.gate, n);
    }
  }

  // ----- hits

  /** Under every change of the cluster, a hit returns the last value written at the node that
      answers. */
  lemma {:induction false} HitIsNodesLastWrite(f: Fixture, run: seq<Happening>, r: Request)
    requires r.Get? && Handle(EnvAt(f, History(f, run)), History(f, run).gate, r).reply.Hit?
    ensures var s := History(f, run);
      var n := Target(EnvAt(f, s), s.gate, r);
      n.Some? && ValueAt(f, run, n.value, r.key) == Some(Handle(EnvAt(f, s), s.gate, r).reply.value)
  {
    HistoryFaithful(f, run);
    var s := History(f, run);
    var n := Target(EnvAt(f, s), s.gate, r).value;
    assert L.Find(ListOf(s.gate, n), r.key).value in ListOf(s.gate, n);
  }

  /** No write of the key after `t` was carried out at a node other than `n`. */
  ghost predicate NoneElsewhere(f: Fixture, run: seq<Happening>, t: int, n: Node, k: Key) {
    forall j, m :: t < j < |run| && j >= 0 && m != n ==> !WritesAt(f, run, j, m, k)
  }

  /** The last write of the key carried out anywhere, or -1. */
  function LastAnywhere(f: Fixture, run: seq<Happening>, k: Key): (t: int)
    ensures -1 <= t < |run|
  {
    if run == [] then -1
    else
      var m := |run| - 1;
      var s := History(f, run[..m]);
      if run[m].Client? && Writes(EnvAt(f, s), s.gate, run[m].request, k) then m else LastAnywhere(f, run[..m], k)
  }

  /** The last write at a node is the last one anywhere if and only if no later one was carried out at
      another node. */
  lemma {:induction false} LastAtIsLastIff(f: Fixture, run: seq<Happening>, n: Node, k: Key)
    requires LastAt(f, run, n, k) >= 0
    ensures LastAnywhere(f, run, k) == LastAt(f, run, n, k) <==> NoneElsewhere(f, run, LastAt(f, run, n, k), n, k)
  {
    var m := |run| - 1;
    var t := LastAt(f, run, n, k);
    if t < m {
      LastAtIsLastIff(f, run[..m], n, k);
      NoneElsewhereStep(f, run, m, t, n, k);
      LastAnywhereStep(f, run, m, k);
    }
  }

  lemma NoneElsewhereStep(f: Fixture, run: seq<Happening>, m: nat, t: int, n: Node, k: Key)
    requires -1 <= t < m == |run| - 1
    ensures NoneElsewhere(f, run, t, n, k) <==>
      NoneElsewhere(f, run[..m], t, n, k) && forall o :: o != n ==> !WritesAt(f, run, m, o, k)
  {
    forall j: nat, o | t < j < m
      ensures WritesAt(f, run[..m], j, o, k) <==> WritesAt(f, run, j, o, k)
    {
      WritesAtPrefix(f, run, m, j, o, k);
    }
  }

  lemma LastAnywhereStep(f: Fixture, run: seq<Happening>, m: nat, k: Key)
    requires m == |run| - 1
    ensures (exists o :: WritesAt(f, run, m, o, k)) ==> LastAnywhere(f, run, k) == m
    ensures !(exists o :: WritesAt(f, run, m, o, k)) ==> LastAnywhere(f, run, k) == LastAnywhere(f, run[..m], k)
  {
    var s := History(f, run[..m]);
    if run[m].Client? && Writes(EnvAt(f, s), s.gate, run[m].request, k) {
      assert WritesAt(f, run, m, EnvAt(f, s).primary(k).value, k);
    }
  }

  /** A hit is current, that is, it returns what the last write of the key anywhere left, as the last
      write at the answering node is the last anywhere, if and only if no later write of the key was
      carried out at another node. */
  lemma {:induction false} HitIsCurrentIff(f: Fixture, run: seq<Happening>, r: Request)
    requires r.Get? && Handle(EnvAt(f, History(f, run)), History(f, run).gate, r).reply.Hit?
    ensures var s := History(f, run);
      var n := Target(EnvAt(f, s), s.gate, r).value;
      var t := LastAt(f, run, n, r.key);
      && t >= 0 && run[t].Client? && run[t].request.Put?
      && Handle(EnvAt(f, s), s.gate, r).reply == Hit(run[t].request.value)
      && (LastAnywhere(f, run, r.key) == t <==> NoneElsewhere(f, run, t, n, r.key))
  {
    HitIsNodesLastWrite(f, run, r);
    var s := History(f, run);
    LastAtIsLastIff(f, run, Target(EnvAt(f, s), s.gate, r).value, r.key);
  }
}
