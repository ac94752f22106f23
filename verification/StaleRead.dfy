/** A run in which a node that was declared dead registers again and answers with a value that was
    overwritten elsewhere in the meantime. No hash points of different nodes collide. */
module StaleRead {
  import opened Options
  import opened Sequences
  import L = LruModel
  import B = BreakerModel
  import C = ClusterModel
  import F = FailureLoop
  import opened RingModel
  import opened RingTheorems
  import opened GatewayModel
  import opened GatewayTopology

  // ----- the cluster

  /** The key "k" comes before the points of nodes whose name starts with 'q', and those before all
      others. */
  function Hash(s: string): int {
    if s == "k" then 0 else if s != "" && s[0] == 'q' then 1 else 2
  }

  function HashFn(): string -> int {
    (s: string) => Hash(s)
  }

  const ONE: Ring := map[2 := "p"]
  const BOTH: Ring := map[2 := "p", 1 := "q"]

  lemma LabelHash(node: Node, i: nat)
    requires node == "p" || node == "q"
    ensures Hash(Label(node, i)) == if node == "q" then 1 else 2
  {
    var s := Label(node, i);
    assert s[0] == node[0] && |s| > 1;
  }

  lemma {:induction false} PointsAre(node: Node, v: nat)
    requires node == "p" || node == "q"
    requires v > 0
    ensures Points(HashFn(), node, v) == {if node == "q" then 1 else 2}
  {
    var h := if node == "q" then 1 else 2;
    forall i | 0 <= i < v
      ensures HashFn()(Label(node, i)) == h
    {
      LabelHash(node, i);
    }
    assert HashFn()(Label(node, 0)) in Points(HashFn(), node, v);
  }

  lemma {:induction false} RingOfOne(v: nat)
    requires v > 0
    ensures Build(HashFn(), v, ["p"]) == State(ONE, {"p"})
  {
    PointsAre("p", v);
    assert ["p"][..0] == [];
    assert AddPoints(HashFn(), map[], "p", v) == ONE;
  }

  lemma {:induction false} RingOfBoth(v: nat)
    requires v > 0
    ensures Build(HashFn(), v, ["p", "q"]) == State(BOTH, {"p", "q"})
  {
    RingOfOne(v);
    SecondAdded(v);
    assert ["p", "q"][..1] == ["p"];
  }

  lemma {:induction false} SecondAdded(v: nat)
    requires v > 0
    ensures AddPoints(HashFn(), ONE, "q", v) == BOTH
  {
    PointsAre("q", v);
  }

  lemma {:induction false} OneOwner()
    ensures Owner(ONE, 0) == Some("p")
  {
    assert IsNext(ONE.Keys, 0, 2);
    OwnerIsNext(ONE, 0, 2);
  }

  lemma {:induction false} TwoOwners()
    ensures Preference(BOTH, 0) == ["q", "p"]
  {
    assert IsNext(BOTH.Keys, 0, 1);
    OwnerIsNext(BOTH, 0, 1);
    PreferenceExact(BOTH, 0);
    assert BOTH.Values == {"p", "q"} by {
      assert BOTH[1] == "q" && BOTH[2] == "p";
    }
    var p := Preference(BOTH, 0);
    assert |p| == 2 && p[1] in p;
  }

  // ----- its states

  const ORDER: seq<Node> := ["p", "q"]

  function Members(p: C.Member, q: C.Member): map<Node, C.Member> {
    map["p" := p, "q" := q]
  }

  /** Both nodes registered; the ring has both, or only "p". */
  function Pair(p: C.Member, q: C.Member, both: bool): C.Cluster {
    C.Cluster(ORDER, Members(p, q), Some(if both then State(BOTH, {"p", "q"}) else State(ONE, {"p"})))
  }

  function Up(at: real): C.Member {
    C.Member(C.Alive, at, 0)
  }

  function World(): C.Env {
    C.Env(HashFn(), 15.0)
  }

  lemma {:induction false} RebuiltBoth(p: C.Member, q: C.Member, ring: Option<State>)
    requires p.status == C.Alive && q.status == C.Alive
    ensures C.Rebuild(World(), C.Cluster(ORDER, Members(p, q), ring)) == Pair(p, q, true)
  {
    RingOfBoth(C.VIRTUAL_NODES);
    FilterAll(ORDER, C.IsAlive(Members(p, q)));
  }

  lemma {:induction false} RebuiltOne(p: C.Member, q: C.Member, ring: Option<State>)
    requires p.status == C.Alive && q.status != C.Alive
    ensures C.Rebuild(World(), C.Cluster(ORDER, Members(p, q), ring)) == Pair(p, q, false)
  {
    RingOfOne(C.VIRTUAL_NODES);
    OneAlive(p, q);
  }

  lemma {:induction false} OneAlive(p: C.Member, q: C.Member)
    requires p.status == C.Alive && q.status != C.Alive
    ensures Filter(ORDER, C.IsAlive(Members(p, q))) == ["p"]
  {
    var alive := C.IsAlive(Members(p, q));
    assert ORDER == ["p"] + ["q"];
    FilterAppend(["p"], ["q"], alive);
    FilterAll(["p"], alive);
    FilterNone(["q"], alive);
  }

  lemma {:induction false} Registrations()
    ensures C.Register(World(), C.Register(World(), C.NO_CLUSTER, "p", 0.0), "q", 0.0) == Pair(Up(0.0), Up(0.0), true)
  {
    var first := C.Register(World(), C.NO_CLUSTER, "p", 0.0);
    FirstRegistered(first);
    SecondRegistered(first);
  }

  lemma FirstRegistered(c: C.Cluster)
    requires c == C.Register(World(), C.NO_CLUSTER, "p", 0.0)
    ensures c.order == ["p"] && c.members == map["p" := Up(0.0)]
  {
  }

  lemma {:induction false} SecondRegistered(c: C.Cluster)
    requires c.order == ["p"] && c.members == map["p" := Up(0.0)]
    ensures C.Register(World(), c, "q", 0.0) == Pair(Up(0.0), Up(0.0), true)
  {
    assert c.members["q" := Up(0.0)] == Members(Up(0.0), Up(0.0));
    RebuiltBoth(Up(0.0), Up(0.0), c.ring);
  }

  /** A scan at which only "q" is overdue. */
  lemma {:induction false} ScanMissesQ(p: C.Member, q: C.Member, now: real)
    requires p.status == C.Alive && now - p.lastHeartbeat <= 15.0
    requires q.status != C.Dead && now - q.lastHeartbeat > 15.0
    ensures C.Scan(World(), Pair(p, q, true), now) ==
      Pair(p, C.Missed(q), C.Missed(q).status != C.Dead)
  {
    var c := Pair(p, q, true);
    assert C.ScanUpTo(World(), c, 0, now) == c;
    assert C.ScanUpTo(World(), c, 1, now) == c;
    assert c.members["q" := C.Missed(q)] == Members(p, C.Missed(q));
    if C.Missed(q).status == C.Dead {
      RebuiltOne(p, C.Missed(q), c.ring);
    }
  }

  lemma {:induction false} Rejoined(p: C.Member, q: C.Member, now: real)
    requires p.status == C.Alive
    ensures C.Register(World(), Pair(p, q, false), "q", now) == Pair(p, Up(now), true)
  {
    assert Members(p, q)["q" := Up(now)] == Members(p, Up(now));
    RebuiltBoth(p, Up(now), Pair(p, q, false).ring);
  }

  // ----- the run

  const FIXTURE := Fixture(HashFn(), 15.0, 3, (n: Node) => L.Config(1, 0), B.Settings(5, 30.0))

  const DONE := Fate(Answered, true)
  const FIRST := Put("k", "v1", 0, 1.0, 0, DONE)
  const SECOND := Put("k", "v2", 0, 28.0, 0, DONE)
  const READ := Get("k", 61.0, 0, DONE)

  /** Both nodes register; "v1" is written; "q" falls silent, three scans find it dead, and its breaker
      is opened; "v2" is written; "q" registers again. */
  const RUN: seq<Happening> := [
    Topology(C.Registered("p", 0.0)), Topology(C.Registered("q", 0.0)),
    Client(FIRST),
    Topology(C.Beat("p", 20.0)),
    Topology(C.Scanned(21.0)), Topology(C.Scanned(24.0)), Topology(C.Scanned(27.0)),
    Client(DeclaredDead("q", 27.0)),
    Client(SECOND),
    Topology(C.Registered("q", 60.0))]

  /** The fixture and the run, as the lemmas below take them. */
  ghost predicate Plays(f: Fixture, run: seq<Happening>) {
    && f == FIXTURE && |run| == 10
    && run[0] == Topology(C.Registered("p", 0.0)) && run[1] == Topology(C.Registered("q", 0.0))
    && run[2] == Client(FIRST) && run[3] == Topology(C.Beat("p", 20.0))
    && run[4] == Topology(C.Scanned(21.0)) && run[5] == Topology(C.Scanned(24.0))
    && run[6] == Topology(C.Scanned(27.0)) && run[7] == Client(DeclaredDead("q", 27.0))
    && run[8] == Client(SECOND) && run[9] == Topology(C.Registered("q", 60.0))
  }

  const P_AT := C.Member(C.Alive, 20.0, 0)
  const Q_GONE := C.Member(C.Dead, 0.0, 3)

  // ----- the cluster in the run

  lemma {:induction false} StartSteps(f: Fixture, run: seq<Happening>, sites: seq<Site>)
    requires Plays(f, run) && Chain(f, run, sites)
    ensures sites[2] == Site(Pair(Up(0.0), Up(0.0), true), NEW_GATE)
  {
    assert sites[1] == Advance(f, sites[0], run[0]);
    assert sites[2] == Advance(f, sites[1], run[1]);
    Registrations();
  }

  lemma {:induction false} BeatStep(f: Fixture, run: seq<Happening>, sites: seq<Site>)
    requires Plays(f, run) && Chain(f, run, sites) && sites[3].cluster == Pair(Up(0.0), Up(0.0), true)
    ensures sites[4] == Site(Pair(P_AT, Up(0.0), true), sites[3].gate)
  {
    assert sites[4] == Advance(f, sites[3], run[3]);
    assert Members(Up(0.0), Up(0.0))["p" := P_AT] == Members(P_AT, Up(0.0));
  }

  lemma {:induction false} ScanStep(f: Fixture, run: seq<Happening>, sites: seq<Site>, t: nat, q: C.Member, now: real)
    requires Plays(f, run) && Chain(f, run, sites) && t < 10 && run[t] == Topology(C.Scanned(now))
    requires sites[t].cluster == Pair(P_AT, q, true) && now - 20.0 <= 15.0
    requires q.status != C.Dead && now - q.lastHeartbeat > 15.0
    ensures sites[t + 1] == Site(Pair(P_AT, C.Missed(q), C.Missed(q).status != C.Dead), sites[t].gate)
  {
    assert sites[t + 1] == Advance(f, sites[t], run[t]);
    ScanMissesQ(P_AT, q, now);
  }

  lemma {:induction false} ScanSteps(f: Fixture, run: seq<Happening>, sites: seq<Site>)
    requires Plays(f, run) && Chain(f, run, sites) && sites[4].cluster == Pair(P_AT, Up(0.0), true)
    ensures sites[7] == Site(Pair(P_AT, Q_GONE, false), sites[4].gate)
  {
    ScanStep(f, run, sites, 4, Up(0.0), 21.0);
    ScanStep(f, run, sites, 5, C.Member(C.Suspect, 0.0, 1), 24.0);
    ScanStep(f, run, sites, 6, C.Member(C.Suspect, 0.0, 2), 27.0);
  }

  lemma {:induction false} RejoinStep(f: Fixture, run: seq<Happening>, sites: seq<Site>)
    requires Plays(f, run) && Chain(f, run, sites) && sites[9].cluster == Pair(P_AT, Q_GONE, false)
    ensures sites[10] == Site(Pair(P_AT, Up(60.0), true), sites[9].gate)
  {
    assert sites[10] == Advance(f, sites[9], run[9]);
    Rejoined(P_AT, Q_GONE, 60.0);
  }

  // ----- the tables in the run

  /** While the ring has both nodes, "k" belongs to "q"; while it has only "p", to "p". */
  lemma {:induction false} RoutedBoth(p: C.Member, q: C.Member)
    ensures C.Primary(Pair(p, q, true), 0) == Some("q") && C.Replicas(Pair(p, q, true), 0, 3) == ["q", "p"]
  {
    TwoOwners();
  }

  lemma {:induction false} RoutedOne(p: C.Member, q: C.Member)
    ensures C.Primary(Pair(p, q, false), 0) == Some("p")
  {
    OneOwner();
  }

  /** The environment for a cluster, read off the fixture. */
  lemma {:induction false} EnvIs(f: Fixture, s: Site)
    requires f == FIXTURE
    ensures var env := EnvAt(f, s);
      && env.primary("k") == C.Primary(s.cluster, 0) && env.replicas("k") == C.Replicas(s.cluster, 0, 3)
      && env.known == s.cluster.members.Keys && env.breaker == B.Settings(5, 30.0)
      && env.cfg("p") == L.Config(1, 0) && env.cfg("q") == L.Config(1, 0)
  {
  }

  /** A put of a value for "k" by its primary, whose breaker has no record and which stores nothing. */
  lemma {:induction false} PutStores(env: Env, g: Gate, n: Node, v: Value, at: real)
    requires env.primary("k") == Some(n) && n != "" && n in env.known && env.cfg(n) == L.Config(1, 0)
    requires n !in g.circuits && n !in g.nodes
    ensures var h := Handle(env, g, Put("k", v, 0, at, 0, DONE));
      && h.reply == Done && h.gate.latency == g.latency
      && h.gate.nodes == g.nodes[n := [L.Entry("k", v, None)]]
      && h.gate.circuits == g.circuits[n := B.Circuit(B.Closed, 0, at, at)]
  {
    assert L.Insert(L.Config(1, 0), [], L.Entry("k", v, None)) == [L.Entry("k", v, None)];
  }

  /** "v1" is stored at "q", whose breaker is closed. */
  ghost predicate FirstStored(g: Gate) {
    && g.nodes == map["q" := [L.Entry("k", "v1", None)]] && g.latency == map[]
    && g.circuits == map["q" := B.Circuit(B.Closed, 0, 1.0, 1.0)]
  }

  lemma {:induction false} FirstStep(f: Fixture, run: seq<Happening>, sites: seq<Site>)
    requires Plays(f, run) && Chain(f, run, sites)
    requires sites[2] == Site(Pair(Up(0.0), Up(0.0), true), NEW_GATE)
    ensures sites[3].cluster == sites[2].cluster && FirstStored(sites[3].gate)
  {
    assert sites[3] == Advance(f, sites[2], run[2]);
    RoutedBoth(Up(0.0), Up(0.0));
    EnvIs(f, sites[2]);
    PutStores(EnvAt(f, sites[2]), NEW_GATE, "q", "v1", 1.0);
  }

  /** The breaker of "q" is open since 27.0. */
  ghost predicate BreakerOpen(g: Gate) {
    "q" in g.circuits && g.circuits["q"].state == B.Open && g.circuits["q"].lastFailure == 27.0
  }

  /** The tables when "q" has been declared dead, and when "v2" has been stored at "p". */
  ghost predicate DeadTables(g: Gate) {
    && g.nodes == map["q" := [L.Entry("k", "v1", None)]] && g.latency == map[]
    && g.circuits.Keys == {"q"} && BreakerOpen(g)
  }

  ghost predicate LastTables(g: Gate) {
    && "q" in g.nodes && g.nodes["q"] == [L.Entry("k", "v1", None)] && g.latency == map[]
    && g.circuits.Keys == {"q", "p"} && g.circuits["p"].state == B.Closed && BreakerOpen(g)
  }

  lemma {:induction false} DeadStep(f: Fixture, run: seq<Happening>, sites: seq<Site>)
    requires Plays(f, run) && Chain(f, run, sites) && FirstStored(sites[7].gate)
    ensures sites[8].cluster == sites[7].cluster && DeadTables(sites[8].gate)
  {
    assert sites[8] == Advance(f, sites[7], run[7]);
    F.ForceOpenOpens(f.breaker, sites[7].gate.circuits, ["q"], 27.0);
    assert (set id | id in ["q"]) == {"q"};
  }

  /** "v2" is stored at "p" and acknowledged; "q" still has "v1". */
  lemma {:induction false} SecondStep(f: Fixture, run: seq<Happening>, sites: seq<Site>)
    requires Plays(f, run) && Chain(f, run, sites)
    requires sites[8].cluster == Pair(P_AT, Q_GONE, false) && DeadTables(sites[8].gate)
    ensures sites[9].cluster == sites[8].cluster && LastTables(sites[9].gate)
    ensures Handle(EnvAt(f, sites[8]), sites[8].gate, SECOND).reply == Done
  {
    assert sites[9] == Advance(f, sites[8], run[8]);
    RoutedOne(P_AT, Q_GONE);
    EnvIs(f, sites[8]);
    PutStores(EnvAt(f, sites[8]), sites[8].gate, "p", "v2", 28.0);
  }

  /** The site at the end, and the acknowledgement of the second write. */
  lemma {:induction false} Played(f: Fixture, run: seq<Happening>, sites: seq<Site>)
    requires Plays(f, run) && Chain(f, run, sites)
    ensures Handle(EnvAt(f, sites[8]), sites[8].gate, SECOND).reply == Done
    ensures sites[10].cluster == Pair(P_AT, Up(60.0), true) && LastTables(sites[10].gate)
  {
    Halfway(f, run, sites);
    SecondStep(f, run, sites);
    RejoinStep(f, run, sites);
  }

  lemma {:induction false} Halfway(f: Fixture, run: seq<Happening>, sites: seq<Site>)
    requires Plays(f, run) && Chain(f, run, sites)
    ensures sites[8].cluster == Pair(P_AT, Q_GONE, false) && DeadTables(sites[8].gate)
  {
    StartSteps(f, run, sites);
    FirstStep(f, run, sites);
    BeatStep(f, run, sites);
    ScanSteps(f, run, sites);
    DeadStep(f, run, sites);
  }

  /** At 61.0 the breaker of "q" has cooled down. */
  lemma {:induction false} BothAdmitted(circuits: map<Node, B.Circuit>)
    requires circuits.Keys == {"q", "p"} && circuits["p"].state == B.Closed && circuits["q"].lastFailure == 27.0
    ensures Filtered(B.Settings(5, 30.0), circuits, ["q", "p"], 61.0).1 == ["q", "p"]
  {
    assert ["q", "p"][..1] == ["q"] && ["q"][..0] == [];
    assert Filtered(B.Settings(5, 30.0), circuits, [], 61.0) == (circuits, []);
    assert Filtered(B.Settings(5, 30.0), circuits, ["q"], 61.0).1 == ["q"];
  }

  lemma {:induction false} ReadFinds(env: Env, g: Gate)
    requires env.primary("k") == Some("q") && env.replicas("k") == ["q", "p"] && env.known == {"p", "q"}
    requires env.breaker == B.Settings(5, 30.0) && env.cfg("q") == L.Config(1, 0)
    requires LastTables(g)
    ensures Handle(env, g, READ).reply == Hit("v1")
  {
    BothAdmitted(g.circuits);
  }

  lemma {:induction false} ReadAtEnd(f: Fixture, s: Site)
    requires f == FIXTURE && s.cluster == Pair(P_AT, Up(60.0), true) && LastTables(s.gate)
    ensures Handle(EnvAt(f, s), s.gate, READ).reply == Hit("v1")
  {
    RoutedBoth(P_AT, Up(60.0));
    EnvIs(f, s);
    ReadFinds(EnvAt(f, s), s.gate);
  }

  /** The second write was acknowledged, nothing was written after it, and the read returns the first. */
  lemma {:induction false} StaleHit(f: Fixture, run: seq<Happening>)
    requires f == FIXTURE && run == RUN
    ensures var s := History(f, run[..8]);
      Handle(EnvAt(f, s), s.gate, SECOND).reply == Done
    ensures var s := History(f, run[..10]);
      Handle(EnvAt(f, s), s.gate, READ).reply == Hit("v1")
  {
    StaleHitOf(f, run);
  }

  lemma {:induction false} StaleHitOf(f: Fixture, run: seq<Happening>)
    requires Plays(f, run)
    ensures var s := History(f, run[..8]);
      Handle(EnvAt(f, s), s.gate, SECOND).reply == Done
    ensures var s := History(f, run[..10]);
      Handle(EnvAt(f, s), s.gate, READ).reply == Hit("v1")
  {
    var sites := ChainOf(f, run);
    Played(f, run, sites);
    ReadAtEnd(f, sites[10]);
  }
}
