/** The cluster manager on values: registered nodes with their health, and the current ring. */
module ClusterModel {
  import opened Options
  import opened Sequences
  import opened RingModel
  import opened RingTheorems

  datatype Status = Alive | Suspect | Dead | Recovered

  datatype Member = Member(status: Status, lastHeartbeat: real, failedAttempts: nat)

  const DEAD_THRESHOLD := 3
  const VIRTUAL_NODES := 160

  /** Fixed for a manager's lifetime: the hash, and the heartbeat timeout in seconds. */
  datatype Env = Env(hash: string -> int, timeout: real)

  /** `order` is the insertion order of the node table; `ring` is absent when no node was alive
      at the last rebuild. */
  datatype Cluster = Cluster(order: seq<Node>, members: map<Node, Member>, ring: Option<State>)

  const NO_CLUSTER := Cluster([], map[], None)

  /** The table lists each registered node once. */
  ghost predicate Tabled(c: Cluster) {
    Listed(c.order, c.members.Keys)
  }

  ghost predicate Listed(order: seq<Node>, ids: set<Node>) {
    NoDuplicates(order) && forall n :: n in order <==> n in ids
  }

  predicate HasStatus(c: Cluster, n: Node, s: Status) {
    n in c.members && c.members[n].status == s
  }

  function IsAlive(members: map<Node, Member>): Node -> bool {
    (n: Node) => n in members && members[n].status == Alive
  }

  function AliveNodes(c: Cluster): seq<Node> {
    Filter(c.order, IsAlive(c.members))
  }

  function Rebuild(env: Env, c: Cluster): Cluster {
    if AliveNodes(c) == [] then c.(ring := None)
    else c.(ring := Some(Build(env.hash, VIRTUAL_NODES, AliveNodes(c))))
  }

  // ----- events

  function Register(env: Env, c: Cluster, id: Node, now: real): Cluster {
    Rebuild(env, c.(
      order := if id in c.members then c.order else c.order + [id],
      members := c.members[id := Member(Alive, now, 0)]))
  }

  function Deregister(env: Env, c: Cluster, id: Node): Cluster {
    if id !in c.members then c
    else Rebuild(env, c.(order := Filter(c.order, IsNot(id)), members := c.members - {id}))
  }

  function Revived(s: Status): Status {
    match s
    case Dead => Recovered
    case Suspect => Alive
    case Alive => Alive
    case Recovered => Recovered
  }

  function Heartbeat(env: Env, c: Cluster, id: Node, now: real): Cluster {
    if id !in c.members then c
    else
      var status := c.members[id].status;
      var next := c.(members := c.members[id := Member(Revived(status), now, 0)]);
      if Revived(status) != status then Rebuild(env, next) else next
  }

  predicate Overdue(env: Env, m: Member, now: real) {
    m.status != Dead && now - m.lastHeartbeat > env.timeout
  }

  /** One node's share of a scan. */
  function Missed(m: Member): Member {
    var attempts := m.failedAttempts + 1;
    m.(failedAttempts := attempts,
       status := if attempts >= DEAD_THRESHOLD then Dead else if m.status == Alive then Suspect else m.status)
  }

  function ScanOne(env: Env, c: Cluster, id: Node, now: real): Cluster {
    if id !in c.members || !Overdue(env, c.members[id], now) then c
    else
      var next := c.(members := c.members[id := Missed(c.members[id])]);
      if next.members[id].status == Dead then Rebuild(env, next) else next
  }

  /** The scan after its first `n` nodes. */
  function ScanUpTo(env: Env, c: Cluster, n: nat, now: real): (r: Cluster)
    requires n <= |c.order|
    ensures r.order == c.order
  {
    if n == 0 then c else ScanOne(env, ScanUpTo(env, c, n - 1, now), c.order[n - 1], now)
  }

  function Scan(env: Env, c: Cluster, now: real): Cluster {
    ScanUpTo(env, c, |c.order|, now)
  }

  predicate Dying(env: Env, c: Cluster, id: Node, now: real) {
    id in c.members && Overdue(env, c.members[id], now) && Missed(c.members[id]).status == Dead
  }

  function DyingIn(env: Env, c: Cluster, now: real): Node -> bool {
    (id: Node) => Dying(env, c, id, now)
  }

  /** The nodes a scan reports, in table order. */
  function NewlyDead(env: Env, c: Cluster, now: real): seq<Node> {
    Filter(c.order, DyingIn(env, c, now))
  }

  datatype Event =
    | Registered(id: Node, at: real)
    | Deregistered(id: Node)
    | Beat(id: Node, at: real)
    | Scanned(at: real)

  function Handle(env: Env, c: Cluster, e: Event): Cluster {
    match e
    case Registered(id, now) => Register(env, c, id, now)
    case Deregistered(id) => Deregister(env, c, id)
    case Beat(id, now) => Heartbeat(env, c, id, now)
    case Scanned(now) => Scan(env, c, now)
  }

  function Run(env: Env, events: seq<Event>): Cluster {
    if events == [] then NO_CLUSTER
    else Handle(env, Run(env, events[..|events| - 1]), events[|events| - 1])
  }

  // ----- facts about scans

  lemma ScanOneMembers(env: Env, c: Cluster, id: Node, now: real)
    requires id in c.members
    ensures var m := c.members[id];
      ScanOne(env, c, id, now).members == c.members[id := if Overdue(env, m, now) then Missed(m) else m]
  {
  }

  /** A scan treats every node by its own state at the start of the scan. */
  lemma {:induction false} ScanUpToMembers(env: Env, c: Cluster, n: nat, now: real)
    requires Tabled(c) && n <= |c.order|
    ensures var r := ScanUpTo(env, c, n, now);
      && r.members.Keys == c.members.Keys
      && (forall i :: 0 <= i < |c.order| ==> var m := c.members[c.order[i]];
        r.members[c.order[i]] == if i < n && Overdue(env, m, now) then Missed(m) else m)
  {
    if n > 0 {
      ScanUpToMembers(env, c, n - 1, now);
      var before, last := ScanUpTo(env, c, n - 1, now), c.order[n - 1];
      assert before.members[last] == c.members[last];
      ScanOneMembers(env, before, last, now);
    }
  }

  lemma ScanMembers(env: Env, c: Cluster, now: real, id: Node)
    requires Tabled(c)
    ensures id in Scan(env, c, now).members <==> id in c.members
    ensures id in c.members ==> var m := c.members[id];
      Scan(env, c, now).members[id] == if Overdue(env, m, now) then Missed(m) else m
  {
    ScanUpToMembers(env, c, |c.order|, now);
    if id in c.members {
      var i :| 0 <= i < |c.order| && c.order[i] == id;
    }
  }

  lemma ListedAdd(order: seq<Node>, ids: set<Node>, id: Node)
    requires Listed(order, ids)
    ensures Listed(if id in ids then order else order + [id], ids + {id})
  {
  }

  lemma ListedDrop(order: seq<Node>, ids: set<Node>, id: Node)
    requires Listed(order, ids)
    ensures Listed(Filter(order, IsNot(id)), ids - {id})
  {
    FilterNoDuplicates(order, IsNot(id));
  }

  lemma {:induction false} TabledAdd(c: Cluster, id: Node, m: Member)
    requires Tabled(c)
    ensures Tabled(c.(order := if id in c.members then c.order else c.order + [id], members := c.members[id := m]))
  {
    ListedAdd(c.order, c.members.Keys, id);
    assert c.members[id := m].Keys == c.members.Keys + {id};
  }

  lemma TabledDrop(c: Cluster, id: Node)
    requires Tabled(c)
    ensures Tabled(c.(order := Filter(c.order, IsNot(id)), members := c.members - {id}))
  {
    ListedDrop(c.order, c.members.Keys, id);
    assert (c.members - {id}).Keys == c.members.Keys - {id};
  }

  /** What the i-th turn of a scan finds and reports. */
  lemma ScanTurn(env: Env, c: Cluster, i: nat, now: real)
    requires Tabled(c) && i < |c.order|
    ensures var before, id := ScanUpTo(env, c, i, now), c.order[i];
      && id in before.members
      && Filter(c.order[..i + 1], DyingIn(env, c, now)) ==
        Filter(c.order[..i], DyingIn(env, c, now)) + if Dying(env, before, id, now) then [id] else []
  {
    ScanUpToMembers(env, c, i, now);
    assert c.order[i] in c.members;
    FilterTake(c.order, i, DyingIn(env, c, now));
  }

  lemma HandleTabled(env: Env, c: Cluster, e: Event)
    requires Tabled(c)
    ensures Tabled(Handle(env, c, e))
  {
    match e
    case Registered(id, now) => TabledAdd(c, id, Member(Alive, now, 0));
    case Deregistered(id) => TabledDrop(c, id);
    case Beat(id, now) =>
    case Scanned(now) => ScanUpToMembers(env, c, |c.order|, now);
  }

  lemma {:induction false} RunTabled(env: Env, events: seq<Event>)
    ensures Tabled(Run(env, events))
  {
    if events != [] {
      RunTabled(env, events[..|events| - 1]);
      HandleTabled(env, Run(env, events[..|events| - 1]), events[|events| - 1]);
    }
  }

  // ----- ring and status agree

  /** Every alive node is on the ring, every node on the ring is alive or suspect, and the ring is
      missing only when no node is alive. */
  ghost predicate RingMatchesStatus(c: Cluster) {
    match c.ring
    case None => forall n :: !HasStatus(c, n, Alive)
    case Some(st) =>
      && (forall n :: HasStatus(c, n, Alive) ==> n in st.nodes)
      && (forall n :: n in st.nodes ==> HasStatus(c, n, Alive) || HasStatus(c, n, Suspect))
      && OwnersAreMembers(st)
  }

  lemma {:induction false} BuildMembers(hash: string -> int, v: nat, nodes: seq<Node>)
    ensures var st := Build(hash, v, nodes);
      OwnersAreMembers(st) && forall n :: n in st.nodes <==> n in nodes
  {
    if nodes != [] {
      BuildMembers(hash, v, nodes[..|nodes| - 1]);
      assert nodes == nodes[..|nodes| - 1] + [nodes[|nodes| - 1]];
    }
  }

  /** Right after a rebuild the ring holds exactly the alive nodes. */
  lemma RebuildMatches(env: Env, c: Cluster)
    requires Tabled(c)
    ensures RingMatchesStatus(Rebuild(env, c))
    ensures var r := Rebuild(env, c).ring;
      r.Some? ==> forall n :: n in r.value.nodes <==> HasStatus(c, n, Alive)
  {
    BuildMembers(env.hash, VIRTUAL_NODES, AliveNodes(c));
    assert forall n :: n in AliveNodes(c) <==> HasStatus(c, n, Alive);
  }

  /** Without a rebuild, a node may turn from alive to suspect but not the other way, and not
      leave these two. */
  lemma UpdateMatches(c: Cluster, id: Node, m: Member)
    requires id in c.members && RingMatchesStatus(c)
    requires m.status == Alive ==> c.members[id].status == Alive
    requires c.members[id].status == Alive || c.members[id].status == Suspect ==>
      m.status == Alive || m.status == Suspect
    ensures RingMatchesStatus(c.(members := c.members[id := m]))
  {
    var next := c.(members := c.members[id := m]);
    forall n
      ensures HasStatus(next, n, Alive) ==> HasStatus(c, n, Alive)
      ensures HasStatus(c, n, Alive) || HasStatus(c, n, Suspect) ==>
        HasStatus(next, n, Alive) || HasStatus(next, n, Suspect)
    {
    }
  }

  lemma ScanOneMatches(env: Env, c: Cluster, id: Node, now: real)
    requires Tabled(c) && RingMatchesStatus(c)
    ensures Tabled(ScanOne(env, c, id, now)) && RingMatchesStatus(ScanOne(env, c, id, now))
  {
    if id in c.members && Overdue(env, c.members[id], now) {
      var m := Missed(c.members[id]);
      if m.status == Dead {
        RebuildMatches(env, c.(members := c.members[id := m]));
      } else {
        UpdateMatches(c, id, m);
      }
    }
  }

  lemma HeartbeatMatches(env: Env, c: Cluster, id: Node, now: real)
    requires Tabled(c) && RingMatchesStatus(c)
    ensures RingMatchesStatus(Heartbeat(env, c, id, now))
  {
    if id in c.members {
      var m := Member(Revived(c.members[id].status), now, 0);
      if m.status != c.members[id].status {
        RebuildMatches(env, c.(members := c.members[id := m]));
      } else {
        UpdateMatches(c, id, m);
      }
    }
  }

  /** The agreement holds midway through every scan. */
  lemma {:induction false} ScanUpToMatches(env: Env, c: Cluster, n: nat, now: real)
    requires Tabled(c) && RingMatchesStatus(c) && n <= |c.order|
    ensures Tabled(ScanUpTo(env, c, n, now)) && RingMatchesStatus(ScanUpTo(env, c, n, now))
  {
    if n > 0 {
      ScanUpToMatches(env, c, n - 1, now);
      ScanOneMatches(env, ScanUpTo(env, c, n - 1, now), c.order[n - 1], now);
    }
  }

  lemma HandleMatches(env: Env, c: Cluster, e: Event)
    requires Tabled(c) && RingMatchesStatus(c)
    ensures RingMatchesStatus(Handle(env, c, e))
  {
    HandleTabled(env, c, e);
    match e
    case Registered(id, now) =>
      RebuildMatches(env, Cluster(
        if id in c.members then c.order else c.order + [id], c.members[id := Member(Alive, now, 0)], c.ring));
    case Deregistered(id) =>
      FilterNoDuplicates(c.order, IsNot(id));
      RebuildMatches(env, Cluster(Filter(c.order, IsNot(id)), c.members - {id}, c.ring));
    case Beat(id, now) => HeartbeatMatches(env, c, id, now);
    case Scanned(now) => ScanUpToMatches(env, c, |c.order|, now);
  }

  /** In every reachable state, and after any part of a further scan, ring and status agree. */
  lemma {:induction false} RingStatusInvariant(env: Env, events: seq<Event>, n: nat, now: real)
    requires n <= |Run(env, events).order|
    ensures RingMatchesStatus(Run(env, events))
    ensures RingMatchesStatus(ScanUpTo(env, Run(env, events), n, now))
  {
    if events != [] {
      RingStatusInvariant(env, events[..|events| - 1], 0, now);
      RunTabled(env, events[..|events| - 1]);
      HandleMatches(env, Run(env, events[..|events| - 1]), events[|events| - 1]);
    }
    RunTabled(env, events);
    ScanUpToMatches(env, Run(env, events), n, now);
  }

  /** What the manager answers to a routing query for a key hashed to `x`. */
  function Replicas(c: Cluster, x: int, rf: int): seq<Node> {
    if c.ring.None? then [] else Take(Preference(c.ring.value.ring, x), rf)
  }

  function Primary(c: Cluster, x: int): Option<Node> {
    if c.ring.None? then None else Owner(c.ring.value.ring, x)
  }

  predicate Healthy(c: Cluster, n: Node) {
    HasStatus(c, n, Alive) || HasStatus(c, n, Suspect)
  }

  lemma PreferenceHealthy(c: Cluster, x: int)
    requires RingMatchesStatus(c) && c.ring.Some?
    ensures forall n :: n in Preference(c.ring.value.ring, x) ==> Healthy(c, n)
  {
    var ring := c.ring.value.ring;
    PreferenceExact(ring, x);
    forall n | n in Preference(ring, x)
      ensures Healthy(c, n)
    {
      var h :| h in ring && ring[h] == n;
    }
  }

  /** No dead, recovered or unregistered node is ever handed out as a primary or replica, not even
      midway through a scan. */
  lemma {:induction false} RoutedNodesHealthy(env: Env, events: seq<Event>, n: nat, now: real, x: int, rf: int)
    requires n <= |Run(env, events).order|
    ensures var c := ScanUpTo(env, Run(env, events), n, now);
      && (forall m :: m in Replicas(c, x, rf) ==> Healthy(c, m))
      && (Primary(c, x).Some? ==> Healthy(c, Primary(c, x).value))
  {
    RingStatusInvariant(env, events, n, now);
    ReplicasHealthy(ScanUpTo(env, Run(env, events), n, now), x, rf);
  }

  lemma ReplicasHealthy(c: Cluster, x: int, rf: int)
    requires RingMatchesStatus(c)
    ensures forall m :: m in Replicas(c, x, rf) ==> Healthy(c, m)
    ensures Primary(c, x).Some? ==> Healthy(c, Primary(c, x).value)
  {
    if c.ring.Some? {
      PreferenceHealthy(c, x);
    }
  }

  // ----- failover through the manager

  /** The ring holds exactly the virtual points of its members. */
  ghost predicate RingExact(env: Env, c: Cluster, universe: set<Node>) {
    && (forall n :: n in c.order ==> n in universe)
    && (c.ring.Some? ==> RingOf(env.hash, VIRTUAL_NODES, c.ring.value.ring, c.ring.value.nodes))
  }

  lemma RebuildExact(env: Env, c: Cluster, universe: set<Node>)
    requires CollisionFree(env.hash, VIRTUAL_NODES, universe) && forall n :: n in c.order ==> n in universe
    ensures RingExact(env, Rebuild(env, c), universe)
  {
    BuildRingOf(env.hash, VIRTUAL_NODES, AliveNodes(c), universe);
  }

  lemma {:induction false} ScanUpToExact(env: Env, c: Cluster, n: nat, now: real, universe: set<Node>)
    requires CollisionFree(env.hash, VIRTUAL_NODES, universe) && n <= |c.order|
    requires RingExact(env, c, universe)
    ensures RingExact(env, ScanUpTo(env, c, n, now), universe)
  {
    if n > 0 {
      ScanUpToExact(env, c, n - 1, now, universe);
      var before, id := ScanUpTo(env, c, n - 1, now), c.order[n - 1];
      if id in before.members {
        RebuildExact(env, before.(members := before.members[id := Missed(before.members[id])]), universe);
      }
    }
  }

  lemma {:induction false} RunExact(env: Env, events: seq<Event>, universe: set<Node>)
    requires CollisionFree(env.hash, VIRTUAL_NODES, universe)
    requires forall i :: 0 <= i < |events| && events[i].Registered? ==> events[i].id in universe
    ensures RingExact(env, Run(env, events), universe)
  {
    if events != [] {
      var c := Run(env, events[..|events| - 1]);
      RunExact(env, events[..|events| - 1], universe);
      match events[|events| - 1]
      case Registered(id, now) =>
        RebuildExact(env, Cluster(
          if id in c.members then c.order else c.order + [id],
          c.members[id := Member(Alive, now, 0)], c.ring), universe);
      case Deregistered(id) =>
        RebuildExact(env, Cluster(Filter(c.order, IsNot(id)), c.members - {id}, c.ring), universe);
      case Beat(id, now) =>
        if id in c.members {
          RebuildExact(env, c.(members := c.members[id := Member(Revived(c.members[id].status), now, 0)]), universe);
        }
      case Scanned(now) => ScanUpToExact(env, c, |c.order|, now, universe);
    }
  }

  /** The preference list the manager would walk for a key hashed to `x`. */
  function Preferred(c: Cluster, x: int): seq<Node> {
    if c.ring.None? then [] else Preference(c.ring.value.ring, x)
  }

  /** A rebuild that adds no node to the ring filters every preference list by liveness. */
  lemma RebuildFilters(env: Env, c: Cluster, universe: set<Node>, x: int)
    requires Tabled(c) && CollisionFree(env.hash, VIRTUAL_NODES, universe) && RingExact(env, c, universe)
    requires c.ring.Some? && forall n :: HasStatus(c, n, Alive) ==> n in c.ring.value.nodes
    ensures Preferred(Rebuild(env, c), x) == Filter(Preferred(c, x), IsAlive(c.members))
  {
    var full := c.ring.value;
    var next := Rebuild(env, c);
    RebuildMatches(env, c);
    RebuildExact(env, c, universe);
    if next.ring.Some? {
      var st := next.ring.value;
      SubsetFilters(env.hash, VIRTUAL_NODES, st.ring, st.nodes, full.ring, full.nodes, x);
      FilterAgrees(Preferred(c, x), Among(st.nodes), IsAlive(c.members));
    } else {
      assert forall n :: n in c.order ==> n !in AliveNodes(c);
      FilterNone(Preferred(c, x), IsAlive(c.members));
    }
  }

  /** Automatic failover: in every reachable state, when a scan declares its next node dead, each
      key's preference list becomes the old one restricted to the nodes still alive, in the old
      order; so the first alive node of the old list is the new primary. When it declares no
      death, no list changes. */
  lemma {:induction false} DeathFiltersPreferences(env: Env, events: seq<Event>, n: nat, now: real,
                                                   universe: set<Node>, x: int)
    requires CollisionFree(env.hash, VIRTUAL_NODES, universe)
    requires forall i :: 0 <= i < |events| && events[i].Registered? ==> events[i].id in universe
    requires n < |Run(env, events).order|
    ensures var c := Run(env, events);
      var before, after := ScanUpTo(env, c, n, now), ScanUpTo(env, c, n + 1, now);
      if Dying(env, before, c.order[n], now)
      then Preferred(after, x) == Filter(Preferred(before, x), IsAlive(after.members))
      else Preferred(after, x) == Preferred(before, x)
  {
    var c := Run(env, events);
    var before, id := ScanUpTo(env, c, n, now), c.order[n];
    RunTabled(env, events);
    RunExact(env, events, universe);
    RingStatusInvariant(env, events, n, now);
    ScanUpToExact(env, c, n, now, universe);
    ScanUpToMatches(env, c, n, now);
    if Dying(env, before, id, now) {
      OneDeathFilters(env, before, id, now, universe, x);
    }
  }

  lemma {:induction false} OneDeathFilters(env: Env, c: Cluster, id: Node, now: real, universe: set<Node>, x: int)
    requires CollisionFree(env.hash, VIRTUAL_NODES, universe) && RingExact(env, c, universe)
    requires Tabled(c) && RingMatchesStatus(c) && Dying(env, c, id, now)
    ensures var after := ScanOne(env, c, id, now);
      Preferred(after, x) == Filter(Preferred(c, x), IsAlive(after.members))
  {
    var marked := c.(members := c.members[id := Missed(c.members[id])]);
    forall n
      ensures HasStatus(marked, n, Alive) ==> HasStatus(c, n, Alive)
    {
    }
    if c.ring.Some? {
      RebuildFilters(env, marked, universe, x);
    } else {
      assert forall n :: n in marked.order ==> !HasStatus(marked, n, Alive);
      assert AliveNodes(marked) == [] by {
        FilterNone(marked.order, IsAlive(marked.members));
      }
    }
  }
}
