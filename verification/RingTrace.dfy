/** Which nodes are on the ring, in which order nodes are listed, and who is a key's primary, all read
    off the event trace. */
module RingTrace {
  import opened Options
  import opened Sequences
  import opened RingModel
  import opened RingTheorems
  import opened ClusterModel
  import opened DetectionTheorems

  ghost predicate OnRing(c: Cluster, n: Node) {
    c.ring.Some? && n in c.ring.value.nodes
  }

  // ----- what the trace says

  /** The node is registered and ALIVE. */
  ghost predicate AliveBy(timeout: real, events: seq<Event>, n: Node) {
    RegisteredAt(events, n) >= 0 && ExpectedStatus(timeout, events, n) == Alive
  }

  /** A scan at `t` after these events finds the node dying. */
  predicate DiesBy(timeout: real, events: seq<Event>, n: Node, t: real) {
    RegisteredAt(events, n) >= 0 && LateScans(timeout, events, n) == 2 && t - LastBeat(events, n) > timeout
  }

  /** The registration that put the node into the table: the first since it was last absent; -1 if it
      is absent. */
  function ListedAt(events: seq<Event>, n: Node): (i: int)
    ensures -1 <= i < |events|
  {
    if events == [] then -1
    else
      var m := |events| - 1;
      var before := ListedAt(events[..m], n);
      match events[m]
      case Registered(id, _) => if id == n && before < 0 then m else before
      case Deregistered(id) => if id == n then -1 else before
      case Beat(_, _) => before
      case Scanned(_) => before
  }

  /** The last event changes the topology: a registration, the deregistration of a registered node, a
      heartbeat that changes a status, or a scan that finds a death. */
  ghost predicate TopologyEvent(timeout: real, events: seq<Event>)
    requires events != []
  {
    var init := events[..|events| - 1];
    match events[|events| - 1]
    case Registered(_, _) => true
    case Deregistered(id) => RegisteredAt(init, id) >= 0
    case Beat(id, _) => RegisteredAt(init, id) >= 0 &&
      (ExpectedStatus(timeout, init, id) == Dead || ExpectedStatus(timeout, init, id) == Suspect)
    case Scanned(t) => exists d :: DiesBy(timeout, init, d, t)
  }

  /** `d` is the last node in the table to die in a scan at `t`. */
  ghost predicate LastDeath(timeout: real, events: seq<Event>, d: Node, t: real) {
    DiesBy(timeout, events, d, t)
    && forall o :: DiesBy(timeout, events, o, t) ==> ListedAt(events, o) <= ListedAt(events, d)
  }

  /** The node is ALIVE right after the last event, or, if that is a scan, right after its last death:
      nodes listed after the dead one have not been judged then. */
  ghost predicate AliveThen(timeout: real, events: seq<Event>, n: Node)
    requires events != []
  {
    var init, last := events[..|events| - 1], events[|events| - 1];
    if last.Scanned? then
      exists d :: LastDeath(timeout, init, d, last.at)
        && if ListedAt(init, n) <= ListedAt(init, d) then AliveBy(timeout, events, n) else AliveBy(timeout, init, n)
    else AliveBy(timeout, events, n)
  }

  /** The number of events up to the last topology event, or 0. */
  ghost function LastTopology(timeout: real, events: seq<Event>): (i: nat)
    ensures i <= |events|
  {
    if events == [] then 0
    else if TopologyEvent(timeout, events) then |events|
    else LastTopology(timeout, events[..|events| - 1])
  }

  // ----- the order of the table

  /** The table is in the order of those registrations. */
  ghost predicate Ordered(events: seq<Event>, order: seq<Node>) {
    && (forall i :: 0 <= i < |order| ==> ListedAt(events, order[i]) >= 0)
    && (forall i, j :: 0 <= i < j < |order| ==> ListedAt(events, order[i]) < ListedAt(events, order[j]))
  }

  lemma {:induction false} ListedIffRegistered(events: seq<Event>, n: Node)
    ensures ListedAt(events, n) >= 0 <==> RegisteredAt(events, n) >= 0
  {
    if events != [] {
      ListedIffRegistered(events[..|events| - 1], n);
    }
  }

  lemma {:induction false} FilterOrdered(events: seq<Event>, order: seq<Node>, p: Node -> bool)
    requires Ordered(events, order)
    ensures Ordered(events, Filter(order, p))
  {
    if order != [] {
      FilterOrdered(events, order[1..], p);
      var f := Filter(order[1..], p);
      forall n | n in f
        ensures ListedAt(events, order[0]) < ListedAt(events, n)
      {
        var j :| 1 <= j < |order| && order[j] == n;
      }
      OrderedCons(events, order[0], f);
    }
  }

  lemma OrderedCons(events: seq<Event>, n: Node, rest: seq<Node>)
    requires Ordered(events, rest) && ListedAt(events, n) >= 0
    requires forall m :: m in rest ==> ListedAt(events, n) < ListedAt(events, m)
    ensures Ordered(events, [n] + rest)
  {
    assert forall i :: 0 <= i < |rest| ==> rest[i] in rest;
  }

  /** The cluster lists the registered nodes in the order in which they came into the table; a node
      that registers again keeps its place. */
  lemma {:induction false} OrderByTrace(env: Env, events: seq<Event>)
    ensures Tabled(Run(env, events)) && Ordered(events, Run(env, events).order)
    ensures forall n :: n in Run(env, events).order <==> ListedAt(events, n) >= 0
  {
    RunTabled(env, events);
    if events != [] {
      OrderByTrace(env, events[..|events| - 1]);
      var init := events[..|events| - 1];
      HandleRelists(env, Run(env, init), events[|events| - 1]);
      RelistedOrdered(events, init, Run(env, init).order);
    }
    forall n
      ensures n in Run(env, events).order <==> ListedAt(events, n) >= 0
    {
      DetectorCharacterised(env, events, n);
      ListedIffRegistered(events, n);
    }
  }

  lemma OrderedSame(a: seq<Event>, b: seq<Event>, order: seq<Node>)
    requires Ordered(a, order)
    requires forall i :: 0 <= i < |order| ==> ListedAt(b, order[i]) == ListedAt(a, order[i])
    ensures Ordered(b, order)
  {
  }

  lemma OrderedAdd(events: seq<Event>, order: seq<Node>, id: Node)
    requires Ordered(events, order) && ListedAt(events, id) >= 0
    requires forall i :: 0 <= i < |order| ==> ListedAt(events, order[i]) < ListedAt(events, id)
    ensures Ordered(events, order + [id])
  {
  }

  /** What an event does to a table's order. */
  function Relisted(order: seq<Node>, e: Event): seq<Node> {
    match e
    case Registered(id, _) => if id in order then order else order + [id]
    case Deregistered(id) => Filter(order, IsNot(id))
    case Beat(_, _) => order
    case Scanned(_) => order
  }

  lemma {:induction false} HandleRelists(env: Env, c: Cluster, e: Event)
    requires Tabled(c)
    ensures Handle(env, c, e).order == Relisted(c.order, e)
  {
    if e.Deregistered? && e.id !in c.members {
      FilterAll(c.order, IsNot(e.id));
    }
  }

  lemma {:induction false} RelistedOrdered(events: seq<Event>, init: seq<Event>, order: seq<Node>)
    requires events != [] && init == events[..|events| - 1] && Ordered(init, order)
    requires forall n :: n in order <==> ListedAt(init, n) >= 0
    ensures Ordered(events, Relisted(order, events[|events| - 1]))
  {
    match events[|events| - 1]
    case Registered(id, _) =>
      OrderedSame(init, events, order);
      if id !in order {
        OrderedAdd(events, order, id);
      }
    case Deregistered(id) =>
      FilterOrdered(init, order, IsNot(id));
      FilteredSame(events, init, order, id);
    case Beat(_, _) => OrderedSame(init, events, order);
    case Scanned(_) => OrderedSame(init, events, order);
  }

  lemma {:induction false} FilteredSame(events: seq<Event>, init: seq<Event>, order: seq<Node>, id: Node)
    requires events != [] && init == events[..|events| - 1] && events[|events| - 1] == Deregistered(id)
    requires Ordered(init, Filter(order, IsNot(id)))
    ensures Ordered(events, Filter(order, IsNot(id)))
  {
    var f := Filter(order, IsNot(id));
    forall i | 0 <= i < |f|
      ensures ListedAt(events, f[i]) == ListedAt(init, f[i])
    {
      assert f[i] in f;
    }
    OrderedSame(init, events, f);
  }

  /** A scan reports the nodes that die in it in the order of the table. */
  lemma {:induction false} ReportedInOrder(env: Env, events: seq<Event>, now: real)
    ensures Ordered(events, NewlyDead(env, Run(env, events), now))
    ensures forall n :: n in NewlyDead(env, Run(env, events), now) <==> DiesBy(env.timeout, events, n, now)
  {
    var c := Run(env, events);
    OrderByTrace(env, events);
    FilterOrdered(events, c.order, DyingIn(env, c, now));
    forall n
      ensures n in NewlyDead(env, c, now) <==> DiesBy(env.timeout, events, n, now)
    {
      DyingByTrace(env, events, n, now);
    }
  }

  // ----- the ring

  /** After a rebuild exactly the alive nodes are on the ring. */
  lemma {:induction false} RebuiltRing(env: Env, c: Cluster, n: Node)
    requires Tabled(c)
    ensures OnRing(Rebuild(env, c), n) <==> HasStatus(c, n, Alive)
  {
    RebuildMatches(env, c);
  }

  lemma {:induction false} StatusBy(env: Env, events: seq<Event>, n: Node)
    ensures HasStatus(Run(env, events), n, Alive) <==> AliveBy(env.timeout, events, n)
  {
    DetectorCharacterised(env, events, n);
  }

  /** The place of the last node among the first `m` that dies in the scan, if any. */
  ghost predicate LastDyingBefore(env: Env, c: Cluster, now: real, m: nat, i: int)
    requires m <= |c.order|
  {
    && -1 <= i < m && (i >= 0 ==> Dying(env, c, c.order[i], now))
    && forall j :: i < j < m ==> !Dying(env, c, c.order[j], now)
  }

  /** The ring after a part of a scan: as it was, or the nodes alive right after the last death. */
  lemma {:induction false} ScanRing(env: Env, c: Cluster, now: real, m: nat, n: Node) returns (i: int)
    requires Tabled(c) && m <= |c.order|
    ensures LastDyingBefore(env, c, now, m, i)
    ensures OnRing(ScanUpTo(env, c, m, now), n) <==>
      if i < 0 then OnRing(c, n) else HasStatus(ScanUpTo(env, c, i + 1, now), n, Alive)
  {
    if m == 0 {
      i := -1;
    } else {
      i := ScanRing(env, c, now, m - 1, n);
      TurnRing(env, c, now, m - 1, n);
      if Dying(env, c, c.order[m - 1], now) {
        i := m - 1;
      }
    }
  }

  /** One turn of a scan: the ring changes if the node whose turn it is dies. */
  lemma {:induction false} TurnRing(env: Env, c: Cluster, now: real, i: nat, n: Node)
    requires Tabled(c) && i < |c.order|
    ensures OnRing(ScanUpTo(env, c, i + 1, now), n) <==>
      if Dying(env, c, c.order[i], now) then HasStatus(ScanUpTo(env, c, i + 1, now), n, Alive)
      else OnRing(ScanUpTo(env, c, i, now), n)
  {
    var before, id := ScanUpTo(env, c, i, now), c.order[i];
    ScanUpToMembers(env, c, i, now);
    ScanUpToTabled(env, c, i, now);
    assert before.members[id] == c.members[id];
    OneTurn(env, before, id, now, n);
  }

  lemma {:induction false} ScanUpToTabled(env: Env, c: Cluster, i: nat, now: real)
    requires Tabled(c) && i <= |c.order|
    ensures Tabled(ScanUpTo(env, c, i, now))
  {
    ScanUpToMembers(env, c, i, now);
  }

  lemma {:induction false} OneTurn(env: Env, c: Cluster, id: Node, now: real, n: Node)
    requires Tabled(c) && id in c.members
    ensures OnRing(ScanOne(env, c, id, now), n) <==>
      if Dying(env, c, id, now) then HasStatus(ScanOne(env, c, id, now), n, Alive) else OnRing(c, n)
  {
    if Dying(env, c, id, now) {
      var marked := c.(members := c.members[id := Missed(c.members[id])]);
      assert Tabled(marked);
      RebuiltRing(env, marked, n);
    }
  }

  lemma PlaceByTrace(events: seq<Event>, order: seq<Node>, i: nat, j: nat)
    requires Ordered(events, order) && i < |order| && j < |order|
    ensures j <= i <==> ListedAt(events, order[j]) <= ListedAt(events, order[i])
  {
    assert j < i ==> ListedAt(events, order[j]) < ListedAt(events, order[i]);
    assert i < j ==> ListedAt(events, order[i]) < ListedAt(events, order[j]);
  }

  /** Right after the turn of place `i`, the nodes up to that place have been judged. */
  lemma {:induction false} JudgedUpTo(env: Env, c: Cluster, now: real, i: nat, j: nat)
    requires Tabled(c) && i < |c.order| && j < |c.order|
    ensures HasStatus(ScanUpTo(env, c, i + 1, now), c.order[j], Alive) <==>
      if j <= i then HasStatus(Scan(env, c, now), c.order[j], Alive) else HasStatus(c, c.order[j], Alive)
  {
    ScanUpToMembers(env, c, i + 1, now);
    ScanUpToMembers(env, c, |c.order|, now);
  }

  /** The status of a node right after the turn of place `i` in a scan. */
  lemma {:induction false} StatusMidway(env: Env, events: seq<Event>, longer: seq<Event>, now: real, i: nat, n: Node)
    requires i < |Run(env, events).order| && longer == events + [Scanned(now)]
    ensures var c := Run(env, events);
      HasStatus(ScanUpTo(env, c, i + 1, now), n, Alive) <==>
        if ListedAt(events, n) <= ListedAt(events, c.order[i]) then AliveBy(env.timeout, longer, n)
        else AliveBy(env.timeout, events, n)
  {
    var c := Run(env, events);
    OrderByTrace(env, events);
    assert longer[..|longer| - 1] == events;
    StatusBy(env, events, n);
    StatusBy(env, longer, n);
    ScanUpToMembers(env, c, i + 1, now);
    ScanMembers(env, c, now, n);
    if n in c.members {
      var j :| 0 <= j < |c.order| && c.order[j] == n;
      PlaceByTrace(events, c.order, i, j);
      JudgedUpTo(env, c, now, i, j);
    }
  }

  lemma {:induction false} DiesIff(env: Env, events: seq<Event>, n: Node, now: real)
    ensures Dying(env, Run(env, events), n, now) <==> DiesBy(env.timeout, events, n, now)
  {
    DyingByTrace(env, events, n, now);
  }

  /** A scan that ends the trace. */
  lemma {:induction false} ScannedRing(env: Env, events: seq<Event>, now: real, n: Node)
    ensures var longer := events + [Scanned(now)];
      OnRing(Run(env, longer), n) <==>
        if TopologyEvent(env.timeout, longer) then AliveThen(env.timeout, longer, n) else OnRing(Run(env, events), n)
  {
    var c, longer := Run(env, events), events + [Scanned(now)];
    assert longer[..|longer| - 1] == events;
    OrderByTrace(env, events);
    forall d
      ensures Dying(env, c, d, now) <==> DiesBy(env.timeout, events, d, now)
    {
      DiesIff(env, events, d, now);
    }
    var i := ScanRing(env, c, now, |c.order|, n);
    if i >= 0 {
      LastDeathAt(env, events, now, i);
      StatusMidway(env, events, longer, now, i, n);
      var d := c.order[i];
      assert TopologyEvent(env.timeout, longer);
      forall o | LastDeath(env.timeout, events, o, now)
        ensures ListedAt(events, o) == ListedAt(events, d)
      {
      }
    } else {
      NoDeath(env, events, now);
    }
  }

  lemma {:induction false} LastDeathAt(env: Env, events: seq<Event>, now: real, i: nat)
    requires var c := Run(env, events);
      i < |c.order| && LastDyingBefore(env, c, now, |c.order|, i)
    ensures LastDeath(env.timeout, events, Run(env, events).order[i], now)
  {
    var c := Run(env, events);
    OrderByTrace(env, events);
    DiesIff(env, events, c.order[i], now);
    forall o | DiesBy(env.timeout, events, o, now)
      ensures ListedAt(events, o) <= ListedAt(events, c.order[i])
    {
      DiesIff(env, events, o, now);
      var j :| 0 <= j < |c.order| && c.order[j] == o;
      PlaceByTrace(events, c.order, i, j);
    }
  }

  lemma {:induction false} NoDeath(env: Env, events: seq<Event>, now: real)
    requires var c := Run(env, events); LastDyingBefore(env, c, now, |c.order|, -1)
    ensures forall d :: !DiesBy(env.timeout, events, d, now)
  {
    var c := Run(env, events);
    OrderByTrace(env, events);
    forall d
      ensures !DiesBy(env.timeout, events, d, now)
    {
      DiesIff(env, events, d, now);
      if d in c.order {
        var j :| 0 <= j < |c.order| && c.order[j] == d;
      }
    }
  }

  /** The ring over every run: a node is on it if and only if the node was ALIVE right after the last
      topology event of the trace. */
  lemma {:induction false} RingByTrace(env: Env, events: seq<Event>, n: Node)
    ensures OnRing(Run(env, events), n) <==>
      var i := LastTopology(env.timeout, events);
      i > 0 && AliveThen(env.timeout, events[..i], n)
  {
    if events != [] {
      var m := |events| - 1;
      var init := events[..m];
      RingByTrace(env, init, n);
      RingStep(env, events, n);
      if TopologyEvent(env.timeout, events) {
        assert events[..|events|] == events;
      } else {
        var i := LastTopology(env.timeout, init);
        assert init[..i] == events[..i];
      }
    }
  }

  lemma {:induction false} RingStep(env: Env, events: seq<Event>, n: Node)
    requires events != []
    ensures OnRing(Run(env, events), n) <==>
      if TopologyEvent(env.timeout, events) then AliveThen(env.timeout, events, n)
      else OnRing(Run(env, events[..|events| - 1]), n)
  {
    var init, last := events[..|events| - 1], events[|events| - 1];
    var c := Run(env, init);
    RunTabled(env, init);
    StatusBy(env, events, n);
    match last
    case Registered(id, now) =>
      TabledAdd(c, id, Member(Alive, now, 0));
      RebuiltRing(env, Cluster(if id in c.members then c.order else c.order + [id],
                               c.members[id := Member(Alive, now, 0)], c.ring), n);
    case Deregistered(id) =>
      DetectorCharacterised(env, init, id);
      if id in c.members {
        TabledDrop(c, id);
        RebuiltRing(env, Cluster(Filter(c.order, IsNot(id)), c.members - {id}, c.ring), n);
      }
    case Beat(id, now) =>
      DetectorCharacterised(env, init, id);
      if id in c.members {
        RebuiltRing(env, c.(members := c.members[id := Member(Revived(c.members[id].status), now, 0)]), n);
      }
    case Scanned(now) =>
      assert events == init + [Scanned(now)];
      ScannedRing(env, init, now, n);
  }

  // ----- the points of the ring, and who is nearest

  /** The node has a point at `h`: one of its 160 virtual nodes, labelled with the node's name and the
      index in decimal, is hashed there. */
  ghost predicate HasPoint(hash: string -> int, n: Node, h: int) {
    exists i: nat :: i < 160 && h == hash(n + "#" + Decimal(i))
  }

  lemma {:induction false} PointsAre(hash: string -> int, n: Node, h: int)
    ensures h in Points(hash, n, VIRTUAL_NODES) <==> HasPoint(hash, n, h)
  {
    if h in Points(hash, n, VIRTUAL_NODES) {
      var i: nat :| i < VIRTUAL_NODES && h == hash(Label(n, i));
      assert h == hash(n + "#" + Decimal(i));
    }
    if HasPoint(hash, n, h) {
      var i: nat :| i < 160 && h == hash(n + "#" + Decimal(i));
      assert h == hash(Label(n, i));
    }
  }

  /** The ring has exactly the points of its nodes, each owned by a node that has it. */
  ghost predicate PointsExact(hash: string -> int, st: State) {
    && (forall h :: h in st.ring ==> st.ring[h] in st.nodes && HasPoint(hash, st.ring[h], h))
    && (forall n, h :: n in st.nodes && HasPoint(hash, n, h) ==> h in st.ring)
  }

  lemma {:induction false} BuildPoints(hash: string -> int, nodes: seq<Node>)
    ensures PointsExact(hash, Build(hash, VIRTUAL_NODES, nodes))
  {
    if nodes != [] {
      var init, last := nodes[..|nodes| - 1], nodes[|nodes| - 1];
      BuildPoints(hash, init);
      var st := Build(hash, VIRTUAL_NODES, init);
      if last !in st.nodes {
        AddedPoints(hash, st, last);
      }
    }
  }

  lemma {:induction false} AddedPoints(hash: string -> int, st: State, node: Node)
    requires PointsExact(hash, st)
    ensures PointsExact(hash, State(AddPoints(hash, st.ring, node, VIRTUAL_NODES), st.nodes + {node}))
  {
    forall h
      ensures h in Points(hash, node, VIRTUAL_NODES) <==> HasPoint(hash, node, h)
    {
      PointsAre(hash, node, h);
    }
  }

  ghost predicate RingPoints(env: Env, c: Cluster) {
    c.ring.Some? ==> PointsExact(env.hash, c.ring.value)
  }

  lemma {:induction false} RebuildPoints(env: Env, c: Cluster)
    ensures RingPoints(env, Rebuild(env, c))
  {
    BuildPoints(env.hash, AliveNodes(c));
  }

  lemma {:induction false} ScanPoints(env: Env, c: Cluster, n: nat, now: real)
    requires n <= |c.order| && RingPoints(env, c)
    ensures RingPoints(env, ScanUpTo(env, c, n, now))
  {
    if n > 0 {
      ScanPoints(env, c, n - 1, now);
      var before, id := ScanUpTo(env, c, n - 1, now), c.order[n - 1];
      if id in before.members {
        RebuildPoints(env, before.(members := before.members[id := Missed(before.members[id])]));
      }
    }
  }

  /** In every reachable state the ring has exactly the points of the nodes on it. */
  lemma {:induction false} RunPoints(env: Env, events: seq<Event>)
    ensures RingPoints(env, Run(env, events))
  {
    if events != [] {
      var c := Run(env, events[..|events| - 1]);
      RunPoints(env, events[..|events| - 1]);
      match events[|events| - 1]
      case Registered(id, now) =>
        RebuildPoints(env, Cluster(if id in c.members then c.order else c.order + [id],
                                   c.members[id := Member(Alive, now, 0)], c.ring));
      case Deregistered(id) =>
        RebuildPoints(env, Cluster(Filter(c.order, IsNot(id)), c.members - {id}, c.ring));
      case Beat(id, now) =>
        if id in c.members {
          RebuildPoints(env, c.(members := c.members[id := Member(Revived(c.members[id].status), now, 0)]));
        }
      case Scanned(now) => ScanPoints(env, c, |c.order|, now);
    }
  }

  /** Going clockwise from `x`, point `h` is met no later than `g`. */
  predicate NoFarther(x: int, h: int, g: int) {
    if h > x then g > x ==> h <= g else g <= x && h <= g
  }

  /** No node is on the ring, or the primary is on it and has the point `h`, which no point of such a
      node precedes clockwise from `x`. */
  ghost predicate OwnsNearest(hash: string -> int, c: Cluster, x: int, h: int, primary: Option<Node>) {
    match primary
    case None => forall n :: !OnRing(c, n)
    case Some(p) =>
      && OnRing(c, p) && HasPoint(hash, p, h)
      && forall n, g :: OnRing(c, n) && HasPoint(hash, n, g) ==> NoFarther(x, h, g)
  }

  /** The primary of a key hashed to `x`, in every reachable state: none exactly if no node is on the
      ring; else a node on the ring with a point that no point of such a node precedes clockwise. */
  lemma {:induction false} PrimaryIsNearest(env: Env, events: seq<Event>, x: int) returns (h: int)
    ensures var c := Run(env, events);
      OwnsNearest(env.hash, c, x, h, Primary(c, x))
  {
    var c := Run(env, events);
    RunPoints(env, events);
    h := 0;
    if c.ring.Some? {
      var ring := c.ring.value.ring;
      if ring == map[] {
        OwnerOfEmpty(x);
        forall n
          ensures !OnRing(c, n)
        {
          if OnRing(c, n) {
            assert HasPoint(env.hash, n, env.hash(n + "#" + Decimal(0)));
          }
        }
      } else {
        FirstClockwise(ring.Keys, x);
        h := Clockwise(Ascending(ring.Keys), x)[0];
        OwnerIsNext(ring, x, h);
      }
    }
  }

  /** The replicas of a key hashed to `x`, in every reachable state: different nodes on the ring, the
      primary first, as many as asked for or as own points. */
  lemma {:induction false} ReplicasCounted(env: Env, events: seq<Event>, x: int, rf: int)
    ensures var c := Run(env, events);
      var r := Replicas(c, x, rf);
      && NoDuplicates(r) && (forall n :: n in r ==> OnRing(c, n))
      && (c.ring.None? ==> r == [])
      && (c.ring.Some? ==> var owners := c.ring.value.ring.Values;
        |r| == if rf <= 0 then 0 else if rf < |owners| then rf else |owners|)
      && (r != [] ==> Primary(c, x) == Some(r[0]))
  {
    var c := Run(env, events);
    RunPoints(env, events);
    if c.ring.Some? {
      ReplicasExact(c.ring.value.ring, x, rf, rf);
    }
  }
}
