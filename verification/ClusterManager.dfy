/** The cluster manager object: a table of mutable node records and the current hash ring. */
module ClusterManager {
  import opened Options
  import opened Sequences
  import opened RingModel
  import HashRing
  import opened ClusterModel

  class NodeMetadata {
    var status: Status
    var lastHeartbeat: real
    var failedAttempts: nat

    constructor (now: real)
      ensures View() == Member(Alive, now, 0)
    {
      status, lastHeartbeat, failedAttempts := Alive, now, 0;
    }

    ghost function View(): Member
      reads this
    {
      Member(status, lastHeartbeat, failedAttempts)
    }

    /** A heartbeat came; says whether it changed the status. */
    method Beat(now: real) returns (changed: bool)
      modifies this
      ensures View() == Member(Revived(old(status)), now, 0) && changed == (status != old(status))
    {
      lastHeartbeat := now;
      failedAttempts := 0;
      var oldStatus := status;
      if status == Dead {
        status := Recovered;
      } else if status == Suspect {
        status := Alive;
      }
      return oldStatus != status;
    }

    /** Counts a missed heartbeat and moves the node towards DEAD. */
    method Miss()
      modifies this
      ensures View() == Missed(old(View()))
    {
      var oldStatus := status;
      failedAttempts := failedAttempts + 1;
      if failedAttempts >= DEAD_THRESHOLD {
        status := Dead;
      } else if oldStatus == Alive {
        status := Suspect;
      }
    }
  }

  /** Different nodes have different records. */
  ghost predicate Apart(nodes: map<Node, NodeMetadata>) {
    forall a, b :: a in nodes && b in nodes && a != b ==> nodes[a] != nodes[b]
  }

  class ClusterManager {
    const hash: string -> int
    const heartbeatTimeout: real
    const replicationFactor: int
    var nodes: map<Node, NodeMetadata>
    /** The insertion order of `nodes`, which Python dictionaries keep. */
    var order: seq<Node>
    var hashRing: HashRing.HashRing?

    ghost function E(): Env {
      Env(hash, heartbeatTimeout)
    }

    ghost function Members(): map<Node, Member>
      reads `nodes, nodes.Values
    {
      map n | n in nodes :: nodes[n].View()
    }

    ghost function View(): Cluster
      reads this, nodes.Values, hashRing
    {
      Cluster(order, Members(), if hashRing == null then None else Some(hashRing.St()))
    }

    /** The table lists each node once, and each has its own record. */
    ghost predicate Table()
      reads `nodes, `order
    {
      Apart(nodes) && Listed(order, nodes.Keys)
    }

    ghost predicate Valid()
      reads `nodes, `order, `hashRing, hashRing
    {
      && Table()
      && (hashRing != null ==>
        hashRing.Valid() && hashRing.hash == hash && hashRing.virtualNodes == VIRTUAL_NODES)
    }

    lemma ViewTabled()
      requires Listed(order, nodes.Keys)
      ensures Members().Keys == nodes.Keys && Tabled(View())
    {
    }

    constructor (hash: string -> int, heartbeatTimeout: real, replicationFactor: int)
      ensures Valid() && View() == NO_CLUSTER
      ensures E() == Env(hash, heartbeatTimeout) && this.replicationFactor == replicationFactor
    {
      this.hash, this.heartbeatTimeout, this.replicationFactor := hash, heartbeatTimeout, replicationFactor;
      nodes, order, hashRing := map[], [], null;
    }

    /** The alive nodes, in table order. */
    method AliveList() returns (alive: seq<Node>)
      requires Listed(order, nodes.Keys)
      ensures alive == Filter(order, IsAlive(Members()))
    {
      ghost var members := Members();
      alive := [];
      assert order[..0] == [];
      for i := 0 to |order|
        invariant alive == Filter(order[..i], IsAlive(members))
      {
        var id := order[i];
        AliveTake(members, i);
        if nodes[id].status == Alive {
          alive := alive + [id];
        }
      }
      assert order[..|order|] == order;
    }

    lemma AliveTake(members: map<Node, Member>, i: nat)
      requires Listed(order, nodes.Keys) && members == Members() && i < |order|
      ensures order[i] in nodes
      ensures Filter(order[..i + 1], IsAlive(members)) ==
        Filter(order[..i], IsAlive(members)) + if nodes[order[i]].status == Alive then [order[i]] else []
    {
      FilterTake(order, i, IsAlive(members));
      assert members[order[i]] == nodes[order[i]].View();
    }

    /** Replaces the ring by one of the given nodes, or by none if there are none. */
    method InstallRing(alive: seq<Node>)
      requires Table()
      modifies `hashRing
      ensures Valid() && (hashRing == null || fresh(hashRing))
      ensures View() == old(View()).(ring := if alive == [] then None else Some(Build(hash, VIRTUAL_NODES, alive)))
    {
      if alive == [] {
        hashRing := null;
        return;
      }
      hashRing := new HashRing.HashRing(hash, alive, VIRTUAL_NODES);
    }

    /** Replaces the ring by one built from the alive nodes. */
    method RebuildHashRing()
      requires Table()
      modifies `hashRing
      ensures Valid() && (hashRing == null || fresh(hashRing))
      ensures View() == Rebuild(E(), old(View()))
    {
      var alive := AliveList();
      InstallRing(alive);
    }

    /** Writes a fresh record into the table; a known node keeps its place in the order. */
    method Enter(id: Node, now: real)
      requires Table()
      modifies `nodes, `order
      ensures Table() && fresh(nodes.Values - old(nodes.Values))
      ensures order == if id in old(nodes) then old(order) else old(order) + [id]
      ensures Members() == old(Members())[id := Member(Alive, now, 0)]
    {
      var node := new NodeMetadata(now);
      Place(id, node);
    }

    method Place(id: Node, node: NodeMetadata)
      requires Table() && node !in nodes.Values
      modifies `nodes, `order
      ensures Table() && nodes == old(nodes)[id := node]
      ensures order == if id in old(nodes) then old(order) else old(order) + [id]
    {
      ListedAdd(order, nodes.Keys, id);
      if id !in nodes {
        order := order + [id];
      }
      nodes := nodes[id := node];
      assert nodes.Keys == old(nodes).Keys + {id};
    }

    method RegisterNode(id: Node, now: real)
      requires Valid()
      modifies this
      ensures Valid() && fresh(nodes.Values - old(nodes.Values)) && (hashRing == null || fresh(hashRing))
      ensures View() == Register(E(), old(View()), id, now)
    {
      Enter(id, now);
      RebuildHashRing();
    }

    method Erase(id: Node)
      requires Table() && id in nodes
      modifies `nodes, `order
      ensures Table() && nodes == old(nodes) - {id} && order == Filter(old(order), IsNot(id))
      ensures Members() == old(Members()) - {id}
    {
      ListedDrop(order, nodes.Keys, id);
      nodes, order := nodes - {id}, Filter(order, IsNot(id));
      assert nodes.Keys == old(nodes).Keys - {id};
    }

    method DeregisterNode(id: Node)
      requires Valid()
      modifies this
      ensures Valid() && nodes.Values <= old(nodes.Values)
      ensures hashRing == old(hashRing) || hashRing == null || fresh(hashRing)
      ensures View() == Deregister(E(), old(View()), id)
    {
      if id !in nodes {
        return;
      }
      Erase(id);
      RebuildHashRing();
    }

    method BeatNode(id: Node, now: real) returns (changed: bool)
      requires Valid() && id in nodes
      modifies nodes[id]
      ensures Valid() && changed == (nodes[id].status != old(nodes[id].status))
      ensures Members() == old(Members())[id := Member(Revived(old(nodes[id].status)), now, 0)]
    {
      changed := nodes[id].Beat(now);
    }

    method ProcessHeartbeat(id: Node, now: real)
      requires Valid()
      modifies this, nodes.Values
      ensures Valid() && nodes == old(nodes)
      ensures hashRing == old(hashRing) || hashRing == null || fresh(hashRing)
      ensures View() == Heartbeat(E(), old(View()), id, now)
    {
      if id !in nodes {
        return;
      }
      var changed := NoteBeat(id, now);
      if changed {
        RebuildHashRing();
      }
    }

    /** The table with the sender's record updated, and whether its status changed. */
    method NoteBeat(id: Node, now: real) returns (changed: bool)
      requires Valid() && id in nodes
      modifies nodes[id]
      ensures Valid() && id in old(View()).members
      ensures var m := old(View()).members[id];
        && changed == (Revived(m.status) != m.status)
        && View() == old(View()).(members := old(View()).members[id := Member(Revived(m.status), now, 0)])
    {
      changed := BeatNode(id, now);
      assert Members() == old(Members())[id := Member(Revived(old(nodes[id].status)), now, 0)];
    }

    /** Counts a missed heartbeat of a node that is overdue; says whether it died of it. */
    method MarkMissed(id: Node, now: real) returns (dead: bool)
      requires Valid() && id in nodes
      modifies nodes[id]
      ensures Valid()
      ensures dead == Dying(E(), old(View()), id, now)
      ensures var c := old(View());
        id in c.members && View() == if Overdue(E(), c.members[id], now)
          then c.(members := c.members[id := Missed(c.members[id])]) else c
    {
      var node := nodes[id];
      if node.status == Dead || now - node.lastHeartbeat <= heartbeatTimeout {
        return false;
      }
      node.Miss();
      dead := node.status == Dead;
    }

    /** One node's turn in a scan. */
    method ScanNode(id: Node, now: real) returns (dead: bool)
      requires Valid() && id in nodes
      modifies this, nodes.Values
      ensures Valid() && nodes == old(nodes) && order == old(order)
      ensures hashRing == old(hashRing) || hashRing == null || fresh(hashRing)
      ensures View() == ScanOne(E(), old(View()), id, now)
      ensures dead == Dying(E(), old(View()), id, now)
    {
      dead := MarkMissed(id, now);
      if dead {
        RebuildHashRing();
      }
    }

    /** Scans every node once and returns those that just became dead. */
    method CheckHeartbeatTimeouts(now: real) returns (newlyDead: seq<Node>)
      requires Valid()
      modifies this, nodes.Values
      ensures Valid() && nodes == old(nodes)
      ensures hashRing == old(hashRing) || hashRing == null || fresh(hashRing)
      ensures View() == Scan(E(), old(View()), now)
      ensures newlyDead == NewlyDead(E(), old(View()), now)
    {
      ghost var c := View();
      ViewTabled();
      newlyDead := [];
      assert order[..0] == [];
      for i := 0 to |order|
        invariant Valid() && nodes == old(nodes) && order == c.order
        invariant hashRing == old(hashRing) || hashRing == null || fresh(hashRing)
        invariant View() == ScanUpTo(E(), c, i, now)
        invariant newlyDead == Filter(c.order[..i], DyingIn(E(), c, now))
      {
        ScanTurn(E(), c, i, now);
        var dead := ScanNode(order[i], now);
        if dead {
          newlyDead := newlyDead + [order[i]];
        }
      }
      assert c.order[..|order|] == c.order;
    }

    method GetNodeForKey(key: string) returns (r: Option<Node>)
      requires Valid()
      ensures r == Primary(View(), hash(key))
    {
      if hashRing == null {
        return None;
      }
      r := hashRing.GetNode(key);
    }

    method GetReplicasForKey(key: string) returns (r: seq<Node>)
      requires Valid()
      ensures r == Replicas(View(), hash(key), replicationFactor)
    {
      if hashRing == null {
        return [];
      }
      r := hashRing.GetReplicas(key, replicationFactor);
    }
  }
}
