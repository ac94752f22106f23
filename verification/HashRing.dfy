/** The ring object: its map, its sorted point list and its members, updated in place. */
module HashRing {
  import opened Options
  import opened Sequences
  import opened RingModel
  import opened RingTheorems

  /** `bisect_right`: the number of elements of a sorted list that are at most `x`. */
  method BisectRight(s: seq<int>, x: int) returns (lo: nat)
    requires StrictlySorted(s)
    ensures lo <= |s|
    ensures forall i :: 0 <= i < lo ==> s[i] <= x
    ensures forall i :: lo <= i < |s| ==> s[i] > x
  {
    lo := 0;
    var hi := |s|;
    while lo < hi
      invariant 0 <= lo <= hi <= |s|
      invariant forall i :: 0 <= i < lo ==> s[i] <= x
      invariant forall i :: hi <= i < |s| ==> s[i] > x
    {
      var mid := (lo + hi) / 2;
      if x < s[mid] {
        hi := mid;
      } else {
        lo := mid + 1;
      }
    }
  }

  /** Clockwise order is the sorted list rotated at the bisection point. */
  lemma ClockwiseRotates(s: seq<int>, x: int, cut: nat)
    requires cut <= |s|
    requires forall i :: 0 <= i < cut ==> s[i] <= x
    requires forall i :: cut <= i < |s| ==> s[i] > x
    ensures Clockwise(s, x) == s[cut..] + s[..cut]
  {
    var low, high := s[..cut], s[cut..];
    assert s == low + high;
    FilterHalves(low, high, After(x));
    FilterHalves(low, high, UpTo(x));
  }

  lemma RotatedAt(s: seq<int>, cut: nat, start: nat, i: nat)
    requires cut <= |s| && i < |s| && start == (if cut == |s| then 0 else cut)
    ensures (s[cut..] + s[..cut])[i] == s[At(start, i, |s|)]
  {
  }

  /** The i-th owner met on the walk sits at sorted position `start + i`, wrapping around. */
  lemma WalkAt(ring: Ring, x: int, cut: nat, start: nat, i: nat)
    requires var s := Ascending(ring.Keys);
      && cut <= |s| && i < |s| && start == (if cut == |s| then 0 else cut)
      && (forall j :: 0 <= j < cut ==> s[j] <= x)
      && (forall j :: cut <= j < |s| ==> s[j] > x)
    ensures var s := Ascending(ring.Keys);
      var h := s[At(start, i, |s|)];
      |Walk(ring, x)| == |s| && h in ring && Walk(ring, x)[i] == ring[h]
  {
    var s := Ascending(ring.Keys);
    AscendingFacts(ring.Keys);
    ClockwiseRotates(s, x, cut);
    RotatedAt(s, cut, start, i);
    var h := s[At(start, i, |s|)];
    assert h in s;
  }

  /** From index `start`, wrapping around, the sorted points have the owners of the walk. */
  ghost predicate WalksFrom(ring: Ring, s: seq<int>, start: nat, walk: seq<Node>) {
    && start < |s| == |walk| == |ring|
    && forall i {:trigger walk[i]} :: 0 <= i < |s| ==>
      s[At(start, i, |s|)] in ring && walk[i] == ring[s[At(start, i, |s|)]]
  }

  lemma WalksFromCut(ring: Ring, x: int, cut: nat, start: nat)
    requires var s := Ascending(ring.Keys);
      && cut <= |s| && 0 < |s| && start == (if cut == |s| then 0 else cut)
      && (forall j :: 0 <= j < cut ==> s[j] <= x)
      && (forall j :: cut <= j < |s| ==> s[j] > x)
    ensures WalksFrom(ring, Ascending(ring.Keys), start, Walk(ring, x))
  {
    var s := Ascending(ring.Keys);
    AscendingFacts(ring.Keys);
    WalkAt(ring, x, cut, start, 0);
    forall i | 0 <= i < |s|
      ensures s[At(start, i, |s|)] in ring && Walk(ring, x)[i] == ring[s[At(start, i, |s|)]]
    {
      WalkAt(ring, x, cut, start, i);
    }
  }

  /** Where the walk from a hash starts: the bisection point, or 0 past the last point. */
  method FirstIndex(ring: Ring, sortedKeys: seq<int>, x: int) returns (idx: nat)
    requires |ring| > 0 && sortedKeys == Ascending(ring.Keys)
    ensures WalksFrom(ring, sortedKeys, idx, Walk(ring, x))
  {
    AscendingFacts(ring.Keys);
    idx := BisectRight(sortedKeys, x);
    ghost var cut := idx;
    if idx == |sortedKeys| {
      idx := 0;
    }
    WalksFromCut(ring, x, cut, idx);
  }

  /** Deletes the points one by one. */
  method DeletePoints(ring: Ring, doomed: seq<int>) returns (rest: Ring)
    ensures rest == map h | h in ring && h !in doomed :: ring[h]
  {
    rest := ring;
    for i := 0 to |doomed|
      invariant rest == map h | h in ring && h !in doomed[..i] :: ring[h]
    {
      var h := doomed[i];
      rest := rest - {h};
      assert doomed[..i + 1] == doomed[..i] + [h];
    }
    assert doomed[..|doomed|] == doomed;
  }

  /** Deletes all points of one owner. */
  method DeleteOwner(ring: Ring, sortedKeys: seq<int>, node: Node) returns (rest: Ring)
    requires sortedKeys == Ascending(ring.Keys)
    ensures rest == Restrict(ring, IsNot(node))
  {
    PointsOfOwner(ring, node);
    rest := DeletePoints(ring, Filter(sortedKeys, OwnedBy(ring, Is(node))));
  }

  lemma PointsOfOwner(ring: Ring, node: Node)
    ensures forall h :: h in ring ==>
      (h in Filter(Ascending(ring.Keys), OwnedBy(ring, Is(node))) <==> ring[h] == node)
  {
    AscendingFacts(ring.Keys);
  }

  class HashRing {
    const hash: string -> int
    const virtualNodes: nat
    var ring: Ring
    var sortedKeys: seq<int>
    var nodes: set<Node>

    ghost function St(): State
      reads this
    {
      State(ring, nodes)
    }

    ghost predicate Valid()
      reads this
    {
      sortedKeys == Ascending(ring.Keys) && OwnersAreMembers(St())
    }

    constructor (hash: string -> int, initial: seq<Node>, virtualNodes: nat)
      ensures Valid() && this.hash == hash && this.virtualNodes == virtualNodes
      ensures St() == Build(hash, virtualNodes, initial)
    {
      this.hash, this.virtualNodes := hash, virtualNodes;
      ring, sortedKeys, nodes := map[], [], {};
      new;
      for i := 0 to |initial|
        invariant Valid() && St() == Build(hash, virtualNodes, initial[..i])
      {
        AddNode(initial[i]);
        assert initial[..i + 1][..i] == initial[..i];
      }
      assert initial[..|initial|] == initial;
    }

    method AddNode(node: Node)
      requires Valid()
      modifies this
      ensures Valid() && St() == Add(hash, virtualNodes, old(St()), node)
    {
      if node in nodes {
        return;
      }
      nodes := nodes + {node};
      for i := 0 to virtualNodes
        invariant ring == AddPoints(hash, old(ring), node, i) && nodes == old(nodes) + {node}
      {
        ring := ring[hash(Label(node, i)) := node];
      }
      sortedKeys := Ascending(ring.Keys);
    }

    method RemoveNode(node: Node)
      requires Valid()
      modifies this
      ensures Valid() && St() == Remove(old(St()), node)
    {
      if node !in nodes {
        return;
      }
      nodes := nodes - {node};
      ring := DeleteOwner(ring, sortedKeys, node);
      sortedKeys := Ascending(ring.Keys);
    }

    method GetNode(key: string) returns (r: Option<Node>)
      requires Valid()
      ensures r == Owner(ring, hash(key))
    {
      if |ring| == 0 {
        OwnerOfEmpty(hash(key));
        return None;
      }
      var idx := FirstIndex(ring, sortedKeys, hash(key));
      assert At(idx, 0, |sortedKeys|) == idx;
      DistinctFirst(Walk(ring, hash(key)));
      return Some(ring[sortedKeys[idx]]);
    }

    /** The walk visits each point at most once and stops when enough distinct owners are found. */
    method GetReplicas(key: string, replicationFactor: int) returns (replicas: seq<Node>)
      requires Valid()
      ensures replicas == Take(Preference(ring, hash(key)), replicationFactor)
    {
      if |ring| == 0 {
        EmptyPreference(hash(key));
        return [];
      }
      ghost var walk := Walk(ring, hash(key));
      var idx := FirstIndex(ring, sortedKeys, hash(key));
      replicas := CollectDistinct(ring, sortedKeys, idx, replicationFactor, walk);
    }
  }

  /** Position `start + i` on a circle of `n`. */
  function At(start: nat, i: nat, n: nat): (at: nat)
    requires start < n && i <= n
    ensures at < n
  {
    if start + i < n then start + i else start + i - n
  }

  /** The circular walk of `get_replicas`. It visits each point at most once and stops when enough
      distinct owners are found. */
  method CollectDistinct(ring: Ring, sortedKeys: seq<int>, start: nat, replicationFactor: int, ghost walk: seq<Node>)
    returns (replicas: seq<Node>)
    requires WalksFrom(ring, sortedKeys, start, walk)
    ensures replicas == Take(Distinct(walk), replicationFactor)
  {
    var idx := start;
    replicas := [];
    var seen: set<Node> := {};
    var attempts := 0;
    assert walk[..0] == [];
    while |replicas| < replicationFactor && attempts < |ring|
      invariant 0 <= attempts <= |ring| && idx == At(start, attempts, |sortedKeys|)
      invariant replicas == Distinct(walk[..attempts])
      invariant forall n :: n in seen <==> n in replicas
      invariant |replicas| <= replicationFactor || replicas == []
    {
      ghost var met := walk[attempts];
      var node := ring[sortedKeys[idx]];
      assert node == met;
      DistinctNext(walk, attempts);
      if node !in seen {
        replicas := replicas + [node];
        seen := seen + {node};
      }
      Wrap(idx, |sortedKeys|);
      idx := (idx + 1) % |sortedKeys|;
      attempts := attempts + 1;
    }
    TakeWhenDone(walk, attempts, replicationFactor);
  }

  /** What the walk has collected when it stops is what was asked for. */
  lemma TakeWhenDone(walk: seq<Node>, attempts: nat, rf: int)
    requires attempts <= |walk|
    requires var d := Distinct(walk[..attempts]);
      (|d| <= rf || d == []) && (|d| >= rf || attempts == |walk|)
    ensures Distinct(walk[..attempts]) == Take(Distinct(walk), rf)
  {
    DistinctPrefix(walk, attempts);
    if attempts == |walk| {
      assert walk[..attempts] == walk;
    }
  }

  lemma Wrap(i: nat, n: nat)
    requires i < n
    ensures (i + 1) % n == if i + 1 < n then i + 1 else 0
  {
    if i + 1 < n {
      SmallMod(i + 1, n);
    }
  }

  lemma SmallMod(i: nat, n: nat)
    requires i < n
    ensures i % n == i
  {
  }

  lemma DistinctNext(walk: seq<Node>, i: nat)
    requires i < |walk|
    ensures var d := Distinct(walk[..i]);
      Distinct(walk[..i + 1]) == if walk[i] in d then d else d + [walk[i]]
  {
    assert walk[..i + 1] == walk[..i] + [walk[i]];
    DistinctSnoc(walk[..i], walk[i]);
  }
}
