/** Theorems about the hash ring: preference lists filter, keys move minimally, rings are canonical. */
module RingTheorems {
  import opened Options
  import opened Sequences
  import opened RingModel

  // ----- restricting the ring filters every preference list

  function OwnedBy(ring: Ring, p: Node -> bool): int -> bool {
    (h: int) => h in ring && p(ring[h])
  }

  lemma {:induction false} FilterSorted(s: seq<int>, p: int -> bool)
    requires StrictlySorted(s)
    ensures StrictlySorted(Filter(s, p))
  {
    if s != [] {
      FilterSorted(s[1..], p);
      var f := Filter(s[1..], p);
      assert forall i :: 0 <= i < |f| ==> f[i] in s[1..];
    }
  }

  lemma AscendingRestrict(ring: Ring, p: Node -> bool)
    ensures Ascending(Restrict(ring, p).Keys) == Filter(Ascending(ring.Keys), OwnedBy(ring, p))
  {
    AscendingFacts(ring.Keys);
    AscendingFacts(Restrict(ring, p).Keys);
    FilterSorted(Ascending(ring.Keys), OwnedBy(ring, p));
    SortedUnique(Ascending(Restrict(ring, p).Keys), Filter(Ascending(ring.Keys), OwnedBy(ring, p)));
  }

  lemma ClockwiseFilter(points: seq<int>, q: int -> bool, x: int)
    ensures Clockwise(Filter(points, q), x) == Filter(Clockwise(points, x), q)
  {
    FilterCommutes(points, q, After(x));
    FilterCommutes(points, q, UpTo(x));
    FilterAppend(Filter(points, After(x)), Filter(points, UpTo(x)), q);
  }

  lemma {:induction false} OwnersFilter(ring: Ring, p: Node -> bool, points: seq<int>)
    requires forall h :: h in points ==> h in ring
    ensures Owners(Restrict(ring, p), Filter(points, OwnedBy(ring, p))) == Filter(Owners(ring, points), p)
  {
    if points != [] {
      var rest := points[1..];
      OwnersFilter(ring, p, rest);
      assert Owners(ring, points)[1..] == Owners(ring, rest);
      var f := Filter(rest, OwnedBy(ring, p));
      OwnersCons(Restrict(ring, p), points[0], f);
    }
  }

  lemma OwnersCons(ring: Ring, h: int, points: seq<int>)
    requires forall h' :: h' in points ==> h' in ring
    ensures h in ring ==> Owners(ring, [h] + points) == [ring[h]] + Owners(ring, points)
  {
  }

  lemma DistinctSnoc(s: seq<Node>, x: Node)
    ensures Distinct(s + [x]) == if x in Distinct(s) then Distinct(s) else Distinct(s) + [x]
  {
    assert (s + [x])[..|s|] == s;
  }

  lemma {:induction false} DistinctFilter(s: seq<Node>, p: Node -> bool)
    ensures Distinct(Filter(s, p)) == Filter(Distinct(s), p)
  {
    if s != [] {
      var init, last := s[..|s| - 1], s[|s| - 1];
      DistinctFilter(init, p);
      assert s == init + [last];
      DistinctSnoc(init, last);
      DistinctSnoc(Filter(init, p), last);
      FilterSnoc(init, last, p);
      FilterSnoc(Distinct(init), last, p);
    }
  }

  lemma WalkRestrict(ring: Ring, p: Node -> bool, x: int)
    ensures Walk(Restrict(ring, p), x) == Filter(Walk(ring, x), p)
  {
    AscendingFacts(ring.Keys);
    AscendingRestrict(ring, p);
    ClockwiseFilter(Ascending(ring.Keys), OwnedBy(ring, p), x);
    OwnersFilter(ring, p, Clockwise(Ascending(ring.Keys), x));
  }

  /** Keeping only the points of some owners filters every key's preference list, in order.
      No assumption on the hash is needed. */
  lemma PreferenceRestrict(ring: Ring, p: Node -> bool, x: int)
    ensures Preference(Restrict(ring, p), x) == Filter(Preference(ring, x), p)
  {
    WalkRestrict(ring, p, x);
    DistinctFilter(Walk(ring, x), p);
  }

  lemma WalkMembers(ring: Ring, x: int, n: Node)
    ensures n in Walk(ring, x) <==> n in ring.Values
  {
    AscendingFacts(ring.Keys);
    var c := Clockwise(Ascending(ring.Keys), x);
    if n in ring.Values {
      var h :| h in ring && ring[h] == n;
      assert h in Ascending(ring.Keys);
      assert h in c;
      var i :| 0 <= i < |c| && c[i] == h;
      assert Walk(ring, x)[i] == n;
    }
    if n in Walk(ring, x) {
      var i :| 0 <= i < |c| && Walk(ring, x)[i] == n;
      assert c[i] in c;
    }
  }

  /** The preference list contains each owner on the ring exactly once. */
  lemma PreferenceExact(ring: Ring, x: int)
    ensures NoDuplicates(Preference(ring, x))
    ensures forall n :: n in Preference(ring, x) <==> n in ring.Values
    ensures |Preference(ring, x)| == |ring.Values|
  {
    DistinctFacts(Walk(ring, x));
    forall n
      ensures n in Preference(ring, x) <==> n in ring.Values
    {
      WalkMembers(ring, x, n);
    }
    NoDuplicatesCount(Preference(ring, x), ring.Values);
  }

  lemma {:induction false} NoDuplicatesCount(s: seq<Node>, members: set<Node>)
    requires NoDuplicates(s)
    requires forall n :: n in s <==> n in members
    ensures |s| == |members|
  {
    if s != [] {
      var last := s[|s| - 1];
      var init := s[..|s| - 1];
      assert s == init + [last];
      assert last !in init;
      NoDuplicatesCount(init, members - {last});
    }
  }

  // ----- removal, failover and minimal movement

  /** `remove_node` takes the node out of every preference list and changes nothing else,
      even when hash points collide. */
  lemma RemoveFilters(st: State, node: Node, x: int)
    requires OwnersAreMembers(st)
    ensures Preference(Remove(st, node).ring, x) == Filter(Preference(st.ring, x), IsNot(node))
  {
    if node in st.nodes {
      PreferenceRestrict(st.ring, IsNot(node), x);
    } else {
      PreferenceExact(st.ring, x);
      FilterAll(Preference(st.ring, x), IsNot(node));
    }
  }

  /** Failover: when a key's primary leaves, the old second replica is promoted; every key with
      another primary keeps it. */
  lemma FailoverPromotes(st: State, node: Node, x: int)
    requires OwnersAreMembers(st)
    ensures var before := Preference(st.ring, x);
      var after := Preference(Remove(st, node).ring, x);
      && (Owner(st.ring, x) == Some(node) ==> after == before[1..])
      && (Owner(st.ring, x) != Some(node) ==> Owner(Remove(st, node).ring, x) == Owner(st.ring, x))
  {
    RemoveFilters(st, node, x);
    var before := Preference(st.ring, x);
    PreferenceExact(st.ring, x);
    if before != [] && before[0] == node {
      assert forall n :: n in before[1..] ==> n != node;
      FilterAll(before[1..], IsNot(node));
    }
  }

  /** `p` is the first of `points` met when walking clockwise from `x`. */
  ghost predicate IsNext(points: set<int>, x: int, p: int) {
    && p in points
    && if p > x then forall h :: h in points && h > x ==> p <= h
       else forall h :: h in points ==> h <= x && p <= h
  }

  lemma FirstClockwise(points: set<int>, x: int)
    requires points != {}
    ensures Clockwise(Ascending(points), x) != []
    ensures IsNext(points, x, Clockwise(Ascending(points), x)[0])
  {
    AscendingFacts(points);
    var s := Ascending(points);
    var above, below := Filter(s, After(x)), Filter(s, UpTo(x));
    if above != [] {
      FilterSorted(s, After(x));
      SortedLeast(above);
    } else {
      FilterSorted(s, UpTo(x));
      assert forall h :: h in points ==> h !in above;
      FilterAll(s, UpTo(x));
      SortedLeast(s);
    }
  }

  lemma SortedLeast(s: seq<int>)
    requires StrictlySorted(s)
    ensures forall h :: h in s ==> s[0] <= h
  {
  }

  lemma {:induction false} DistinctFirst(s: seq<Node>)
    requires s != []
    ensures Distinct(s) != [] && Distinct(s)[0] == s[0]
  {
    if |s| > 1 {
      DistinctFirst(s[..|s| - 1]);
    }
  }

  /** The distinct owners of a longer walk extend those of a shorter one. */
  lemma {:induction false} DistinctPrefix(s: seq<Node>, n: nat)
    requires n <= |s|
    ensures |Distinct(s[..n])| <= |Distinct(s)| && Distinct(s[..n]) == Distinct(s)[..|Distinct(s[..n])|]
  {
    if n < |s| {
      DistinctPrefix(s[..|s| - 1], n);
      assert s[..|s| - 1][..n] == s[..n];
    } else {
      assert s[..n] == s;
    }
  }

  /** The primary of a key is the owner of the first point after it, wrapping around. */
  lemma OwnerIsNext(ring: Ring, x: int, p: int)
    requires IsNext(ring.Keys, x, p)
    ensures Owner(ring, x) == Some(ring[p])
  {
    FirstClockwise(ring.Keys, x);
    assert Clockwise(Ascending(ring.Keys), x)[0] == p;
    DistinctFirst(Walk(ring, x));
  }

  lemma EmptyPreference(x: int)
    ensures Preference(map[], x) == []
  {
    PreferenceExact(map[], x);
  }

  lemma OwnerOfEmpty(x: int)
    ensures Owner(map[], x) == None
  {
    EmptyPreference(x);
  }

  /** Minimal movement on `add_node`, even when hash points collide: every key keeps its owner
      or moves to the new node. */
  lemma {:induction false} AddMovesMinimally(hash: string -> int, v: nat, st: State, node: Node, x: int)
    ensures var after := Owner(Add(hash, v, st, node).ring, x);
      after == Owner(st.ring, x) || after == Some(node)
  {
    var ring := Add(hash, v, st, node).ring;
    if node !in st.nodes && ring != map[] {
      FirstClockwise(ring.Keys, x);
      var p := Clockwise(Ascending(ring.Keys), x)[0];
      OwnerIsNext(ring, x, p);
      if ring[p] != node {
        assert p in st.ring;
        OwnerIsNext(st.ring, x, p);
      }
    }
  }

  /** `get_replicas` for any factor: that many distinct owners if the ring has them, the primary
      first, and a smaller factor gives a prefix of what a larger one gives. */
  lemma ReplicasExact(ring: Ring, x: int, rf: int, more: int)
    requires rf <= more
    ensures var r := Take(Preference(ring, x), rf);
      && NoDuplicates(r) && (forall n :: n in r ==> n in ring.Values)
      && |r| == (if rf <= 0 then 0 else if rf < |ring.Values| then rf else |ring.Values|)
      && (rf > 0 ==> Owner(ring, x) == if r == [] then None else Some(r[0]))
      && r <= Take(Preference(ring, x), more)
  {
    PreferenceExact(ring, x);
  }

  function NoneOf(gone: seq<Node>): Node -> bool {
    (n: Node) => n !in gone
  }

  /** Each replica is the key's primary on the ring without the replicas before it: the nearest owner
      clockwise that has not been named yet. */
  lemma {:induction false} ReplicaIsNextOwner(ring: Ring, x: int, rf: int, i: nat)
    requires i < |Take(Preference(ring, x), rf)|
    ensures var r := Take(Preference(ring, x), rf);
      Owner(Restrict(ring, NoneOf(r[..i])), x) == Some(r[i])
  {
    var p, r := Preference(ring, x), Take(Preference(ring, x), rf);
    assert r[..i] == p[..i] && r[i] == p[i];
    NextAfter(ring, x, i);
  }

  lemma {:induction false} NextAfter(ring: Ring, x: int, i: nat)
    requires i < |Preference(ring, x)|
    ensures var p := Preference(ring, x);
      Owner(Restrict(ring, NoneOf(p[..i])), x) == Some(p[i])
  {
    var p := Preference(ring, x);
    PreferenceExact(ring, x);
    PreferenceRestrict(ring, NoneOf(p[..i]), x);
    WithoutPrefix(p, i);
  }

  lemma {:induction false} WithoutPrefix(p: seq<Node>, i: nat)
    requires NoDuplicates(p) && i <= |p|
    ensures Filter(p, NoneOf(p[..i])) == p[i..]
  {
    assert p == p[..i] + p[i..];
    forall n | n in p[i..]
      ensures n !in p[..i]
    {
      var j :| i <= j < |p| && p[j] == n;
    }
    FilterHalves(p[..i], p[i..], NoneOf(p[..i]));
  }

  // ----- canonical rings

  /** No virtual point of one node coincides with a virtual point of another. */
  ghost predicate CollisionFree(hash: string -> int, v: nat, nodes: set<Node>) {
    forall n, m :: n in nodes && m in nodes && n != m ==> Points(hash, n, v) !! Points(hash, m, v)
  }

  /** A hash without collisions on strings is collision-free for every node set. */
  lemma InjectiveHashIsCollisionFree(hash: string -> int, v: nat, nodes: set<Node>)
    requires forall s, t :: hash(s) == hash(t) ==> s == t
    ensures CollisionFree(hash, v, nodes)
  {
    forall n, m | n in nodes && m in nodes && n != m
      ensures Points(hash, n, v) !! Points(hash, m, v)
    {
      if h :| h in Points(hash, n, v) && h in Points(hash, m, v) {
        var i :| 0 <= i < v && hash(Label(n, i)) == h;
        var j :| 0 <= j < v && hash(Label(m, j)) == h;
        LabelInjective(n, i, m, j);
      }
    }
  }

  /** `ring` holds exactly the virtual points of `nodes`, each with its own node. */
  ghost predicate RingOf(hash: string -> int, v: nat, ring: Ring, nodes: set<Node>) {
    && (forall h :: h in ring ==> ring[h] in nodes && h in Points(hash, ring[h], v))
    && (forall n, h :: n in nodes && h in Points(hash, n, v) ==> h in ring && ring[h] == n)
  }

  lemma RingOfUnique(hash: string -> int, v: nat, a: Ring, b: Ring, nodes: set<Node>)
    requires RingOf(hash, v, a, nodes) && RingOf(hash, v, b, nodes)
    ensures a == b
  {
    forall h
      ensures h in a <==> h in b
      ensures h in a ==> a[h] == b[h]
    {
      if h in a {
        assert a[h] in nodes && h in Points(hash, a[h], v);
      }
      if h in b {
        assert b[h] in nodes && h in Points(hash, b[h], v);
      }
    }
  }

  datatype Change = Join(node: Node) | Leave(node: Node)

  function Apply(hash: string -> int, v: nat, st: State, c: Change): State {
    match c
    case Join(n) => Add(hash, v, st, n)
    case Leave(n) => Remove(st, n)
  }

  /** The ring after any sequence of `add_node` and `remove_node` calls on an empty ring. */
  function Changed(hash: string -> int, v: nat, changes: seq<Change>): State {
    if changes == [] then EMPTY
    else Apply(hash, v, Changed(hash, v, changes[..|changes| - 1]), changes[|changes| - 1])
  }

  /** Every node that joins is drawn from `universe`. */
  ghost predicate Within(changes: seq<Change>, universe: set<Node>) {
    forall i :: 0 <= i < |changes| && changes[i].Join? ==> changes[i].node in universe
  }

  /** The ring depends only on the final node set, not on the history of changes. */
  ghost predicate Canonical(hash: string -> int, v: nat, universe: set<Node>) {
    forall a, b ::
      Within(a, universe) && Within(b, universe) && Changed(hash, v, a).nodes == Changed(hash, v, b).nodes
      ==> Changed(hash, v, a) == Changed(hash, v, b)
  }

  lemma CollisionFreeSubset(hash: string -> int, v: nat, small: set<Node>, large: set<Node>)
    requires CollisionFree(hash, v, large) && small <= large
    ensures CollisionFree(hash, v, small)
  {
  }

  lemma {:induction false} AddRingOf(hash: string -> int, v: nat, st: State, node: Node)
    requires CollisionFree(hash, v, st.nodes + {node}) && RingOf(hash, v, st.ring, st.nodes)
    ensures var after := Add(hash, v, st, node);
      after.nodes == st.nodes + {node} && RingOf(hash, v, after.ring, after.nodes)
  {
    if node !in st.nodes {
      var ring := AddPoints(hash, st.ring, node, v);
      forall h | h in ring
        ensures ring[h] in st.nodes + {node} && h in Points(hash, ring[h], v)
      {
      }
      forall n, h | n in st.nodes + {node} && h in Points(hash, n, v)
        ensures h in ring && ring[h] == n
      {
        if n != node {
          assert Points(hash, n, v) !! Points(hash, node, v);
        }
      }
    } else {
      assert st.nodes + {node} == st.nodes;
    }
  }

  lemma RemoveRingOf(hash: string -> int, v: nat, st: State, node: Node)
    requires RingOf(hash, v, st.ring, st.nodes)
    ensures var after := Remove(st, node);
      after.nodes == st.nodes - {node} && RingOf(hash, v, after.ring, after.nodes)
  {
  }

  lemma {:induction false} ChangedRingOf(hash: string -> int, v: nat, changes: seq<Change>, universe: set<Node>)
    requires CollisionFree(hash, v, universe) && Within(changes, universe)
    ensures var st := Changed(hash, v, changes);
      st.nodes <= universe && RingOf(hash, v, st.ring, st.nodes)
  {
    if changes != [] {
      var n := |changes| - 1;
      ChangedRingOf(hash, v, changes[..n], universe);
      var st := Changed(hash, v, changes[..n]);
      match changes[n]
      case Join(node) =>
        CollisionFreeSubset(hash, v, st.nodes + {node}, universe);
        AddRingOf(hash, v, st, node);
      case Leave(node) => RemoveRingOf(hash, v, st, node);
    }
  }

  lemma {:induction false} JoinTwo(hash: string -> int, v: nat, n: Node, m: Node)
    requires n != m
    ensures Changed(hash, v, [Join(n), Join(m)])
         == State(AddPoints(hash, AddPoints(hash, map[], n, v), m, v), {n, m})
  {
    var changes := [Join(n), Join(m)];
    assert changes[..1] == [Join(n)] && [Join(n)][..0] == [];
    assert Changed(hash, v, [Join(n)]) == State(AddPoints(hash, map[], n, v), {n});
  }

  /** At a shared point the order of two joins shows. */
  lemma JoinOrderShows(hash: string -> int, v: nat, n: Node, m: Node, h: int) returns (changes: seq<Change>)
    requires n != m && h in Points(hash, n, v) && h in Points(hash, m, v)
    ensures Within(changes, {n, m})
    ensures var st := Changed(hash, v, changes);
      st.nodes == {n, m} && h in st.ring && st.ring[h] == m
  {
    changes := [Join(n), Join(m)];
    JoinTwo(hash, v, n, m);
  }

  lemma CollisionNotCanonical(hash: string -> int, v: nat, universe: set<Node>, n: Node, m: Node)
    requires n in universe && m in universe && n != m && !(Points(hash, n, v) !! Points(hash, m, v))
    ensures !Canonical(hash, v, universe)
  {
    var h := CommonTo(Points(hash, n, v), Points(hash, m, v));
    var a := JoinOrderShows(hash, v, n, m, h);
    var b := JoinOrderShows(hash, v, m, n, h);
    assert {n, m} == {m, n};
    HistoriesDiffer(hash, v, universe, a, b);
  }

  lemma HistoriesDiffer(hash: string -> int, v: nat, universe: set<Node>, a: seq<Change>, b: seq<Change>)
    requires Within(a, universe) && Within(b, universe)
    requires Changed(hash, v, a).nodes == Changed(hash, v, b).nodes && Changed(hash, v, a) != Changed(hash, v, b)
    ensures !Canonical(hash, v, universe)
  {
  }

  /** The ring is canonical exactly when no two nodes' virtual points collide: with a collision,
      the node added last owns the point. */
  lemma CanonicalIffCollisionFree(hash: string -> int, v: nat, universe: set<Node>)
    ensures Canonical(hash, v, universe) <==> CollisionFree(hash, v, universe)
  {
    if CollisionFree(hash, v, universe) {
      forall a, b | Within(a, universe) && Within(b, universe)
          && Changed(hash, v, a).nodes == Changed(hash, v, b).nodes
        ensures Changed(hash, v, a) == Changed(hash, v, b)
      {
        ChangedRingOf(hash, v, a, universe);
        ChangedRingOf(hash, v, b, universe);
        RingOfUnique(hash, v, Changed(hash, v, a).ring, Changed(hash, v, b).ring, Changed(hash, v, a).nodes);
      }
    } else {
      var n, m :| n in universe && m in universe && n != m && !(Points(hash, n, v) !! Points(hash, m, v));
      CollisionNotCanonical(hash, v, universe, n, m);
    }
  }

  /** Building a fresh ring from a list of nodes, in any order and with repetitions. */
  lemma {:induction false} BuildRingOf(hash: string -> int, v: nat, nodes: seq<Node>, universe: set<Node>)
    requires CollisionFree(hash, v, universe) && forall n :: n in nodes ==> n in universe
    ensures var st := Build(hash, v, nodes);
      && (forall n :: n in st.nodes <==> n in nodes)
      && RingOf(hash, v, st.ring, st.nodes)
  {
    if nodes != [] {
      var init, last := nodes[..|nodes| - 1], nodes[|nodes| - 1];
      assert nodes == init + [last];
      BuildRingOf(hash, v, init, universe);
      CollisionFreeSubset(hash, v, Build(hash, v, init).nodes + {last}, universe);
      AddRingOf(hash, v, Build(hash, v, init), last);
    }
  }

  /** Incremental maintenance and a rebuild from scratch agree. */
  lemma RebuildAgrees(hash: string -> int, v: nat, changes: seq<Change>, nodes: seq<Node>, universe: set<Node>)
    requires CollisionFree(hash, v, universe) && Within(changes, universe)
    requires forall n :: n in nodes <==> n in Changed(hash, v, changes).nodes
    ensures Build(hash, v, nodes) == Changed(hash, v, changes)
  {
    ChangedRingOf(hash, v, changes, universe);
    BuildRingOf(hash, v, nodes, universe);
    var a, b := Build(hash, v, nodes), Changed(hash, v, changes);
    assert a.nodes == b.nodes;
    RingOfUnique(hash, v, a.ring, b.ring, a.nodes);
  }

  /** Adding a node and removing it again undoes itself exactly when none of its points was
      already taken; an overwritten owner is not restored. */
  lemma AddThenRemove(hash: string -> int, v: nat, st: State, node: Node)
    requires OwnersAreMembers(st) && node !in st.nodes
    ensures Remove(Add(hash, v, st, node), node) == st <==> Points(hash, node, v) !! st.ring.Keys
  {
    var ring := AddPoints(hash, st.ring, node, v);
    var back := Restrict(ring, IsNot(node));
    assert Remove(Add(hash, v, st, node), node) == State(back, st.nodes);
    assert forall h :: h in back <==> h in st.ring && h !in Points(hash, node, v);
    if back == st.ring {
      forall h | h in st.ring
        ensures h !in Points(hash, node, v)
      {
        assert h in back;
      }
    }
  }

  /** The node at place `i` is named there for the first time. */
  ghost predicate FirstNamed(nodes: seq<Node>, i: nat)
    requires i < |nodes|
  {
    nodes[i] !in nodes[..i]
  }

  /** A point shared by several nodes belongs to the one that was added last; a node that is named again
      is not added again. */
  lemma {:induction false} LastAddedOwns(hash: string -> int, v: nat, nodes: seq<Node>, h: int) returns (i: nat)
    requires h in Build(hash, v, nodes).ring
    ensures i < |nodes| && FirstNamed(nodes, i)
    ensures Build(hash, v, nodes).ring[h] == nodes[i] && h in Points(hash, nodes[i], v)
    ensures forall j :: i < j < |nodes| && FirstNamed(nodes, j) ==> h !in Points(hash, nodes[j], v)
  {
    var m := |nodes| - 1;
    var init, last := nodes[..m], nodes[m];
    BuildNames(hash, v, init);
    BuildSnoc(hash, v, init, last);
    assert nodes == init + [last];
    if last !in init && h in Points(hash, last, v) {
      i := m;
    } else {
      i := LastAddedOwns(hash, v, init, h);
      FirstNamedPrefix(nodes, m, i);
      forall j | i < j < |nodes| && FirstNamed(nodes, j)
        ensures h !in Points(hash, nodes[j], v)
      {
        if j < m {
          FirstNamedPrefix(nodes, m, j);
        }
      }
    }
  }

  lemma FirstNamedPrefix(nodes: seq<Node>, m: nat, i: nat)
    requires i < m <= |nodes|
    ensures FirstNamed(nodes[..m], i) <==> FirstNamed(nodes, i)
  {
    assert nodes[..m][..i] == nodes[..i];
  }

  lemma BuildSnoc(hash: string -> int, v: nat, init: seq<Node>, last: Node)
    ensures Build(hash, v, init + [last]) == Add(hash, v, Build(hash, v, init), last)
  {
    assert (init + [last])[..|init|] == init;
  }

  lemma {:induction false} BuildNames(hash: string -> int, v: nat, nodes: seq<Node>)
    ensures forall n :: n in Build(hash, v, nodes).nodes <==> n in nodes
  {
    if nodes != [] {
      BuildNames(hash, v, nodes[..|nodes| - 1]);
      assert nodes == nodes[..|nodes| - 1] + [nodes[|nodes| - 1]];
    }
  }

  // ----- preference lists of smaller and larger node sets

  /** For collision-free nodes, the preference list over a subset of the nodes is the full list
      with the missing nodes taken out. */
  lemma SubsetFilters(hash: string -> int, v: nat, small: Ring, part: set<Node>, large: Ring, all: set<Node>, x: int)
    requires RingOf(hash, v, small, part) && RingOf(hash, v, large, all) && part <= all
    ensures Preference(small, x) == Filter(Preference(large, x), Among(part))
  {
    var r := Restrict(large, Among(part));
    assert forall h :: h in small ==> h in r && r[h] == small[h];
    assert forall h :: h in r ==> h in small;
    assert small == r;
    PreferenceRestrict(large, Among(part), x);
  }

  /** The first `rf` of a list gained `node` at some place and lost at most their last member. */
  ghost predicate OneInserted(before: seq<Node>, after: seq<Node>, node: Node, rf: int) {
    exists j :: 0 <= j <= |before| && j < rf
      && Take(after, rf) == before[..j] + [node] + Take(before[j..], rf - j - 1)
  }

  lemma {:induction false} InsertedTake(before: seq<Node>, after: seq<Node>, node: Node, rf: int)
    requires NoDuplicates(after) && before == Filter(after, IsNot(node))
    ensures Take(after, rf) == Take(before, rf) || OneInserted(before, after, node, rf)
  {
    if node in after {
      var j :| 0 <= j < |after| && after[j] == node;
      FilterDropsOne(after, j, IsNot(node));
      if j < rf {
        TakeAround(after, j, rf);
      } else {
        TakeBefore(after, j, rf);
      }
    } else {
      FilterAll(after, IsNot(node));
    }
  }

  lemma TakeAround(after: seq<Node>, j: nat, rf: int)
    requires j < |after| && j < rf
    ensures OneInserted(Cut(after, j), after, after[j], rf)
  {
    var before := Cut(after, j);
    assert before[..j] == after[..j] && before[j..] == after[j + 1..];
    assert Take(after, rf) == before[..j] + [after[j]] + Take(before[j..], rf - j - 1);
  }

  lemma TakeBefore(after: seq<Node>, j: nat, rf: int)
    requires j < |after| && rf <= j
    ensures Take(after, rf) == Take(Cut(after, j), rf)
  {
  }

  /** A node joining without collisions changes the replicas of any key by at most itself: it is
      inserted at one place, and only the last of the old replicas can drop out. */
  lemma {:induction false} AddChangesOneReplica(hash: string -> int, v: nat, st: State, node: Node, x: int, rf: int)
    requires OwnersAreMembers(st) && node !in st.nodes && Points(hash, node, v) !! st.ring.Keys
    ensures var before := Preference(st.ring, x);
      var after := Preference(Add(hash, v, st, node).ring, x);
      Take(after, rf) == Take(before, rf) || OneInserted(before, after, node, rf)
  {
    var bigger := Add(hash, v, st, node);
    AddThenRemove(hash, v, st, node);
    RemoveFilters(bigger, node, x);
    PreferenceExact(bigger.ring, x);
    InsertedTake(Preference(st.ring, x), Preference(bigger.ring, x), node, rf);
  }
}
