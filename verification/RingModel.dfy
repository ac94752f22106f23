/** The consistent hash ring on values: a map from hash points to node names. */
module RingModel {
  import opened Options
  import opened Sequences

  type Node = string
  type Ring = map<int, Node>

  // ----- labels of virtual nodes

  function Decimal(n: nat): (s: string)
    ensures s != [] && forall c :: c in s ==> '0' <= c <= '9'
  {
    if n < 10 then [('0' as int + n) as char]
    else Decimal(n / 10) + [('0' as int + n % 10) as char]
  }

  /** The number that a string of decimal digits denotes. */
  function Denoted(s: string): int {
    if s == "" then 0 else 10 * Denoted(s[..|s| - 1]) + (s[|s| - 1] as int - '0' as int)
  }

  /** Reading a number's decimal digits gives the number back, and there is no leading zero. */
  lemma {:induction false} DecimalDenotes(n: nat)
    ensures Denoted(Decimal(n)) == n && (n > 0 ==> Decimal(n)[0] != '0')
  {
    var s := Decimal(n);
    if n >= 10 {
      DecimalDenotes(n / 10);
      assert s[..|s| - 1] == Decimal(n / 10);
    } else {
      assert s[..|s| - 1] == "";
    }
  }

  function Label(node: Node, i: nat): string {
    node + "#" + Decimal(i)
  }

  lemma {:induction false} DecimalInjective(a: nat, b: nat)
    requires Decimal(a) == Decimal(b)
    ensures a == b
  {
    var s := Decimal(a);
    if a >= 10 && b >= 10 {
      assert Decimal(a / 10) == s[..|s| - 1] == Decimal(b / 10);
      DecimalInjective(a / 10, b / 10);
      assert s[|s| - 1] as int - '0' as int == a % 10 == b % 10;
    } else {
      assert s[|s| - 1] as int - '0' as int == a % 10 == b % 10;
      assert a < 10 ==> |Decimal(a)| == 1;
      assert b < 10 ==> |Decimal(b)| == 1;
    }
  }

  /** The label determines the node and the virtual index, whatever characters node names use. */
  lemma LabelInjective(n: Node, i: nat, m: Node, j: nat)
    requires Label(n, i) == Label(m, j)
    ensures n == m && i == j
  {
    var s := Label(n, i);
    var d, e := Decimal(i), Decimal(j);
    assert s[|s| - 1 - |d|] == '#' == s[|s| - 1 - |e|];
    assert forall c :: 0 <= c < |d| ==> d[c] in d;
    assert forall c :: 0 <= c < |e| ==> e[c] in e;
    assert |d| == |e|;
    assert d == s[|s| - |d|..] == e;
    assert n == s[..|s| - 1 - |d|] == m;
    DecimalInjective(i, j);
  }

  // ----- sorted points and the clockwise walk

  ghost predicate StrictlySorted(s: seq<int>) {
    forall i, j :: 0 <= i < j < |s| ==> s[i] < s[j]
  }

  ghost predicate IsLeast(s: set<int>, m: int) {
    m in s && forall x :: x in s ==> m <= x
  }

  lemma LeastOf(s: set<int>) returns (m: int)
    requires s != {}
    ensures IsLeast(s, m)
  {
    m := AnyOf(s);
    if s != {m} {
      var other := LeastOf(s - {m});
      assert forall x :: x in s <==> x == m || x in s - {m};
      if other < m {
        m := other;
      }
    }
  }

  lemma LeastExists(s: set<int>)
    requires s != {}
    ensures exists m :: m in s && forall x :: x in s ==> m <= x
  {
    var m := LeastOf(s);
    assert m in s && forall x :: x in s ==> m <= x;
  }

  /** The elements of `s` in ascending order. */
  function Ascending(s: set<int>): seq<int>
    decreases |s|
  {
    if s == {} then []
    else
      LeastExists(s);
      var m :| m in s && forall x :: x in s ==> m <= x;
      [m] + Ascending(s - {m})
  }

  lemma {:induction false} AscendingFacts(s: set<int>)
    ensures StrictlySorted(Ascending(s)) && |Ascending(s)| == |s|
    ensures forall x :: x in Ascending(s) <==> x in s
    decreases |s|
  {
    if s != {} {
      LeastExists(s);
      var m :| m in s && forall x :: x in s ==> m <= x;
      AscendingFacts(s - {m});
      assert Ascending(s) == [m] + Ascending(s - {m});
      LeastFirst(m, Ascending(s - {m}), s);
    }
  }

  /** The least element of a set, put before the others in order, gives all of them in order. */
  lemma LeastFirst(m: int, rest: seq<int>, s: set<int>)
    requires m in s && (forall x :: x in s ==> m <= x)
    requires StrictlySorted(rest) && |rest| == |s - {m}| && forall x :: x in rest <==> x in s - {m}
    ensures StrictlySorted([m] + rest) && |[m] + rest| == |s|
    ensures forall x :: x in [m] + rest <==> x in s
  {
    forall i | 0 <= i < |rest|
      ensures m < rest[i]
    {
      var x := rest[i];
      assert x in rest;
    }
    forall x
      ensures x in [m] + rest <==> x in s
    {
      assert x in s <==> x == m || x in s - {m};
    }
  }

  /** Two strictly sorted sequences with the same members are equal. */
  lemma {:induction false} SortedUnique(a: seq<int>, b: seq<int>)
    requires StrictlySorted(a) && StrictlySorted(b)
    requires forall x :: x in a <==> x in b
    ensures a == b
  {
    if a == [] && b != [] {
      var x := FirstOf(b);
      assert false;
    } else if b == [] && a != [] {
      var x := FirstOf(a);
      assert false;
    } else if a != [] {
      assert a[0] in b && b[0] in a;
      forall x
        ensures x in a[1..] <==> x in b[1..]
      {
        assert x in a <==> x == a[0] || x in a[1..];
        assert x in b <==> x == b[0] || x in b[1..];
      }
      SortedUnique(a[1..], b[1..]);
    }
  }

  function After(x: int): int -> bool {
    (h: int) => h > x
  }

  function UpTo(x: int): int -> bool {
    (h: int) => h <= x
  }

  /** The points of a sorted list in clockwise order, starting just after `x`. */
  function Clockwise(points: seq<int>, x: int): seq<int> {
    Filter(points, After(x)) + Filter(points, UpTo(x))
  }

  /** The owners of the given points. */
  function Owners(ring: Ring, points: seq<int>): (r: seq<Node>)
    requires forall h :: h in points ==> h in ring
    ensures |r| == |points|
  {
    seq(|points|, i requires 0 <= i < |points| => var h := points[i]; assert h in points; ring[h])
  }

  /** First occurrences, in order. */
  function Distinct(s: seq<Node>): seq<Node> {
    if s == [] then []
    else
      var d, last := Distinct(s[..|s| - 1]), s[|s| - 1];
      if last in d then d else d + [last]
  }

  lemma {:induction false} DistinctFacts(s: seq<Node>)
    ensures NoDuplicates(Distinct(s))
    ensures forall x :: x in Distinct(s) <==> x in s
  {
    if s != [] {
      DistinctFacts(s[..|s| - 1]);
      assert s == s[..|s| - 1] + [s[|s| - 1]];
    }
  }

  /** All owners met when walking clockwise once around the ring from `x`. */
  function Walk(ring: Ring, x: int): (r: seq<Node>)
    ensures |r| == |Clockwise(Ascending(ring.Keys), x)|
  {
    AscendingFacts(ring.Keys);
    Owners(ring, Clockwise(Ascending(ring.Keys), x))
  }

  /** The preference list of a key hashed to `x`: distinct owners in clockwise order. */
  function Preference(ring: Ring, x: int): seq<Node> {
    Distinct(Walk(ring, x))
  }

  /** The primary of a key, as `get_node` must return it. */
  function Owner(ring: Ring, x: int): Option<Node> {
    var p := Preference(ring, x);
    if p == [] then None else Some(p[0])
  }

  function Take(s: seq<Node>, n: int): seq<Node> {
    if n <= 0 then [] else if n >= |s| then s else s[..n]
  }

  // ----- changing the node set

  function Points(hash: string -> int, node: Node, v: nat): set<int> {
    set i | 0 <= i < v :: hash(Label(node, i))
  }

  /** The first `v` virtual points of `node` written into the ring, in order. */
  function AddPoints(hash: string -> int, ring: Ring, node: Node, v: nat): (r: Ring)
    ensures r.Keys == ring.Keys + Points(hash, node, v)
    ensures forall h :: h in r ==> r[h] == if h in Points(hash, node, v) then node else ring[h]
  {
    if v == 0 then ring
    else
      var r := AddPoints(hash, ring, node, v - 1);
      assert Points(hash, node, v) == Points(hash, node, v - 1) + {hash(Label(node, v - 1))};
      r[hash(Label(node, v - 1)) := node]
  }

  function Is(node: Node): Node -> bool {
    (n: Node) => n == node
  }

  function IsNot(node: Node): Node -> bool {
    (n: Node) => n != node
  }

  function Among(nodes: set<Node>): Node -> bool {
    (n: Node) => n in nodes
  }

  /** The part of the ring whose owners satisfy `p`. */
  function Restrict(ring: Ring, p: Node -> bool): Ring {
    map h | h in ring && p(ring[h]) :: ring[h]
  }

  datatype State = State(ring: Ring, nodes: set<Node>)

  const EMPTY := State(map[], {})

  function Add(hash: string -> int, v: nat, st: State, node: Node): State {
    if node in st.nodes then st
    else State(AddPoints(hash, st.ring, node, v), st.nodes + {node})
  }

  function Remove(st: State, node: Node): State {
    if node !in st.nodes then st
    else State(Restrict(st.ring, IsNot(node)), st.nodes - {node})
  }

  function Build(hash: string -> int, v: nat, nodes: seq<Node>): State {
    if nodes == [] then EMPTY else Add(hash, v, Build(hash, v, nodes[..|nodes| - 1]), nodes[|nodes| - 1])
  }

  /** Every owner on the ring is a member, in every reachable state. */
  ghost predicate OwnersAreMembers(st: State) {
    forall h :: h in st.ring ==> st.ring[h] in st.nodes
  }
}
