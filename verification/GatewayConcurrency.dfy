/** Concurrent requests at the gateway. Handlers interleave at their remote calls, and a call may be
    carried out by the node at any later time, even after the client was told that it failed. */
module GatewayConcurrency {
  import opened Options
  import L = LruModel
  import B = BreakerModel
  import opened GatewayModel

  /** A client's request. */
  datatype Ask = Read(key: Key) | Write(key: Key, value: Value, ttl: L.Seconds) | Erase(key: Key)

  /** What the node found when it carried out the call. */
  datatype Answer = Answer(hit: Option<Value>, found: bool)

  /** How far a request has come: the node it was sent to, what the node found, and what the client
      was told. */
  datatype Status = Status(target: Option<Node>, answer: Option<Answer>, reply: Option<Reply>)

  const WAITING := Status(None, None, None)

  datatype World = World(gate: Gate, statuses: seq<Status>)

  /** A handler runs up to its remote call; a node carries out a call; a handler runs on from its
      remote call to the reply; or something else happens to the tables or nodes. */
  datatype Step =
    | Start(i: nat, at: real)
    | Act(i: nat, tick: L.Time)
    | End(i: nat, ending: Ending, at: real)
    | Other(event: Request)

  function OpOf(ask: Ask, tick: L.Time): L.Op {
    match ask
    case Read(k) => L.Get(k, tick)
    case Write(k, v, ttl) => L.Put(k, v, ttl, tick)
    case Erase(k) => L.Remove(k)
  }

  // ----- one step

  /** Where a request is sent, if the breakers let it through and the node is registered. */
  function Destination(env: Env, g: Gate, ask: Ask, at: real): Option<Node> {
    var n := if ask.Read? then ReadTarget(env, g, ask.key, at)
             else if Sent(env, g, ask.key, at) then Writable(env, ask.key)
             else None;
    if n.Some? && n.value in env.known then n else None
  }

  /** The tables once the breakers have been asked. */
  function Consulted(env: Env, g: Gate, ask: Ask, at: real): Gate {
    if ask.Read? then g.(circuits := Filtered(env.breaker, g.circuits, env.replicas(ask.key), at).0)
    else Asked(env, g, ask.key, at)
  }

  function Found(env: Env, g: Gate, n: Node, ask: Ask, tick: L.Time): Answer {
    Answer(L.Step(env.cfg(n), ListOf(g, n), OpOf(ask, tick)).hit, L.Find(ListOf(g, n), ask.key).Some?)
  }

  function CarriedOut(env: Env, g: Gate, n: Node, ask: Ask, tick: L.Time): Gate {
    g.(nodes := g.nodes[n := L.Step(env.cfg(n), ListOf(g, n), OpOf(ask, tick)).list])
  }

  /** What the client is told. */
  function ReplyFor(env: Env, ask: Ask, s: Status, ending: Ending): Reply
    requires s.target.Some? && (ending == Answered ==> s.answer.Some?)
  {
    var failed := Failed(env, s.target.value, ending);
    if failed.Some? then failed.value
    else
      match ask
      case Read(_) => if s.answer.value.hit.Some? then Hit(s.answer.value.hit.value) else NotFound
      case Write(_, _, _) => Done
      case Erase(_) => if s.answer.value.found then Done else NotFound
  }

  /** The tables once a call has ended: the breaker is told, and an acknowledged write is pinned. */
  function Settled(env: Env, g: Gate, ask: Ask, n: Node, ending: Ending, at: real): Gate {
    var told := g.(circuits := Noted(env.breaker, g.circuits, n, Outcome(ending, at)));
    if ask.Write? && ending == Answered then told.(pins := told.pins[ask.key := (n, at)]) else told
  }

  /** A call can be carried out once, at any time after it was sent, and can end once. */
  predicate Enabled(env: Env, asks: seq<Ask>, w: World, step: Step) {
    match step
    case Start(i, _) => i < |asks| == |w.statuses| && w.statuses[i] == WAITING
    case Act(i, _) => i < |asks| == |w.statuses| && w.statuses[i].target.Some? && w.statuses[i].answer.None?
    case End(i, ending, _) =>
      && i < |asks| == |w.statuses| && w.statuses[i].target.Some? && w.statuses[i].reply.None?
      && (ending == Answered ==> w.statuses[i].answer.Some?)
    case Other(event) => !event.Get? && !event.Put? && !event.Delete?
  }

  function Next(env: Env, asks: seq<Ask>, w: World, step: Step): World {
    if !Enabled(env, asks, w, step) then w
    else
      match step
      case Start(i, at) =>
        var n := Destination(env, w.gate, asks[i], at);
        World(Consulted(env, w.gate, asks[i], at),
              w.statuses[i := Status(n, None, if n.None? then Some(Unavailable) else None)])
      case Act(i, tick) =>
        var n := w.statuses[i].target.value;
        World(CarriedOut(env, w.gate, n, asks[i], tick),
              w.statuses[i := w.statuses[i].(answer := Some(Found(env, w.gate, n, asks[i], tick)))])
      case End(i, ending, at) =>
        World(Settled(env, w.gate, asks[i], w.statuses[i].target.value, ending, at),
              w.statuses[i := w.statuses[i].(reply := Some(ReplyFor(env, asks[i], w.statuses[i], ending)))])
      case Other(event) => w.(gate := Handle(env, w.gate, event).gate)
  }

  function Run(env: Env, asks: seq<Ask>, steps: seq<Step>): World {
    if steps == [] then World(NEW_GATE, seq(|asks|, _ => WAITING))
    else Next(env, asks, Run(env, asks, steps[..|steps| - 1]), steps[|steps| - 1])
  }

  /** The step at `t` happens to request `i`. */
  predicate Happens(env: Env, asks: seq<Ask>, steps: seq<Step>, t: nat, i: nat) {
    && t < |steps| && !steps[t].Other? && steps[t].i == i
    && Enabled(env, asks, Run(env, asks, steps[..t]), steps[t])
  }

  /** The step at `t` carries out a write or an erasure of the key. */
  predicate CarriesOutWrite(env: Env, asks: seq<Ask>, steps: seq<Step>, t: nat, k: Key) {
    && t < |steps| && steps[t].Act? && Enabled(env, asks, Run(env, asks, steps[..t]), steps[t])
    && asks[steps[t].i].key == k && !asks[steps[t].i].Read?
  }

  /** The value of the last write carried out for a key, unless an erasure was carried out since. */
  function LastWrite(env: Env, asks: seq<Ask>, steps: seq<Step>, k: Key): Option<Value> {
    if steps == [] then None
    else
      var t := |steps| - 1;
      if CarriesOutWrite(env, asks, steps, t, k)
      then (if asks[steps[t].i].Write? then Some(asks[steps[t].i].value) else None)
      else LastWrite(env, asks, steps[..t], k)
  }

  // ----- the invariant

  ghost predicate OnlyAtPrimary(env: Env, asks: seq<Ask>, steps: seq<Step>, s: seq<L.Entry>, n: Node) {
    forall e :: e in s ==> env.primary(e.key) == Some(n) && LastWrite(env, asks, steps, e.key) == Some(e.value)
  }

  ghost predicate Consistent(env: Env, asks: seq<Ask>, steps: seq<Step>, g: Gate) {
    forall n :: n in g.nodes ==> OnlyAtPrimary(env, asks, steps, g.nodes[n], n)
  }

  /** Writes and erasures go to the primary only. */
  ghost predicate SentRight(env: Env, asks: seq<Ask>, w: World) {
    && |w.statuses| == |asks|
    && forall i :: 0 <= i < |asks| && w.statuses[i].target.Some? && !asks[i].Read? ==>
      env.primary(asks[i].key) == w.statuses[i].target
  }

  lemma {:induction false} RunSentRight(env: Env, asks: seq<Ask>, steps: seq<Step>)
    ensures SentRight(env, asks, Run(env, asks, steps))
  {
    if steps != [] {
      RunSentRight(env, asks, steps[..|steps| - 1]);
    }
  }

  /** Only carried-out calls add entries to a node. */
  lemma ListsAfter(env: Env, asks: seq<Ask>, w: World, step: Step, n: Node, e: L.Entry)
    requires e in ListOf(Next(env, asks, w, step).gate, n)
    requires !(step.Act? && Enabled(env, asks, w, step) && w.statuses[step.i].target == Some(n))
    ensures e in ListOf(w.gate, n)
  {
  }

  /** In every reachable state a key is stored at its primary only, with the last value carried out. */
  lemma {:induction false} RunConsistent(env: Env, asks: seq<Ask>, steps: seq<Step>)
    ensures Consistent(env, asks, steps, Run(env, asks, steps).gate)
  {
    if steps != [] {
      var init, step := steps[..|steps| - 1], steps[|steps| - 1];
      RunConsistent(env, asks, init);
      RunSentRight(env, asks, init);
      var w := Run(env, asks, init);
      var next := Run(env, asks, steps);
      forall n, e | n in next.gate.nodes && e in next.gate.nodes[n]
        ensures env.primary(e.key) == Some(n) && LastWrite(env, asks, steps, e.key) == Some(e.value)
      {
        assert OnlyAtPrimary(env, asks, init, ListOf(w.gate, n), n);
        if step.Act? && Enabled(env, asks, w, step) && w.statuses[step.i].target == Some(n) {
          StepMembers(env.cfg(n), ListOf(w.gate, n), OpOf(asks[step.i], step.tick));
        } else {
          ListsAfter(env, asks, w, step, n, e);
        }
      }
    }
  }

  // ----- every answer has its moment

  /** A request that was sent somewhere was sent by one of its steps. */
  lemma {:induction false} SentAt(env: Env, asks: seq<Ask>, steps: seq<Step>, i: nat) returns (r: nat)
    requires i < |asks| && |Run(env, asks, steps).statuses| == |asks|
    requires Run(env, asks, steps).statuses[i].target.Some?
    ensures Happens(env, asks, steps, r, i) && steps[r].Start?
  {
    RunSentRight(env, asks, steps[..|steps| - 1]);
    var n := |steps| - 1;
    var w := Run(env, asks, steps[..n]);
    if w.statuses[i].target.Some? {
      r := SentAt(env, asks, steps[..n], i);
      assert steps[..n][..r] == steps[..r];
    } else {
      r := n;
    }
  }

  /** What a node found, it found by one of the request's steps. */
  lemma {:induction false} FoundAt(env: Env, asks: seq<Ask>, steps: seq<Step>, i: nat) returns (s: nat)
    requires i < |asks| && |Run(env, asks, steps).statuses| == |asks|
    requires Run(env, asks, steps).statuses[i].answer.Some?
    ensures Happens(env, asks, steps, s, i) && steps[s].Act?
    ensures var w := Run(env, asks, steps[..s]);
      |w.statuses| == |asks| && w.statuses[i].target.Some?
      && Run(env, asks, steps).statuses[i].answer
        == Some(Found(env, w.gate, w.statuses[i].target.value, asks[i], steps[s].tick))
  {
    RunSentRight(env, asks, steps[..|steps| - 1]);
    var n := |steps| - 1;
    var w := Run(env, asks, steps[..n]);
    if w.statuses[i].answer.Some? {
      s := FoundAt(env, asks, steps[..n], i);
      assert steps[..n][..s] == steps[..s];
    } else {
      s := n;
    }
  }

  /** The read was sent at `r`, carried out at `s`, and then `v` was the last value written. */
  ghost predicate Linearized(env: Env, asks: seq<Ask>, steps: seq<Step>, i: nat, r: nat, s: nat, v: Value) {
    && i < |asks| && r < s < |steps|
    && Happens(env, asks, steps, r, i) && steps[r].Start?
    && Happens(env, asks, steps, s, i) && steps[s].Act?
    && LastWrite(env, asks, steps[..s], asks[i].key) == Some(v)
  }

  /** Never a wrong value, under any interleaving: a read that ends with a value was sent, and then
      carried out at a moment when that value was the last one written for the key. */
  lemma HitsLinearize(env: Env, asks: seq<Ask>, steps: seq<Step>, t: nat, v: Value) returns (r: nat, s: nat)
    requires t < |steps| && steps[t].End? && Happens(env, asks, steps, t, steps[t].i)
    requires var w := Run(env, asks, steps[..t + 1]);
      steps[t].i < |w.statuses| && w.statuses[steps[t].i].reply == Some(Hit(v))
    ensures Linearized(env, asks, steps[..t], steps[t].i, r, s, v)
  {
    var i := steps[t].i;
    var before := steps[..t];
    assert steps[..t + 1][..t] == before;
    RunSentRight(env, asks, before);
    s := FoundAt(env, asks, before, i);
    assert before[..s] == steps[..s];
    RunSentRight(env, asks, before[..s]);
    r := SentAt(env, asks, before[..s], i);
    assert before[..s][..r] == before[..r];
    RunConsistent(env, asks, before[..s]);
    var w := Run(env, asks, before[..s]);
    var n := w.statuses[i].target.value;
    assert OnlyAtPrimary(env, asks, before[..s], ListOf(w.gate, n), n);
  }

  // ----- an acknowledged write and a later read

  /** The index of the last step that carries out a write or an erasure of the key, or -1. */
  function LastWriteAt(env: Env, asks: seq<Ask>, steps: seq<Step>, k: Key): (t: int)
    ensures -1 <= t < |steps|
  {
    if steps == [] then -1
    else
      var t := |steps| - 1;
      if CarriesOutWrite(env, asks, steps, t, k) then t else LastWriteAt(env, asks, steps[..t], k)
  }

  lemma CarriesOutPrefix(env: Env, asks: seq<Ask>, steps: seq<Step>, n: nat, t: nat, k: Key)
    requires t < n <= |steps|
    ensures CarriesOutWrite(env, asks, steps[..n], t, k) <==> CarriesOutWrite(env, asks, steps, t, k)
  {
    assert steps[..n][..t] == steps[..t];
  }

  /** A write carried out at `a` is the last one if and only if none was carried out since; its value
      is then the last value written. */
  lemma {:induction false} LastWriteIs(env: Env, asks: seq<Ask>, steps: seq<Step>, k: Key, a: nat)
    requires CarriesOutWrite(env, asks, steps, a, k)
    ensures LastWriteAt(env, asks, steps, k) == a <==>
      forall j :: a < j < |steps| ==> !CarriesOutWrite(env, asks, steps, j, k)
    ensures LastWriteAt(env, asks, steps, k) == a ==>
      LastWrite(env, asks, steps, k) == if asks[steps[a].i].Write? then Some(asks[steps[a].i].value) else None
  {
    var n := |steps| - 1;
    if !CarriesOutWrite(env, asks, steps, n, k) {
      CarriesOutPrefix(env, asks, steps, n, a, k);
      LastWriteIs(env, asks, steps[..n], k, a);
      forall j | a < j < n
        ensures CarriesOutWrite(env, asks, steps[..n], j, k) <==> CarriesOutWrite(env, asks, steps, j, k)
      {
        CarriesOutPrefix(env, asks, steps, n, j, k);
      }
    }
  }

  /** What a node found is not forgotten. */
  lemma {:induction false} AnswerStays(env: Env, asks: seq<Ask>, steps: seq<Step>, i: nat, m: nat)
    requires i < |asks| && m <= |steps| && |Run(env, asks, steps[..m]).statuses| == |asks|
    requires Run(env, asks, steps[..m]).statuses[i].answer.Some?
    ensures |Run(env, asks, steps).statuses| == |asks|
    ensures Run(env, asks, steps).statuses[i].answer == Run(env, asks, steps[..m]).statuses[i].answer
  {
    if m == |steps| {
      assert steps[..m] == steps;
    } else {
      var n := |steps| - 1;
      assert steps[..n][..m] == steps[..m];
      AnswerStays(env, asks, steps[..n], i, m);
    }
  }

  /** The step at `s` carries out request `i`. */
  ghost predicate CarriedOutAt(env: Env, asks: seq<Ask>, steps: seq<Step>, i: nat, s: nat) {
    Happens(env, asks, steps, s, i) && steps[s].Act?
  }

  /** What is carried out while the request still waits to start comes after. */
  lemma {:induction false} CarriedOutLater(env: Env, asks: seq<Ask>, steps: seq<Step>, i: nat, s: nat, e: nat)
    requires i < |asks| && e <= |steps| && CarriedOutAt(env, asks, steps, i, s)
    requires |Run(env, asks, steps[..e]).statuses| == |asks| && Run(env, asks, steps[..e]).statuses[i].answer.None?
    ensures e <= s
  {
    if s < e {
      assert steps[..e][..s + 1] == steps[..s + 1] && steps[..s + 1][..s] == steps[..s];
      AnswerStays(env, asks, steps[..e], i, s + 1);
    }
  }

  /** Write `w` was acknowledged by the step at `e`, and read `i` of its key had not started then. */
  ghost predicate ReadAfterAcknowledged(env: Env, asks: seq<Ask>, steps: seq<Step>, w: nat, e: nat, i: nat) {
    && w < |asks| && i < |asks| && asks[w].Write? && asks[i].Read? && asks[w].key == asks[i].key
    && Happens(env, asks, steps, e, w) && steps[e].End? && steps[e].ending == Answered
    && |Run(env, asks, steps[..e]).statuses| == |asks| && Run(env, asks, steps[..e]).statuses[i] == WAITING
  }

  /** Read-your-writes among concurrent requests: a read that starts after a write was acknowledged and
      hits sees this write if and only if, between the moments at which the two were carried out, no
      other write or erasure of the key was carried out, be it one that was sent earlier. */
  lemma {:induction false} ReadSeesWriteIff(env: Env, asks: seq<Ask>, steps: seq<Step>, w: nat, e: nat, t: nat,
                                            v: Value)
    returns (a: nat, s: nat)
    requires t < |steps| && steps[t].End? && Happens(env, asks, steps, t, steps[t].i) && e < t
    requires ReadAfterAcknowledged(env, asks, steps, w, e, steps[t].i)
    requires var after := Run(env, asks, steps[..t + 1]);
      steps[t].i < |after.statuses| && after.statuses[steps[t].i].reply == Some(Hit(v))
    ensures a < e <= s < t && CarriedOutAt(env, asks, steps, w, a) && CarriedOutAt(env, asks, steps, steps[t].i, s)
    ensures var key := asks[w].key;
      var last := LastWriteAt(env, asks, steps[..s], key);
      && LastWrite(env, asks, steps[..s], key) == Some(v)
      && (last == a <==> forall j :: a < j < s ==> !CarriesOutWrite(env, asks, steps, j, key))
      && (last == a ==> v == asks[w].value)
  {
    var i, key := steps[t].i, asks[w].key;
    RunSentRight(env, asks, steps[..e]);
    a := FoundAt(env, asks, steps[..e], w);
    assert steps[..e][..a] == steps[..a];
    var r;
    r, s := HitsLinearize(env, asks, steps, t, v);
    assert steps[..t][..s] == steps[..s];
    CarriedOutLater(env, asks, steps, i, s, e);
    CarriesOutPrefix(env, asks, steps, s, a, key);
    LastWriteIs(env, asks, steps[..s], key, a);
    forall j | a < j < s
      ensures CarriesOutWrite(env, asks, steps[..s], j, key) <==> CarriesOutWrite(env, asks, steps, j, key)
    {
      CarriesOutPrefix(env, asks, steps, s, j, key);
    }
  }

  // ----- a late write

  /** One node and the default breaker settings. */
  function OneNode(): Env {
    Env((k: Key) => Some("p"), (k: Key) => ["p"], {"p"}, (n: Node) => L.Config(1, 0), B.Settings(5, 30.0))
  }

  const ASKS: seq<Ask> := [Write("k", "old", 0), Write("k", "new", 0), Read("k")]

  /** The first write times out at the gateway and is carried out late, after the second. */
  const LATE: seq<Step> := [
    Start(0, 0.0), End(0, Unreachable, 5.0), Start(1, 5.1), Act(1, 0), End(1, Answered, 5.2), Act(0, 0),
    Start(2, 5.3), Act(2, 0), End(2, Answered, 5.4)]

  /** The first write is reported as failed, the second is acknowledged, and a read a tenth of a second
      later returns the first. */
  lemma {:induction false} LateWriteWins()
    ensures var w := Run(OneNode(), ASKS, LATE);
      && |w.statuses| == 3 && w.statuses[0].reply == Some(Unavailable)
      && w.statuses[1].reply == Some(Done) && w.statuses[2].reply == Some(Hit("old"))
  {
    LatePrefixes();
    var sent := Run(OneNode(), ASKS, LATE[..3]);
    LateSent();
    var both := Run(OneNode(), ASKS, LATE[..6]);
    LateCarriedOut(sent);
    LateRead(both);
  }

  lemma LatePrefixes()
    ensures LATE[..1][..0] == [] && LATE[..2][..1] == LATE[..1] && LATE[..3][..2] == LATE[..2]
    ensures LATE[..4][..3] == LATE[..3] && LATE[..5][..4] == LATE[..4] && LATE[..6][..5] == LATE[..5]
    ensures LATE[..7][..6] == LATE[..6] && LATE[..8][..7] == LATE[..7] && LATE[..|LATE| - 1] == LATE[..8]
  {
  }

  /** Both writes have been sent, and the first has been given up. */
  ghost predicate BothSent(w: World) {
    && w.gate.nodes == map[] && w.gate.latency == map[]
    && "p" in w.gate.circuits && w.gate.circuits["p"].state == B.Closed
    && w.statuses == [Status(Some("p"), None, Some(Unavailable)), Status(Some("p"), None, None), WAITING]
  }

  lemma {:induction false} LateSent()
    ensures BothSent(Run(OneNode(), ASKS, LATE[..3]))
  {
    LatePrefixes();
    var env := OneNode();
    assert Run(env, ASKS, []).statuses == [WAITING, WAITING, WAITING];
    var one := Run(env, ASKS, LATE[..1]);
    assert one.statuses == [Status(Some("p"), None, None), WAITING, WAITING];
    var two := Run(env, ASKS, LATE[..2]);
    assert two.statuses == [Status(Some("p"), None, Some(Unavailable)), WAITING, WAITING];
  }

  ghost predicate BothCarriedOut(w: World) {
    && w.gate.nodes == map["p" := [L.Entry("k", "old", None)]] && w.gate.latency == map[]
    && "p" in w.gate.circuits && w.gate.circuits["p"].state == B.Closed
    && |w.statuses| == 3 && w.statuses[0].reply == Some(Unavailable)
    && w.statuses[1].reply == Some(Done) && w.statuses[2] == WAITING
  }

  lemma {:induction false} LateCarriedOut(sent: World)
    requires sent == Run(OneNode(), ASKS, LATE[..3]) && BothSent(sent)
    ensures BothCarriedOut(Run(OneNode(), ASKS, LATE[..6]))
  {
    LatePrefixes();
    var env := OneNode();
    var second, first := L.Entry("k", "new", None), L.Entry("k", "old", None);
    assert L.Insert(L.Config(1, 0), [], second) == [second];
    var four := Run(env, ASKS, LATE[..4]);
    assert four == Next(env, ASKS, sent, Act(1, 0));
    assert four.gate.nodes == map["p" := [second]];
    var five := Run(env, ASKS, LATE[..5]);
    assert L.Drop([second], "k") == [];
    assert L.Insert(L.Config(1, 0), [second], first) == [first];
  }

  lemma OneReplica(g: Gate, at: real)
    requires "p" in g.circuits && g.circuits["p"].state == B.Closed
    ensures ReadTarget(OneNode(), g, "k", at) == Some("p")
    ensures var asked := Filtered(OneNode().breaker, g.circuits, ["p"], at).0;
      "p" in asked && asked["p"].state == B.Closed
  {
    assert ["p"][..0] == [];
    assert Filtered(OneNode().breaker, g.circuits, [], at) == (g.circuits, []);
    assert Filtered(OneNode().breaker, g.circuits, ["p"], at).1 == ["p"];
  }

  lemma {:induction false} LateRead(both: World)
    requires both == Run(OneNode(), ASKS, LATE[..6]) && BothCarriedOut(both)
    ensures var w := Run(OneNode(), ASKS, LATE);
      && |w.statuses| == 3 && w.statuses[0].reply == Some(Unavailable)
      && w.statuses[1].reply == Some(Done) && w.statuses[2].reply == Some(Hit("old"))
  {
    LatePrefixes();
    var env := OneNode();
    OneReplica(both.gate, 5.3);
    var seven := Run(env, ASKS, LATE[..7]);
    assert seven == Next(env, ASKS, both, Start(2, 5.3));
    assert seven.statuses[2] == Status(Some("p"), None, None);
    var eight := Run(env, ASKS, LATE[..8]);
    assert eight.statuses[2].answer == Some(Answer(Some("old"), true));
  }

  // ----- one request at a time

  function RequestOf(ask: Ask, at: real, tick: L.Time, fate: Fate): Request {
    match ask
    case Read(k) => Get(k, at, tick, fate)
    case Write(k, v, ttl) => Put(k, v, ttl, at, tick, fate)
    case Erase(k) => Delete(k, at, tick, fate)
  }

  /** The steps of one request without anything in between. */
  function Alone(env: Env, asks: seq<Ask>, w: World, i: nat, at: real, tick: L.Time, fate: Fate): World {
    var started := Next(env, asks, w, Start(i, at));
    var acted := if Acts(fate) then Next(env, asks, started, Act(i, tick)) else started;
    Next(env, asks, acted, End(i, fate.ending, at))
  }

  ghost predicate AloneAgrees(env: Env, asks: seq<Ask>, w: World, i: nat, at: real, tick: L.Time, fate: Fate)
    requires i < |asks|
  {
    var handled := Handle(env, w.gate, RequestOf(asks[i], at, tick, fate));
    var after := Alone(env, asks, w, i, at, tick, fate);
    after.gate == handled.gate && |after.statuses| == |asks| && after.statuses[i].reply == Some(handled.reply)
  }

  /** A request that nothing interrupts does what its handler does in one go. */
  lemma {:induction false} AloneIsHandled(env: Env, asks: seq<Ask>, w: World, i: nat, at: real, tick: L.Time,
                                          fate: Fate)
    requires i < |asks| == |w.statuses| && w.statuses[i] == WAITING
    ensures AloneAgrees(env, asks, w, i, at, tick, fate)
  {
    if Destination(env, w.gate, asks[i], at).Some? {
      match asks[i]
      case Read(_) => ReadAlone(env, asks, w, i, at, tick, fate);
      case Write(_, _, _) => WriteAlone(env, asks, w, i, at, tick, fate);
      case Erase(_) => EraseAlone(env, asks, w, i, at, tick, fate);
    }
  }

  lemma ReadAlone(env: Env, asks: seq<Ask>, w: World, i: nat, at: real, tick: L.Time, fate: Fate)
    requires i < |asks| == |w.statuses| && w.statuses[i] == WAITING && asks[i].Read?
    requires Destination(env, w.gate, asks[i], at).Some?
    ensures AloneAgrees(env, asks, w, i, at, tick, fate)
  {
  }

  lemma WriteAlone(env: Env, asks: seq<Ask>, w: World, i: nat, at: real, tick: L.Time, fate: Fate)
    requires i < |asks| == |w.statuses| && w.statuses[i] == WAITING && asks[i].Write?
    requires Destination(env, w.gate, asks[i], at).Some?
    ensures AloneAgrees(env, asks, w, i, at, tick, fate)
  {
  }

  lemma EraseAlone(env: Env, asks: seq<Ask>, w: World, i: nat, at: real, tick: L.Time, fate: Fate)
    requires i < |asks| == |w.statuses| && w.statuses[i] == WAITING && asks[i].Erase?
    requires Destination(env, w.gate, asks[i], at).Some?
    ensures AloneAgrees(env, asks, w, i, at, tick, fate)
  {
  }
}
