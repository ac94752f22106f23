/** Client writes while keys move: what a node ends up holding is decided by the order in which writes
    and loads reach it. */
module MigrationWrites {
  import opened Options
  import opened Sequences
  import opened LruModel
  import opened RebalanceModel
  import opened RebalanceTheorems

  /** A move of the rebalance, or a client's write at a node. */
  datatype Happening =
    | Internal(move: Move)
    | ClientPut(node: Address, key: Key, value: Value, ttl: Seconds, now: Time)
    | ClientDelete(node: Address, key: Key)

  function Advance(z: Setting, tasks: seq<Task>, w: World, step: Happening): World {
    match step
    case Internal(move) => Next(z, tasks, w, move)
    case ClientPut(a, k, v, ttl, now) => w.(lists := Written(z, w.lists, a, Put(k, v, ttl, now)))
    case ClientDelete(a, k) => w.(lists := Written(z, w.lists, a, Remove(k)))
  }

  function Written(z: Setting, lists: Lists, a: Address, op: Op): Lists {
    if a in lists && a in z.cfg then lists[a := Step(z.cfg[a], lists[a], op).list] else lists
  }

  /** The world after the steps, with all batches waiting at the beginning. */
  function History(z: Setting, tasks: seq<Task>, lists: Lists, steps: seq<Happening>): World {
    if steps == [] then Start(lists, tasks)
    else Advance(z, tasks, History(z, tasks, lists, steps[..|steps| - 1]), steps[|steps| - 1])
  }

  // ----- which step decides

  /** The batch's load of its next entry at the node, if the move is one. */
  function LoadedBy(z: Setting, tasks: seq<Task>, w: World, move: Move, a: Address): Option<Entry> {
    if move.Load? && move.task < |tasks| && move.task < |w.progress| && tasks[move.task].target == a
       && w.progress[move.task].Sending? && w.progress[move.task].rest != [] && a in w.lists && a in z.cfg
    then Some(Loaded(z.cfg[a], w.progress[move.task].rest[0], move.now))
    else None
  }

  /** What a step makes of a key at a node: nothing, or an entry, or its absence. */
  datatype Effect = Nothing | Stores(entry: Entry) | Deletes

  function EffectOf(z: Setting, tasks: seq<Task>, w: World, step: Happening, a: Address, k: Key): Effect {
    match step
    case Internal(move) =>
      var e := LoadedBy(z, tasks, w, move, a);
      if e.Some? && e.value.key == k then Stores(e.value) else Nothing
    case ClientPut(n, key, v, ttl, now) =>
      if n == a && key == k && a in w.lists && a in z.cfg then Stores(Entry(k, v, Expiry(z.cfg[a], ttl, now)))
      else Nothing
    case ClientDelete(n, key) => if n == a && key == k && a in w.lists && a in z.cfg then Deletes else Nothing
  }

  /** The step at `t` makes something of the key at the node. */
  predicate TakesEffect(z: Setting, tasks: seq<Task>, lists: Lists, steps: seq<Happening>, t: nat, a: Address, k: Key) {
    t < |steps| && EffectOf(z, tasks, History(z, tasks, lists, steps[..t]), steps[t], a, k) != Nothing
  }

  lemma TakesEffectPrefix(z: Setting, tasks: seq<Task>, lists: Lists, steps: seq<Happening>, n: nat, t: nat,
                          a: Address, k: Key)
    requires t < n <= |steps|
    ensures TakesEffect(z, tasks, lists, steps[..n], t, a, k) <==> TakesEffect(z, tasks, lists, steps, t, a, k)
  {
    assert steps[..n][..t] == steps[..t];
  }

  function EffectAt(z: Setting, tasks: seq<Task>, lists: Lists, steps: seq<Happening>, a: Address, k: Key)
    : nat -> bool
  {
    (t: nat) => TakesEffect(z, tasks, lists, steps, t, a, k)
  }

  /** The index of the last step that makes something of the key at the node, or -1. */
  function LastAt(z: Setting, tasks: seq<Task>, lists: Lists, steps: seq<Happening>, a: Address, k: Key): (t: int)
    ensures -1 <= t < |steps|
  {
    LastTrue(EffectAt(z, tasks, lists, steps, a, k), |steps|)
  }

  /** What that step made of it; what was there at the beginning if there is none. */
  function Decided(z: Setting, tasks: seq<Task>, lists: Lists, steps: seq<Happening>, a: Address, k: Key): Option<Entry>
    requires a in lists
  {
    var t := LastAt(z, tasks, lists, steps, a, k);
    if t < 0 then Find(lists[a], k)
    else
      match EffectOf(z, tasks, History(z, tasks, lists, steps[..t]), steps[t], a, k)
      case Stores(e) => Some(e)
      case Deletes => None
      case Nothing => None
  }

  // ----- the hypotheses

  /** The key is at the node from the start, is to be moved to it, or is put there by a client. */
  ghost predicate Due(tasks: seq<Task>, lists: Lists, steps: seq<Happening>, a: Address, k: Key) {
    || (a in lists && Find(lists[a], k).Some?)
    || (exists i :: 0 <= i < |tasks| && tasks[i].target == a && k in tasks[i].keys)
    || (exists i :: 0 <= i < |steps| && steps[i].ClientPut? && steps[i].node == a && steps[i].key == k)
  }

  /** The keys due at each node fit there. */
  ghost predicate Fits(z: Setting, tasks: seq<Task>, lists: Lists, steps: seq<Happening>, due: map<Address, set<Key>>) {
    && lists.Keys == z.cfg.Keys == due.Keys
    && (forall a :: a in lists ==> z.cfg[a].capacity > 0 && WellFormed(z.cfg[a], lists[a]))
    && (forall a :: a in due ==> |due[a]| <= z.cfg[a].capacity)
    && (forall a, k :: a in due && Due(tasks, lists, steps, a, k) ==> k in due[a])
  }

  /** Reads and purges happen before the end of the window. */
  ghost predicate InTime(z: Setting, steps: seq<Happening>) {
    forall i :: 0 <= i < |steps| && steps[i].Internal? && (steps[i].move.Serve? || steps[i].move.Sweep?) ==>
      steps[i].move.now <= z.end
  }

  // ----- what is stored

  ghost predicate Stored(z: Setting, tasks: seq<Task>, w: World, due: map<Address, set<Key>>) {
    && w.lists.Keys == z.cfg.Keys == due.Keys && |w.progress| == |tasks|
    && (forall a :: a in w.lists ==> Holds(z.cfg[a], w.lists[a], due[a]))
    && OwnKeys(tasks, w.progress)
  }

  /** The list is well formed and holds only keys that are due. */
  ghost predicate Holds(cfg: Config, s: seq<Entry>, due: set<Key>) {
    WellFormed(cfg, s) && forall e :: e in s ==> e.key in due
  }

  /** Batches send only their own keys. */
  ghost predicate OwnKeys(tasks: seq<Task>, progress: seq<Progress>)
    requires |progress| == |tasks|
  {
    forall i, x :: 0 <= i < |tasks| && progress[i].Sending? && x in progress[i].rest ==> x.key in tasks[i].keys
  }

  /** With room, a write changes the lookup of its own key only. */
  lemma {:induction false} PutLookup(z: Setting, cfg: Config, s: seq<Entry>, e: Entry, bound: set<Key>, k: Key)
    requires WellFormed(cfg, s) && cfg.capacity > 0 && |bound| <= cfg.capacity && e.key in bound
    requires forall x :: x in s ==> x.key in bound
    ensures Find(Insert(cfg, s, e), k) == if k == e.key then Some(e) else Find(s, k)
    ensures WellFormed(cfg, Insert(cfg, s, e)) && forall x :: x in Insert(cfg, s, e) ==> x.key in bound
  {
    InsertWellFormed(cfg, s, e);
    InsertFrom(cfg, s, e);
    if Find(s, e.key).None? {
      RoomInBound(s, bound, e.key);
    }
    FindInsert(cfg, s, e, k);
  }

  /** A step changes a lookup by its effect, except that expired entries may vanish. */
  ghost predicate Follows(z: Setting, was: Option<Entry>, effect: Effect, found: Option<Entry>) {
    match effect
    case Nothing => Kept(z, was, found)
    case Stores(e) => found == Some(e)
    case Deletes => found == None
  }

  lemma KeptFollows(z: Setting, decided: Option<Entry>, was: Option<Entry>, effect: Effect, found: Option<Entry>)
    requires Kept(z, decided, was) && Follows(z, was, effect, found)
    ensures Kept(z, if effect.Nothing? then decided else if effect.Stores? then Some(effect.entry) else None, found)
  {
  }

  lemma {:induction false} InternalStep(z: Setting, tasks: seq<Task>, w: World, move: Move,
                                        due: map<Address, set<Key>>, a: Address, k: Key)
    requires Stored(z, tasks, w, due) && a in w.lists && z.cfg[a].capacity > 0 && |due[a]| <= z.cfg[a].capacity
    requires forall i, key :: 0 <= i < |tasks| && tasks[i].target == a && key in tasks[i].keys ==> key in due[a]
    requires move.Serve? || move.Sweep? ==> move.now <= z.end
    ensures var next := Next(z, tasks, w, move);
      && a in next.lists && Holds(z.cfg[a], next.lists[a], due[a])
      && Follows(z, Find(w.lists[a], k), EffectOf(z, tasks, w, Internal(move), a, k), Find(next.lists[a], k))
  {
    match move
    case Serve(_, key, now) => TendKeepsAll(z, z.cfg[a], w.lists[a], Get(key, now));
    case Sweep(_, now) => TendKeepsAll(z, z.cfg[a], w.lists[a], Purge(now));
    case Load(i, now) =>
      var e := LoadedBy(z, tasks, w, move, a);
      if e.Some? {
        assert w.progress[i].rest[0] in w.progress[i].rest;
        PutLookup(z, z.cfg[a], w.lists[a], e.value, due[a], k);
      }
    case Snap(_, _) =>
    case Abort(_) =>
  }

  lemma {:induction false} SendsOwnKeys(z: Setting, tasks: seq<Task>, w: World, move: Move)
    requires |w.progress| == |tasks| && OwnKeys(tasks, w.progress)
    ensures var next := Next(z, tasks, w, move);
      |next.progress| == |tasks| && next.lists.Keys == w.lists.Keys && OwnKeys(tasks, next.progress)
  {
  }

  lemma {:induction false} ClientStep(z: Setting, tasks: seq<Task>, w: World, step: Happening,
                                      due: map<Address, set<Key>>, a: Address, k: Key)
    requires Stored(z, tasks, w, due) && a in w.lists && z.cfg[a].capacity > 0 && |due[a]| <= z.cfg[a].capacity
    requires !step.Internal? && (step.ClientPut? && step.node == a ==> step.key in due[a])
    ensures var next := Advance(z, tasks, w, step);
      && a in next.lists && Holds(z.cfg[a], next.lists[a], due[a])
      && Follows(z, Find(w.lists[a], k), EffectOf(z, tasks, w, step, a, k), Find(next.lists[a], k))
  {
    match step
    case ClientPut(n, key, v, ttl, now) =>
      if n == a {
        PutLookup(z, z.cfg[a], w.lists[a], Entry(key, v, Expiry(z.cfg[a], ttl, now)), due[a], k);
      }
    case ClientDelete(n, key) =>
      if n == a {
        FindDrop(w.lists[a], key, k);
        StepWellFormed(z.cfg[a], w.lists[a], Remove(key));
      }
  }

  lemma {:induction false} StepStored(z: Setting, tasks: seq<Task>, lists: Lists, steps: seq<Happening>, w: World,
                                      due: map<Address, set<Key>>, t: nat)
    requires Fits(z, tasks, lists, steps, due) && InTime(z, steps) && t < |steps| && Stored(z, tasks, w, due)
    ensures var next := Advance(z, tasks, w, steps[t]);
      && Stored(z, tasks, next, due)
      && forall a, k :: a in w.lists ==>
        Follows(z, Find(w.lists[a], k), EffectOf(z, tasks, w, steps[t], a, k), Find(next.lists[a], k))
  {
    var next := Advance(z, tasks, w, steps[t]);
    if steps[t].Internal? {
      SendsOwnKeys(z, tasks, w, steps[t].move);
    }
    forall a | a in w.lists
      ensures Holds(z.cfg[a], next.lists[a], due[a])
    {
      StepAt(z, tasks, lists, steps, w, due, t, a, "");
    }
    forall a, k | a in w.lists
      ensures Follows(z, Find(w.lists[a], k), EffectOf(z, tasks, w, steps[t], a, k), Find(next.lists[a], k))
    {
      StepAt(z, tasks, lists, steps, w, due, t, a, k);
    }
  }

  lemma {:induction false} StepAt(z: Setting, tasks: seq<Task>, lists: Lists, steps: seq<Happening>, w: World,
                                  due: map<Address, set<Key>>, t: nat, a: Address, k: Key)
    requires Fits(z, tasks, lists, steps, due) && InTime(z, steps) && t < |steps| && Stored(z, tasks, w, due)
    requires a in w.lists
    ensures var next := Advance(z, tasks, w, steps[t]);
      && a in next.lists && Holds(z.cfg[a], next.lists[a], due[a])
      && Follows(z, Find(w.lists[a], k), EffectOf(z, tasks, w, steps[t], a, k), Find(next.lists[a], k))
  {
    if steps[t].Internal? {
      forall i, key | 0 <= i < |tasks| && tasks[i].target == a && key in tasks[i].keys
        ensures key in due[a]
      {
        assert Due(tasks, lists, steps, a, key);
      }
      InternalStep(z, tasks, w, steps[t].move, due, a, k);
    } else {
      if steps[t].ClientPut? && steps[t].node == a {
        assert Due(tasks, lists, steps, a, steps[t].key);
      }
      ClientStep(z, tasks, w, steps[t], due, a, k);
    }
  }

  /** The outcome of every run with client writes: a node holds for a key what the last step made of it
      that stored or deleted it there, be it a load or a write; or that has expired and was purged. */
  lemma {:induction false} LastStepDecides(z: Setting, tasks: seq<Task>, lists: Lists, steps: seq<Happening>,
                                           due: map<Address, set<Key>>, n: nat, a: Address, k: Key)
    requires Fits(z, tasks, lists, steps, due) && InTime(z, steps) && n <= |steps| && a in lists
    ensures var w := History(z, tasks, lists, steps[..n]);
      && Stored(z, tasks, w, due)
      && Kept(z, Decided(z, tasks, lists, steps[..n], a, k), Find(w.lists[a], k))
  {
    if n == 0 {
      StartStored(z, tasks, lists, steps, due);
    } else {
      var w := History(z, tasks, lists, steps[..n - 1]);
      LastStepDecides(z, tasks, lists, steps, due, n - 1, a, k);
      assert steps[..n][..n - 1] == steps[..n - 1];
      StepStored(z, tasks, lists, steps, w, due, n - 1);
      DecidedStep(z, tasks, lists, steps[..n], a, k);
      var found := Find(Advance(z, tasks, w, steps[n - 1]).lists[a], k);
      KeptFollows(z, Decided(z, tasks, lists, steps[..n - 1], a, k), Find(w.lists[a], k),
                  EffectOf(z, tasks, w, steps[n - 1], a, k), found);
    }
  }

  lemma {:induction false} StartStored(z: Setting, tasks: seq<Task>, lists: Lists, steps: seq<Happening>,
                                       due: map<Address, set<Key>>)
    requires Fits(z, tasks, lists, steps, due)
    ensures Stored(z, tasks, Start(lists, tasks), due)
  {
    forall a, e | a in lists && e in lists[a]
      ensures e.key in due[a]
    {
      assert Due(tasks, lists, steps, a, e.key);
    }
  }

  /** How the decision moves on with one more step. */
  lemma {:induction false} DecidedStep(z: Setting, tasks: seq<Task>, lists: Lists, steps: seq<Happening>,
                                       a: Address, k: Key)
    requires steps != [] && a in lists
    ensures var init := steps[..|steps| - 1];
      var effect := EffectOf(z, tasks, History(z, tasks, lists, init), steps[|steps| - 1], a, k);
      Decided(z, tasks, lists, steps, a, k) ==
        match effect
        case Nothing => Decided(z, tasks, lists, init, a, k)
        case Stores(e) => Some(e)
        case Deletes => None
  {
    var m := |steps| - 1;
    var init := steps[..m];
    LastAtStep(z, tasks, lists, steps, a, k);
    var t := LastAt(z, tasks, lists, init, a, k);
    if t >= 0 {
      assert init[..t] == steps[..t];
    }
  }

  lemma {:induction false} LastAtStep(z: Setting, tasks: seq<Task>, lists: Lists, steps: seq<Happening>,
                                      a: Address, k: Key)
    requires steps != []
    ensures var m := |steps| - 1;
      LastAt(z, tasks, lists, steps, a, k) ==
        if TakesEffect(z, tasks, lists, steps, m, a, k) then m else LastAt(z, tasks, lists, steps[..m], a, k)
  {
    var m := |steps| - 1;
    var p, q := EffectAt(z, tasks, lists, steps, a, k), EffectAt(z, tasks, lists, steps[..m], a, k);
    forall t: nat | t < m
      ensures p(t) <==> q(t)
    {
      TakesEffectPrefix(z, tasks, lists, steps, m, t, a, k);
    }
    SameLastTrue(p, q, m);
  }

  // ----- a client's put against the loads

  ghost predicate LoadTakesEffect(z: Setting, tasks: seq<Task>, lists: Lists, steps: seq<Happening>, j: nat,
                                  a: Address, k: Key)
  {
    TakesEffect(z, tasks, lists, steps, j, a, k) && steps[j].Internal?
  }

  /** After a client's put that no later client write follows, the put decides what the node holds if
      and only if no load of the key takes effect there after it; otherwise a load decides. */
  lemma {:induction false} PutDecidesIff(z: Setting, tasks: seq<Task>, lists: Lists, steps: seq<Happening>, i: nat,
                                         a: Address, k: Key)
    requires i < |steps| && steps[i].ClientPut? && TakesEffect(z, tasks, lists, steps, i, a, k)
    requires forall j :: i < j < |steps| && !steps[j].Internal? ==> steps[j].node != a || steps[j].key != k
    ensures var t := LastAt(z, tasks, lists, steps, a, k);
      && i <= t
      && (t == i <==> forall j :: i < j < |steps| ==> !LoadTakesEffect(z, tasks, lists, steps, j, a, k))
      && (t != i ==> LoadTakesEffect(z, tasks, lists, steps, t, a, k))
  {
    var takes := EffectAt(z, tasks, lists, steps, a, k);
    var t := LastAt(z, tasks, lists, steps, a, k);
    assert takes(i) && takes(t);
    if t != i {
      assert LoadTakesEffect(z, tasks, lists, steps, t, a, k);
    } else {
      forall j: nat | i < j < |steps|
        ensures !LoadTakesEffect(z, tasks, lists, steps, j, a, k)
      {
        assert !takes(j);
      }
    }
  }

  // ----- a lost update

  const OLD_NODE: Address := ("old", 1)
  const NEW_NODE: Address := ("new", 2)

  /** The key "k" moves from the old node to the new one, at a single moment. */
  const MOVE: Setting := Setting(
    (k: Key) => k == "k", (k: Key) => OLD_NODE, (k: Key) => NEW_NODE,
    map[OLD_NODE := Config(1, 0), NEW_NODE := Config(1, 0)], 0, 0)

  const TASKS: seq<Task> := [Task(OLD_NODE, NEW_NODE, {"k"})]
  const LISTS: Lists := map[OLD_NODE := [Entry("k", "old", None)], NEW_NODE := []]

  /** A client's put between a batch's snapshot and its load. */
  const OVERTAKEN: seq<Happening> := [
    Internal(Snap(0, 0)), ClientPut(NEW_NODE, "k", "new", 0, 0), Internal(Load(0, 0)), Internal(Load(0, 0))]

  /** The put reached the key's new owner and was carried out, the batch succeeded, and the old value
      is back. */
  lemma {:induction false} UpdateLost()
    ensures var put := History(MOVE, TASKS, LISTS, OVERTAKEN[..2]);
      NEW_NODE in put.lists && Seen(put.lists[NEW_NODE], "k", 0) == Some("new")
    ensures var after := History(MOVE, TASKS, LISTS, OVERTAKEN);
      after.progress == [Finished] && NEW_NODE in after.lists && Seen(after.lists[NEW_NODE], "k", 0) == Some("old")
  {
    var before, put := Entry("k", "old", None), Entry("k", "new", None);
    OvertakenPrefixes();
    OneWanted(before);
    assert History(MOVE, TASKS, LISTS, []) == World(LISTS, [Waiting]);
    assert LISTS[OLD_NODE] == [before] && TASKS[0].source == OLD_NODE;
    assert [Waiting][0 := Sending([Export("k", "old", 0)])] == [Sending([Export("k", "old", 0)])];
    var one := History(MOVE, TASKS, LISTS, OVERTAKEN[..1]);
    assert one == World(LISTS, [Sending([Export("k", "old", 0)])]);
    assert LISTS[NEW_NODE] == [] && Insert(Config(1, 0), [], put) == [put];
    assert Written(MOVE, LISTS, NEW_NODE, Put("k", "new", 0, 0)) == LISTS[NEW_NODE := [put]];
    var two := History(MOVE, TASKS, LISTS, OVERTAKEN[..2]);
    assert two == World(LISTS[NEW_NODE := [put]], [Sending([Export("k", "old", 0)])]);
    var three := History(MOVE, TASKS, LISTS, OVERTAKEN[..3]);
    assert Drop([put], "k") == [];
    assert Insert(Config(1, 0), [put], before) == [before];
    assert two.lists[NEW_NODE] == [put] && TASKS[0].target == NEW_NODE;
    assert Loaded(Config(1, 0), Export("k", "old", 0), 0) == before;
    assert three == World(LISTS[NEW_NODE := [before]], [Sending([])]);
  }

  lemma OvertakenPrefixes()
    ensures OVERTAKEN[..1][..0] == [] && OVERTAKEN[..2][..1] == OVERTAKEN[..1]
    ensures OVERTAKEN[..3][..2] == OVERTAKEN[..2] && OVERTAKEN[..|OVERTAKEN| - 1] == OVERTAKEN[..3]
  {
  }

  lemma OneWanted(e: Entry)
    requires e.key == "k" && e.expires.None?
    ensures Wanted([e], {"k"}, 0) == [Export("k", e.value, 0)]
  {
    FilterAll([e], Unexpired(0));
    assert Snapshot([e], 0) == [Export("k", e.value, 0)];
    FilterAll(Snapshot([e], 0), Among({"k"}));
  }
}
