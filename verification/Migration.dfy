/** One migration batch on the cache objects themselves, and its agreement with the step system. */
module Migration {
  import opened Sequences
  import opened LruModel
  import LruCache
  import opened RebalanceModel

  /** The clock readings of the first `n` puts of a load. */
  function Readings(clock: nat -> Time, n: nat): (times: seq<Time>)
    ensures |times| == n
  {
    seq(n, i requires 0 <= i < n => clock(i))
  }

  /** The target's list after a batch has been loaded into it. */
  function Delivered(cfg: Config, s: seq<Entry>, xs: seq<Export>, clock: nat -> Time): seq<Entry> {
    BulkLoad(cfg, s, xs, Readings(clock, |xs|))
  }

  /** What the two remote calls of a batch do: whether the snapshot is answered, whether the load is
      carried out, and whether it is acknowledged. */
  datatype Fortune = Fortune(snapshotOk: bool, loadActs: bool, loadOk: bool)

  /** Selects the exported entries of the wanted keys, in order. */
  method Select(entries: seq<Export>, keys: set<Key>) returns (filtered: seq<Export>)
    ensures filtered == Filter(entries, Among(keys))
  {
    filtered := [];
    assert entries[..0] == [];
    for i := 0 to |entries|
      invariant filtered == Filter(entries[..i], Among(keys))
    {
      FilterTake(entries, i, Among(keys));
      if entries[i].key in keys {
        filtered := filtered + [entries[i]];
      }
    }
    assert entries[..|entries|] == entries;
  }

  /** The snapshot of a cache, cut down to the wanted keys. */
  method Fetch(source: LruCache.LRUCache, keys: set<Key>, now: Time) returns (filtered: seq<Export>)
    requires source.Valid()
    ensures filtered == Wanted(source.contents, keys, now)
  {
    var entries := source.Snapshot(now);
    filtered := Select(entries, keys);
  }

  /** Loads the selected entries; nothing is sent if there are none. */
  method Deliver(target: LruCache.LRUCache, filtered: seq<Export>, clock: nat -> Time, f: Fortune) returns (count: nat)
    requires target.Valid()
    modifies target, target.repr
    ensures target.Valid() && fresh(target.repr - old(target.repr))
    ensures target.contents ==
      if f.loadActs then Delivered(target.Cfg(), old(target.contents), filtered, clock) else old(target.contents)
    ensures count == if f.loadActs && f.loadOk then |filtered| else 0
  {
    if filtered == [] {
      return 0;
    }
    if f.loadActs {
      target.BulkLoad(filtered, Readings(clock, |filtered|));
    }
    return if f.loadActs && f.loadOk then |filtered| else 0;
  }

  /** Copies the wanted keys of one cache to another, which may be the same one. A failed call ends
      the batch with a count of zero. */
  method MigrateKeys(source: LruCache.LRUCache, target: LruCache.LRUCache, keys: seq<Key>, now: Time,
                     clock: nat -> Time, f: Fortune)
    returns (count: nat)
    requires source.Valid() && target.Valid()
    requires source == target || source.repr !! target.repr
    modifies target, target.repr
    ensures source.Valid() && target.Valid() && fresh(target.repr - old(target.repr))
    ensures var xs := Wanted(old(source.contents), KeySet(keys), now);
      && count == (if f.snapshotOk && f.loadActs && f.loadOk then |xs| else 0)
      && target.contents == if f.snapshotOk && f.loadActs
        then Delivered(target.Cfg(), old(target.contents), xs, clock) else old(target.contents)
    ensures source != target ==> source.contents == old(source.contents)
  {
    if !f.snapshotOk {
      return 0;
    }
    var filtered := Fetch(source, KeySet(keys), now);
    count := DeliverFrom(source, target, filtered, clock, f);
  }

  /** A delivery leaves the source alone, unless that is the target. */
  method DeliverFrom(source: LruCache.LRUCache, target: LruCache.LRUCache, filtered: seq<Export>,
                     clock: nat -> Time, f: Fortune)
    returns (count: nat)
    requires source.Valid() && target.Valid()
    requires source == target || source.repr !! target.repr
    modifies target, target.repr
    ensures source.Valid() && target.Valid() && fresh(target.repr - old(target.repr))
    ensures source != target ==> source.contents == old(source.contents)
    ensures target.contents ==
      if f.loadActs then Delivered(target.Cfg(), old(target.contents), filtered, clock) else old(target.contents)
    ensures count == if f.loadActs && f.loadOk then |filtered| else 0
  {
    count := Deliver(target, filtered, clock, f);
  }

  // ----- agreement with the step system

  /** The first `n` load steps of batch `i`. */
  function Loads(i: nat, clock: nat -> Time, n: nat): (moves: seq<Move>)
    ensures |moves| == n
  {
    seq(n, j requires 0 <= j < n => Load(i, clock(j)))
  }

  /** All steps of batch `i` in one go. */
  function Batch(i: nat, now: Time, clock: nat -> Time, n: nat): seq<Move> {
    [Snap(i, now)] + Loads(i, clock, n) + [Load(i, clock(n))]
  }

  /** The world after batch `i` has sent the first `n` of `xs`. */
  function AfterLoads(z: Setting, tasks: seq<Task>, w: World, i: nat, xs: seq<Export>, clock: nat -> Time,
                      n: nat): World
    requires i < |tasks| == |w.progress| && n <= |xs|
    requires tasks[i].target in w.lists && tasks[i].target in z.cfg
  {
    var a := tasks[i].target;
    World(w.lists[a := Delivered(z.cfg[a], w.lists[a], xs[..n], clock)], w.progress[i := Sending(xs[n..])])
  }

  lemma DeliveredMore(cfg: Config, s: seq<Entry>, xs: seq<Export>, clock: nat -> Time, n: nat)
    requires n < |xs|
    ensures Delivered(cfg, s, xs[..n + 1], clock)
      == Insert(cfg, Delivered(cfg, s, xs[..n], clock), Loaded(cfg, xs[n], clock(n)))
  {
    assert xs[..n + 1][..n] == xs[..n];
    assert Readings(clock, n + 1)[..n] == Readings(clock, n);
  }

  lemma LoadDelivers(z: Setting, tasks: seq<Task>, w: World, i: nat, xs: seq<Export>, clock: nat -> Time, n: nat)
    requires i < |tasks| == |w.progress| && n < |xs|
    requires tasks[i].target in w.lists && tasks[i].target in z.cfg
    ensures Next(z, tasks, AfterLoads(z, tasks, w, i, xs, clock, n), Load(i, clock(n)))
      == AfterLoads(z, tasks, w, i, xs, clock, n + 1)
  {
    var a := tasks[i].target;
    DeliveredMore(z.cfg[a], w.lists[a], xs, clock, n);
    assert xs[n..][1..] == xs[n + 1..];
  }

  lemma {:induction false} LoadsDeliver(z: Setting, tasks: seq<Task>, w: World, i: nat, xs: seq<Export>,
                                        clock: nat -> Time, n: nat)
    requires i < |tasks| == |w.progress| && w.progress[i] == Sending(xs) && n <= |xs|
    requires tasks[i].target in w.lists && tasks[i].target in z.cfg
    ensures Continue(z, tasks, w, Loads(i, clock, n)) == AfterLoads(z, tasks, w, i, xs, clock, n)
  {
    if n > 0 {
      LoadsDeliver(z, tasks, w, i, xs, clock, n - 1);
      assert Loads(i, clock, n)[..n - 1] == Loads(i, clock, n - 1);
      LoadDelivers(z, tasks, w, i, xs, clock, n - 1);
    }
  }

  lemma LastLoadFinishes(z: Setting, tasks: seq<Task>, w: World, i: nat, xs: seq<Export>, clock: nat -> Time)
    requires i < |tasks| == |w.progress|
    requires tasks[i].target in w.lists && tasks[i].target in z.cfg
    ensures var a := tasks[i].target;
      Next(z, tasks, AfterLoads(z, tasks, w, i, xs, clock, |xs|), Load(i, clock(|xs|)))
        == World(w.lists[a := Delivered(z.cfg[a], w.lists[a], xs, clock)], w.progress[i := Finished])
  {
    assert xs[..|xs|] == xs;
  }

  /** The steps of a batch, when no other batch comes between them, have the effect of the method
      above: its source's snapshot, cut down to its keys, is delivered to its target. */
  lemma {:induction false} BatchIsMigration(z: Setting, tasks: seq<Task>, w: World, i: nat, now: Time,
                                            clock: nat -> Time)
    requires i < |tasks| == |w.progress| && w.progress[i] == Waiting
    requires tasks[i].source in w.lists && tasks[i].target in w.lists && tasks[i].target in z.cfg
    ensures var a := tasks[i].target;
      var xs := Wanted(w.lists[tasks[i].source], tasks[i].keys, now);
      Continue(z, tasks, w, Batch(i, now, clock, |xs|))
        == World(w.lists[a := Delivered(z.cfg[a], w.lists[a], xs, clock)], w.progress[i := Finished])
  {
    var xs := Wanted(w.lists[tasks[i].source], tasks[i].keys, now);
    var n := |xs|;
    var sent := Next(z, tasks, w, Snap(i, now));
    var moves := Batch(i, now, clock, n);
    assert moves[..|moves| - 1] == [Snap(i, now)] + Loads(i, clock, n);
    ContinueFrom(z, tasks, w, Snap(i, now), Loads(i, clock, n));
    LoadsDeliver(z, tasks, sent, i, xs, clock, n);
    LastLoadFinishes(z, tasks, sent, i, xs, clock);
    assert sent.progress[i := Finished] == w.progress[i := Finished];
  }

  lemma {:induction false} ContinueFrom(z: Setting, tasks: seq<Task>, w: World, first: Move, rest: seq<Move>)
    ensures Continue(z, tasks, w, [first] + rest) == Continue(z, tasks, Next(z, tasks, w, first), rest)
  {
    var moves := [first] + rest;
    if rest == [] {
      assert moves[..0] == [];
    } else {
      ContinueFrom(z, tasks, w, first, rest[..|rest| - 1]);
      assert moves[..|moves| - 1] == [first] + rest[..|rest| - 1];
    }
  }
}
