/** The rebalancer object: finds the keys whose owner changed and groups them into batches. */
module Rebalancer {
  import opened Options
  import opened Sequences
  import LruModel
  import RingModel
  import RingTheorems
  import HashRing
  import RebalanceModel
  import RebalanceTheorems

  type Key = LruModel.Key
  type Node = RingModel.Node
  type Owner = Option<Node>
  type Address = RebalanceModel.Address

  /** Keys to copy from one owner to another. */
  datatype Batch = Batch(oldOwner: Owner, newOwner: Owner, keys: seq<Key>)

  // ----- what the two rings say about a key

  /** Who owns each key before and after the topology change. */
  datatype Rings = Rings(before: Key -> Owner, after: Key -> Owner)

  function RingsOf(hash: string -> int, before: RingModel.Ring, after: RingModel.Ring): Rings {
    Rings((k: Key) => RingModel.Owner(before, hash(k)), (k: Key) => RingModel.Owner(after, hash(k)))
  }

  function OldOwner(r: Rings, k: Key): Owner {
    r.before(k)
  }

  function NewOwner(r: Rings, k: Key): Owner {
    r.after(k)
  }

  predicate Changed(r: Rings, k: Key) {
    OldOwner(r, k) != NewOwner(r, k)
  }

  function MovesTo(r: Rings, n: Owner): Key -> bool {
    (k: Key) => Changed(r, k) && NewOwner(r, k) == n
  }

  function MovesBetween(r: Rings, o: Owner, n: Owner): Key -> bool {
    (k: Key) => Changed(r, k) && OldOwner(r, k) == o && NewOwner(r, k) == n
  }

  /** The batches partition exactly the keys whose owner changed: each batch is non-empty and lists,
      in the order of the input, precisely the keys that move between its two owners; no two batches
      share their pair of owners. */
  ghost predicate Partition(r: Rings, keys: seq<Key>, batches: seq<Batch>) {
    && (forall i :: 0 <= i < |batches| ==>
      batches[i].keys != []
      && batches[i].keys == Filter(keys, MovesBetween(r, batches[i].oldOwner, batches[i].newOwner)))
    && (forall i, j :: 0 <= i < j < |batches| ==>
      batches[i].oldOwner != batches[j].oldOwner || batches[i].newOwner != batches[j].newOwner)
    && (forall k :: k in keys && Changed(r, k) ==>
      exists i :: 0 <= i < |batches| && k in batches[i].keys)
  }

  /** Each changed key is in one batch only, and unchanged keys are in none. */
  lemma {:induction false} PartitionExact(r: Rings, keys: seq<Key>, batches: seq<Batch>, i: nat, k: Key)
    requires Partition(r, keys, batches) && i < |batches|
    ensures k in batches[i].keys <==>
      k in keys && Changed(r, k) && OldOwner(r, k) == batches[i].oldOwner && NewOwner(r, k) == batches[i].newOwner
    ensures k in batches[i].keys ==> forall j :: 0 <= j < |batches| && k in batches[j].keys ==> j == i
  {
    if k in batches[i].keys {
      forall j | 0 <= j < |batches| && k in batches[j].keys
        ensures j == i
      {
        assert MovesBetween(r, batches[j].oldOwner, batches[j].newOwner)(k);
      }
    }
  }

  /** Appends to the list stored under a key of a table, creating the list if need be. */
  method AppendTo<T>(table: map<Owner, seq<T>>, o: Owner, x: T) returns (r: map<Owner, seq<T>>)
    ensures r == table[o := (if o in table then table[o] else []) + [x]]
  {
    r := table;
    if o !in r {
      r := r[o := []];
    }
    r := r[o := r[o] + [x]];
  }

  /** Asks a ring for the owner of every key. */
  method AskOwners(keys: seq<Key>, ring: HashRing.HashRing) returns (owners: seq<Owner>)
    requires ring.Valid()
    ensures |owners| == |keys|
    ensures forall i :: 0 <= i < |keys| ==> owners[i] == RingModel.Owner(ring.ring, ring.hash(keys[i]))
  {
    owners := [];
    for i := 0 to |keys|
      invariant |owners| == i
      invariant forall j :: 0 <= j < i ==> owners[j] == RingModel.Owner(ring.ring, ring.hash(keys[j]))
    {
      var o := ring.GetNode(keys[i]);
      owners := owners + [o];
    }
  }

  /** Notes the keys whose owner changed, by new owner, and all owners involved. */
  method Diff(keys: seq<Key>, olds: seq<Owner>, news: seq<Owner>, ghost r: Rings)
    returns (found: map<Owner, seq<(Key, Owner)>>, affected: set<Owner>)
    requires |olds| == |news| == |keys|
    requires forall i :: 0 <= i < |keys| ==> olds[i] == OldOwner(r, keys[i]) && news[i] == NewOwner(r, keys[i])
    ensures ByNewOwner(r, keys, found) && affected == Affected(r, keys)
  {
    found, affected := map[], {};
    assert keys[..0] == [];
    for i := 0 to |keys|
      invariant ByNewOwner(r, keys[..i], found) && affected == Affected(r, keys[..i])
    {
      assert keys[..i + 1] == keys[..i] + [keys[i]];
      ByNewOwnerStep(r, keys[..i], keys[i], found);
      if olds[i] != news[i] {
        found := AppendTo(found, news[i], (keys[i], olds[i]));
        affected := affected + {olds[i], news[i]};
      }
    }
    assert keys[..|keys|] == keys;
  }

  class Rebalancer {
    var inProgress: bool
    var migratedKeys: nat
    var affectedNodes: set<Owner>

    constructor ()
      ensures !inProgress && migratedKeys == 0 && affectedNodes == {}
    {
      inProgress, migratedKeys, affectedNodes := false, 0, {};
    }

    /** Starts a rebalance: compares the owners of all keys and groups those that changed by new
        owner. A rebalance already in progress is refused and left alone. */
    method Begin(keys: seq<Key>, before: HashRing.HashRing, after: HashRing.HashRing, ghost r: Rings)
      returns (migrations: Option<map<Owner, seq<(Key, Owner)>>>)
      requires before.Valid() && after.Valid() && before.hash == after.hash
      requires r == RingsOf(before.hash, before.ring, after.ring)
      modifies this
      ensures old(inProgress) ==> migrations.None? && unchanged(this)
      ensures !old(inProgress) ==>
        && inProgress && migratedKeys == 0 && migrations.Some?
        && ByNewOwner(r, keys, migrations.value)
        && affectedNodes == Affected(r, keys)
    {
      if inProgress {
        return None;
      }
      inProgress, migratedKeys, affectedNodes := true, 0, {};
      var olds := AskOwners(keys, before);
      var news := AskOwners(keys, after);
      var found, affected := Diff(keys, olds, news, r);
      affectedNodes := affected;
      return Some(found);
    }

    /** Records the batches' results and ends the rebalance. */
    method Complete(results: seq<nat>)
      modifies this
      ensures !inProgress && affectedNodes == old(affectedNodes)
      ensures migratedKeys == old(migratedKeys) + Sum(results)
    {
      for i := 0 to |results|
        invariant affectedNodes == old(affectedNodes)
        invariant migratedKeys == old(migratedKeys) + Sum(results[..i])
      {
        migratedKeys := migratedKeys + results[i];
        assert results[..i + 1][..i] == results[..i];
      }
      assert results[..|results|] == results;
      inProgress := false;
    }
  }

  function Sum(xs: seq<nat>): nat {
    if xs == [] then 0 else Sum(xs[..|xs| - 1]) + xs[|xs| - 1]
  }

  /** The entries of all batches, one batch after the other. */
  function Together<T>(xss: seq<seq<T>>): seq<T> {
    if xss == [] then [] else Together(xss[..|xss| - 1]) + xss[|xss| - 1]
  }

  /** If each result is the number of entries its batch has loaded, their sum is the number loaded by
      all. */
  lemma {:induction false} SumCountsAll<T>(results: seq<nat>, loaded: seq<seq<T>>)
    requires |results| == |loaded| && forall i :: 0 <= i < |results| ==> results[i] == |loaded[i]|
    ensures Sum(results) == |Together(loaded)|
  {
    if results != [] {
      SumCountsAll(results[..|results| - 1], loaded[..|loaded| - 1]);
    }
  }

  function Pair(r: Rings, k: Key): (Key, Owner) {
    (k, OldOwner(r, k))
  }

  function Pairs(r: Rings, keys: seq<Key>): (s: seq<(Key, Owner)>)
    ensures |s| == |keys|
  {
    seq(|keys|, i requires 0 <= i < |keys| => Pair(r, keys[i]))
  }

  /** The migration table: for each new owner, the keys that move to it with their old owners. */
  ghost predicate ByNewOwner(r: Rings, keys: seq<Key>, found: map<Owner, seq<(Key, Owner)>>) {
    forall n :: var to := Filter(keys, MovesTo(r, n));
      (n in found <==> to != []) && (n in found ==> found[n] == Pairs(r, to))
  }

  /** In the table of two rings a key stands under its owner on the new ring, beside its owner on the old
      one, exactly if it is one of the listed keys and the two differ. */
  lemma {:induction false} TableOfRings(hash: string -> int, before: RingModel.Ring, after: RingModel.Ring,
                                        keys: seq<Key>, found: map<Owner, seq<(Key, Owner)>>, k: Key, o: Owner,
                                        n: Owner)
    requires ByNewOwner(RingsOf(hash, before, after), keys, found)
    ensures (n in found && (k, o) in found[n]) <==>
      k in keys && o == RingModel.Owner(before, hash(k)) && n == RingModel.Owner(after, hash(k)) && o != n
  {
    var r := RingsOf(hash, before, after);
    var to := Filter(keys, MovesTo(r, n));
    assert (n in found <==> to != []) && (n in found ==> found[n] == Pairs(r, to));
    InPairs(r, to, k, o);
  }

  lemma {:induction false} InPairs(r: Rings, keys: seq<Key>, k: Key, o: Owner)
    ensures (k, o) in Pairs(r, keys) <==> k in keys && o == OldOwner(r, k)
  {
    if (k, o) in Pairs(r, keys) {
      var i :| 0 <= i < |keys| && Pairs(r, keys)[i] == (k, o);
      assert Pairs(r, keys)[i] == Pair(r, keys[i]);
    }
    if k in keys {
      var i :| 0 <= i < |keys| && keys[i] == k;
      assert Pairs(r, keys)[i] == Pair(r, k);
    }
  }

  /** All owners that gain or lose a key. */
  function Affected(r: Rings, keys: seq<Key>): set<Owner> {
    if keys == [] then {}
    else
      var k := keys[|keys| - 1];
      Affected(r, keys[..|keys| - 1]) + if Changed(r, k) then {OldOwner(r, k), NewOwner(r, k)} else {}
  }

  /** They are the owners, old or new, of the keys whose owner changed. */
  lemma {:induction false} AffectedExact(r: Rings, keys: seq<Key>, o: Owner)
    ensures o in Affected(r, keys) <==>
      exists k :: k in keys && r.before(k) != r.after(k) && (o == r.before(k) || o == r.after(k))
  {
    if keys != [] {
      var init, last := keys[..|keys| - 1], keys[|keys| - 1];
      AffectedExact(r, init, o);
      assert keys == init + [last];
    }
  }

  lemma ByNewOwnerStep(r: Rings, keys: seq<Key>, key: Key, found: map<Owner, seq<(Key, Owner)>>)
    requires ByNewOwner(r, keys, found)
    ensures var n := NewOwner(r, key);
      var before := if n in found then found[n] else [];
      ByNewOwner(r, keys + [key], if Changed(r, key) then found[n := before + [Pair(r, key)]] else found)
    ensures Affected(r, keys + [key]) ==
      Affected(r, keys) + if Changed(r, key) then {OldOwner(r, key), NewOwner(r, key)} else {}
  {
    assert (keys + [key])[..|keys|] == keys;
    var n := NewOwner(r, key);
    var before := if n in found then found[n] else [];
    var next := if Changed(r, key) then found[n := before + [Pair(r, key)]] else found;
    forall m
      ensures var to := Filter(keys + [key], MovesTo(r, m));
        (m in next <==> to != []) && (m in next ==> next[m] == Pairs(r, to))
    {
      FilterSnoc(keys, key, MovesTo(r, m));
      PairsSnoc(r, Filter(keys, MovesTo(r, m)), key);
    }
  }

  // ----- grouping by old owner

  function FromOld(o: Owner): ((Key, Owner)) -> bool {
    (p: (Key, Owner)) => p.1 == o
  }

  function Firsts(ps: seq<(Key, Owner)>): (s: seq<Key>)
    ensures |s| == |ps|
  {
    seq(|ps|, i requires 0 <= i < |ps| => ps[i].0)
  }

  ghost predicate Grouped(ps: seq<(Key, Owner)>, groups: map<Owner, seq<Key>>) {
    forall o :: var from := Filter(ps, FromOld(o));
      (o in groups <==> from != []) && (o in groups ==> groups[o] == Firsts(from))
  }

  lemma GroupedStep(ps: seq<(Key, Owner)>, p: (Key, Owner), groups: map<Owner, seq<Key>>)
    requires Grouped(ps, groups)
    ensures var before := if p.1 in groups then groups[p.1] else [];
      Grouped(ps + [p], groups[p.1 := before + [p.0]])
  {
    var before := if p.1 in groups then groups[p.1] else [];
    var next := groups[p.1 := before + [p.0]];
    forall o
      ensures var from := Filter(ps + [p], FromOld(o));
        (o in next <==> from != []) && (o in next ==> next[o] == Firsts(from))
    {
      FilterSnoc(ps, p, FromOld(o));
      FirstsSnoc(Filter(ps, FromOld(o)), p);
    }
  }

  /** Splits the keys moving to one owner by their old owner. */
  method GroupByOldOwner(ps: seq<(Key, Owner)>) returns (groups: map<Owner, seq<Key>>)
    ensures Grouped(ps, groups)
  {
    groups := map[];
    assert ps[..0] == [];
    for i := 0 to |ps|
      invariant Grouped(ps[..i], groups)
    {
      var key, oldOwner := ps[i].0, ps[i].1;
      assert ps[..i + 1] == ps[..i] + [ps[i]];
      GroupedStep(ps[..i], ps[i], groups);
      groups := AppendTo(groups, oldOwner, key);
    }
    assert ps[..|ps|] == ps;
  }

  // ----- batches

  /** Selecting by old owner among the pairs for one new owner gives the keys of one batch. */
  lemma {:induction false} PairsBetween(r: Rings, keys: seq<Key>, o: Owner, n: Owner)
    ensures Firsts(Filter(Pairs(r, Filter(keys, MovesTo(r, n))), FromOld(o))) == Filter(keys, MovesBetween(r, o, n))
  {
    if keys != [] {
      var init, k := keys[..|keys| - 1], keys[|keys| - 1];
      assert keys == init + [k];
      PairsBetween(r, init, o, n);
      FilterSnoc(init, k, MovesTo(r, n));
      FilterSnoc(init, k, MovesBetween(r, o, n));
      var pairs := Pairs(r, Filter(init, MovesTo(r, n)));
      if MovesTo(r, n)(k) {
        PairsSnoc(r, Filter(init, MovesTo(r, n)), k);
        FilterSnoc(pairs, Pair(r, k), FromOld(o));
        FirstsSnoc(Filter(pairs, FromOld(o)), Pair(r, k));
      }
    }
  }

  lemma PairsSnoc(r: Rings, keys: seq<Key>, k: Key)
    ensures Pairs(r, keys + [k]) == Pairs(r, keys) + [Pair(r, k)]
  {
  }

  lemma FirstsSnoc(ps: seq<(Key, Owner)>, p: (Key, Owner))
    ensures Firsts(ps + [p]) == Firsts(ps) + [p.0]
  {
  }

  /** The batches found so far: all pairs of owners in `done`, and none else. */
  ghost predicate BatchesFor(r: Rings, keys: seq<Key>, batches: seq<Batch>, done: set<(Owner, Owner)>) {
    && (forall i :: 0 <= i < |batches| ==>
      (batches[i].oldOwner, batches[i].newOwner) in done && batches[i].keys != []
      && batches[i].keys == Filter(keys, MovesBetween(r, batches[i].oldOwner, batches[i].newOwner)))
    && (forall i, j :: 0 <= i < j < |batches| ==>
      batches[i].oldOwner != batches[j].oldOwner || batches[i].newOwner != batches[j].newOwner)
    && (forall o, n :: (o, n) in done ==>
      exists i :: 0 <= i < |batches| && batches[i].oldOwner == o && batches[i].newOwner == n)
  }

  lemma BatchesAdd(r: Rings, keys: seq<Key>, batches: seq<Batch>, done: set<(Owner, Owner)>, b: Batch)
    requires BatchesFor(r, keys, batches, done) && (b.oldOwner, b.newOwner) !in done
    requires b.keys != [] && b.keys == Filter(keys, MovesBetween(r, b.oldOwner, b.newOwner))
    ensures BatchesFor(r, keys, batches + [b], done + {(b.oldOwner, b.newOwner)})
  {
    var more := batches + [b];
    forall o, n | (o, n) in done + {(b.oldOwner, b.newOwner)}
      ensures exists i :: 0 <= i < |more| && more[i].oldOwner == o && more[i].newOwner == n
    {
      if (o, n) in done {
        var i :| 0 <= i < |batches| && batches[i].oldOwner == o && batches[i].newOwner == n;
        assert more[i] == batches[i];
      } else {
        assert more[|batches|] == b;
      }
    }
  }

  /** One batch per old owner for the keys that move to `newOwner`. */
  method BatchesTo(newOwner: Owner, ps: seq<(Key, Owner)>, earlier: seq<Batch>,
                   ghost r: Rings, ghost keys: seq<Key>, ghost done: set<(Owner, Owner)>)
    returns (batches: seq<Batch>, ghost doneNow: set<(Owner, Owner)>)
    requires BatchesFor(r, keys, earlier, done) && (forall o :: (o, newOwner) !in done)
    requires ps == Pairs(r, Filter(keys, MovesTo(r, newOwner)))
    ensures BatchesFor(r, keys, batches, doneNow)
    ensures done <= doneNow && forall o, n :: (o, n) in doneNow && (o, n) !in done ==> n == newOwner
    ensures forall k :: k in keys && MovesTo(r, newOwner)(k) ==> (OldOwner(r, k), newOwner) in doneNow
  {
    var groups := GroupByOldOwner(ps);
    var todo := groups.Keys;
    batches, doneNow := earlier, done;
    while todo != {}
      invariant todo <= groups.Keys
      invariant BatchesFor(r, keys, batches, doneNow)
      invariant Extended(done, doneNow, groups.Keys - todo, newOwner)
    {
      var oldOwner :| oldOwner in todo;
      ExtendedAdd(done, doneNow, groups.Keys - todo, oldOwner, newOwner);
      assert groups.Keys - (todo - {oldOwner}) == (groups.Keys - todo) + {oldOwner};
      GroupAdds(r, keys, batches, doneNow, oldOwner, newOwner, groups);
      batches, doneNow := batches + [Batch(oldOwner, newOwner, groups[oldOwner])], doneNow + {(oldOwner, newOwner)};
      todo := todo - {oldOwner};
    }
    GroupsCover(r, keys, newOwner, groups);
  }

  /** The pairs done now are those done before and those of `olds` with `n`. */
  ghost predicate Extended(done: set<(Owner, Owner)>, doneNow: set<(Owner, Owner)>, olds: set<Owner>, n: Owner) {
    && done <= doneNow
    && (forall p :: p in doneNow && p !in done ==> p.1 == n)
    && (forall o :: (o, n) in doneNow <==> o in olds)
  }

  lemma ExtendedAdd(done: set<(Owner, Owner)>, doneNow: set<(Owner, Owner)>, olds: set<Owner>, o: Owner, n: Owner)
    requires Extended(done, doneNow, olds, n)
    ensures Extended(done, doneNow + {(o, n)}, olds + {o}, n)
  {
  }

  lemma GroupAdds(r: Rings, keys: seq<Key>, batches: seq<Batch>, done: set<(Owner, Owner)>,
                  o: Owner, n: Owner, groups: map<Owner, seq<Key>>)
    requires BatchesFor(r, keys, batches, done) && (o, n) !in done
    requires Grouped(Pairs(r, Filter(keys, MovesTo(r, n))), groups) && o in groups
    ensures BatchesFor(r, keys, batches + [Batch(o, n, groups[o])], done + {(o, n)})
  {
    GroupIsBatch(r, keys, o, n, groups);
    BatchesAdd(r, keys, batches, done, Batch(o, n, groups[o]));
  }

  lemma GroupsCover(r: Rings, keys: seq<Key>, newOwner: Owner, groups: map<Owner, seq<Key>>)
    requires Grouped(Pairs(r, Filter(keys, MovesTo(r, newOwner))), groups)
    ensures forall k :: k in keys && MovesTo(r, newOwner)(k) ==> OldOwner(r, k) in groups
  {
    forall k | k in keys && MovesTo(r, newOwner)(k)
      ensures OldOwner(r, k) in groups
    {
      PairsBetween(r, keys, OldOwner(r, k), newOwner);
      assert k in Filter(keys, MovesBetween(r, OldOwner(r, k), newOwner));
    }
  }

  /** A group is a batch. */
  lemma GroupIsBatch(r: Rings, keys: seq<Key>, o: Owner, n: Owner, groups: map<Owner, seq<Key>>)
    requires Grouped(Pairs(r, Filter(keys, MovesTo(r, n))), groups) && o in groups
    ensures groups[o] != [] && groups[o] == Filter(keys, MovesBetween(r, o, n))
  {
    PairsBetween(r, keys, o, n);
  }

  /** All batches of a rebalance, in the unspecified order of the tables. */
  method MakeBatches(migrations: map<Owner, seq<(Key, Owner)>>, ghost r: Rings, ghost keys: seq<Key>)
    returns (batches: seq<Batch>)
    requires ByNewOwner(r, keys, migrations)
    ensures Partition(r, keys, batches)
  {
    batches := [];
    ghost var done: set<(Owner, Owner)> := {};
    var todo := migrations.Keys;
    while todo != {}
      invariant todo <= migrations.Keys
      invariant BatchesFor(r, keys, batches, done)
      invariant forall o, n :: (o, n) in done ==> n !in todo
      invariant forall k :: k in keys && Changed(r, k) && NewOwner(r, k) in migrations.Keys - todo ==>
        (OldOwner(r, k), NewOwner(r, k)) in done
    {
      var n :| n in todo;
      ghost var before := done;
      batches, done := BatchesTo(n, migrations[n], batches, r, keys, done);
      todo := todo - {n};
      forall k | k in keys && Changed(r, k) && NewOwner(r, k) in migrations.Keys - todo
        ensures (OldOwner(r, k), NewOwner(r, k)) in done
      {
        if NewOwner(r, k) == n {
          assert MovesTo(r, n)(k);
        }
      }
    }
    forall k | k in keys && Changed(r, k)
      ensures (OldOwner(r, k), NewOwner(r, k)) in done
    {
      assert k in Filter(keys, MovesTo(r, NewOwner(r, k)));
    }
    BatchesPartition(r, keys, batches, done);
  }

  /** With all pairs of owners of changed keys done, the batches are a partition. */
  lemma BatchesPartition(r: Rings, keys: seq<Key>, batches: seq<Batch>, done: set<(Owner, Owner)>)
    requires BatchesFor(r, keys, batches, done)
    requires forall k :: k in keys && Changed(r, k) ==> (OldOwner(r, k), NewOwner(r, k)) in done
    ensures Partition(r, keys, batches)
  {
    forall k | k in keys && Changed(r, k)
      ensures exists i :: 0 <= i < |batches| && k in batches[i].keys
    {
      var i :| 0 <= i < |batches| && batches[i].oldOwner == OldOwner(r, k) && batches[i].newOwner == NewOwner(r, k);
      assert k in Filter(keys, MovesBetween(r, OldOwner(r, k), NewOwner(r, k)));
    }
  }

  // ----- minimal movement, seen by the rebalancer

  /** After a node joins, it is the target of every batch; after one leaves, the source of every
      batch. Collisions of hash points do not matter. */
  lemma JoinTargetsOneNode(hash: string -> int, v: nat, st: RingModel.State, node: Node, r: Rings,
                           keys: seq<Key>, batches: seq<Batch>, i: nat)
    requires Partition(r, keys, batches) && i < |batches|
    requires r == RingsOf(hash, st.ring, RingModel.Add(hash, v, st, node).ring)
    ensures batches[i].newOwner == Some(node)
  {
    var k := batches[i].keys[0];
    assert MovesBetween(r, batches[i].oldOwner, batches[i].newOwner)(k);
    RingTheorems.AddMovesMinimally(hash, v, st, node, hash(k));
  }

  lemma LeaveEmptiesOneNode(hash: string -> int, st: RingModel.State, node: Node, r: Rings,
                            keys: seq<Key>, batches: seq<Batch>, i: nat)
    requires RingModel.OwnersAreMembers(st) && Partition(r, keys, batches) && i < |batches|
    requires r == RingsOf(hash, st.ring, RingModel.Remove(st, node).ring)
    ensures batches[i].oldOwner == Some(node)
  {
    var k := batches[i].keys[0];
    assert MovesBetween(r, batches[i].oldOwner, batches[i].newOwner)(k);
    RingTheorems.FailoverPromotes(st, node, hash(k));
  }

  // ----- from batches to migration tasks

  const FALLBACK_SOURCE: Address := ("localhost", 8001)
  const FALLBACK_TARGET: Address := ("localhost", 8002)

  /** The address used for an owner; an owner without endpoint gets the built-in fallback. */
  function Resolve(endpoints: map<Node, Address>, o: Owner, fallback: Address): Address {
    if o.Some? && o.value in endpoints then endpoints[o.value] else fallback
  }

  function TaskOf(endpoints: map<Node, Address>, b: Batch): RebalanceModel.Task {
    RebalanceModel.Task(Resolve(endpoints, b.oldOwner, FALLBACK_SOURCE),
                        Resolve(endpoints, b.newOwner, FALLBACK_TARGET), RebalanceModel.KeySet(b.keys))
  }

  function TasksOf(endpoints: map<Node, Address>, batches: seq<Batch>): (tasks: seq<RebalanceModel.Task>)
    ensures |tasks| == |batches|
  {
    seq(|batches|, i requires 0 <= i < |batches| => TaskOf(endpoints, batches[i]))
  }

  /** A batch goes from its old owner's endpoint to its new owner's; an owner without one is taken to be
      at port 8001 of this machine as a source, and at port 8002 as a target. */
  lemma BatchAddresses(endpoints: map<Node, Address>, b: Batch)
    ensures var t := TaskOf(endpoints, b);
      && t.source == (if b.oldOwner.Some? && b.oldOwner.value in endpoints
                      then endpoints[b.oldOwner.value] else ("localhost", 8001))
      && t.target == (if b.newOwner.Some? && b.newOwner.value in endpoints
                      then endpoints[b.newOwner.value] else ("localhost", 8002))
      && forall k :: k in t.keys <==> k in b.keys
  {
  }

  /** The setting in which the batches of two rings run. */
  function SettingOf(r: Rings, endpoints: map<Node, Address>, cfg: map<Address, LruModel.Config>,
                     start: LruModel.Time, end: LruModel.Time): RebalanceModel.Setting {
    RebalanceModel.Setting((k: Key) => Changed(r, k),
                           (k: Key) => Resolve(endpoints, OldOwner(r, k), FALLBACK_SOURCE),
                           (k: Key) => Resolve(endpoints, NewOwner(r, k), FALLBACK_TARGET), cfg, start, end)
  }

  /** The planned tasks are what the loss-freedom theorems ask for: every task moves its keys from
      where they are read to where they belong, and every listed key that moves is in a task. */
  lemma PlanFits(r: Rings, keys: seq<Key>, batches: seq<Batch>, endpoints: map<Node, Address>,
                 cfg: map<Address, LruModel.Config>, start: LruModel.Time, end: LruModel.Time)
    requires Partition(r, keys, batches)
    ensures var tasks := TasksOf(endpoints, batches);
      && RebalanceModel.TasksFit(SettingOf(r, endpoints, cfg, start, end), tasks)
      && forall k :: k in keys && Changed(r, k) ==> exists i :: 0 <= i < |tasks| && k in tasks[i].keys
  {
    var z := SettingOf(r, endpoints, cfg, start, end);
    var tasks := TasksOf(endpoints, batches);
    ListedMovesInTask(r, keys, batches, endpoints);
    forall i, k | 0 <= i < |tasks| && k in tasks[i].keys
      ensures z.moved(k) && z.home(k) == tasks[i].source && z.dest(k) == tasks[i].target
    {
      PartitionExact(r, keys, batches, i, k);
    }
  }

  lemma ListedMovesInTask(r: Rings, keys: seq<Key>, batches: seq<Batch>, endpoints: map<Node, Address>)
    requires Partition(r, keys, batches)
    ensures var tasks := TasksOf(endpoints, batches);
      forall k :: k in keys && Changed(r, k) ==> exists i :: 0 <= i < |tasks| && k in tasks[i].keys
  {
    var tasks := TasksOf(endpoints, batches);
    forall k | k in keys && Changed(r, k)
      ensures exists i :: 0 <= i < |tasks| && k in tasks[i].keys
    {
      var i :| 0 <= i < |batches| && k in batches[i].keys;
      assert k in tasks[i].keys;
    }
  }

  /** The node was asked for its keys at some moment of the window, and its live keys were listed. */
  ghost predicate ListedBy(z: RebalanceModel.Setting, s: seq<LruModel.Entry>, keys: seq<Key>) {
    exists t: LruModel.Time :: z.start <= t <= z.end && LiveListed(s, keys, t)
  }

  ghost predicate LiveListed(s: seq<LruModel.Entry>, keys: seq<Key>, t: LruModel.Time) {
    forall k :: k in LruModel.Keys(LruModel.Live(s, t)) ==> k in keys
  }

  /** What outlives the window is listed, although nodes never list expired keys. */
  lemma LastingIsListed(z: RebalanceModel.Setting, s: seq<LruModel.Entry>, keys: seq<Key>, e: LruModel.Entry)
    requires ListedBy(z, s, keys) && e in s && RebalanceModel.Lasting(z, e)
    ensures e.key in keys
  {
    var t: LruModel.Time :| z.start <= t <= z.end && LiveListed(s, keys, t);
    assert e in LruModel.Live(s, t);
  }

  /** With distinct endpoints for all owners, a moved key never lands on its own source. */
  lemma EndpointsSeparate(r: Rings, endpoints: map<Node, Address>, k: Key)
    requires forall a, b :: a in endpoints && b in endpoints && endpoints[a] == endpoints[b] ==> a == b
    requires Changed(r, k)
    requires OldOwner(r, k).Some? && OldOwner(r, k).value in endpoints
    requires NewOwner(r, k).Some? && NewOwner(r, k).value in endpoints
    ensures Resolve(endpoints, OldOwner(r, k), FALLBACK_SOURCE) != Resolve(endpoints, NewOwner(r, k), FALLBACK_TARGET)
  {
  }

  /** The whole rebalance: when all batches of a plan have finished, a key that was answered by its
      owner under the old ring is answered, with the same value, by its owner under the new ring,
      under every interleaving of the batches with each other, with reads and with purges. */
  lemma RebalanceKeepsReadable(r: Rings, keys: seq<Key>, batches: seq<Batch>, endpoints: map<Node, Address>,
                               cfg: map<Address, LruModel.Config>, start: LruModel.Time, end: LruModel.Time,
                               lists: RebalanceModel.Lists, moves: seq<RebalanceModel.Move>, k: Key, v: LruModel.Value)
    requires Partition(r, keys, batches)
    requires var z := SettingOf(r, endpoints, cfg, start, end);
      RebalanceModel.Ready(z, lists) && RebalanceModel.Timed(z, moves)
    requires OldOwner(r, k).Some? && OldOwner(r, k).value in endpoints
    requires NewOwner(r, k).Some? && NewOwner(r, k).value in endpoints
    requires var place := endpoints[OldOwner(r, k).value];
      && place in lists && RebalanceTheorems.Seen(lists[place], k, end) == Some(v)
      && ListedBy(SettingOf(r, endpoints, cfg, start, end), lists[place], keys)
    requires var z := SettingOf(r, endpoints, cfg, start, end);
      && (Changed(r, k) ==> RebalanceTheorems.Unlosable(z, lists, k))
      && var w := RebalanceModel.Run(z, TasksOf(endpoints, batches), lists, moves);
      forall i :: 0 <= i < |w.progress| ==> w.progress[i] == RebalanceModel.Finished
    ensures var z := SettingOf(r, endpoints, cfg, start, end);
      var after := RebalanceModel.Run(z, TasksOf(endpoints, batches), lists, moves).lists;
      var place := endpoints[NewOwner(r, k).value];
      place in after && RebalanceTheorems.Seen(after[place], k, end) == Some(v)
  {
    var z := SettingOf(r, endpoints, cfg, start, end);
    var tasks := TasksOf(endpoints, batches);
    PlanFits(r, keys, batches, endpoints, cfg, start, end);
    var held := lists[endpoints[OldOwner(r, k).value]];
    LastingIsListed(z, held, keys, LruModel.Find(held, k).value);
    RebalanceTheorems.RunInvariant(z, tasks, lists, moves);
    var stay: Key -> Address := (x: Key) => Resolve(endpoints, OldOwner(r, x), FALLBACK_SOURCE);
    RebalanceTheorems.NoDataLost(z, tasks, lists, moves, stay, k, v);
  }
}
