/** The cache node on the heap: a doubly linked list between two sentinels and a map into it.
    Every method is proved to act on the abstract list exactly as LruModel says. */
module LruCache {
  import opened LruModel
  import opened Options
  import opened Sequences

  class ListNode {
    var entry: Entry
    var prev: ListNode?
    var next: ListNode?

    constructor (e: Entry)
      ensures entry == e && prev == null && next == null
    {
      entry, prev, next := e, null, null;
    }
  }

  /** The map leads from each key exactly to the list node that holds the key. */
  ghost predicate Indexes(index: map<Key, ListNode>, chain: seq<ListNode>, s: seq<Entry>) {
    && |index| == |s| == |chain| - 2
    && UniqueKeys(s)
    && forall i :: 0 <= i < |s| ==> s[i].key in index && index[s[i].key] == chain[i + 1]
  }

  lemma {:induction false} IndexesDelete(index: map<Key, ListNode>, chain: seq<ListNode>, s: seq<Entry>, i: nat)
    requires Indexes(index, chain, s) && i < |s|
    ensures Indexes(index - {s[i].key}, Cut(chain, i + 1), Cut(s, i))
  {
    assert (index - {s[i].key}).Keys == index.Keys - {s[i].key};
    assert |(index - {s[i].key}).Keys| == |index.Keys| - 1;
  }

  lemma IndexesInsert(index: map<Key, ListNode>, chain: seq<ListNode>, s: seq<Entry>, node: ListNode, e: Entry)
    requires Indexes(index, chain, s) && e.key !in index
    ensures Indexes(index[e.key := node], Plug(chain, 1, node), [e] + s)
  {
  }

  /** Moving position `i` to the front, with a new entry for the same key, leaves the map right. */
  lemma {:induction false} IndexesMove(index: map<Key, ListNode>, chain: seq<ListNode>, s: seq<Entry>, i: nat, e: Entry)
    requires Indexes(index, chain, s) && i < |s| && e.key == s[i].key
    ensures Indexes(index, Plug(Cut(chain, i + 1), 1, chain[i + 1]), [e] + Cut(s, i))
  {
    IndexesDelete(index, chain, s, i);
    IndexesInsert(index - {e.key}, Cut(chain, i + 1), Cut(s, i), chain[i + 1], e);
    assert (index - {e.key})[e.key := chain[i + 1]] == index;
  }

  /** The position of the node that the map gives for a key, and what the key means there. */
  lemma Locate(index: map<Key, ListNode>, chain: seq<ListNode>, s: seq<Entry>, key: Key) returns (i: nat)
    requires Indexes(index, chain, s) && key in index
    ensures i < |s| && s[i].key == key && chain[i + 1] == index[key]
    ensures Find(s, key) == Some(s[i])
  {
    KeysCount(s);
    SubsetSize(Keys(s), index.Keys);
    i :| 0 <= i < |s| && s[i].key == key;
    FindAt(s, i);
  }

  lemma Absent(index: map<Key, ListNode>, chain: seq<ListNode>, s: seq<Entry>, key: Key)
    requires Indexes(index, chain, s) && key !in index
    ensures Find(s, key) == None && Drop(s, key) == s
  {
    FilterAll(s, NotKey(key));
  }

  /** Cutting one node out of a chain of different nodes leaves different nodes, and not that one. */
  lemma CutDistinct(chain: seq<ListNode>, i: nat)
    requires i < |chain| && NoDuplicates(chain)
    ensures NoDuplicates(Cut(chain, i)) && chain[i] !in Cut(chain, i)
    ensures forall j :: 0 <= j < |chain| - 1 ==> Cut(chain, i)[j] in chain
  {
  }

  class LRUCache {
    const capacity: nat
    const defaultTtl: Seconds
    const head: ListNode
    const tail: ListNode
    var index: map<Key, ListNode>
    var metrics: CacheMetrics

    /** All list nodes from `head` to `tail`, sentinels included. */
    ghost var chain: seq<ListNode>
    /** The abstract list: the entries between the sentinels, most recently used first. */
    ghost var contents: seq<Entry>
    /** Every list node this cache may write to. */
    ghost var repr: set<ListNode>

    ghost function Cfg(): Config {
      Config(capacity, defaultTtl)
    }

    /** Walking `next` from `head` visits `chain`, ends at `tail`, and `prev` is the inverse walk. */
    ghost predicate Linked()
      reads `chain, `contents, `index, `repr, repr
    {
      && (forall i :: 0 <= i < |chain| ==> chain[i] in repr)
      && |chain| >= 2 && chain[0] == head && chain[|chain| - 1] == tail
      && NoDuplicates(chain)
      && Forward(chain) && Backward(chain)
    }

    ghost predicate Forward(c: seq<ListNode>)
      reads `repr, repr`next
    {
      forall i {:trigger c[i].next} :: 0 <= i < |c| - 1 ==> c[i] in repr && c[i].next == c[i + 1]
    }

    ghost predicate Backward(c: seq<ListNode>)
      reads `repr, repr`prev
    {
      forall i {:trigger c[i].prev} :: 1 <= i < |c| ==> c[i] in repr && c[i].prev == c[i - 1]
    }

    ghost predicate Holds()
      reads `chain, `contents, `index, `repr, repr
    {
      && |contents| == |chain| - 2
      && (forall i :: 0 <= i < |chain| ==> chain[i] in repr)
      && forall i :: 0 <= i < |contents| ==> chain[i + 1].entry == contents[i]
    }

    ghost predicate Valid()
      reads `chain, `contents, `index, `repr, repr
    {
      && Linked() && Holds() && Indexes(index, chain, contents)
      && |contents| <= capacity && capacity > 0
    }

    constructor (capacity: nat, defaultTtl: Seconds)
      requires capacity > 0
      ensures Valid() && fresh(repr) && contents == []
      ensures this.capacity == capacity && this.defaultTtl == defaultTtl && metrics == NO_METRICS
    {
      this.capacity, this.defaultTtl := capacity, defaultTtl;
      var h := new ListNode(Entry("__head__", "", None));
      var t := new ListNode(Entry("__tail__", "", None));
      h.next, t.prev := t, h;
      head, tail := h, t;
      index, metrics := map[], NO_METRICS;
      chain, contents, repr := [h, t], [], {h, t};
    }

    /** A capacity of zero is refused; the C++ constructor throws `invalid_argument`. */
    static method Create(capacity: nat, defaultTtl: Seconds) returns (r: Option<LRUCache>)
      ensures r.None? <==> capacity == 0
      ensures r.Some? ==> r.value.Valid() && fresh(r.value) && fresh(r.value.repr) && r.value.contents == []
      ensures r.Some? ==> r.value.Cfg() == Config(capacity, defaultTtl) && r.value.metrics == NO_METRICS
    {
      if capacity == 0 {
        return None;
      }
      var c := new LRUCache(capacity, defaultTtl);
      return Some(c);
    }

    // ----- list surgery

    /** Makes the node before `node` point past it. */
    method SkipForward(node: ListNode, ghost i: nat, ghost before: ListNode)
      requires Linked() && i + 2 < |chain| && chain[i + 1] == node && chain[i] == before
      modifies before`next
      ensures Forward(Cut(chain, i + 1))
    {
      assert node.prev == chain[i] && node.next == chain[i + 2];
      node.prev.next := node.next;
    }

    /** Makes the node after `node` point back past it. */
    method SkipBackward(node: ListNode, ghost i: nat, ghost after: ListNode)
      requires |chain| >= 2 && (forall j :: 0 <= j < |chain| ==> chain[j] in repr)
      requires NoDuplicates(chain) && Backward(chain)
      requires i + 2 < |chain| && chain[i + 1] == node && node.next == chain[i + 2] == after
      modifies after`prev
      ensures Backward(Cut(chain, i + 1))
    {
      assert node.prev == chain[i];
      node.next.prev := node.prev;
    }

    /** Joins a node's neighbours to each other. */
    method Unhook(node: ListNode, ghost i: nat)
      requires Linked() && i + 2 < |chain| && chain[i + 1] == node
      modifies repr`next, repr`prev
      ensures Forward(Cut(chain, i + 1)) && Backward(Cut(chain, i + 1))
    {
      assert node.next == chain[i + 2];
      SkipForward(node, i, chain[i]);
      SkipBackward(node, i, chain[i + 2]);
    }

    /** Takes a node out of both walks. */
    method Bypass(node: ListNode, ghost i: nat)
      requires Linked() && Holds() && i < |contents| && chain[i + 1] == node
      modifies `chain, `contents, repr`next, repr`prev
      ensures Linked() && chain == Cut(old(chain), i + 1) && node !in chain
      ensures Holds() && contents == Cut(old(contents), i) && node.entry == old(node.entry)
    {
      Unhook(node, i);
      CutDistinct(chain, i + 1);
      chain, contents := Cut(chain, i + 1), Cut(contents, i);
    }

    method Detach(node: ListNode, ghost i: nat)
      requires Linked() && Holds() && i < |contents| && chain[i + 1] == node
      modifies `chain, `contents, repr
      ensures Linked() && chain == Cut(old(chain), i + 1)
      ensures Holds() && contents == Cut(old(contents), i)
      ensures node.prev == null && node.next == null && node.entry == old(node.entry) && node !in chain
    {
      Bypass(node, i);
      node.prev := null;
      node.next := null;
    }

    method AttachFront(node: ListNode)
      requires Linked() && Holds() && node !in chain
      modifies `chain, `contents, `repr, repr, node
      ensures Linked() && chain == Plug(old(chain), 1, node) && repr == old(repr) + {node}
      ensures Holds() && contents == [old(node.entry)] + old(contents) && node.entry == old(node.entry)
    {
      assert chain[0].next == chain[1];
      node.next := head.next;
      node.prev := head;
      head.next.prev := node;
      head.next := node;
      chain, contents, repr := Plug(chain, 1, node), [node.entry] + contents, repr + {node};
    }

    /** Takes a node out of the list and its key out of the map, as each deletion does. */
    method Discard(node: ListNode, ghost i: nat)
      requires Valid() && i < |contents| && chain[i + 1] == node
      modifies `chain, `contents, `index, repr
      ensures Valid() && contents == Drop(old(contents), old(contents)[i].key) && chain == Cut(old(chain), i + 1)
      ensures index == old(index) - {old(contents)[i].key}
    {
      DropAt(contents, i);
      IndexesDelete(index, chain, contents, i);
      index := index - {node.entry.key};
      Detach(node, i);
    }

    /** Moves a node to the front, storing `e` in it. */
    method Refresh(node: ListNode, e: Entry, ghost i: nat)
      requires Valid() && i < |contents| && chain[i + 1] == node && e.key == contents[i].key
      modifies `chain, `contents, `repr, repr
      ensures repr == old(repr)
      ensures Valid() && contents == [e] + Drop(old(contents), e.key) && node.entry == e
    {
      DropAt(contents, i);
      IndexesMove(index, chain, contents, i, e);
      node.entry := e;
      contents := contents[i := e];
      assert Cut(contents, i) == Cut(old(contents), i);
      MoveToFront(node, i);
    }

    /** Detaches a node and attaches it at the front. */
    method MoveToFront(node: ListNode, ghost i: nat)
      requires Linked() && Holds() && i < |contents| && chain[i + 1] == node
      modifies `chain, `contents, `repr, repr
      ensures Linked() && chain == Plug(Cut(old(chain), i + 1), 1, node) && repr == old(repr)
      ensures Holds() && contents == [old(contents)[i]] + Cut(old(contents), i) && node.entry == old(node.entry)
    {
      assert node in repr && node.entry == contents[i];
      Detach(node, i);
      AttachFront(node);
      assert repr == old(repr);
    }

    /** Removes the node before the tail sentinel, if there is one. */
    method EvictLru()
      requires Valid()
      modifies this, repr
      ensures Valid() && repr == old(repr)
      ensures contents == if old(contents) == [] then [] else old(contents)[..|old(contents)| - 1]
      ensures index.Keys <= old(index).Keys
      ensures metrics == if old(contents) == [] then old(metrics)
        else old(metrics).(evictions := old(metrics).evictions + 1)
    {
      assert chain[|chain| - 1].prev == chain[|chain| - 2];
      var lru := tail.prev;
      if lru == head {
        return;
      }
      DropAt(contents, |contents| - 1);
      metrics := metrics.(evictions := metrics.evictions + 1);
      Discard(lru, |contents| - 1);
    }

    /** Allocates a node for a new key and puts it at the front. */
    method Push(entry: Entry)
      requires Valid() && entry.key !in index && |contents| < capacity
      modifies `chain, `contents, `index, `repr, repr
      ensures Valid() && fresh(repr - old(repr)) && contents == [entry] + old(contents)
    {
      var node := new ListNode(entry);
      IndexesInsert(index, chain, contents, node, entry);
      AttachFront(node);
      index := index[entry.key := node];
    }

    /** Overwrites the entry of a stored key and moves it to the front. */
    method PutKnown(entry: Entry)
      requires Valid() && entry.key in index
      modifies `chain, `contents, `repr, repr
      ensures Valid() && repr == old(repr)
      ensures Find(old(contents), entry.key).Some? && contents == Insert(Cfg(), old(contents), entry)
    {
      ghost var i := Locate(index, chain, contents, entry.key);
      Refresh(index[entry.key], entry, i);
    }

    /** Makes room if the cache is full, then pushes the entry for a key not stored yet. */
    method PutNew(entry: Entry)
      requires Valid() && entry.key !in index
      modifies this, repr
      ensures Valid() && fresh(repr - old(repr))
      ensures Find(old(contents), entry.key) == None && contents == Insert(Cfg(), old(contents), entry)
      ensures metrics == if |old(contents)| >= capacity
        then old(metrics).(evictions := old(metrics).evictions + 1) else old(metrics)
    {
      Absent(index, chain, contents, entry.key);
      if |index| >= capacity {
        EvictLru();
      }
      Push(entry);
    }

    method Store(entry: Entry)
      requires Valid()
      modifies this, repr
      ensures Valid() && fresh(repr - old(repr))
      ensures contents == Insert(Cfg(), old(contents), entry)
      ensures metrics == if Find(old(contents), entry.key).None? && |old(contents)| >= capacity
        then old(metrics).(evictions := old(metrics).evictions + 1) else old(metrics)
    {
      if entry.key in index {
        PutKnown(entry);
      } else {
        PutNew(entry);
      }
    }

    // ----- the operations

    method Get(key: Key, now: Time) returns (r: Option<Value>)
      requires Valid()
      modifies this, repr
      ensures Valid() && repr == old(repr)
      ensures Outcome(contents, r) == Step(Cfg(), old(contents), Op.Get(key, now))
      ensures metrics == Tally(Cfg(), old(metrics), old(contents), Op.Get(key, now))
    {
      if key !in index {
        Absent(index, chain, contents, key);
        metrics := metrics.(misses := metrics.misses + 1);
        return None;
      }
      ghost var i := Locate(index, chain, contents, key);
      r := GetKnown(index[key], i, now);
    }

    /** A get of a key that is in the map: an expired entry is deleted, a live one moves to the front. */
    method GetKnown(node: ListNode, ghost i: nat, now: Time) returns (r: Option<Value>)
      requires Valid() && i < |contents| && chain[i + 1] == node
      requires Find(contents, contents[i].key) == Some(contents[i])
      modifies this, repr
      ensures Valid() && repr == old(repr)
      ensures Outcome(contents, r) == Step(Cfg(), old(contents), Op.Get(old(contents)[i].key, now))
      ensures metrics == Tally(Cfg(), old(metrics), old(contents), Op.Get(old(contents)[i].key, now))
    {
      if Expired(node.entry, now) {
        DropExpired(node, i, now);
        return None;
      }
      r := Some(node.entry.value);
      Touch(node, i, now);
    }

    method DropExpired(node: ListNode, ghost i: nat, now: Time)
      requires Valid() && i < |contents| && chain[i + 1] == node
      requires Find(contents, contents[i].key) == Some(contents[i]) && Expired(contents[i], now)
      modifies this, repr
      ensures Valid() && repr == old(repr)
      ensures Outcome(contents, None) == Step(Cfg(), old(contents), Op.Get(old(contents)[i].key, now))
      ensures metrics == Tally(Cfg(), old(metrics), old(contents), Op.Get(old(contents)[i].key, now))
    {
      metrics := metrics.(misses := metrics.misses + 1, expirations := metrics.expirations + 1);
      Discard(node, i);
    }

    method Touch(node: ListNode, ghost i: nat, now: Time)
      requires Valid() && i < |contents| && chain[i + 1] == node
      requires Find(contents, contents[i].key) == Some(contents[i]) && !Expired(contents[i], now)
      modifies this, repr
      ensures Valid() && repr == old(repr)
      ensures Outcome(contents, Some(old(contents)[i].value))
        == Step(Cfg(), old(contents), Op.Get(old(contents)[i].key, now))
      ensures metrics == Tally(Cfg(), old(metrics), old(contents), Op.Get(old(contents)[i].key, now))
    {
      metrics := metrics.(hits := metrics.hits + 1);
      Refresh(node, node.entry, i);
    }

    method Put(key: Key, value: Value, ttl: Seconds, now: Time)
      requires Valid()
      modifies this, repr
      ensures Valid() && fresh(repr - old(repr))
      ensures contents == Step(Cfg(), old(contents), Op.Put(key, value, ttl, now)).list
      ensures metrics == Tally(Cfg(), old(metrics), old(contents), Op.Put(key, value, ttl, now))
    {
      var effective := if ttl > 0 then ttl else defaultTtl;
      var expiry: Option<Time> := None;
      if effective > 0 {
        expiry := Some(now + effective * TICKS_PER_SECOND);
      }
      var entry := Entry(key, value, expiry);
      assert entry == Entry(key, value, Expiry(Cfg(), ttl, now));
      metrics := metrics.(puts := metrics.puts + 1);
      Store(entry);
    }

    method Remove(key: Key) returns (removed: bool)
      requires Valid()
      modifies this, repr
      ensures Valid() && repr == old(repr)
      ensures contents == Step(Cfg(), old(contents), Op.Remove(key)).list
      ensures removed <==> Find(old(contents), key).Some?
      ensures metrics == Tally(Cfg(), old(metrics), old(contents), Op.Remove(key))
    {
      if key !in index {
        Absent(index, chain, contents, key);
        return false;
      }
      ghost var i := Locate(index, chain, contents, key);
      metrics := metrics.(dels := metrics.dels + 1);
      Discard(index[key], i);
      return true;
    }

    /** The purge has lost no live entry, and the first `kept` entries are live. */
    ghost predicate Judged(was: seq<Entry>, kept: nat, now: Time)
      reads `contents
    {
      && kept <= |contents| && Live(contents, now) == Live(was, now)
      && forall i :: 0 <= i < kept ==> !Expired(contents[i], now)
    }

    /** Deletes an expired node met on the purge walk; what is still to be judged stays. */
    method Expire(node: ListNode, ghost was: seq<Entry>, ghost i: nat, now: Time)
      requires Valid() && i < |contents| && chain[i + 1] == node && Expired(contents[i], now)
      requires Judged(was, i, now)
      modifies this, repr
      ensures Valid() && repr == old(repr) && chain == Cut(old(chain), i + 1)
      ensures |contents| == |old(contents)| - 1 && Judged(was, i, now)
      ensures metrics == old(metrics).(expirations := old(metrics).expirations + 1)
    {
      LiveWithout(contents, i, now);
      DropAt(contents, i);
      metrics := metrics.(expirations := metrics.expirations + 1);
      Discard(node, i);
    }

    /** One turn of the purge walk: deletes the node if its entry has expired, and goes on. */
    method PurgeNode(curr: ListNode, ghost was: seq<Entry>, ghost kept: nat, now: Time)
      returns (next: ListNode, removed: nat, ghost done: nat)
      requires Valid() && kept < |contents| && curr == chain[kept + 1] && Judged(was, kept, now)
      modifies this, repr
      ensures Valid() && repr == old(repr) && Judged(was, done, now) && next == chain[done + 1]
      ensures removed + |contents| == |old(contents)| && |contents| - done < |old(contents)| - kept
      ensures metrics == old(metrics).(expirations := old(metrics).expirations + removed)
    {
      assert curr.next == chain[kept + 2] && curr.entry == contents[kept];
      next := curr.next;
      if Expired(curr.entry, now) {
        Expire(curr, was, kept, now);
        removed, done := 1, kept;
      } else {
        removed, done := 0, kept + 1;
      }
    }

    /** Walks from the front, deleting expired nodes on the way. */
    method PurgeExpired(now: Time) returns (count: nat)
      requires Valid()
      modifies this, repr
      ensures Valid() && repr == old(repr)
      ensures contents == Step(Cfg(), old(contents), Op.Purge(now)).list
      ensures count == |old(contents)| - |contents|
      ensures metrics == Tally(Cfg(), old(metrics), old(contents), Op.Purge(now))
    {
      ghost var was := contents;
      count := PurgeWalk(now);
      JudgedAll(was, |contents|, now);
    }

    /** The walk of a purge. */
    method PurgeWalk(now: Time) returns (count: nat)
      requires Valid()
      modifies this, repr
      ensures Valid() && repr == old(repr)
      ensures Judged(old(contents), |contents|, now) && count + |contents| == |old(contents)|
      ensures metrics == old(metrics).(expirations := old(metrics).expirations + count)
    {
      count := 0;
      var curr := First();
      ghost var was, kept := contents, 0;
      while curr != tail
        invariant Valid() && repr == old(repr) && was == old(contents)
        invariant Judged(was, kept, now) && curr == chain[kept + 1]
        invariant count + |contents| == |was|
        invariant metrics == old(metrics).(expirations := old(metrics).expirations + count)
        decreases |contents| - kept
      {
        AtTail(kept + 1);
        var removed;
        curr, removed, kept := PurgeNode(curr, was, kept, now);
        count := count + removed;
      }
      AtTail(kept + 1);
    }

    lemma JudgedAll(was: seq<Entry>, kept: nat, now: Time)
      requires Judged(was, kept, now) && kept == |contents|
      ensures contents == Live(was, now)
    {
      FilterAll(contents, Unexpired(now));
    }

    /** The first node after the head sentinel. */
    method First() returns (first: ListNode)
      requires Valid()
      ensures first == chain[1]
    {
      assert chain[0].next == chain[1];
      first := head.next;
    }

    /** Only the last place of the chain is the tail sentinel. */
    lemma AtTail(i: nat)
      requires Valid() && i < |chain|
      ensures chain[i] == tail <==> i == |contents| + 1
    {
    }

    /** Exports the unexpired entries, most recently used first. */
    method Snapshot(now: Time) returns (result: seq<Export>)
      requires Valid()
      ensures result == LruModel.Snapshot(contents, now)
    {
      result := [];
      var curr := First();
      ghost var i := 0;
      while curr != tail
        invariant 0 <= i <= |contents| && curr == chain[i + 1]
        invariant result == LruModel.Snapshot(contents[..i], now)
        decreases |contents| - i
      {
        assert curr.next == chain[i + 2] && curr.entry == contents[i];
        SnapshotExtend(contents, i, now);
        if !Expired(curr.entry, now) {
          result := result + [ExportOf(curr.entry, now)];
        }
        curr := curr.next;
        i := i + 1;
      }
      assert contents[..i] == contents;
    }

    /** Puts every exported entry in turn; `times[i]` is the clock reading of the i-th put. */
    method BulkLoad(xs: seq<Export>, times: seq<Time>)
      requires Valid() && |times| == |xs|
      modifies this, repr
      ensures Valid() && fresh(repr - old(repr))
      ensures contents == LruModel.BulkLoad(Cfg(), old(contents), xs, times)
      ensures metrics == BulkTally(Cfg(), old(metrics), old(contents), xs, times)
    {
      for i := 0 to |xs|
        invariant Valid() && fresh(repr - old(repr))
        invariant contents == LruModel.BulkLoad(Cfg(), old(contents), xs[..i], times[..i])
        invariant metrics == BulkTally(Cfg(), old(metrics), old(contents), xs[..i], times[..i])
      {
        Put(xs[i].key, xs[i].value, xs[i].ttl, times[i]);
        assert xs[..i + 1][..i] == xs[..i] && times[..i + 1][..i] == times[..i];
      }
      assert xs[..|xs|] == xs && times[..|xs|] == times;
    }

    /** Relinks the sentinels; the nodes in between are freed. */
    method Clear()
      requires Valid()
      modifies this, repr
      ensures Valid() && repr == old(repr)
      ensures contents == Step(Cfg(), old(contents), Op.Clear).list
      ensures metrics == old(metrics)
    {
      head.next := tail;
      tail.prev := head;
      chain, contents := [head, tail], [];
      index := map[];
    }

    /** All stored keys that have not expired, in the unspecified order of the map. */
    method LiveKeys(now: Time) returns (result: seq<Key>)
      requires Valid()
      ensures NoDuplicates(result)
      ensures forall k :: k in result <==> k in Keys(Live(contents, now))
    {
      result := [];
      var todo := index.Keys;
      while todo != {}
        invariant todo <= index.Keys && NoDuplicates(result)
        invariant forall k :: k in result ==> k in index.Keys - todo
        invariant forall k :: k in index.Keys - todo ==> (k in result <==> k in Keys(Live(contents, now)))
      {
        var k :| k in todo;
        var live := Contains(k, now);
        if live {
          result := result + [k];
        }
        todo := todo - {k};
      }
      LiveKeysStored(now);
    }

    lemma LiveKeysStored(now: Time)
      requires Valid()
      ensures Keys(Live(contents, now)) <= index.Keys
    {
    }

    method Contains(key: Key, now: Time) returns (present: bool)
      requires Valid()
      ensures present <==> key in Keys(Live(contents, now))
    {
      if key !in index {
        Absent(index, chain, contents, key);
        return false;
      }
      ghost var i := Locate(index, chain, contents, key);
      LiveAt(contents, i, now);
      return !Expired(index[key].entry, now);
    }
  }
}
