/** The cache node on values: an ordered list of entries, most recently used first.
    The heap implementation in LruCache.dfy refines these functions, and the theorems
    about whole traces in LruTheorems.dfy are stated over them. */
module LruModel {
  import opened Options
  import opened Sequences

  type Key = string
  type Value = string

  /** Readings of the steady clock, in ticks. */
  type Time = int

  const TICKS_PER_SECOND := 1_000_000_000
  const TWO_TO_THE_32 := 0x1_0000_0000

  /** The `uint32_t` number of seconds that callers and snapshots carry; 0 means "not given". */
  type Seconds = n: int | 0 <= n < TWO_TO_THE_32

  datatype Entry = Entry(key: Key, value: Value, expires: Option<Time>)

  datatype Config = Config(capacity: nat, defaultTtl: Seconds)

  /** What a snapshot exports and a bulk load receives. */
  datatype Export = Export(key: Key, value: Value, ttl: Seconds)

  predicate Expired(e: Entry, now: Time) {
    e.expires.Some? && now >= e.expires.value
  }

  /** Expiry of an entry written at `now`: the given lifetime, else the default, else never. */
  function Expiry(cfg: Config, ttl: Seconds, now: Time): Option<Time> {
    var effective := if ttl > 0 then ttl else cfg.defaultTtl;
    if effective > 0 then Some(now + effective * TICKS_PER_SECOND) else None
  }

  function NotKey(k: Key): Entry -> bool {
    (e: Entry) => e.key != k
  }

  function Unexpired(now: Time): Entry -> bool {
    (e: Entry) => !Expired(e, now)
  }

  ghost function Keys(s: seq<Entry>): set<Key> {
    set e | e in s :: e.key
  }

  ghost predicate UniqueKeys(s: seq<Entry>) {
    forall i, j :: 0 <= i < j < |s| ==> s[i].key != s[j].key
  }

  ghost predicate WellFormed(cfg: Config, s: seq<Entry>) {
    UniqueKeys(s) && |s| <= cfg.capacity
  }

  function Find(s: seq<Entry>, k: Key): (r: Option<Entry>)
    ensures r.Some? ==> r.value in s && r.value.key == k
    ensures r.None? ==> forall e :: e in s ==> e.key != k
  {
    if s == [] then None
    else if s[0].key == k then Some(s[0])
    else
      assert forall e :: e in s ==> e == s[0] || e in s[1..];
      Find(s[1..], k)
  }

  /** The list without the entry for `k`. */
  function Drop(s: seq<Entry>, k: Key): seq<Entry> {
    Filter(s, NotKey(k))
  }

  function Insert(cfg: Config, s: seq<Entry>, e: Entry): seq<Entry> {
    if Find(s, e.key).Some? then [e] + Drop(s, e.key)
    else if |s| >= cfg.capacity && s != [] then [e] + s[..|s| - 1]
    else [e] + s
  }

  function Live(s: seq<Entry>, now: Time): seq<Entry> {
    Filter(s, Unexpired(now))
  }

  // ----- operations of the node

  datatype Op =
    | Get(key: Key, now: Time)
    | Put(key: Key, value: Value, ttl: Seconds, now: Time)
    | Remove(key: Key)
    | Purge(now: Time)
    | Clear

  /** What a caller sees: a value for a hit, nothing otherwise. */
  datatype Outcome = Outcome(list: seq<Entry>, hit: Option<Value>)

  function Step(cfg: Config, s: seq<Entry>, op: Op): Outcome {
    match op
    case Get(k, now) =>
      (match Find(s, k)
       case None => Outcome(s, None)
       case Some(e) =>
         if Expired(e, now) then Outcome(Drop(s, k), None)
         else Outcome([e] + Drop(s, k), Some(e.value)))
    case Put(k, v, ttl, now) => Outcome(Insert(cfg, s, Entry(k, v, Expiry(cfg, ttl, now))), None)
    case Remove(k) => Outcome(Drop(s, k), None)
    case Purge(now) => Outcome(Live(s, now), None)
    case Clear => Outcome([], None)
  }

  /** The node's counters, unbounded here. */
  datatype CacheMetrics = CacheMetrics(hits: nat, misses: nat, evictions: nat, expirations: nat, puts: nat, dels: nat)

  const NO_METRICS := CacheMetrics(0, 0, 0, 0, 0, 0)

  function Tally(cfg: Config, m: CacheMetrics, s: seq<Entry>, op: Op): CacheMetrics {
    match op
    case Get(k, now) =>
      (match Find(s, k)
       case None => m.(misses := m.misses + 1)
       case Some(e) =>
         if Expired(e, now) then m.(misses := m.misses + 1, expirations := m.expirations + 1)
         else m.(hits := m.hits + 1))
    case Put(k, v, ttl, now) =>
      var evicted := if Find(s, k).None? && |s| >= cfg.capacity && s != [] then 1 else 0;
      m.(puts := m.puts + 1, evictions := m.evictions + evicted)
    case Remove(k) => if Find(s, k).Some? then m.(dels := m.dels + 1) else m
    case Purge(now) => m.(expirations := m.expirations + |s| - |Live(s, now)|)
    case Clear => m
  }

  /** Whole seconds left at `now`, as exported: truncated, and reduced to 32 bits. */
  function Remaining(e: Entry, now: Time): Seconds {
    if e.expires.None? then 0
    else
      var secs := (e.expires.value - now) / TICKS_PER_SECOND;
      if secs > 0 then secs % TWO_TO_THE_32 else 0
  }

  function ExportOf(e: Entry, now: Time): Export {
    Export(e.key, e.value, Remaining(e, now))
  }

  function Snapshot(s: seq<Entry>, now: Time): seq<Export> {
    var live := Live(s, now);
    seq(|live|, i requires 0 <= i < |live| => ExportOf(live[i], now))
  }

  function Loaded(cfg: Config, x: Export, now: Time): Entry {
    Entry(x.key, x.value, Expiry(cfg, x.ttl, now))
  }

  /** One `put` per exported entry; `times[i]` is the clock reading of the i-th. */
  function BulkLoad(cfg: Config, s: seq<Entry>, xs: seq<Export>, times: seq<Time>): seq<Entry>
    requires |xs| == |times|
  {
    if xs == [] then s
    else
      var n := |xs| - 1;
      Insert(cfg, BulkLoad(cfg, s, xs[..n], times[..n]), Loaded(cfg, xs[n], times[n]))
  }

  /** The counters after those puts. */
  function BulkTally(cfg: Config, m: CacheMetrics, s: seq<Entry>, xs: seq<Export>, times: seq<Time>): CacheMetrics
    requires |xs| == |times|
  {
    if xs == [] then m
    else
      var n := |xs| - 1;
      Tally(cfg, BulkTally(cfg, m, s, xs[..n], times[..n]), BulkLoad(cfg, s, xs[..n], times[..n]),
            Put(xs[n].key, xs[n].value, xs[n].ttl, times[n]))
  }

  // ----- facts every proof about the list needs

  lemma {:induction false} FilterUnique(s: seq<Entry>, p: Entry -> bool)
    requires UniqueKeys(s)
    ensures UniqueKeys(Filter(s, p))
  {
    if s != [] {
      FilterUnique(s[1..], p);
      var f := Filter(s[1..], p);
      assert forall i :: 0 <= i < |f| ==> f[i] in s[1..];
    }
  }

  /** Looking up a key in a list with unique keys yields the one entry that has it. */
  lemma {:induction false} FindAt(s: seq<Entry>, i: nat)
    requires UniqueKeys(s) && i < |s|
    ensures Find(s, s[i].key) == Some(s[i])
  {
    if i > 0 {
      FindAt(s[1..], i - 1);
    }
  }

  /** A stored key counts as live exactly when its own entry has not expired. */
  lemma {:induction false} LiveAt(s: seq<Entry>, i: nat, now: Time)
    requires UniqueKeys(s) && i < |s|
    ensures s[i].key in Keys(Live(s, now)) <==> !Expired(s[i], now)
  {
    if !Expired(s[i], now) {
      assert s[i] in Live(s, now);
    }
  }

  lemma DropAt(s: seq<Entry>, i: nat)
    requires UniqueKeys(s) && i < |s|
    ensures Drop(s, s[i].key) == Cut(s, i)
  {
    FilterDropsOne(s, i, NotKey(s[i].key));
  }

  lemma {:induction false} FindDrop(s: seq<Entry>, gone: Key, k: Key)
    ensures Find(Drop(s, gone), k) == if k == gone then None else Find(s, k)
  {
    if s != [] {
      FindDrop(s[1..], gone, k);
    }
  }

  lemma {:induction false} FindLive(s: seq<Entry>, now: Time, k: Key)
    requires UniqueKeys(s)
    ensures Find(Live(s, now), k) ==
      if Find(s, k).Some? && Expired(Find(s, k).value, now) then None else Find(s, k)
  {
    if s != [] {
      FindLive(s[1..], now, k);
      if s[0].key == k {
        assert forall e :: e in s[1..] ==> e.key != k;
      }
    }
  }

  /** Deleting an expired entry leaves the live entries as they are. */
  lemma LiveWithout(s: seq<Entry>, i: nat, now: Time)
    requires UniqueKeys(s) && i < |s| && Expired(s[i], now)
    ensures Live(Drop(s, s[i].key), now) == Live(s, now)
  {
    var k := s[i].key;
    FilterCommutes(s, NotKey(k), Unexpired(now));
    forall e | e in Live(s, now)
      ensures e.key != k
    {
      var j :| 0 <= j < |s| && s[j] == e;
    }
    FilterAll(Live(s, now), NotKey(k));
  }

  lemma SnapshotExtend(s: seq<Entry>, i: nat, now: Time)
    requires i < |s|
    ensures Snapshot(s[..i + 1], now) ==
      if Expired(s[i], now) then Snapshot(s[..i], now) else Snapshot(s[..i], now) + [ExportOf(s[i], now)]
  {
    assert s[..i + 1] == s[..i] + [s[i]];
    FilterAppend(s[..i], [s[i]], Unexpired(now));
  }

  lemma {:induction false} KeysCount(s: seq<Entry>)
    requires UniqueKeys(s)
    ensures |Keys(s)| == |s|
  {
    if s != [] {
      KeysCount(s[1..]);
      KeysCons(s[0], s[1..]);
      assert s == [s[0]] + s[1..];
    }
  }

  /** A list with unique keys, all from `bound`, is no longer than `bound` is large. */
  lemma KeysWithin(s: seq<Entry>, bound: set<Key>)
    requires UniqueKeys(s) && forall e :: e in s ==> e.key in bound
    ensures |s| <= |bound|
  {
    KeysCount(s);
    SubsetSize(Keys(s), bound);
  }

  lemma {:induction false} KeysCons(e: Entry, s: seq<Entry>)
    ensures Keys([e] + s) == Keys(s) + {e.key}
  {
    assert ([e] + s)[0] == e;
    assert forall x :: x in [e] + s <==> x == e || x in s;
  }

  /** What remains after a drop has unique keys, none of them `k`. */
  lemma DropUnique(s: seq<Entry>, k: Key)
    requires UniqueKeys(s)
    ensures UniqueKeys(Drop(s, k))
    ensures forall i :: 0 <= i < |Drop(s, k)| ==> Drop(s, k)[i].key != k
    ensures Keys(Drop(s, k)) == Keys(s) - {k}
    ensures k in Keys(s) ==> |Drop(s, k)| == |s| - 1
  {
    FilterUnique(s, NotKey(k));
    var d := Drop(s, k);
    assert forall i :: 0 <= i < |d| ==> d[i] in d;
    if k in Keys(s) {
      var i :| 0 <= i < |s| && s[i].key == k;
      DropAt(s, i);
    }
  }

  /** Every operation keeps keys unique and the list within capacity. */
  lemma StepWellFormed(cfg: Config, s: seq<Entry>, op: Op)
    requires WellFormed(cfg, s) && cfg.capacity > 0
    ensures WellFormed(cfg, Step(cfg, s, op).list)
  {
    match op
    case Get(k, now) =>
      DropUnique(s, k);
    case Put(k, v, ttl, now) =>
      InsertWellFormed(cfg, s, Entry(k, v, Expiry(cfg, ttl, now)));
    case Remove(k) => FilterUnique(s, NotKey(k));
    case Purge(now) => FilterUnique(s, Unexpired(now));
    case Clear =>
  }

  lemma InsertWellFormed(cfg: Config, s: seq<Entry>, e: Entry)
    requires WellFormed(cfg, s) && cfg.capacity > 0
    ensures WellFormed(cfg, Insert(cfg, s, e))
  {
    if Find(s, e.key).Some? {
      DropUnique(s, e.key);
      ConsUnique(e, Drop(s, e.key));
    } else {
      assert forall i :: 0 <= i < |s| ==> s[i] in s;
      ConsUnique(e, s);
      ConsUnique(e, if s == [] then s else s[..|s| - 1]);
    }
  }

  lemma ConsUnique(e: Entry, s: seq<Entry>)
    requires UniqueKeys(s) && forall i :: 0 <= i < |s| ==> s[i].key != e.key
    ensures UniqueKeys([e] + s)
  {
  }

  lemma BulkLoadWellFormed(cfg: Config, s: seq<Entry>, xs: seq<Export>, times: seq<Time>)
    requires WellFormed(cfg, s) && cfg.capacity > 0 && |xs| == |times|
    ensures WellFormed(cfg, BulkLoad(cfg, s, xs, times))
  {
    if xs != [] {
      var n := |xs| - 1;
      BulkLoadWellFormed(cfg, s, xs[..n], times[..n]);
      InsertWellFormed(cfg, BulkLoad(cfg, s, xs[..n], times[..n]), Loaded(cfg, xs[n], times[n]));
    }
  }
}
