/** What each operation of the cache node does, said by lookups and by counting. */
module LruOperations {
  import opened LruModel
  import opened Options
  import opened Sequences
  import opened LruTheorems

  /** Every other key is found as before. */
  ghost predicate OthersKept(before: seq<Entry>, after: seq<Entry>, k: Key) {
    forall x :: x != k ==> Find(after, x) == Find(before, x)
  }

  lemma FindCons(e: Entry, s: seq<Entry>, x: Key)
    ensures Find([e] + s, x) == if e.key == x then Some(e) else Find(s, x)
  {
    assert ([e] + s)[1..] == s;
  }

  /** A get answers the stored value while its expiry lies ahead, and makes the key the first; at its
      expiry the entry is deleted and nothing is answered. */
  lemma GetAnswers(cfg: Config, s: seq<Entry>, k: Key, now: Time)
    ensures var got := Step(cfg, s, Get(k, now));
      match Find(s, k)
      case None => got == Outcome(s, None)
      case Some(e) =>
        && OthersKept(s, got.list, k)
        && if e.expires.Some? && e.expires.value <= now then got.hit.None? && Find(got.list, k).None?
           else got.hit == Some(e.value) && got.list != [] && got.list[0] == e
  {
    if Find(s, k).Some? {
      var e := Find(s, k).value;
      forall x | x != k
        ensures Find(Step(cfg, s, Get(k, now)).list, x) == Find(s, x)
      {
        FindDrop(s, k, x);
        FindCons(e, Drop(s, k), x);
      }
      FindDrop(s, k, k);
    }
  }

  /** A put makes the key the first, with its value and with the given lifetime in seconds, else the
      default one, else none. It costs another key only if the key is new and the cache full, and
      then the last one. */
  lemma PutStores(cfg: Config, s: seq<Entry>, k: Key, v: Value, ttl: Seconds, now: Time)
    requires WellFormed(cfg, s) && cfg.capacity > 0
    ensures var after := Step(cfg, s, Put(k, v, ttl, now)).list;
      && after != [] && after[0].key == k && after[0].value == v
      && after[0].expires == (if ttl > 0 then Some(now + ttl * 1_000_000_000)
                              else if cfg.defaultTtl > 0 then Some(now + cfg.defaultTtl * 1_000_000_000)
                              else None)
      && forall x :: x != k ==>
        Find(after, x) == if Find(s, k).None? && |s| >= cfg.capacity && s[|s| - 1].key == x then None else Find(s, x)
  {
    var e := Entry(k, v, Expiry(cfg, ttl, now));
    forall x | x != k
      ensures Find(Insert(cfg, s, e), x) ==
        if Find(s, k).None? && |s| >= cfg.capacity && s[|s| - 1].key == x then None else Find(s, x)
    {
      if Find(s, k).Some? {
        FindDrop(s, k, x);
        FindCons(e, Drop(s, k), x);
      } else if |s| >= cfg.capacity {
        FindInit(s, x);
        FindCons(e, s[..|s| - 1], x);
      } else {
        FindCons(e, s, x);
      }
    }
  }

  /** Cutting off the last entry forgets its key and no other. */
  lemma {:induction false} FindInit(s: seq<Entry>, x: Key)
    requires s != [] && UniqueKeys(s)
    ensures Find(s[..|s| - 1], x) == if s[|s| - 1].key == x then None else Find(s, x)
  {
    if |s| > 1 {
      FindInit(s[1..], x);
      assert s[..|s| - 1][1..] == s[1..][..|s[1..]| - 1];
    }
  }

  /** A removal forgets its key, a purge all keys whose expiry has come, a clear all keys. */
  lemma RemovalsForget(cfg: Config, s: seq<Entry>, k: Key, now: Time, x: Key)
    requires UniqueKeys(s)
    ensures Find(Step(cfg, s, Remove(k)).list, x) == if x == k then None else Find(s, x)
    ensures var e := Find(s, x);
      Find(Step(cfg, s, Purge(now)).list, x) ==
        if e.Some? && e.value.expires.Some? && e.value.expires.value <= now then None else e
    ensures Find(Step(cfg, s, Clear).list, x) == None
  {
    FindDrop(s, k, x);
    FindLive(s, now, x);
  }

  /** An exported lifetime is the whole number of seconds left. */
  lemma RemainingExact(e: Entry, now: Time)
    requires e.expires.Some? ==> 0 < e.expires.value - now < 0x1_0000_0000 * 1_000_000_000
    ensures var x := ExportOf(e, now);
      && x.key == e.key && x.value == e.value
      && (e.expires.None? ==> x.ttl == 0)
      && (e.expires.Some? ==>
        x.ttl * 1_000_000_000 <= e.expires.value - now < (x.ttl + 1) * 1_000_000_000)
  {
  }

  // ----- the counters

  /** Gets that were answered with a value, and gets that were not. */
  function Hits(cfg: Config, ops: seq<Op>): nat {
    if ops == [] then 0
    else
      var n := |ops| - 1;
      Hits(cfg, ops[..n]) + if ops[n].Get? && Answer(cfg, ops, n).Some? then 1 else 0
  }

  function Misses(cfg: Config, ops: seq<Op>): nat {
    if ops == [] then 0
    else
      var n := |ops| - 1;
      Misses(cfg, ops[..n]) + if ops[n].Get? && Answer(cfg, ops, n).None? then 1 else 0
  }

  function Puts(ops: seq<Op>): nat {
    if ops == [] then 0 else Puts(ops[..|ops| - 1]) + if ops[|ops| - 1].Put? then 1 else 0
  }

  /** By how much the last operation made the list shorter. */
  function Shrunk(cfg: Config, ops: seq<Op>): int
    requires ops != []
  {
    |Run(cfg, ops[..|ops| - 1])| - |Run(cfg, ops)|
  }

  /** Removals that made the list shorter. */
  function Dels(cfg: Config, ops: seq<Op>): nat {
    if ops == [] then 0
    else Dels(cfg, ops[..|ops| - 1]) + if ops[|ops| - 1].Remove? && Shrunk(cfg, ops) > 0 then 1 else 0
  }

  /** Puts of a key that was not stored which did not make the list longer. */
  function Evictions(cfg: Config, ops: seq<Op>): nat {
    if ops == [] then 0
    else
      var init, op := ops[..|ops| - 1], ops[|ops| - 1];
      Evictions(cfg, init) + if op.Put? && Find(Run(cfg, init), op.key).None? && Shrunk(cfg, ops) >= 0 then 1 else 0
  }

  /** Entries lost at gets and purges. */
  function Expirations(cfg: Config, ops: seq<Op>): int {
    if ops == [] then 0
    else
      Expirations(cfg, ops[..|ops| - 1]) +
        if ops[|ops| - 1].Get? || ops[|ops| - 1].Purge? then Shrunk(cfg, ops) else 0
  }

  /** What each counter counts, on every trace. */
  lemma {:induction false} CountersCount(cfg: Config, ops: seq<Op>)
    requires cfg.capacity > 0
    ensures var m := Metrics(cfg, ops);
      && m.hits == Hits(cfg, ops) && m.misses == Misses(cfg, ops) && m.puts == Puts(ops)
      && m.dels == Dels(cfg, ops) && m.evictions == Evictions(cfg, ops) && m.expirations == Expirations(cfg, ops)
  {
    if ops != [] {
      var n := |ops| - 1;
      CountersCount(cfg, ops[..n]);
      RunWellFormed(cfg, ops[..n]);
      StepConserves(cfg, Run(cfg, ops[..n]), ops[n]);
    }
  }
}
