/** Theorems about whole traces of the cache node, stated on the list of LruModel. */
module LruTheorems {
  import opened LruModel
  import opened Options
  import opened Sequences

  /** The list after a trace that starts from an empty cache. */
  function Run(cfg: Config, ops: seq<Op>): seq<Entry> {
    if ops == [] then [] else Step(cfg, Run(cfg, ops[..|ops| - 1]), ops[|ops| - 1]).list
  }

  /** What the i-th operation of the trace answers. */
  function Answer(cfg: Config, ops: seq<Op>, i: nat): Option<Value>
    requires i < |ops|
  {
    Step(cfg, Run(cfg, ops[..i]), ops[i]).hit
  }

  lemma {:induction false} RunWellFormed(cfg: Config, ops: seq<Op>)
    requires cfg.capacity > 0
    ensures WellFormed(cfg, Run(cfg, ops))
  {
    if ops != [] {
      RunWellFormed(cfg, ops[..|ops| - 1]);
      StepWellFormed(cfg, Run(cfg, ops[..|ops| - 1]), ops[|ops| - 1]);
    }
  }

  // ----- inclusion: a larger cache never forgets what a smaller one still holds

  /** The small list is a subsequence of the large one, and the large one has not run further
      ahead in size than its extra capacity. */
  ghost predicate Included(small: Config, large: Config, a: seq<Entry>, b: seq<Entry>) {
    && WellFormed(small, a) && WellFormed(large, b)
    && Subsequence(a, b)
    && |b| <= |a| + (large.capacity - small.capacity)
  }

  /** `large` is `small` with more room. */
  ghost predicate Roomier(small: Config, large: Config) {
    0 < small.capacity <= large.capacity && small.defaultTtl == large.defaultTtl
  }

  lemma {:induction false} KeysIncluded(a: seq<Entry>, b: seq<Entry>, k: Key)
    requires UniqueKeys(b) && Subsequence(a, b)
    ensures Find(a, k).Some? ==> Find(b, k) == Find(a, k)
  {
    SubsequenceMembers(a, b);
    if Find(a, k).Some? {
      var i :| 0 <= i < |b| && b[i] == Find(a, k).value;
      FindAt(b, i);
    }
  }

  /** Filtering removes at most as much from a subsequence. */
  lemma {:induction false} FilterLoss(a: seq<Entry>, b: seq<Entry>, p: Entry -> bool)
    requires Subsequence(a, b)
    ensures |a| - |Filter(a, p)| <= |b| - |Filter(b, p)|
  {
    if a != [] && b != [] {
      if a[0] == b[0] {
        FilterLoss(a[1..], b[1..], p);
      } else {
        FilterLoss(a, b[1..], p);
      }
    }
  }

  lemma DropIncluded(small: Config, large: Config, a: seq<Entry>, b: seq<Entry>, k: Key)
    requires Roomier(small, large) && Included(small, large, a, b)
    ensures Included(small, large, Drop(a, k), Drop(b, k))
  {
    FilterSubsequence(a, b, NotKey(k));
    FilterLoss(a, b, NotKey(k));
    FilterUnique(a, NotKey(k));
    FilterUnique(b, NotKey(k));
  }

  lemma FrontIncluded(e: Entry, a: seq<Entry>, b: seq<Entry>)
    requires Subsequence(a, b)
    ensures Subsequence([e] + a, [e] + b)
  {
    assert ([e] + a)[1..] == a && ([e] + b)[1..] == b;
  }

  lemma InsertIncluded(small: Config, large: Config, a: seq<Entry>, b: seq<Entry>, e: Entry)
    requires Roomier(small, large) && Included(small, large, a, b)
    ensures Included(small, large, Insert(small, a, e), Insert(large, b, e))
  {
    var k := e.key;
    InsertWellFormed(small, a, e);
    InsertWellFormed(large, b, e);
    KeysIncluded(a, b, k);
    FilterSubsequence(a, b, NotKey(k));
    DropUnique(a, k);
    DropUnique(b, k);
    if Find(a, k).Some? {
      FrontIncluded(e, Drop(a, k), Drop(b, k));
    } else {
      FilterAll(a, NotKey(k));
      if Find(b, k).Some? {
        if |a| >= small.capacity {
          SubsequenceInit(a, Drop(b, k));
          FrontIncluded(e, a[..|a| - 1], Drop(b, k));
        } else {
          FrontIncluded(e, a, Drop(b, k));
        }
      } else if |a| >= small.capacity {
        if |b| >= large.capacity {
          SubsequenceInits(a, b);
          FrontIncluded(e, a[..|a| - 1], b[..|b| - 1]);
        } else {
          SubsequenceInit(a, b);
          FrontIncluded(e, a[..|a| - 1], b);
        }
      } else {
        FrontIncluded(e, a, b);
      }
    }
  }

  lemma StepIncluded(small: Config, large: Config, a: seq<Entry>, b: seq<Entry>, op: Op)
    requires Roomier(small, large) && Included(small, large, a, b)
    ensures Included(small, large, Step(small, a, op).list, Step(large, b, op).list)
    ensures Step(small, a, op).hit.Some? ==> Step(large, b, op).hit == Step(small, a, op).hit
  {
    match op
    case Get(_, _) => GetIncluded(small, large, a, b, op);
    case Put(k, v, ttl, now) => InsertIncluded(small, large, a, b, Entry(k, v, Expiry(small, ttl, now)));
    case Remove(k) => DropIncluded(small, large, a, b, k);
    case Purge(now) =>
      FilterSubsequence(a, b, Unexpired(now));
      FilterLoss(a, b, Unexpired(now));
      FilterUnique(a, Unexpired(now));
      FilterUnique(b, Unexpired(now));
    case Clear =>
  }

  lemma GetIncluded(small: Config, large: Config, a: seq<Entry>, b: seq<Entry>, op: Op)
    requires op.Get? && Roomier(small, large) && Included(small, large, a, b)
    ensures Included(small, large, Step(small, a, op).list, Step(large, b, op).list)
    ensures Step(small, a, op).hit.Some? ==> Step(large, b, op).hit == Step(small, a, op).hit
  {
    var k := op.key;
    KeysIncluded(a, b, k);
    DropIncluded(small, large, a, b, k);
    DropUnique(a, k);
    DropUnique(b, k);
    StepWellFormed(small, a, op);
    StepWellFormed(large, b, op);
    if Find(a, k).Some? {
      FrontIncluded(Find(a, k).value, Drop(a, k), Drop(b, k));
    } else if Find(b, k).Some? {
      FilterAll(a, NotKey(k));
      var moved := [Find(b, k).value] + Drop(b, k);
      assert moved[1..] == Drop(b, k);
      SubsequenceExtend(a, moved);
    }
  }

  lemma {:induction false} ListsIncluded(small: Config, large: Config, ops: seq<Op>)
    requires Roomier(small, large)
    ensures Included(small, large, Run(small, ops), Run(large, ops))
  {
    if ops != [] {
      var n := |ops| - 1;
      ListsIncluded(small, large, ops[..n]);
      StepIncluded(small, large, Run(small, ops[..n]), Run(large, ops[..n]), ops[n]);
    }
  }

  /** On every trace with the same clock readings, the list of the smaller cache is a subsequence
      of the larger one's, entries equal in value and expiry, and every hit of the smaller cache
      is the same hit in the larger one. */
  lemma LruInclusion(small: Config, large: Config, ops: seq<Op>)
    requires Roomier(small, large)
    ensures Subsequence(Run(small, ops), Run(large, ops))
    ensures |Run(large, ops)| <= |Run(small, ops)| + (large.capacity - small.capacity)
    ensures forall i :: 0 <= i < |ops| && Answer(small, ops, i).Some? ==>
      Answer(large, ops, i) == Answer(small, ops, i)
  {
    ListsIncluded(small, large, ops);
    forall i | 0 <= i < |ops|
      ensures Answer(small, ops, i).Some? ==> Answer(large, ops, i) == Answer(small, ops, i)
    {
      ListsIncluded(small, large, ops[..i]);
      StepIncluded(small, large, Run(small, ops[..i]), Run(large, ops[..i]), ops[i]);
    }
  }

  // ----- recency and retention

  /** The key an operation touches: every put, and every get that hits. */
  function Touched(cfg: Config, s: seq<Entry>, op: Op): Option<Key> {
    match op
    case Put(k, _, _, _) => Some(k)
    case Get(k, _) => if Step(cfg, s, op).hit.Some? then Some(k) else None
    case Remove(_) => None
    case Purge(_) => None
    case Clear => None
  }

  /** Index of the last operation of the trace that touches `k`, or -1. */
  function LastTouch(cfg: Config, ops: seq<Op>, k: Key): (t: int)
    ensures -1 <= t < |ops|
  {
    if ops == [] then -1
    else
      var n := |ops| - 1;
      if Touched(cfg, Run(cfg, ops[..n]), ops[n]) == Some(k) then n else LastTouch(cfg, ops[..n], k)
  }

  function Stamp(cfg: Config, ops: seq<Op>): Key -> int {
    (k: Key) => LastTouch(cfg, ops, k)
  }

  ghost predicate Decreasing(s: seq<Entry>, stamp: Key -> int) {
    && (forall i :: 0 <= i < |s| ==> stamp(s[i].key) >= 0)
    && forall i, j :: 0 <= i < j < |s| ==> stamp(s[i].key) > stamp(s[j].key)
  }

  /** The list is in strictly decreasing order of last touch. */
  ghost predicate RecencyOrdered(cfg: Config, ops: seq<Op>, s: seq<Entry>) {
    Decreasing(s, Stamp(cfg, ops))
  }

  lemma {:induction false} FilterDecreasing(s: seq<Entry>, p: Entry -> bool, stamp: Key -> int)
    requires Decreasing(s, stamp)
    ensures Decreasing(Filter(s, p), stamp)
  {
    if s != [] {
      FilterDecreasing(s[1..], p, stamp);
      var f := Filter(s[1..], p);
      forall i | 0 <= i < |f|
        ensures stamp(s[0].key) > stamp(f[i].key) >= 0
      {
        assert f[i] in s[1..];
      }
    }
  }

  /** The list is `rest`, headed by an entry for the touched key if there is one. */
  ghost predicate Shaped(touched: Option<Key>, list: seq<Entry>, rest: seq<Entry>) {
    match touched
    case None => list == rest
    case Some(k) =>
      && list != [] && list[0].key == k && list[1..] == rest
      && forall i :: 0 <= i < |rest| ==> rest[i].key != k
  }

  lemma GetShape(cfg: Config, s: seq<Entry>, op: Op, stamp: Key -> int) returns (rest: seq<Entry>)
    requires op.Get? && WellFormed(cfg, s) && Decreasing(s, stamp)
    ensures Decreasing(rest, stamp) && Shaped(Touched(cfg, s, op), Step(cfg, s, op).list, rest)
  {
    FilterDecreasing(s, NotKey(op.key), stamp);
    DropUnique(s, op.key);
    rest := if Find(s, op.key).Some? then Drop(s, op.key) else s;
  }

  lemma PutShape(cfg: Config, s: seq<Entry>, op: Op, stamp: Key -> int) returns (rest: seq<Entry>)
    requires op.Put? && WellFormed(cfg, s) && Decreasing(s, stamp)
    ensures Decreasing(rest, stamp) && Shaped(Touched(cfg, s, op), Step(cfg, s, op).list, rest)
  {
    if Find(s, op.key).Some? {
      FilterDecreasing(s, NotKey(op.key), stamp);
      DropUnique(s, op.key);
      rest := Drop(s, op.key);
    } else {
      rest := if |s| >= cfg.capacity && s != [] then s[..|s| - 1] else s;
      PutFreshShape(cfg, s, op, rest);
    }
  }

  lemma PutFreshShape(cfg: Config, s: seq<Entry>, op: Op, rest: seq<Entry>)
    requires op.Put? && Find(s, op.key).None?
    requires rest == if |s| >= cfg.capacity && s != [] then s[..|s| - 1] else s
    ensures Shaped(Touched(cfg, s, op), Step(cfg, s, op).list, rest)
  {
    assert forall i :: 0 <= i < |s| ==> s[i] in s;
  }

  /** Every step leaves a thinned-out list, headed by the touched key if there is one. */
  lemma StepShape(cfg: Config, s: seq<Entry>, op: Op, stamp: Key -> int) returns (rest: seq<Entry>)
    requires WellFormed(cfg, s) && Decreasing(s, stamp)
    ensures Decreasing(rest, stamp) && Shaped(Touched(cfg, s, op), Step(cfg, s, op).list, rest)
  {
    match op
    case Get(_, _) => rest := GetShape(cfg, s, op, stamp);
    case Put(_, _, _, _) => rest := PutShape(cfg, s, op, stamp);
    case Remove(k) =>
      FilterDecreasing(s, NotKey(k), stamp);
      rest := Drop(s, k);
    case Purge(now) =>
      FilterDecreasing(s, Unexpired(now), stamp);
      rest := Live(s, now);
    case Clear =>
      rest := [];
  }

  /** Position in the list is exactly recency of use, after every trace. */
  lemma {:induction false} RecencyOrder(cfg: Config, ops: seq<Op>)
    requires cfg.capacity > 0
    ensures RecencyOrdered(cfg, ops, Run(cfg, ops))
  {
    if ops != [] {
      var init, op := ops[..|ops| - 1], ops[|ops| - 1];
      RecencyOrder(cfg, init);
      RunWellFormed(cfg, init);
      var rest := StepShape(cfg, Run(cfg, init), op, Stamp(cfg, init));
      ShapeOrdered(cfg, ops, rest);
    }
  }

  /** The touched key is now the most recent; the others keep their stamps. */
  lemma {:induction false} ShapeOrdered(cfg: Config, ops: seq<Op>, rest: seq<Entry>)
    requires ops != []
    requires var init, op := ops[..|ops| - 1], ops[|ops| - 1];
      && Decreasing(rest, Stamp(cfg, init))
      && Shaped(Touched(cfg, Run(cfg, init), op), Run(cfg, ops), rest)
    ensures RecencyOrdered(cfg, ops, Run(cfg, ops))
  {
    var init := ops[..|ops| - 1];
    forall i | 0 <= i < |rest|
      ensures Stamp(cfg, ops)(rest[i].key) == Stamp(cfg, init)(rest[i].key) < |init|
    {
      StampKept(cfg, ops, rest[i].key);
    }
  }

  lemma StampKept(cfg: Config, ops: seq<Op>, k: Key)
    requires ops != []
    requires Touched(cfg, Run(cfg, ops[..|ops| - 1]), ops[|ops| - 1]) != Some(k)
    ensures LastTouch(cfg, ops, k) == LastTouch(cfg, ops[..|ops| - 1], k)
  {
  }

  /** The keys touched by operations after index `t`. */
  function TouchedSince(cfg: Config, ops: seq<Op>, t: int): set<Key> {
    if ops == [] || |ops| <= t + 1 then {}
    else
      var n := |ops| - 1;
      var last := Touched(cfg, Run(cfg, ops[..n]), ops[n]);
      TouchedSince(cfg, ops[..n], t) + if last.Some? then {last.value} else {}
  }

  lemma {:induction false} LaterTouchCounted(cfg: Config, ops: seq<Op>, t: int, k: Key)
    requires LastTouch(cfg, ops, k) > t >= -1
    ensures k in TouchedSince(cfg, ops, t)
  {
    var n := |ops| - 1;
    if Touched(cfg, Run(cfg, ops[..n]), ops[n]) != Some(k) {
      LaterTouchCounted(cfg, ops[..n], t, k);
    }
  }

  function Clock(op: Op): Option<Time> {
    match op
    case Get(_, now) => Some(now)
    case Put(_, _, _, now) => Some(now)
    case Purge(now) => Some(now)
    case Remove(_) => None
    case Clear => None
  }

  /** After index `t`, entry `e` is neither deleted nor seen expired. */
  ghost predicate Spared(ops: seq<Op>, t: int, e: Entry) {
    forall i :: t < i < |ops| && i >= 0 ==>
      && ops[i] != Remove(e.key) && ops[i] != Clear
      && (Clock(ops[i]).Some? ==> !Expired(e, Clock(ops[i]).value))
  }

  lemma SparedPrefix(ops: seq<Op>, t: int, e: Entry)
    requires -1 <= t < |ops| - 1 && Spared(ops, t, e)
    ensures Spared(ops[..|ops| - 1], t, e) && Spared(ops, |ops| - 2, e)
  {
  }

  /** The last element of a full list is not evicted by the put of a new key unless as many
      other keys as the cache holds have been touched since. */
  lemma EvictionNeedsTouches(cfg: Config, ops: seq<Op>, k: Key, t: int, i: nat)
    requires cfg.capacity > 0 && ops != []
    requires var s := Run(cfg, ops[..|ops| - 1]);
      && ops[|ops| - 1].Put? && Find(s, ops[|ops| - 1].key).None?
      && i == |s| - 1 && s[i].key == k && |s| == cfg.capacity
      && t == LastTouch(cfg, ops[..|ops| - 1], k)
    ensures |TouchedSince(cfg, ops, t)| >= cfg.capacity
  {
    var init, key := ops[..|ops| - 1], ops[|ops| - 1].key;
    var s := Run(cfg, init);
    RunWellFormed(cfg, init);
    AheadWasTouched(cfg, init, i);
    var others := TouchedSince(cfg, ops, t) - {key};
    forall e | e in s[..i]
      ensures e.key in others
    {
      assert e in s;
    }
    KeysWithin(s[..i], others);
    assert TouchedSince(cfg, ops, t) == others + {key};
  }

  /** What is ahead of a key in the list has been touched since that key was. */
  lemma {:induction false} AheadWasTouched(cfg: Config, ops: seq<Op>, i: nat)
    requires cfg.capacity > 0 && i < |Run(cfg, ops)|
    ensures var s := Run(cfg, ops);
      forall e :: e in s[..i] ==> e.key in TouchedSince(cfg, ops, LastTouch(cfg, ops, s[i].key))
  {
    var s := Run(cfg, ops);
    RecencyOrder(cfg, ops);
    forall e | e in s[..i]
      ensures e.key in TouchedSince(cfg, ops, LastTouch(cfg, ops, s[i].key))
    {
      var j :| 0 <= j < i && s[j] == e;
      assert Stamp(cfg, ops)(s[j].key) > Stamp(cfg, ops)(s[i].key);
      LaterTouchCounted(cfg, ops, LastTouch(cfg, ops, s[i].key), e.key);
    }
  }

  /** The operation at `t` was the last to touch `k` and left it with entry `e`; since then `e` has
      been spared, and fewer keys have been touched than the cache holds. */
  ghost predicate Retained(cfg: Config, ops: seq<Op>, k: Key, e: Entry, t: nat) {
    && t < |ops| && LastTouch(cfg, ops, k) == t
    && Find(Run(cfg, ops[..t + 1]), k) == Some(e)
    && Spared(ops, t, e)
    && |TouchedSince(cfg, ops, t)| < cfg.capacity
  }

  /** A key that was touched last at `t`, and whose entry `e` is then neither removed nor seen
      expired, is still stored unchanged as long as fewer than `capacity` keys have been touched
      since. */
  lemma {:induction false} LruRetention(cfg: Config, ops: seq<Op>, k: Key, e: Entry, t: nat)
    requires cfg.capacity > 0 && Retained(cfg, ops, k, e, t)
    ensures Find(Run(cfg, ops), k) == Some(e)
  {
    if t == |ops| - 1 {
      assert ops[..t + 1] == ops;
    } else {
      RetainedBefore(cfg, ops, k, e, t);
      LruRetention(cfg, ops[..|ops| - 1], k, e, t);
      TouchedBefore(cfg, ops, k, t);
      SparedPrefix(ops, t, e);
      FindInStep(cfg, ops, k, e);
    }
  }

  lemma RetainedBefore(cfg: Config, ops: seq<Op>, k: Key, e: Entry, t: nat)
    requires Retained(cfg, ops, k, e, t) && t < |ops| - 1
    ensures Retained(cfg, ops[..|ops| - 1], k, e, t)
  {
    var init := ops[..|ops| - 1];
    assert init[..t + 1] == ops[..t + 1];
    SubsetSize(TouchedSince(cfg, init, t), TouchedSince(cfg, ops, t));
    SparedPrefix(ops, t, e);
    TouchedBefore(cfg, ops, k, t);
  }

  lemma TouchedBefore(cfg: Config, ops: seq<Op>, k: Key, t: nat)
    requires t < |ops| - 1 && LastTouch(cfg, ops, k) == t
    ensures LastTouch(cfg, ops[..|ops| - 1], k) == t
    ensures Touched(cfg, Run(cfg, ops[..|ops| - 1]), ops[|ops| - 1]) != Some(k)
  {
  }

  /** One step of retention. */
  lemma {:induction false} FindInStep(cfg: Config, ops: seq<Op>, k: Key, e: Entry)
    requires cfg.capacity > 0 && ops != []
    requires Find(Run(cfg, ops[..|ops| - 1]), k) == Some(e)
    requires Spared(ops, |ops| - 2, e)
    requires Touched(cfg, Run(cfg, ops[..|ops| - 1]), ops[|ops| - 1]) != Some(k)
    requires |TouchedSince(cfg, ops, LastTouch(cfg, ops[..|ops| - 1], k))| < cfg.capacity
    ensures Find(Run(cfg, ops), k) == Some(e)
  {
    var init, op := ops[..|ops| - 1], ops[|ops| - 1];
    var s := Run(cfg, init);
    RunWellFormed(cfg, init);
    RunWellFormed(cfg, ops);
    var i :| 0 <= i < |s| && s[i] == e;
    if op.Put? && Find(s, op.key).None? && |s| >= cfg.capacity && i == |s| - 1 {
      EvictionNeedsTouches(cfg, ops, k, LastTouch(cfg, init, k), i);
      assert false;
    }
    StepKeeps(cfg, s, op, i);
    var j :| 0 <= j < |Run(cfg, ops)| && Run(cfg, ops)[j] == e;
    FindAt(Run(cfg, ops), j);
  }

  /** What a single step cannot delete: an entry it neither names nor evicts nor finds expired. */
  lemma {:induction false} StepKeeps(cfg: Config, s: seq<Entry>, op: Op, i: nat)
    requires WellFormed(cfg, s) && cfg.capacity > 0 && i < |s|
    requires op != Remove(s[i].key) && op != Clear
    requires Clock(op).Some? ==> !Expired(s[i], Clock(op).value)
    requires Touched(cfg, s, op) != Some(s[i].key)
    requires !(op.Put? && Find(s, op.key).None? && |s| >= cfg.capacity && i == |s| - 1)
    ensures s[i] in Step(cfg, s, op).list
  {
    var e := s[i];
    match op
    case Get(k, now) =>
      FindAt(s, i);
      assert k != e.key ==> e in Drop(s, k);
    case Put(k, v, ttl, now) =>
      assert k != e.key;
      assert e in Drop(s, k);
      if Find(s, k).None? && |s| >= cfg.capacity {
        assert e in s[..|s| - 1];
      }
    case Remove(k) => assert e in Drop(s, k);
    case Purge(now) => assert e in Live(s, now);
  }

  // ----- the counters

  function Metrics(cfg: Config, ops: seq<Op>): CacheMetrics {
    if ops == [] then NO_METRICS
    else
      var n := |ops| - 1;
      Tally(cfg, Metrics(cfg, ops[..n]), Run(cfg, ops[..n]), ops[n])
  }

  function Gets(ops: seq<Op>): nat {
    if ops == [] then 0 else Gets(ops[..|ops| - 1]) + if ops[|ops| - 1].Get? then 1 else 0
  }

  /** Entries overwritten by a later put of their key, or dropped by a clear. */
  function Superseded(cfg: Config, ops: seq<Op>): nat {
    if ops == [] then 0
    else
      var n := |ops| - 1;
      var s := Run(cfg, ops[..n]);
      Superseded(cfg, ops[..n]) +
        match ops[n]
        case Put(k, _, _, _) => (if Find(s, k).Some? then 1 else 0)
        case Clear => |s|
        case Get(_, _) => 0
        case Remove(_) => 0
        case Purge(_) => 0
  }

  /** Conservation: every get is a hit or a miss, and every entry ever put is still stored, or was
      evicted, expired, deleted or superseded, exactly once. */
  lemma {:induction false} MetricsConserved(cfg: Config, ops: seq<Op>)
    requires cfg.capacity > 0
    ensures var m := Metrics(cfg, ops);
      && m.hits + m.misses == Gets(ops)
      && m.puts == |Run(cfg, ops)| + m.evictions + m.expirations + m.dels + Superseded(cfg, ops)
  {
    if ops != [] {
      var n := |ops| - 1;
      MetricsConserved(cfg, ops[..n]);
      RunWellFormed(cfg, ops[..n]);
      StepConserves(cfg, Run(cfg, ops[..n]), ops[n]);
    }
  }

  /** One operation's effect on the size of the list. */
  lemma StepConserves(cfg: Config, s: seq<Entry>, op: Op)
    requires WellFormed(cfg, s) && cfg.capacity > 0
    ensures var after := Step(cfg, s, op).list;
      && (op.Get? ==>
        |after| == |s| - if Find(s, op.key).Some? && Expired(Find(s, op.key).value, op.now) then 1 else 0)
      && (op.Put? ==>
        |after| == if Find(s, op.key).Some? then |s| else if |s| >= cfg.capacity then cfg.capacity else |s| + 1)
      && (op.Remove? ==> |after| == |s| - if Find(s, op.key).Some? then 1 else 0)
  {
    if op.Get? || op.Put? || op.Remove? {
      DropUnique(s, op.key);
      if Find(s, op.key).None? {
        FilterAll(s, NotKey(op.key));
      }
    }
  }

  // ----- transfer between nodes

  ghost predicate DistinctExports(xs: seq<Export>) {
    forall i, j :: 0 <= i < j < |xs| ==> xs[i].key != xs[j].key
  }

  /** `s` holds the last `min(n, capacity)` exports, the most recently loaded first. */
  ghost predicate LoadedInReverse(cfg: Config, s: seq<Entry>, xs: seq<Export>, times: seq<Time>)
    requires |xs| == |times|
  {
    && |s| == Min(|xs|, cfg.capacity)
    && forall i :: 0 <= i < |s| ==> s[i] == Loaded(cfg, xs[|xs| - 1 - i], times[|xs| - 1 - i])
  }

  /** Loading exports with distinct keys into an empty cache keeps exactly the last
      `min(n, capacity)` of them, in reversed order. */
  lemma {:induction false} BulkLoadReverses(cfg: Config, xs: seq<Export>, times: seq<Time>)
    requires cfg.capacity > 0 && |xs| == |times| && DistinctExports(xs)
    ensures LoadedInReverse(cfg, BulkLoad(cfg, [], xs, times), xs, times)
  {
    if xs != [] {
      var n := |xs| - 1;
      BulkLoadReverses(cfg, xs[..n], times[..n]);
      LoadOneMore(cfg, BulkLoad(cfg, [], xs[..n], times[..n]), xs, times);
    }
  }

  lemma {:induction false} LoadOneMore(cfg: Config, s: seq<Entry>, xs: seq<Export>, times: seq<Time>)
    requires cfg.capacity > 0 && 0 < |xs| == |times| && DistinctExports(xs)
    requires LoadedInReverse(cfg, s, xs[..|xs| - 1], times[..|xs| - 1])
    ensures LoadedInReverse(cfg, Insert(cfg, s, Loaded(cfg, xs[|xs| - 1], times[|xs| - 1])), xs, times)
  {
    var n := |xs| - 1;
    forall i | 0 <= i < |s|
      ensures s[i].key != xs[n].key
      ensures s[i] == Loaded(cfg, xs[n - 1 - i], times[n - 1 - i])
    {
    }
    InsertFresh(cfg, s, Loaded(cfg, xs[n], times[n]));
  }

  lemma InsertFresh(cfg: Config, s: seq<Entry>, e: Entry)
    requires 0 < cfg.capacity && |s| <= cfg.capacity
    requires forall i :: 0 <= i < |s| ==> s[i].key != e.key
    ensures var r := Insert(cfg, s, e);
      && |r| == Min(|s| + 1, cfg.capacity)
      && r[0] == e && forall i :: 1 <= i < |r| ==> r[i] == s[i - 1]
  {
  }

  lemma SnapshotDistinct(s: seq<Entry>, now: Time)
    requires UniqueKeys(s)
    ensures DistinctExports(Snapshot(s, now))
  {
    FilterUnique(s, Unexpired(now));
  }

  /** Snapshot followed by bulk load into an empty node: the loaded list is the reversed live
      list, cut to the capacity at the most recently used end. */
  lemma TransferLaw(cfg: Config, s: seq<Entry>, now: Time, times: seq<Time>)
    requires cfg.capacity > 0 && UniqueKeys(s) && |times| == |Live(s, now)|
    ensures var live := Live(s, now);
      var loaded := BulkLoad(cfg, [], Snapshot(s, now), times);
      && |loaded| == Min(|live|, cfg.capacity)
      && forall i :: 0 <= i < |loaded| ==>
        var j := |live| - 1 - i;
        loaded[i] == Entry(live[j].key, live[j].value, Expiry(cfg, Remaining(live[j], now), times[j]))
  {
    SnapshotDistinct(s, now);
    BulkLoadReverses(cfg, Snapshot(s, now), times);
  }

  lemma TransferredAt(cfg: Config, s: seq<Entry>, now: Time, times: seq<Time>, j: nat)
    requires cfg.capacity > 0 && UniqueKeys(s) && |times| == |Live(s, now)| <= cfg.capacity
    requires j < |Live(s, now)|
    ensures var e := Live(s, now)[j];
      Find(BulkLoad(cfg, [], Snapshot(s, now), times), e.key)
        == Some(Entry(e.key, e.value, Expiry(cfg, Remaining(e, now), times[j])))
  {
    var e := Live(s, now)[j];
    BulkLoadWellFormed(cfg, [], Snapshot(s, now), times);
    TransferredTo(cfg, s, now, times, j);
    FindEntry(BulkLoad(cfg, [], Snapshot(s, now), times), |Live(s, now)| - 1 - j,
              Entry(e.key, e.value, Expiry(cfg, Remaining(e, now), times[j])));
  }

  lemma FindEntry(s: seq<Entry>, i: nat, e: Entry)
    requires UniqueKeys(s) && i < |s| && s[i] == e
    ensures Find(s, e.key) == Some(e)
  {
    FindAt(s, i);
  }

  lemma TransferredTo(cfg: Config, s: seq<Entry>, now: Time, times: seq<Time>, j: nat)
    requires cfg.capacity > 0 && UniqueKeys(s) && |times| == |Live(s, now)| <= cfg.capacity
    requires j < |Live(s, now)|
    ensures var e := Live(s, now)[j];
      var loaded := BulkLoad(cfg, [], Snapshot(s, now), times);
      var i := |Live(s, now)| - 1 - j;
      i < |loaded| && loaded[i] == Entry(e.key, e.value, Expiry(cfg, Remaining(e, now), times[j]))
  {
    TransferLaw(cfg, s, now, times);
  }

  /** Nothing live is lost when the target has room: every live key is found with its value. */
  lemma TransferComplete(cfg: Config, s: seq<Entry>, now: Time, times: seq<Time>, e: Entry)
    requires cfg.capacity > 0 && UniqueKeys(s) && |times| == |Live(s, now)| <= cfg.capacity
    requires e in s && !Expired(e, now)
    ensures var found := Find(BulkLoad(cfg, [], Snapshot(s, now), times), e.key);
      found.Some? && found.value.value == e.value
  {
    var live := Live(s, now);
    assert e in live;
    var j :| 0 <= j < |live| && live[j] == e;
    TransferredAt(cfg, s, now, times, j);
  }

  /** The expiry of `e`, exported at `now` and loaded at `later`, in ticks from the load. */
  function GrantedLifetime(cfg: Config, e: Entry, now: Time, later: Time): Option<int> {
    match Expiry(cfg, Remaining(e, now), later)
    case None => None
    case Some(x) => Some(x - later)
  }

  /** An entry whose expiry the source could have granted: at most 2^32 - 1 seconds away. */
  ghost predicate Representable(e: Entry, now: Time) {
    e.expires.Some? ==> 0 < e.expires.value - now < TWO_TO_THE_32 * TICKS_PER_SECOND
  }

  /** A transfer never lengthens an entry's life exactly when at least one second was left:
      below that the exported 0 means "default, or none". With a second left, less than a
      second is lost. */
  lemma {:induction false} TransferLifetime(cfg: Config, e: Entry, now: Time, later: Time)
    requires e.expires.Some? && Representable(e, now)
    ensures var left := e.expires.value - now;
      var granted := GrantedLifetime(cfg, e, now, later);
      && (left >= TICKS_PER_SECOND <==> granted.Some? && granted.value <= left)
      && (left >= TICKS_PER_SECOND ==> left - TICKS_PER_SECOND < granted.value)
  {
    var left := e.expires.value - now;
    assert 0 <= left / TICKS_PER_SECOND < TWO_TO_THE_32;
  }

  /** An entry with 0.9 s to live becomes immortal when copied to a node without a default. */
  lemma {:induction false} TransferRevivesDyingEntry()
    ensures var e := Entry("k", "v", Some(900_000_000));
      && !Expired(e, 0) && Expired(e, 1_000_000_000)
      && BulkLoad(Config(1, 0), [], Snapshot([e], 0), [0]) == [Entry("k", "v", None)]
  {
    var e := Entry("k", "v", Some(900_000_000));
    FilterAll([e], Unexpired(0));
    var xs := Snapshot([e], 0);
    assert xs == [Export("k", "v", 0)];
    assert xs[..0] == [];
  }

  /** Entries written by `put` stay representable at every later clock reading. */
  lemma PutRepresentable(cfg: Config, k: Key, v: Value, ttl: Seconds, written: Time, now: Time)
    requires written <= now
    ensures var e := Entry(k, v, Expiry(cfg, ttl, written));
      !Expired(e, now) ==> Representable(e, now)
  {
  }

  /** Everything stored after a trace, with no put later than `now`, could be granted anew at `now`:
      it expires within 2^32 seconds. */
  lemma {:induction false} RunRepresentable(cfg: Config, ops: seq<Op>, now: Time)
    requires forall i :: 0 <= i < |ops| && ops[i].Put? ==> ops[i].now <= now
    ensures forall e :: e in Run(cfg, ops) && e.expires.Some? ==>
      e.expires.value < now + TWO_TO_THE_32 * TICKS_PER_SECOND
  {
    if ops != [] {
      var init, op := ops[..|ops| - 1], ops[|ops| - 1];
      RunRepresentable(cfg, init, now);
      forall e | e in Run(cfg, ops) && e.expires.Some?
        ensures e.expires.value < now + TWO_TO_THE_32 * TICKS_PER_SECOND
      {
        StepOrigin(cfg, Run(cfg, init), op, e);
      }
    }
  }

  /** What is stored after an operation was stored before, or is what the operation put. */
  lemma {:induction false} StepOrigin(cfg: Config, s: seq<Entry>, op: Op, e: Entry)
    requires e in Step(cfg, s, op).list
    ensures e in s || (op.Put? && e == Entry(op.key, op.value, Expiry(cfg, op.ttl, op.now)))
  {
  }
}
