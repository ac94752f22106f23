/** A rebalance loses nothing under any interleaving, and may be retried after any failure. */
module RebalanceTheorems {
  import opened Options
  import opened Sequences
  import opened LruModel
  import opened RebalanceModel

  // ----- the invariant

  /** The node holds the key from the start, or the key comes to it. */
  predicate Welcome(z: Setting, before: Lists, a: Address, k: Key) {
    a in before && (Find(before[a], k).Some? || Comes(z, before, a, k))
  }

  /** Every node is well formed and holds only keys it has room for. */
  ghost predicate InBound(z: Setting, before: Lists, lists: Lists) {
    && lists.Keys == z.cfg.Keys == before.Keys
    && (forall a :: a in lists ==> WellFormed(z.cfg[a], lists[a]))
    && (forall a, e :: a in lists && e in lists[a] ==> Welcome(z, before, a, e.key))
  }

  /** A lookup is as it was, or its entry was purged and would not have outlived the window. */
  predicate Kept(z: Setting, was: Option<Entry>, found: Option<Entry>) {
    found == was || (found.None? && was.Some? && Expired(was.value, z.end))
  }

  /** A copy of the key's source, exported while that was live and loaded no earlier, all within
      the window. */
  ghost predicate CopyOf(z: Setting, before: Lists, k: Key, c: Entry) {
    var src := Source(z, before, k);
    && src.Some? && z.dest(k) in z.cfg
    && exists s: Time, l: Time ::
      z.start <= s <= l <= z.end && !Expired(src.value, s) && c == CopyAt(z.cfg[z.dest(k)], src.value, s, l)
  }

  /** The lookup finds a copy of the key's source, or that copy was purged. */
  ghost predicate HasCopy(z: Setting, before: Lists, k: Key, found: Option<Entry>) {
    exists c :: CopyOf(z, before, k, c) && Kept(z, Some(c), found)
  }

  /** Only a key that comes to the node may have changed there, and then to a copy. */
  ghost predicate KeptOrCopied(z: Setting, before: Lists, after: Lists, a: Address, k: Key)
    requires a in before && a in after
  {
    || Kept(z, Find(before[a], k), Find(after[a], k))
    || (Comes(z, before, a, k) && HasCopy(z, before, k, Find(after[a], k)))
  }

  ghost predicate Unharmed(z: Setting, before: Lists, after: Lists) {
    before.Keys == after.Keys && forall a, k :: a in before && a in after ==> KeptOrCopied(z, before, after, a, k)
  }

  /** The key has arrived at its new node. */
  ghost predicate Copied(z: Setting, before: Lists, after: Lists, k: Key) {
    z.dest(k) in after && HasCopy(z, before, k, Find(after[z.dest(k)], k))
  }

  /** The export was taken from the key's source while that was live. */
  ghost predicate GoodExport(z: Setting, before: Lists, x: Export, clock: Time) {
    var src := Source(z, before, x.key);
    && src.Some? && z.dest(x.key) in z.cfg
    && exists s: Time :: z.start <= s <= clock && !Expired(src.value, s) && x == ExportOf(src.value, s)
  }

  ghost predicate InFlight(p: Progress, k: Key) {
    p.Sending? && exists x :: x in p.rest && x.key == k
  }

  /** The key has something to bring that outlives the window. */
  predicate LastingSource(z: Setting, before: Lists, k: Key) {
    Source(z, before, k).Some? && Lasting(z, Source(z, before, k).value)
  }

  /** What a batch still has to send is good, and what it has dealt with has arrived. */
  ghost predicate BatchSound(z: Setting, t: Task, before: Lists, after: Lists, p: Progress, clock: Time) {
    && (p.Sending? ==> forall x :: x in p.rest ==> x.key in t.keys && GoodExport(z, before, x, clock))
    && (p.Sending? || p.Finished? ==> forall k :: k in t.keys && LastingSource(z, before, k) ==>
      Copied(z, before, after, k) || InFlight(p, k))
  }

  ghost predicate Invariant(z: Setting, tasks: seq<Task>, before: Lists, w: World, clock: Time) {
    && |w.progress| == |tasks|
    && InBound(z, before, w.lists)
    && Unharmed(z, before, w.lists)
    && forall i :: 0 <= i < |tasks| ==> BatchSound(z, tasks[i], before, w.lists, w.progress[i], clock)
  }

  /** Where a moved key is read from nothing changes, except that what expires may be purged:
      sources are never altered. */
  lemma {:induction false} SourceUnaltered(z: Setting, before: Lists, after: Lists, k: Key)
    requires Ready(z, before) && Unharmed(z, before, after) && z.moved(k) && z.home(k) in before
    ensures Kept(z, Find(before[z.home(k)], k), Find(after[z.home(k)], k))
    ensures LastingSource(z, before, k) ==> Source(z, after, k) == Source(z, before, k)
    ensures Source(z, after, k).Some? ==> Source(z, after, k) == Source(z, before, k)
  {
    assert KeptOrCopied(z, before, after, z.home(k), k);
  }

  // ----- snapshots

  lemma {:induction false} WantedSound(s: seq<Entry>, keys: set<Key>, now: Time, x: Export)
    requires UniqueKeys(s) && x in Wanted(s, keys, now)
    ensures x.key in keys && Find(s, x.key).Some? && x == ExportOf(Find(s, x.key).value, now)
    ensures !Expired(Find(s, x.key).value, now)
  {
    var live := Live(s, now);
    var snap := Snapshot(s, now);
    var i :| 0 <= i < |snap| && snap[i] == x;
    assert live[i] in live;
    var j :| 0 <= j < |s| && s[j] == live[i];
    FindAt(s, j);
  }

  lemma WantedComplete(s: seq<Entry>, keys: set<Key>, now: Time, k: Key)
    requires k in keys && Find(s, k).Some? && !Expired(Find(s, k).value, now)
    ensures ExportOf(Find(s, k).value, now) in Wanted(s, keys, now)
  {
    var e := Find(s, k).value;
    var live := Live(s, now);
    assert e in live;
    var i :| 0 <= i < |live| && live[i] == e;
    assert Snapshot(s, now)[i] == ExportOf(e, now);
  }

  /** A batch that takes its snapshot at `now` is sound. */
  lemma {:induction false} SnapSound(z: Setting, t: Task, before: Lists, after: Lists, now: Time)
    requires Ready(z, before) && InBound(z, before, after) && Unharmed(z, before, after)
    requires (forall k :: k in t.keys ==> z.moved(k) && z.home(k) == t.source)
    requires t.source in after && z.start <= now <= z.end
    ensures BatchSound(z, t, before, after, Sending(Wanted(after[t.source], t.keys, now)), now)
  {
    var p := Sending(Wanted(after[t.source], t.keys, now));
    forall x | x in p.rest
      ensures x.key in t.keys && GoodExport(z, before, x, now)
    {
      SentIsGood(z, t, before, after, x, now);
    }
    forall k | k in t.keys && LastingSource(z, before, k)
      ensures InFlight(p, k)
    {
      LastingIsSent(z, t, before, after, k, now);
    }
  }

  lemma {:induction false} SentIsGood(z: Setting, t: Task, before: Lists, after: Lists, x: Export, now: Time)
    requires Ready(z, before) && InBound(z, before, after) && Unharmed(z, before, after) && z.start <= now <= z.end
    requires t.source in after && x in Wanted(after[t.source], t.keys, now)
    requires forall k :: k in t.keys ==> z.moved(k) && z.home(k) == t.source
    ensures x.key in t.keys && GoodExport(z, before, x, now)
  {
    WantedSound(after[t.source], t.keys, now, x);
    ExportIsGood(z, t.source, before, after, x, now);
  }

  lemma {:induction false} ExportIsGood(z: Setting, a: Address, before: Lists, after: Lists, x: Export, now: Time)
    requires Ready(z, before) && Unharmed(z, before, after) && z.start <= now <= z.end
    requires z.moved(x.key) && z.home(x.key) == a && a in after && Find(after[a], x.key).Some?
    requires !Expired(Find(after[a], x.key).value, now) && x == ExportOf(Find(after[a], x.key).value, now)
    ensures GoodExport(z, before, x, now)
  {
    SourceUnaltered(z, before, after, x.key);
  }

  lemma {:induction false} LastingIsSent(z: Setting, t: Task, before: Lists, after: Lists, k: Key, now: Time)
    requires Ready(z, before) && Unharmed(z, before, after) && z.start <= now <= z.end
    requires k in t.keys && LastingSource(z, before, k) && z.home(k) == t.source && t.source in after
    ensures InFlight(Sending(Wanted(after[t.source], t.keys, now)), k)
  {
    SourceUnaltered(z, before, after, k);
    WantedComplete(after[t.source], t.keys, now, k);
    assert ExportOf(Find(after[t.source], k).value, now) in Wanted(after[t.source], t.keys, now);
  }

  // ----- one move

  /** A batch stays sound when time passes and copies stay. */
  lemma {:induction false} SoundLater(z: Setting, t: Task, before: Lists, after: Lists, next: Lists,
                                      p: Progress, clock: Time, now: Time)
    requires BatchSound(z, t, before, after, p, clock) && clock <= now
    requires forall k :: Copied(z, before, after, k) ==> Copied(z, before, next, k)
    ensures BatchSound(z, t, before, next, p, now)
  {
  }

  /** It stays sound, too, when it has sent its next entry. */
  lemma {:induction false} SoundSent(z: Setting, t: Task, before: Lists, after: Lists, next: Lists,
                                     rest: seq<Export>, clock: Time, now: Time)
    requires rest != [] && BatchSound(z, t, before, after, Sending(rest), clock) && clock <= now
    requires forall k :: Copied(z, before, after, k) ==> Copied(z, before, next, k)
    requires Copied(z, before, next, rest[0].key)
    ensures BatchSound(z, t, before, next, Sending(rest[1..]), now)
  {
    var p, q := Sending(rest), Sending(rest[1..]);
    assert forall x :: x in q.rest ==> x in p.rest;
    forall k | k in t.keys && LastingSource(z, before, k)
      ensures Copied(z, before, next, k) || InFlight(q, k)
    {
      if InFlight(p, k) && k != rest[0].key {
        var x :| x in p.rest && x.key == k;
        assert x in q.rest;
      }
    }
  }

  /** Loading a good export at its new node harms nothing. */
  lemma {:induction false} LoadUnharmed(z: Setting, before: Lists, after: Lists, x: Export, clock: Time, now: Time)
    requires Ready(z, before) && InBound(z, before, after) && Unharmed(z, before, after)
    requires GoodExport(z, before, x, clock) && clock <= now <= z.end
    ensures var a := z.dest(x.key);
      var next := after[a := Insert(z.cfg[a], after[a], Loaded(z.cfg[a], x, now))];
      && InBound(z, before, next) && Unharmed(z, before, next)
      && Copied(z, before, next, x.key)
      && (forall k :: Copied(z, before, after, k) ==> Copied(z, before, next, k))
  {
    var a := z.dest(x.key);
    var e := Loaded(z.cfg[a], x, now);
    var next := after[a := Insert(z.cfg[a], after[a], e)];
    LoadInBound(z, before, after, x.key, e);
    ExportMakesCopy(z, before, x, clock, now);
    forall k
      ensures Find(next[a], k) == if k == x.key then Some(e) else Find(after[a], k)
    {
      FindInsert(z.cfg[a], after[a], e, k);
    }
    forall b, k | b in before && b in next
      ensures KeptOrCopied(z, before, next, b, k)
    {
      assert KeptOrCopied(z, before, after, b, k);
    }
  }

  lemma {:induction false} ExportMakesCopy(z: Setting, before: Lists, x: Export, clock: Time, now: Time)
    requires GoodExport(z, before, x, clock) && clock <= now <= z.end
    ensures var e := Loaded(z.cfg[z.dest(x.key)], x, now);
      e.key == x.key && HasCopy(z, before, x.key, Some(e))
  {
    var src := Source(z, before, x.key).value;
    var s: Time :| z.start <= s <= clock && !Expired(src, s) && x == ExportOf(src, s);
    var e := Loaded(z.cfg[z.dest(x.key)], x, now);
    assert e == CopyAt(z.cfg[z.dest(x.key)], src, s, now);
    assert CopyOf(z, before, x.key, e);
  }

  /** A key that comes to a node finds room there. */
  lemma {:induction false} LoadInBound(z: Setting, before: Lists, after: Lists, k: Key, e: Entry)
    requires Ready(z, before) && InBound(z, before, after) && Source(z, before, k).Some? && e.key == k
    ensures var a := z.dest(k);
      && InBound(z, before, after[a := Insert(z.cfg[a], after[a], e)])
      && (Find(after[a], k).Some? || |after[a]| < z.cfg[a].capacity)
  {
    var a := z.dest(k);
    if Find(after[a], k).None? {
      RoomForWelcome(z, before, after[a], a, k);
    }
    InsertFrom(z.cfg[a], after[a], e);
    InsertWellFormed(z.cfg[a], after[a], e);
  }

  lemma InsertFrom(cfg: Config, s: seq<Entry>, e: Entry)
    ensures forall x :: x in Insert(cfg, s, e) ==> x == e || x in s
  {
  }

  lemma {:induction false} RoomForWelcome(z: Setting, before: Lists, s: seq<Entry>, a: Address, k: Key)
    requires Room(z, before) && a in before && UniqueKeys(s)
    requires forall e :: e in s ==> Welcome(z, before, a, e.key)
    requires Welcome(z, before, a, k) && Find(s, k).None?
    ensures a in z.cfg && |s| < z.cfg[a].capacity
  {
    forall e | e in s
      ensures e.key in Needed(z, before, a)
    {
      NeededExact(z, before, a, e.key);
    }
    NeededExact(z, before, a, k);
    RoomInBound(s, Needed(z, before, a), k);
  }

  /** A read or a purge at `now` keeps every lookup, or drops an entry expired by then. */
  lemma {:induction false} TendKeeps(z: Setting, cfg: Config, s: seq<Entry>, op: Op, k: Key)
    requires WellFormed(cfg, s) && cfg.capacity > 0 && (op.Get? || op.Purge?) && op.now <= z.end
    ensures Kept(z, Find(s, k), Find(Step(cfg, s, op).list, k))
    ensures WellFormed(cfg, Step(cfg, s, op).list)
    ensures forall e :: e in Step(cfg, s, op).list ==> e in s
  {
    StepWellFormed(cfg, s, op);
    if op.Get? {
      FindDrop(s, op.key, k);
      if Find(s, op.key).Some? {
        var rest := Drop(s, op.key);
        assert ([Find(s, op.key).value] + rest)[1..] == rest;
      }
    } else {
      FindLive(s, op.now, k);
    }
  }

  lemma {:induction false} TendKeepsAll(z: Setting, cfg: Config, s: seq<Entry>, op: Op)
    requires WellFormed(cfg, s) && cfg.capacity > 0 && (op.Get? || op.Purge?) && op.now <= z.end
    ensures var next := Step(cfg, s, op).list;
      && WellFormed(cfg, next) && (forall e :: e in next ==> e in s)
      && forall k :: Kept(z, Find(s, k), Find(next, k))
  {
    forall k
      ensures Kept(z, Find(s, k), Find(Step(cfg, s, op).list, k))
    {
      TendKeeps(z, cfg, s, op, k);
    }
    TendKeeps(z, cfg, s, op, "");
  }

  lemma KeptTrans(z: Setting, a: Option<Entry>, b: Option<Entry>, c: Option<Entry>)
    requires Kept(z, a, b) && Kept(z, b, c)
    ensures Kept(z, a, c)
  {
  }

  lemma {:induction false} HasCopyKept(z: Setting, before: Lists, k: Key, was: Option<Entry>, found: Option<Entry>)
    requires HasCopy(z, before, k, was) && Kept(z, was, found)
    ensures HasCopy(z, before, k, found)
  {
    var c :| CopyOf(z, before, k, c) && Kept(z, Some(c), was);
    KeptTrans(z, Some(c), was, found);
  }

  /** Reads and purges during a rebalance harm nothing. */
  lemma {:induction false} TendUnharmed(z: Setting, before: Lists, after: Lists, a: Address, op: Op)
    requires Placed(z, before) && InBound(z, before, after) && Unharmed(z, before, after)
    requires (op.Get? || op.Purge?) && op.now <= z.end
    ensures var next := Tended(z, after, a, op);
      && InBound(z, before, next) && Unharmed(z, before, next)
      && (forall k :: Copied(z, before, after, k) ==> Copied(z, before, next, k))
  {
    var next := Tended(z, after, a, op);
    if a in after {
      TendKeepsAll(z, z.cfg[a], after[a], op);
    }
    forall b, k | b in before && b in next
      ensures KeptOrCopied(z, before, next, b, k)
    {
      TendKeepsCopied(z, before, after, next, b, k);
    }
    forall k | Copied(z, before, after, k)
      ensures Copied(z, before, next, k)
    {
      HasCopyKept(z, before, k, Find(after[z.dest(k)], k), Find(next[z.dest(k)], k));
    }
  }

  lemma {:induction false} TendKeepsCopied(z: Setting, before: Lists, after: Lists, next: Lists, a: Address, k: Key)
    requires a in before && a in after && a in next
    requires KeptOrCopied(z, before, after, a, k) && Kept(z, Find(after[a], k), Find(next[a], k))
    ensures KeptOrCopied(z, before, next, a, k)
  {
    if Kept(z, Find(before[a], k), Find(after[a], k)) {
      KeptTrans(z, Find(before[a], k), Find(after[a], k), Find(next[a], k));
    } else {
      HasCopyKept(z, before, k, Find(after[a], k), Find(next[a], k));
    }
  }

  /** Every move of every batch, and every read and purge, keeps the invariant. */
  lemma {:induction false} NextKeepsInvariant(z: Setting, tasks: seq<Task>, before: Lists, w: World, clock: Time,
                                              move: Move, now: Time)
    requires Ready(z, before) && TasksFit(z, tasks) && Invariant(z, tasks, before, w, clock)
    requires z.start <= clock <= now <= z.end && (!move.Abort? ==> move.now == now)
    ensures Invariant(z, tasks, before, Next(z, tasks, w, move), now)
  {
    match move
    case Serve(a, k, _) =>
      TendUnharmed(z, before, w.lists, a, Get(k, now));
      OthersSound(z, tasks, before, w, Next(z, tasks, w, move), clock, now, |tasks|);
    case Sweep(a, _) =>
      TendUnharmed(z, before, w.lists, a, Purge(now));
      OthersSound(z, tasks, before, w, Next(z, tasks, w, move), clock, now, |tasks|);
    case Snap(i, _) => SnapMove(z, tasks, before, w, clock, i, now);
    case Load(i, _) => LoadMove(z, tasks, before, w, clock, i, now);
    case Abort(i) => OthersSound(z, tasks, before, w, Next(z, tasks, w, move), clock, now, i);
  }

  /** Batches that do not move stay sound, and so does a batch that was not allowed to. */
  lemma {:induction false} OthersSound(z: Setting, tasks: seq<Task>, before: Lists, w: World, next: World,
                                       clock: Time, now: Time, mover: nat)
    requires Invariant(z, tasks, before, w, clock) && clock <= now
    requires |next.progress| == |tasks|
    requires forall i :: 0 <= i < |tasks| && i != mover ==> next.progress[i] == w.progress[i]
    requires forall k :: Copied(z, before, w.lists, k) ==> Copied(z, before, next.lists, k)
    ensures forall i :: 0 <= i < |tasks| && next.progress[i] == w.progress[i] ==>
      BatchSound(z, tasks[i], before, next.lists, next.progress[i], now)
  {
    forall i | 0 <= i < |tasks| && next.progress[i] == w.progress[i]
      ensures BatchSound(z, tasks[i], before, next.lists, next.progress[i], now)
    {
      SoundLater(z, tasks[i], before, w.lists, next.lists, w.progress[i], clock, now);
    }
  }

  lemma {:induction false} SnapMove(z: Setting, tasks: seq<Task>, before: Lists, w: World, clock: Time, i: nat,
                                    now: Time)
    requires Ready(z, before) && TasksFit(z, tasks) && Invariant(z, tasks, before, w, clock)
    requires z.start <= clock <= now <= z.end
    ensures Invariant(z, tasks, before, Next(z, tasks, w, Snap(i, now)), now)
  {
    OthersSound(z, tasks, before, w, Next(z, tasks, w, Snap(i, now)), clock, now, i);
    if i < |tasks| && tasks[i].source in w.lists {
      TaskFits(z, tasks, i);
      SnapSound(z, tasks[i], before, w.lists, now);
    }
  }

  lemma TaskFits(z: Setting, tasks: seq<Task>, i: nat)
    requires TasksFit(z, tasks) && i < |tasks|
    ensures forall k :: k in tasks[i].keys ==>
      z.moved(k) && z.home(k) == tasks[i].source && z.dest(k) == tasks[i].target
  {
  }

  lemma {:induction false} LoadMove(z: Setting, tasks: seq<Task>, before: Lists, w: World, clock: Time, i: nat,
                                    now: Time)
    requires Ready(z, before) && TasksFit(z, tasks) && Invariant(z, tasks, before, w, clock)
    requires z.start <= clock <= now <= z.end
    ensures Invariant(z, tasks, before, Next(z, tasks, w, Load(i, now)), now)
  {
    var next := Next(z, tasks, w, Load(i, now));
    if i < |tasks| && w.progress[i].Sending? && w.progress[i].rest != [] {
      var rest := w.progress[i].rest;
      assert BatchSound(z, tasks[i], before, w.lists, w.progress[i], clock);
      assert rest[0] in rest;
      LoadUnharmed(z, before, w.lists, rest[0], clock, now);
      OthersSound(z, tasks, before, w, next, clock, now, i);
      SoundSent(z, tasks[i], before, w.lists, next.lists, rest, clock, now);
    } else {
      OthersSound(z, tasks, before, w, next, clock, now, i);
    }
  }

  // ----- whole schedules

  function LastReading(z: Setting, moves: seq<Move>): Time {
    if moves == [] then z.start
    else if moves[|moves| - 1].Abort? then LastReading(z, moves[..|moves| - 1])
    else moves[|moves| - 1].now
  }

  lemma {:induction false} ReadingsOrdered(z: Setting, moves: seq<Move>, later: Time)
    requires z.start <= later <= z.end
    requires forall i :: 0 <= i < |moves| && !moves[i].Abort? ==> z.start <= moves[i].now <= later
    ensures z.start <= LastReading(z, moves) <= later
  {
    if moves != [] {
      ReadingsOrdered(z, moves[..|moves| - 1], later);
    }
  }

  /** The invariant holds after every prefix of every schedule, with any batches failed. */
  lemma {:induction false} RunInvariant(z: Setting, tasks: seq<Task>, before: Lists, moves: seq<Move>)
    requires Ready(z, before) && TasksFit(z, tasks) && Timed(z, moves)
    ensures z.start <= LastReading(z, moves) <= z.end
    ensures Invariant(z, tasks, before, Run(z, tasks, before, moves), LastReading(z, moves))
  {
    if moves == [] {
      StartInvariant(z, tasks, before);
    } else {
      var n := |moves| - 1;
      RunInvariant(z, tasks, before, moves[..n]);
      if !moves[n].Abort? {
        ReadingsOrdered(z, moves[..n], moves[n].now);
      }
      NextKeepsInvariant(z, tasks, before, Run(z, tasks, before, moves[..n]),
                         LastReading(z, moves[..n]), moves[n], LastReading(z, moves));
    }
  }

  lemma {:induction false} StartInvariant(z: Setting, tasks: seq<Task>, before: Lists)
    requires Placed(z, before)
    ensures Invariant(z, tasks, before, Start(before, tasks), z.start)
  {
  }

  // ----- the outcome

  /** What a get at `now` would answer. */
  function Seen(s: seq<Entry>, k: Key, now: Time): Option<Value> {
    match Find(s, k)
    case None => None
    case Some(e) => if Expired(e, now) then None else Some(e.value)
  }

  /** What node `a` must answer for `k` at the end of the window: the moved value if `k` moves here
      and has one, else what it would have answered anyway. */
  function Migrated(z: Setting, before: Lists, a: Address, k: Key): Option<Value>
    requires a in before
  {
    if Comes(z, before, a, k) then Some(Source(z, before, k).value.value) else Seen(before[a], k, z.end)
  }

  /** Some batch that has the key has finished. Others may be in any state, and may even go on. */
  ghost predicate DoneFor(tasks: seq<Task>, w: World, k: Key) {
    exists i :: 0 <= i < |tasks| && i < |w.progress| && k in tasks[i].keys && w.progress[i] == Finished
  }

  /** The key's entry outlives the window, and so does every copy of it. */
  predicate Unlosable(z: Setting, before: Lists, k: Key) {
    && LastingSource(z, before, k) && z.dest(k) in z.cfg
    && Grantable(z, Source(z, before, k).value)
    && Safe(z, z.cfg[z.dest(k)], Source(z, before, k).value)
  }

  lemma {:induction false} Arrived(z: Setting, tasks: seq<Task>, before: Lists, moves: seq<Move>, k: Key)
    requires Ready(z, before) && TasksFit(z, tasks) && Timed(z, moves)
    requires LastingSource(z, before, k) && DoneFor(tasks, Run(z, tasks, before, moves), k)
    ensures Copied(z, before, Run(z, tasks, before, moves).lists, k)
  {
    RunInvariant(z, tasks, before, moves);
    var w := Run(z, tasks, before, moves);
    var i :| 0 <= i < |tasks| && i < |w.progress| && k in tasks[i].keys && w.progress[i] == Finished;
    assert BatchSound(z, tasks[i], before, w.lists, w.progress[i], LastReading(z, moves));
  }

  lemma {:induction false} CopySeen(z: Setting, before: Lists, k: Key, found: Option<Entry>)
    requires HasCopy(z, before, k, found) && Unlosable(z, before, k)
    ensures found.Some? && !Expired(found.value, z.end) && found.value.value == Source(z, before, k).value.value
  {
    var src := Source(z, before, k).value;
    var cfg := z.cfg[z.dest(k)];
    var c :| CopyOf(z, before, k, c) && Kept(z, Some(c), found);
    var s: Time, l: Time :| z.start <= s <= l <= z.end && !Expired(src, s) && c == CopyAt(cfg, src, s, l);
    SafeCopyLasts(z, cfg, src, s, l);
  }

  /** Whatever the schedule and the state of other batches, once some batch with the key has
      finished, every node answers for the key exactly as prescribed: the outcome does not depend
      on how batches, reads and purges interleave. */
  lemma {:induction false} RebalanceOutcome(z: Setting, tasks: seq<Task>, before: Lists, moves: seq<Move>,
                                            a: Address, k: Key)
    requires Ready(z, before) && TasksFit(z, tasks) && Timed(z, moves) && a in before
    requires Comes(z, before, a, k) ==>
      Unlosable(z, before, k) && DoneFor(tasks, Run(z, tasks, before, moves), k)
    ensures var after := Run(z, tasks, before, moves).lists;
      a in after && Seen(after[a], k, z.end) == Migrated(z, before, a, k)
  {
    RunInvariant(z, tasks, before, moves);
    var after := Run(z, tasks, before, moves).lists;
    if Comes(z, before, a, k) {
      Arrived(z, tasks, before, moves, k);
      CopySeen(z, before, k, Find(after[a], k));
    } else {
      assert KeptOrCopied(z, before, after, a, k);
    }
  }

  /** Where a key is read before the rebalance, and where after it. */
  function OldPlace(z: Setting, stay: Key -> Address, k: Key): Address {
    if z.moved(k) then z.home(k) else stay(k)
  }

  function NewPlace(z: Setting, stay: Key -> Address, k: Key): Address {
    if z.moved(k) then z.dest(k) else stay(k)
  }

  /** No data is lost: a key answered at its old owner is, when its batch has finished, answered with
      the same value at its new owner, at the end of the window. */
  lemma {:induction false} NoDataLost(z: Setting, tasks: seq<Task>, before: Lists, moves: seq<Move>,
                                      stay: Key -> Address, k: Key, v: Value)
    requires Ready(z, before) && TasksFit(z, tasks) && Timed(z, moves)
    requires OldPlace(z, stay, k) in before && Seen(before[OldPlace(z, stay, k)], k, z.end) == Some(v)
    requires z.moved(k) ==> Unlosable(z, before, k) && DoneFor(tasks, Run(z, tasks, before, moves), k)
    ensures var after := Run(z, tasks, before, moves).lists;
      NewPlace(z, stay, k) in after && Seen(after[NewPlace(z, stay, k)], k, z.end) == Some(v)
  {
    RebalanceOutcome(z, tasks, before, moves, NewPlace(z, stay, k), k);
  }

  // ----- retry

  /** After any partial run, with any batches and any failures, another rebalance is as possible as
      before and has the same goal. */
  lemma {:induction false} PartialRunHarmless(z: Setting, tasks: seq<Task>, before: Lists, moves: seq<Move>)
    requires Ready(z, before) && TasksFit(z, tasks) && Timed(z, moves)
    ensures var middle := Run(z, tasks, before, moves).lists;
      && Ready(z, middle)
      && (forall k :: LastingSource(z, before, k) ==> Source(z, middle, k) == Source(z, before, k))
      && (forall a, k :: a in before && (Comes(z, before, a, k) ==> LastingSource(z, before, k)) ==>
        Migrated(z, middle, a, k) == Migrated(z, before, a, k))
  {
    RunInvariant(z, tasks, before, moves);
    var middle := Run(z, tasks, before, moves).lists;
    SourcesStay(z, before, middle);
    forall a | a in middle
      ensures |Needed(z, middle, a)| <= z.cfg[a].capacity
    {
      NeededShrinks(z, before, middle, a);
    }
    forall a, k | a in before && (Comes(z, before, a, k) ==> LastingSource(z, before, k))
      ensures Migrated(z, middle, a, k) == Migrated(z, before, a, k)
    {
      GoalStays(z, before, middle, a, k);
    }
  }

  lemma {:induction false} SourcesStay(z: Setting, before: Lists, after: Lists)
    requires Ready(z, before) && Unharmed(z, before, after)
    ensures forall k :: LastingSource(z, before, k) ==> Source(z, after, k) == Source(z, before, k)
    ensures forall k :: Source(z, after, k).Some? ==> Source(z, after, k) == Source(z, before, k)
  {
    forall k
      ensures LastingSource(z, before, k) ==> Source(z, after, k) == Source(z, before, k)
      ensures Source(z, after, k).Some? ==> Source(z, after, k) == Source(z, before, k)
    {
      if z.moved(k) && z.home(k) in before {
        SourceUnaltered(z, before, after, k);
      }
    }
  }

  lemma {:induction false} GoalStays(z: Setting, before: Lists, after: Lists, a: Address, k: Key)
    requires Placed(z, before) && Unharmed(z, before, after) && a in before
    requires LastingSource(z, before, k) ==> Source(z, after, k) == Source(z, before, k)
    requires Source(z, after, k).Some? ==> Source(z, after, k) == Source(z, before, k)
    requires Comes(z, before, a, k) ==> LastingSource(z, before, k)
    ensures a in after && Migrated(z, after, a, k) == Migrated(z, before, a, k)
  {
    assert KeptOrCopied(z, before, after, a, k);
  }

  lemma {:induction false} NeededShrinks(z: Setting, before: Lists, after: Lists, a: Address)
    requires InBound(z, before, after) && a in after
    requires forall k :: Source(z, after, k).Some? ==> Source(z, after, k) == Source(z, before, k)
    ensures |Needed(z, after, a)| <= |Needed(z, before, a)|
  {
    forall k | k in Needed(z, after, a)
      ensures k in Needed(z, before, a)
    {
      NeededExact(z, after, a, k);
      NeededExact(z, before, a, k);
      if Find(after[a], k).Some? {
        assert Welcome(z, before, a, Find(after[a], k).value.key);
      }
    }
    SubsetSize(Needed(z, after, a), Needed(z, before, a));
  }

  /** Safe retry: first a rebalance of which any batches fail, are given up, or go on loading at any
      time; then a retry whose batches finish. Every node answers as after one complete rebalance. */
  lemma {:induction false} RetryIdempotent(z: Setting, first: seq<Task>, retry: seq<Task>, before: Lists,
                                           moves: seq<Move>, a: Address, k: Key)
    requires Ready(z, before) && Timed(z, moves) && a in before
    requires TasksFit(z, first) && TasksFit(z, retry)
    requires Comes(z, before, a, k) ==> Unlosable(z, before, k) && exists i :: 0 <= i < |retry| && k in retry[i].keys
    requires var w := Run(z, first + retry, before, moves);
      forall i :: |first| <= i < |w.progress| ==> w.progress[i] == Finished
    ensures var after := Run(z, first + retry, before, moves).lists;
      a in after && Seen(after[a], k, z.end) == Migrated(z, before, a, k)
  {
    BothFit(z, first, retry);
    if Comes(z, before, a, k) {
      RetryDone(z, first, retry, before, moves, k);
    }
    RebalanceOutcome(z, first + retry, before, moves, a, k);
  }

  lemma BothFit(z: Setting, first: seq<Task>, retry: seq<Task>)
    requires TasksFit(z, first) && TasksFit(z, retry)
    ensures TasksFit(z, first + retry)
  {
  }

  lemma {:induction false} RetryDone(z: Setting, first: seq<Task>, retry: seq<Task>, before: Lists, moves: seq<Move>,
                                     k: Key)
    requires Ready(z, before) && Timed(z, moves) && TasksFit(z, first + retry)
    requires exists i :: 0 <= i < |retry| && k in retry[i].keys
    requires var w := Run(z, first + retry, before, moves);
      forall i :: |first| <= i < |w.progress| ==> w.progress[i] == Finished
    ensures DoneFor(first + retry, Run(z, first + retry, before, moves), k)
  {
    RunInvariant(z, first + retry, before, moves);
    var i :| 0 <= i < |retry| && k in retry[i].keys;
    var j := |first| + i;
    assert (first + retry)[j] == retry[i];
  }

  // ----- old copies

  /** A moved key that was deleted at its owner is answered by its new owner, after any part of a
      rebalance, if and only if an old copy of it lay there and is still live. */
  lemma {:induction false} DeletedKeyRevivedIff(z: Setting, tasks: seq<Task>, before: Lists, moves: seq<Move>, k: Key)
    requires Ready(z, before) && TasksFit(z, tasks) && Timed(z, moves)
    requires z.moved(k) && z.home(k) in before && z.dest(k) in before && Find(before[z.home(k)], k).None?
    ensures var after := Run(z, tasks, before, moves).lists;
      z.dest(k) in after
      && (Seen(after[z.dest(k)], k, z.end).Some? <==> Seen(before[z.dest(k)], k, z.end).Some?)
      && Seen(after[z.dest(k)], k, z.end) == Seen(before[z.dest(k)], k, z.end)
  {
    RebalanceOutcome(z, tasks, before, moves, z.dest(k), k);
  }

  /** The second move takes the key back to where the first one took it from. */
  ghost predicate MovesBack(z: Setting, back: Setting, k: Key) {
    && z.moved(k) && back.moved(k) && z.end <= back.start
    && back.home(k) == z.dest(k) && back.dest(k) == z.home(k)
  }

  /** Move a key, delete it at its new owner, and move it back, under any schedules: the old owner
      answers with the value from before the deletion. */
  lemma {:induction false} MoveDeleteMoveBack(z: Setting, tasks: seq<Task>, before: Lists, moves: seq<Move>,
                                              back: Setting, backTasks: seq<Task>, backMoves: seq<Move>, k: Key)
    requires Ready(z, before) && TasksFit(z, tasks) && Timed(z, moves) && MovesBack(z, back, k)
    requires Source(z, before, k).Some? && Lasting(back, Source(z, before, k).value)
    requires var moved := Run(z, tasks, before, moves).lists;
      && z.dest(k) in moved && z.dest(k) in back.cfg
      && var deleted := moved[z.dest(k) := Step(back.cfg[z.dest(k)], moved[z.dest(k)], Remove(k)).list];
      Ready(back, deleted) && TasksFit(back, backTasks) && Timed(back, backMoves)
    ensures var moved := Run(z, tasks, before, moves).lists;
      var deleted := moved[z.dest(k) := Step(back.cfg[z.dest(k)], moved[z.dest(k)], Remove(k)).list];
      var after := Run(back, backTasks, deleted, backMoves).lists;
      && Find(deleted[z.dest(k)], k).None?
      && z.home(k) in after
      && Seen(after[z.home(k)], k, back.end) == Some(Source(z, before, k).value.value)
  {
    var moved := Run(z, tasks, before, moves).lists;
    var deleted := moved[z.dest(k) := Step(back.cfg[z.dest(k)], moved[z.dest(k)], Remove(k)).list];
    RunInvariant(z, tasks, before, moves);
    SourceUnaltered(z, before, moved, k);
    FindDrop(moved[z.dest(k)], k, k);
    DeletedKeyRevivedIff(back, backTasks, deleted, backMoves, k);
  }

  // ----- one load and the target's room

  /** Every key stored before or loaded is stored afterwards. */
  ghost predicate NothingEvicted(s: seq<Entry>, xs: seq<Export>, after: seq<Entry>) {
    && (forall e :: e in s ==> Find(after, e.key).Some?)
    && (forall x :: x in xs ==> Find(after, x.key).Some?)
  }

  /** Loading new keys evicts nothing exactly when the target has room for all of them. */
  lemma {:induction false} LoadEvictsNothingIff(cfg: Config, s: seq<Entry>, xs: seq<Export>, times: seq<Time>)
    requires WellFormed(cfg, s) && cfg.capacity > 0 && |xs| == |times|
    requires forall i, j :: 0 <= i < j < |xs| ==> xs[i].key != xs[j].key
    requires forall x :: x in xs ==> Find(s, x.key).None?
    ensures NothingEvicted(s, xs, BulkLoad(cfg, s, xs, times)) <==> |s| + |xs| <= cfg.capacity
  {
    var after := BulkLoad(cfg, s, xs, times);
    BulkLoadWellFormed(cfg, s, xs, times);
    if |s| + |xs| <= cfg.capacity {
      forall k
        ensures Find(s, k).Some? || (exists x :: x in xs && x.key == k) ==> Find(after, k).Some?
      {
        BulkLoadFinds(cfg, s, xs, times, k);
      }
    }
    if NothingEvicted(s, xs, after) {
      AllStoredFit(s, xs, after);
    }
  }

  lemma {:induction false} AllStoredFit(s: seq<Entry>, xs: seq<Export>, after: seq<Entry>)
    requires UniqueKeys(s) && UniqueKeys(after) && NothingEvicted(s, xs, after)
    requires forall i, j :: 0 <= i < j < |xs| ==> xs[i].key != xs[j].key
    requires forall x :: x in xs ==> Find(s, x.key).None?
    ensures |s| + |xs| <= |after|
  {
    var loaded := set x | x in xs :: x.key;
    KeysCount(s);
    KeysCount(after);
    ExportKeysCount(xs);
    assert Keys(s) !! loaded;
    forall k | k in Keys(s) + loaded
      ensures k in Keys(after)
    {
      assert Find(after, k).Some?;
    }
    SubsetSize(Keys(s) + loaded, Keys(after));
  }

  lemma {:induction false} ExportKeysCount(xs: seq<Export>)
    requires forall i, j :: 0 <= i < j < |xs| ==> xs[i].key != xs[j].key
    ensures |set x | x in xs :: x.key| == |xs|
  {
    if xs != [] {
      var init, last := xs[..|xs| - 1], xs[|xs| - 1];
      ExportKeysCount(init);
      assert xs == init + [last];
      assert (set x | x in xs :: x.key) == (set x | x in init :: x.key) + {last.key};
      assert last.key !in set x | x in init :: x.key;
    }
  }

  lemma {:induction false} BulkLoadFinds(cfg: Config, s: seq<Entry>, xs: seq<Export>, times: seq<Time>, k: Key)
    requires |xs| == |times| && |s| + |xs| <= cfg.capacity
    ensures var after := BulkLoad(cfg, s, xs, times);
      |after| <= |s| + |xs| && (Find(s, k).Some? || (exists x :: x in xs && x.key == k) ==> Find(after, k).Some?)
  {
    if xs != [] {
      var n := |xs| - 1;
      assert xs == xs[..n] + [xs[n]];
      BulkLoadFinds(cfg, s, xs[..n], times[..n], k);
      FindInsert(cfg, BulkLoad(cfg, s, xs[..n], times[..n]), Loaded(cfg, xs[n], times[n]), k);
      InsertGrows(cfg, BulkLoad(cfg, s, xs[..n], times[..n]), Loaded(cfg, xs[n], times[n]));
    }
  }

  lemma InsertGrows(cfg: Config, s: seq<Entry>, e: Entry)
    ensures |Insert(cfg, s, e)| <= |s| + 1
  {
  }
}
