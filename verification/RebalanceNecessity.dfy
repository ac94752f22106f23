/** The conditions under which a rebalance loses nothing are necessary: schedules that lose data
    without them. */
module RebalanceNecessity {
  import opened Options
  import opened Sequences
  import opened LruModel
  import opened RebalanceModel
  import opened RebalanceTheorems
  import opened Migration

  // ----- complete schedules exist

  lemma {:induction false} ContinueAppend(z: Setting, tasks: seq<Task>, w: World, a: seq<Move>, b: seq<Move>)
    ensures Continue(z, tasks, w, a + b) == Continue(z, tasks, Continue(z, tasks, w, a), b)
  {
    if b == [] {
      assert a + b == a;
    } else {
      var n := |b| - 1;
      ContinueAppend(z, tasks, w, a, b[..n]);
      assert (a + b)[..|a + b| - 1] == a + b[..n];
    }
  }

  /** All nodes that the batches name are reachable. */
  ghost predicate Reachable(tasks: seq<Task>, lists: Lists) {
    forall i :: 0 <= i < |tasks| ==> tasks[i].source in lists && tasks[i].target in lists
  }

  /** Every move is a batch's, is made at time `t`, and is no failure. */
  ghost predicate AllAt(moves: seq<Move>, t: Time) {
    forall i :: 0 <= i < |moves| ==> (moves[i].Snap? || moves[i].Load?) && moves[i].now == t
  }

  /** The first `n` batches have finished and the others have not begun. */
  ghost predicate DoneUpTo(w: World, tasks: seq<Task>, n: nat) {
    && |w.progress| == |tasks|
    && (forall i :: 0 <= i < n && i < |tasks| ==> w.progress[i] == Finished)
    && (forall i :: n <= i < |tasks| ==> w.progress[i] == Waiting)
  }

  function Always(t: Time): nat -> Time {
    (i: nat) => t
  }

  lemma BatchAt(i: nat, t: Time, n: nat)
    ensures AllAt(Batch(i, t, Always(t), n), t)
  {
  }

  /** A schedule that runs the first `n` batches one after the other, all at time `t`. */
  lemma {:induction false} CompleteSchedule(z: Setting, tasks: seq<Task>, lists: Lists, t: Time, n: nat)
    returns (moves: seq<Move>)
    requires n <= |tasks| && lists.Keys == z.cfg.Keys && Reachable(tasks, lists)
    ensures AllAt(moves, t)
    ensures var w := Run(z, tasks, lists, moves);
      w.lists.Keys == lists.Keys && DoneUpTo(w, tasks, n)
  {
    if n == 0 {
      moves := [];
    } else {
      var i := n - 1;
      var earlier := CompleteSchedule(z, tasks, lists, t, i);
      var w := Run(z, tasks, lists, earlier);
      var xs := Wanted(w.lists[tasks[i].source], tasks[i].keys, t);
      var batch := Batch(i, t, Always(t), |xs|);
      BatchAt(i, t, |xs|);
      BatchIsMigration(z, tasks, w, i, t, Always(t));
      ContinueAppend(z, tasks, Start(lists, tasks), earlier, batch);
      moves := earlier + batch;
    }
  }

  ghost predicate AllFinished(w: World) {
    forall i :: 0 <= i < |w.progress| ==> w.progress[i] == Finished
  }

  /** What happens does not depend on which window it is judged by. */
  lemma {:induction false} RunIgnoresWindow(z: Setting, y: Setting, tasks: seq<Task>, w: World, moves: seq<Move>)
    requires z.cfg == y.cfg
    ensures Continue(z, tasks, w, moves) == Continue(y, tasks, w, moves)
  {
    if moves != [] {
      RunIgnoresWindow(z, y, tasks, w, moves[..|moves| - 1]);
    }
  }

  // ----- the margin of a second

  /** The moved key's new owner answers with its value at the end of the window. */
  ghost predicate Answered(z: Setting, before: Lists, after: Lists, k: Key)
    requires Source(z, before, k).Some?
  {
    z.dest(k) in after && Seen(after[z.dest(k)], k, z.end) == Some(Source(z, before, k).value.value)
  }

  ghost predicate Survives(z: Setting, tasks: seq<Task>, before: Lists, k: Key)
    requires Source(z, before, k).Some?
  {
    forall moves :: Timed(z, moves) && AllFinished(Run(z, tasks, before, moves)) ==>
      Answered(z, before, Run(z, tasks, before, moves).lists, k)
  }

  /** The window shrunk to one moment. */
  function At(z: Setting, t: Time): Setting {
    z.(start := t, end := t)
  }

  lemma {:induction false} ReadyAt(z: Setting, before: Lists, t: Time)
    requires Ready(z, before) && z.start <= t <= z.end
    ensures Ready(At(z, t), before)
  {
    forall k
      ensures Source(At(z, t), before, k).Some? ==> Source(At(z, t), before, k) == Source(z, before, k)
    {
    }
    forall a | a in before
      ensures |Needed(At(z, t), before, a)| <= z.cfg[a].capacity
    {
      forall k | k in Needed(At(z, t), before, a)
        ensures k in Needed(z, before, a)
      {
        NeededExact(At(z, t), before, a, k);
        NeededExact(z, before, a, k);
      }
      SubsetSize(Needed(At(z, t), before, a), Needed(z, before, a));
    }
  }

  /** At a single moment there is only one copy that can arrive. */
  lemma {:induction false} ArrivesAt(z: Setting, tasks: seq<Task>, before: Lists, moves: seq<Move>, k: Key, t: Time)
    requires Ready(z, before) && TasksFit(z, tasks) && z.start <= t <= z.end
    requires AllAt(moves, t) && LastingSource(z, before, k) && DoneFor(tasks, Run(z, tasks, before, moves), k)
    requires z.dest(k) in z.cfg
      && !Expired(CopyAt(z.cfg[z.dest(k)], Source(z, before, k).value, t, t), t)
    ensures var after := Run(z, tasks, before, moves).lists;
      z.dest(k) in after
      && Find(after[z.dest(k)], k) == Some(CopyAt(z.cfg[z.dest(k)], Source(z, before, k).value, t, t))
  {
    var y := At(z, t);
    ReadyAt(z, before, t);
    RunIgnoresWindow(z, y, tasks, Start(before, tasks), moves);
    assert Source(y, before, k) == Source(z, before, k);
    Arrived(y, tasks, before, moves, k);
    OnlyCopyAt(y, before, k, Find(Run(z, tasks, before, moves).lists[z.dest(k)], k));
  }

  lemma {:induction false} OnlyCopyAt(y: Setting, before: Lists, k: Key, found: Option<Entry>)
    requires y.start == y.end && HasCopy(y, before, k, found)
    requires !Expired(CopyAt(y.cfg[y.dest(k)], Source(y, before, k).value, y.start, y.start), y.start)
    ensures found == Some(CopyAt(y.cfg[y.dest(k)], Source(y, before, k).value, y.start, y.start))
  {
    var c :| CopyOf(y, before, k, c) && Kept(y, Some(c), found);
    var src := Source(y, before, k).value;
    var s: Time, l: Time :| y.start <= s <= l <= y.end && !Expired(src, s) && c == CopyAt(y.cfg[y.dest(k)], src, s, l);
  }

  /** Without the margin some schedule, in which every batch succeeds, loses the key. */
  lemma {:induction false} LosingSchedule(z: Setting, tasks: seq<Task>, before: Lists, k: Key)
    returns (moves: seq<Move>)
    requires Ready(z, before) && TasksFit(z, tasks) && Reachable(tasks, before)
    requires LastingSource(z, before, k) && Grantable(z, Source(z, before, k).value)
    requires exists i :: 0 <= i < |tasks| && k in tasks[i].keys
    requires !Safe(z, z.cfg[z.dest(k)], Source(z, before, k).value)
    ensures Timed(z, moves) && AllFinished(Run(z, tasks, before, moves))
    ensures var after := Run(z, tasks, before, moves).lists;
      z.dest(k) in after && Seen(after[z.dest(k)], k, z.end).None?
  {
    var e := Source(z, before, k).value;
    var t := Worst(z, z.cfg[z.dest(k)], e);
    UnsafeCopyDies(z, z.cfg[z.dest(k)], e);
    moves := CompleteSchedule(z, tasks, before, t, |tasks|);
    var i :| 0 <= i < |tasks| && k in tasks[i].keys;
    assert Run(z, tasks, before, moves).progress[i] == Finished;
    ArrivesAt(z, tasks, before, moves, k, t);
  }

  /** A moved key that outlives the window survives every schedule if and only if its lifetime leaves
      the margin: it outlives the window by a second, or the window is shorter than a second; for a
      key without expiry, the target's default lifetime must exceed the window. */
  lemma {:induction false} SurvivesIffSafe(z: Setting, tasks: seq<Task>, before: Lists, k: Key)
    requires Ready(z, before) && TasksFit(z, tasks) && Reachable(tasks, before)
    requires LastingSource(z, before, k) && Grantable(z, Source(z, before, k).value)
    requires exists i :: 0 <= i < |tasks| && k in tasks[i].keys
    ensures Survives(z, tasks, before, k) <==> Safe(z, z.cfg[z.dest(k)], Source(z, before, k).value)
  {
    if Safe(z, z.cfg[z.dest(k)], Source(z, before, k).value) {
      forall moves | Timed(z, moves) && AllFinished(Run(z, tasks, before, moves))
        ensures Answered(z, before, Run(z, tasks, before, moves).lists, k)
      {
        RunInvariant(z, tasks, before, moves);
        var i :| 0 <= i < |tasks| && k in tasks[i].keys;
        assert Run(z, tasks, before, moves).progress[i] == Finished;
        RebalanceOutcome(z, tasks, before, moves, z.dest(k), k);
      }
    } else {
      var moves := LosingSchedule(z, tasks, before, k);
      assert Timed(z, moves) && !Answered(z, before, Run(z, tasks, before, moves).lists, k);
    }
  }

  // ----- room

  lemma {:induction false} NextWellFormed(z: Setting, tasks: seq<Task>, w: World, move: Move)
    requires forall a :: a in w.lists ==> a in z.cfg && z.cfg[a].capacity > 0 && WellFormed(z.cfg[a], w.lists[a])
    ensures var next := Next(z, tasks, w, move);
      next.lists.Keys == w.lists.Keys && |next.progress| == |w.progress|
      && forall a :: a in next.lists ==> WellFormed(z.cfg[a], next.lists[a])
  {
    match move
    case Serve(a, k, now) =>
      if a in w.lists {
        StepWellFormed(z.cfg[a], w.lists[a], Get(k, now));
      }
    case Sweep(a, now) =>
      if a in w.lists {
        StepWellFormed(z.cfg[a], w.lists[a], Purge(now));
      }
    case Load(i, now) =>
      if i < |tasks| && i < |w.progress| && w.progress[i].Sending? && w.progress[i].rest != []
         && tasks[i].target in w.lists {
        var a := tasks[i].target;
        InsertWellFormed(z.cfg[a], w.lists[a], Loaded(z.cfg[a], w.progress[i].rest[0], now));
      }
    case Snap(_, _) =>
    case Abort(_) =>
  }

  /** Room or not, lists stay well formed. */
  lemma {:induction false} RunWellFormed(z: Setting, tasks: seq<Task>, before: Lists, moves: seq<Move>)
    requires Placed(z, before)
    ensures var w := Run(z, tasks, before, moves);
      w.lists.Keys == before.Keys && |w.progress| == |tasks|
      && forall a :: a in w.lists ==> WellFormed(z.cfg[a], w.lists[a])
  {
    if moves != [] {
      var n := |moves| - 1;
      RunWellFormed(z, tasks, before, moves[..n]);
      NextWellFormed(z, tasks, Run(z, tasks, before, moves[..n]), moves[n]);
    }
  }

  /** Every node answers for every key that it held or that came to it. */
  ghost predicate AllAnswered(z: Setting, before: Lists, after: Lists) {
    forall a, k :: Welcome(z, before, a, k) ==> a in after && Seen(after[a], k, z.end).Some?
  }

  /** Nothing stored has expired by the end of the window, and everything that moves is unlosable and
      in some batch. */
  ghost predicate Untroubled(z: Setting, tasks: seq<Task>, before: Lists) {
    && (forall a, e :: a in before && e in before[a] ==> Lasting(z, e))
    && (forall k :: Source(z, before, k).Some? ==>
      Unlosable(z, before, k) && exists i :: 0 <= i < |tasks| && k in tasks[i].keys)
  }

  /** Room is exactly what else it takes: after any schedule in which every batch finishes, all keys
      that nodes held, and all that came to them, are answered if and only if every node has room for
      what it held and what came. */
  lemma {:induction false} NothingLostIffRoom(z: Setting, tasks: seq<Task>, before: Lists, moves: seq<Move>)
    requires Placed(z, before) && TasksFit(z, tasks) && Timed(z, moves) && Untroubled(z, tasks, before)
    requires AllFinished(Run(z, tasks, before, moves))
    ensures AllAnswered(z, before, Run(z, tasks, before, moves).lists) <==> Room(z, before)
  {
    var after := Run(z, tasks, before, moves).lists;
    RunWellFormed(z, tasks, before, moves);
    if Room(z, before) {
      forall a, k | Welcome(z, before, a, k)
        ensures a in after && Seen(after[a], k, z.end).Some?
      {
        if Comes(z, before, a, k) {
          var i :| 0 <= i < |tasks| && k in tasks[i].keys;
          assert Run(z, tasks, before, moves).progress[i] == Finished;
        } else {
          assert Lasting(z, Find(before[a], k).value);
        }
        RebalanceOutcome(z, tasks, before, moves, a, k);
      }
    }
    if AllAnswered(z, before, after) {
      forall a | a in before
        ensures |Needed(z, before, a)| <= z.cfg[a].capacity
      {
        AnsweredFit(z, before, after, a);
      }
    }
  }

  lemma {:induction false} AnsweredFit(z: Setting, before: Lists, after: Lists, a: Address)
    requires a in before && a in after && a in z.cfg && WellFormed(z.cfg[a], after[a])
    requires AllAnswered(z, before, after)
    ensures |Needed(z, before, a)| <= z.cfg[a].capacity
  {
    forall k | k in Needed(z, before, a)
      ensures k in Keys(after[a])
    {
      NeededExact(z, before, a, k);
      assert Welcome(z, before, a, k);
    }
    SubsetSize(Needed(z, before, a), Keys(after[a]));
    KeysCount(after[a]);
  }

  // ----- a deleted key comes back

  const OLD_NODE: Address := ("old", 1)
  const NEW_NODE: Address := ("new", 2)
  const STALE := Entry("k", "v", None)

  /** Two nodes with room for one entry each; the key "k" moves between them. */
  function Shift(from: Address, to: Address, time: Time): Setting {
    Setting((k: Key) => k == "k", (k: Key) => from, (k: Key) => to,
            map[OLD_NODE := Config(1, 0), NEW_NODE := Config(1, 0)], time, time)
  }

  const STALE_LISTS: Lists := map[OLD_NODE := [STALE], NEW_NODE := []]

  lemma {:induction false} ShiftReady(from: Address, to: Address, time: Time)
    requires (from == OLD_NODE && to == NEW_NODE) || (from == NEW_NODE && to == OLD_NODE)
    ensures Ready(Shift(from, to, time), STALE_LISTS)
  {
    var z := Shift(from, to, time);
    ShiftPlaced(z, from, to, time);
    forall a | a in STALE_LISTS
      ensures |Needed(z, STALE_LISTS, a)| <= z.cfg[a].capacity
    {
      ShiftFits(z, from, to, time, a);
    }
  }

  lemma {:induction false} ShiftPlaced(z: Setting, from: Address, to: Address, time: Time)
    requires from != to && from in STALE_LISTS && to in STALE_LISTS && z == Shift(from, to, time)
    ensures Placed(z, STALE_LISTS)
  {
    forall a | a in STALE_LISTS
      ensures a in z.cfg && z.cfg[a] == Config(1, 0) && WellFormed(z.cfg[a], STALE_LISTS[a])
    {
    }
  }

  lemma {:induction false} ShiftFits(z: Setting, from: Address, to: Address, time: Time, a: Address)
    requires z == Shift(from, to, time) && a in STALE_LISTS
    ensures |Needed(z, STALE_LISTS, a)| <= 1
  {
    forall k | k in Needed(z, STALE_LISTS, a)
      ensures k == "k"
    {
      NeededExact(z, STALE_LISTS, a, k);
      if Find(STALE_LISTS[a], k).Some? {
        StaleKey(a, k);
      }
    }
    SubsetSize(Needed(z, STALE_LISTS, a), {"k"});
  }

  lemma StaleKey(a: Address, k: Key)
    requires a in STALE_LISTS && Find(STALE_LISTS[a], k).Some?
    ensures k == "k"
  {
  }

  /** A run: "k" moves to the new node, is deleted there, and moves back. In both moves all batches
      finish; between them the owner has no "k"; afterwards the owner answers with the deleted value. */
  lemma {:induction false} DeletedKeyComesBack() returns (moves: seq<Move>, backMoves: seq<Move>)
    ensures var z, back := Shift(OLD_NODE, NEW_NODE, 0), Shift(NEW_NODE, OLD_NODE, 1);
      var tasks, backTasks := [Task(OLD_NODE, NEW_NODE, {"k"})], [Task(NEW_NODE, OLD_NODE, {"k"})];
      var moved := Run(z, tasks, STALE_LISTS, moves);
      && Timed(z, moves) && AllFinished(moved) && NEW_NODE in moved.lists
      && Seen(moved.lists[NEW_NODE], "k", 0) == Some("v")
      && var deleted := moved.lists[NEW_NODE := Step(Config(1, 0), moved.lists[NEW_NODE], Remove("k")).list];
      var after := Run(back, backTasks, deleted, backMoves);
      && Seen(deleted[NEW_NODE], "k", 1).None?
      && Timed(back, backMoves) && AllFinished(after) && OLD_NODE in after.lists
      && Seen(after.lists[OLD_NODE], "k", 1) == Some("v")
  {
    moves := ShiftedThere();
    ShiftReady(OLD_NODE, NEW_NODE, 0);
    DeletedAt(Shift(OLD_NODE, NEW_NODE, 0), [Task(OLD_NODE, NEW_NODE, {"k"})], moves);
    backMoves := ShiftedBack();
  }

  lemma {:induction false} ShiftedThere() returns (moves: seq<Move>)
    ensures var z := Shift(OLD_NODE, NEW_NODE, 0);
      var moved := Run(z, [Task(OLD_NODE, NEW_NODE, {"k"})], STALE_LISTS, moves);
      && Timed(z, moves) && AllFinished(moved) && NEW_NODE in moved.lists
      && Seen(moved.lists[NEW_NODE], "k", 0) == Some("v")
  {
    var z, tasks := Shift(OLD_NODE, NEW_NODE, 0), [Task(OLD_NODE, NEW_NODE, {"k"})];
    ShiftReady(OLD_NODE, NEW_NODE, 0);
    moves := CompleteSchedule(z, tasks, STALE_LISTS, 0, 1);
    assert Source(z, STALE_LISTS, "k") == Some(STALE);
    assert Run(z, tasks, STALE_LISTS, moves).progress[0] == Finished;
    RebalanceOutcome(z, tasks, STALE_LISTS, moves, NEW_NODE, "k");
  }

  lemma {:induction false} ShiftedBack() returns (moves: seq<Move>)
    ensures var back := Shift(NEW_NODE, OLD_NODE, 1);
      var after := Run(back, [Task(NEW_NODE, OLD_NODE, {"k"})], STALE_LISTS, moves);
      && Timed(back, moves) && AllFinished(after) && OLD_NODE in after.lists
      && Seen(after.lists[OLD_NODE], "k", 1) == Some("v")
  {
    var back, tasks := Shift(NEW_NODE, OLD_NODE, 1), [Task(NEW_NODE, OLD_NODE, {"k"})];
    ShiftReady(NEW_NODE, OLD_NODE, 1);
    moves := CompleteSchedule(back, tasks, STALE_LISTS, 1, 1);
    DeletedKeyRevivedIff(back, tasks, STALE_LISTS, moves, "k");
  }

  /** Deleting the key after the first move leads back to the lists before it. */
  lemma {:induction false} DeletedAt(z: Setting, tasks: seq<Task>, moves: seq<Move>)
    requires z == Shift(OLD_NODE, NEW_NODE, 0) && Ready(z, STALE_LISTS)
    requires TasksFit(z, tasks) && Timed(z, moves) && NEW_NODE in Run(z, tasks, STALE_LISTS, moves).lists
    ensures var moved := Run(z, tasks, STALE_LISTS, moves).lists;
      moved[NEW_NODE := Step(Config(1, 0), moved[NEW_NODE], Remove("k")).list] == STALE_LISTS
  {
    RunInvariant(z, tasks, STALE_LISTS, moves);
    var moved := Run(z, tasks, STALE_LISTS, moves).lists;
    OnlyKeyIn(z, moved[OLD_NODE], OLD_NODE);
    OnlyKeyIn(z, moved[NEW_NODE], NEW_NODE);
    SourceUnaltered(z, STALE_LISTS, moved, "k");
    FilterNone(moved[NEW_NODE], NotKey("k"));
    assert moved[OLD_NODE] == [STALE];
  }

  /** Nothing but "k" is ever stored. */
  lemma {:induction false} OnlyKeyIn(z: Setting, s: seq<Entry>, a: Address)
    requires z == Shift(OLD_NODE, NEW_NODE, 0) && a in STALE_LISTS && UniqueKeys(s)
    requires forall e :: e in s ==> Welcome(z, STALE_LISTS, a, e.key)
    ensures s == [] || (|s| == 1 && s[0].key == "k")
  {
    KeysWithin(s, {"k"});
  }

  // ----- runs that lose data

  /** Both nodes again, each with room for one entry and no default lifetime, in a window of 3 s. */
  function Moving(): Setting {
    Shift(OLD_NODE, NEW_NODE, 0).(end := 3 * TICKS_PER_SECOND)
  }

  const MOVING_TASKS: seq<Task> := [Task(OLD_NODE, NEW_NODE, {"k"})]

  /** An entry that outlives the window by half a second. */
  const SHORT := Entry("k", "v", Some(3_500_000_000))

  const SHORT_LISTS: Lists := map[OLD_NODE := [SHORT], NEW_NODE := []]

  lemma {:induction false} ShortPlaced()
    ensures Placed(Moving(), SHORT_LISTS)
  {
    forall a | a in SHORT_LISTS
      ensures a in Moving().cfg && Moving().cfg[a] == Config(1, 0) && WellFormed(Moving().cfg[a], SHORT_LISTS[a])
    {
    }
  }

  lemma {:induction false} ShortFits(a: Address)
    requires a in SHORT_LISTS
    ensures |Needed(Moving(), SHORT_LISTS, a)| <= 1
  {
    forall k | k in Needed(Moving(), SHORT_LISTS, a)
      ensures k == "k"
    {
      NeededExact(Moving(), SHORT_LISTS, a, k);
      if Find(SHORT_LISTS[a], k).Some? {
        ShortKey(a, k);
      }
    }
    SubsetSize(Needed(Moving(), SHORT_LISTS, a), {"k"});
  }

  lemma {:induction false} ShortReady()
    ensures Ready(Moving(), SHORT_LISTS)
  {
    ShortPlaced();
    forall a | a in SHORT_LISTS
      ensures |Needed(Moving(), SHORT_LISTS, a)| <= Moving().cfg[a].capacity
    {
      ShortFits(a);
    }
  }

  lemma ShortKey(a: Address, k: Key)
    requires a in SHORT_LISTS && Find(SHORT_LISTS[a], k).Some?
    ensures k == "k"
  {
  }

  /** A run in which every batch succeeds and the key is lost: its entry is live until 3.5 s, and at
      3 s the new owner does not answer. */
  lemma {:induction false} ShortKeyLost() returns (moves: seq<Move>)
    ensures var w := Run(Moving(), MOVING_TASKS, SHORT_LISTS, moves);
      && Timed(Moving(), moves) && AllFinished(w) && NEW_NODE in w.lists
      && Seen(SHORT_LISTS[OLD_NODE], "k", 3 * TICKS_PER_SECOND) == Some("v")
      && Seen(w.lists[NEW_NODE], "k", 3 * TICKS_PER_SECOND).None?
  {
    ShortReady();
    assert Source(Moving(), SHORT_LISTS, "k") == Some(SHORT);
    assert "k" in MOVING_TASKS[0].keys;
    moves := LosingSchedule(Moving(), MOVING_TASKS, SHORT_LISTS, "k");
  }

  const LASTING := Entry("k", "v", None)
  const SETTLED := Entry("x", "w", None)
  const FULL_LISTS: Lists := map[OLD_NODE := [LASTING], NEW_NODE := [SETTLED]]

  /** A run in which every batch succeeds and a key is lost for want of room: the new owner can hold
      one entry and has one. */
  lemma {:induction false} CrowdedOut() returns (moves: seq<Move>)
    ensures var w := Run(Moving(), MOVING_TASKS, FULL_LISTS, moves);
      && Timed(Moving(), moves) && AllFinished(w) && NEW_NODE in w.lists
      && Seen(FULL_LISTS[OLD_NODE], "k", 0) == Some("v") && Seen(FULL_LISTS[NEW_NODE], "x", 0) == Some("w")
      && (Seen(w.lists[NEW_NODE], "k", 3 * TICKS_PER_SECOND).None?
          || Seen(w.lists[NEW_NODE], "x", 3 * TICKS_PER_SECOND).None?)
  {
    var z := Moving();
    FullPlaced();
    moves := CompleteSchedule(z, MOVING_TASKS, FULL_LISTS, 0, 1);
    RunWellFormed(z, MOVING_TASKS, FULL_LISTS, moves);
    var after := Run(z, MOVING_TASKS, FULL_LISTS, moves).lists;
    if Seen(after[NEW_NODE], "k", z.end).Some? && Seen(after[NEW_NODE], "x", z.end).Some? {
      TwoStored(after[NEW_NODE], "k", "x");
      assert false;
    }
  }

  lemma {:induction false} FullPlaced()
    ensures Placed(Moving(), FULL_LISTS)
  {
    forall a | a in FULL_LISTS
      ensures a in Moving().cfg && Moving().cfg[a] == Config(1, 0) && WellFormed(Moving().cfg[a], FULL_LISTS[a])
    {
    }
  }

  lemma {:induction false} TwoStored(s: seq<Entry>, k: Key, x: Key)
    requires k != x && Find(s, k).Some? && Find(s, x).Some?
    ensures |s| >= 2
  {
    assert Find(s, k).value in s && Find(s, x).value in s;
  }
}
