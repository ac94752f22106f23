/** Migration of keys between nodes as a concurrent step system, and its theorems. Batches take
    their steps in any interleaving; a batch may fail at any step. */
module RebalanceModel {
  import opened Options
  import opened Sequences
  import opened LruModel

  /** Host and port. */
  type Address = (string, int)
  type Lists = map<Address, seq<Entry>>

  /** What stays fixed during a rebalance: which keys change owner, where each is read from and
      written to, the configuration of every node, and the time window. */
  datatype Setting = Setting(moved: Key -> bool, home: Key -> Address, dest: Key -> Address,
                             cfg: map<Address, Config>, start: Time, end: Time)

  /** One batch: keys to copy from one node to another. */
  datatype Task = Task(source: Address, target: Address, keys: set<Key>)

  datatype Progress = Waiting | Sending(rest: seq<Export>) | Finished | Aborted

  datatype World = World(lists: Lists, progress: seq<Progress>)

  /** A batch takes its snapshot, sends one entry (or notices there is none left), or fails. In
      between, nodes may answer reads and purge expired entries. */
  datatype Move =
    | Snap(task: nat, now: Time)
    | Load(task: nat, now: Time)
    | Abort(task: nat)
    | Serve(node: Address, key: Key, now: Time)
    | Sweep(node: Address, now: Time)

  function KeySet(keys: seq<Key>): set<Key> {
    set k | k in keys
  }

  function Among(keys: set<Key>): Export -> bool {
    (x: Export) => x.key in keys
  }

  /** The snapshot of a node, filtered to the keys of a batch. */
  function Wanted(s: seq<Entry>, keys: set<Key>, now: Time): seq<Export> {
    Filter(Snapshot(s, now), Among(keys))
  }

  /** What a read or a purge does to a node's list. */
  function Tended(z: Setting, lists: Lists, a: Address, op: Op): Lists {
    if a in lists && a in z.cfg then lists[a := Step(z.cfg[a], lists[a], op).list] else lists
  }

  function Next(z: Setting, tasks: seq<Task>, w: World, move: Move): World {
    match move
    case Serve(a, k, now) => w.(lists := Tended(z, w.lists, a, Get(k, now)))
    case Sweep(a, now) => w.(lists := Tended(z, w.lists, a, Purge(now)))
    case Snap(i, now) =>
      if i < |tasks| && i < |w.progress| && w.progress[i] == Waiting && tasks[i].source in w.lists
      then w.(progress := w.progress[i := Sending(Wanted(w.lists[tasks[i].source], tasks[i].keys, now))])
      else w
    case Load(i, now) =>
      if i < |tasks| && i < |w.progress| && w.progress[i].Sending? then Loading(z, tasks[i].target, w, i, now) else w
    case Abort(i) =>
      if i < |tasks| && i < |w.progress| then w.(progress := w.progress[i := Aborted]) else w
  }

  /** Batch `i` sends its next entry to `a`, or is done. */
  function Loading(z: Setting, a: Address, w: World, i: nat, now: Time): World
    requires i < |w.progress| && w.progress[i].Sending?
  {
    var rest := w.progress[i].rest;
    if rest == [] then w.(progress := w.progress[i := Finished])
    else if a in w.lists && a in z.cfg then
      World(w.lists[a := Insert(z.cfg[a], w.lists[a], Loaded(z.cfg[a], rest[0], now))],
            w.progress[i := Sending(rest[1..])])
    else w
  }

  function Start(lists: Lists, tasks: seq<Task>): World {
    World(lists, seq(|tasks|, _ => Waiting))
  }

  function Continue(z: Setting, tasks: seq<Task>, w: World, moves: seq<Move>): World {
    if moves == [] then w
    else Next(z, tasks, Continue(z, tasks, w, moves[..|moves| - 1]), moves[|moves| - 1])
  }

  /** The world after a schedule of moves. */
  function Run(z: Setting, tasks: seq<Task>, lists: Lists, moves: seq<Move>): World {
    Continue(z, tasks, Start(lists, tasks), moves)
  }

  // ----- the hypotheses

  /** Every batch moves keys from where they are read to where they belong. */
  ghost predicate TasksFit(z: Setting, tasks: seq<Task>) {
    forall i, k :: 0 <= i < |tasks| && k in tasks[i].keys ==>
      z.moved(k) && z.home(k) == tasks[i].source && z.dest(k) == tasks[i].target
  }

  /** Clock readings lie in the window and do not decrease. */
  ghost predicate Timed(z: Setting, moves: seq<Move>) {
    && (forall i :: 0 <= i < |moves| && !moves[i].Abort? ==> z.start <= moves[i].now <= z.end)
    && (forall i, j :: 0 <= i < j < |moves| && !moves[i].Abort? && !moves[j].Abort? ==> moves[i].now <= moves[j].now)
  }

  /** The entry a moved key is copied from: its old owner's, if that is live when the window opens. */
  function Source(z: Setting, lists: Lists, k: Key): Option<Entry> {
    if !z.moved(k) || z.home(k) !in lists then None
    else
      var e := Find(lists[z.home(k)], k);
      if e.Some? && !Expired(e.value, z.start) then e else None
  }

  /** The key has something to bring to the node. */
  predicate Comes(z: Setting, lists: Lists, a: Address, k: Key) {
    Source(z, lists, k).Some? && z.dest(k) == a
  }

  ghost function Incoming(z: Setting, lists: Lists, a: Address): set<Key> {
    set b, e | b in lists && e in lists[b] && Source(z, lists, e.key) == Some(e) && z.dest(e.key) == a :: e.key
  }

  /** All keys that want room on a node: what it holds and what comes. */
  ghost function Needed(z: Setting, lists: Lists, a: Address): set<Key>
    requires a in lists
  {
    Keys(lists[a]) + Incoming(z, lists, a)
  }

  lemma {:induction false} NeededExact(z: Setting, lists: Lists, a: Address, k: Key)
    requires a in lists
    ensures k in Needed(z, lists, a) <==> Find(lists[a], k).Some? || Comes(z, lists, a, k)
  {
    if Comes(z, lists, a, k) {
      var e := Source(z, lists, k).value;
      assert z.home(k) in lists && e in lists[z.home(k)] && e.key == k;
    }
  }

  /** All nodes are reachable and well formed, and no key moves onto its own source. */
  ghost predicate Placed(z: Setting, lists: Lists) {
    && z.start <= z.end
    && lists.Keys == z.cfg.Keys
    && (forall a :: a in lists ==> z.cfg[a].capacity > 0 && WellFormed(z.cfg[a], lists[a]))
    && (forall k :: Source(z, lists, k).Some? ==> z.dest(k) in lists && z.home(k) != z.dest(k))
  }

  /** Every node has room for what it holds and what comes. */
  ghost predicate Room(z: Setting, lists: Lists) {
    forall a {:trigger Needed(z, lists, a)} :: a in lists ==> a in z.cfg && |Needed(z, lists, a)| <= z.cfg[a].capacity
  }

  ghost predicate Ready(z: Setting, lists: Lists) {
    Placed(z, lists) && Room(z, lists)
  }

  /** The entry outlives the window. */
  predicate Lasting(z: Setting, e: Entry) {
    !Expired(e, z.end)
  }

  /** The entry's lifetime, counted from the start of the window, could have been granted by a put. */
  predicate Grantable(z: Setting, e: Entry) {
    e.expires.Some? ==> e.expires.value < z.start + TWO_TO_THE_32 * TICKS_PER_SECOND
  }

  /** Truncation to whole seconds cannot cost the copy its life within the window: the entry outlives
      it by a second, or the window is shorter than a second; and if the entry has no expiry, neither
      does the target's default lifetime end in the window. */
  predicate Safe(z: Setting, cfg: Config, e: Entry) {
    match e.expires
    case None => cfg.defaultTtl == 0 || z.end - z.start < cfg.defaultTtl * TICKS_PER_SECOND
    case Some(x) => x >= z.end + TICKS_PER_SECOND || z.end - z.start < TICKS_PER_SECOND
  }

  // ----- lookups after list operations

  /** With room, an insertion changes the lookup of its own key only. */
  lemma FindInsert(cfg: Config, s: seq<Entry>, e: Entry, k: Key)
    requires Find(s, e.key).Some? || |s| < cfg.capacity
    ensures Find(Insert(cfg, s, e), k) == if k == e.key then Some(e) else Find(s, k)
  {
    FindDrop(s, e.key, k);
    assert ([e] + Drop(s, e.key))[1..] == Drop(s, e.key);
    assert ([e] + s)[1..] == s;
  }

  /** A list whose keys lie in `bound` has room for another key of `bound`. */
  lemma RoomInBound(s: seq<Entry>, bound: set<Key>, k: Key)
    requires UniqueKeys(s) && (forall e :: e in s ==> e.key in bound)
    requires k in bound && Find(s, k).None?
    ensures |s| < |bound|
  {
    KeysWithin(s, bound - {k});
  }

  // ----- how long a copy lives

  /** The copy of an entry exported at `s` and loaded at `l`. */
  function CopyAt(cfg: Config, e: Entry, s: Time, l: Time): Entry {
    Loaded(cfg, ExportOf(e, s), l)
  }

  /** A safe entry's copy is readable at the end of the window, whenever exported and loaded. */
  lemma {:induction false} SafeCopyLasts(z: Setting, cfg: Config, e: Entry, s: Time, l: Time)
    requires Lasting(z, e) && Grantable(z, e) && Safe(z, cfg, e) && z.start <= s <= l <= z.end
    ensures !Expired(CopyAt(cfg, e, s, l), z.end)
  {
    if e.expires.Some? {
      var left := e.expires.value - s;
      var secs := left / TICKS_PER_SECOND;
      assert 0 <= secs < TWO_TO_THE_32 && left - TICKS_PER_SECOND < secs * TICKS_PER_SECOND <= left;
    }
  }

  /** When the copy of an entry that is not safe is made to die soonest. */
  function Worst(z: Setting, cfg: Config, e: Entry): Time {
    z.end - if e.expires.Some? then TICKS_PER_SECOND else cfg.defaultTtl * TICKS_PER_SECOND
  }

  /** An unsafe entry's copy, exported and loaded at the worst moment, is expired at the end of the
      window, although the entry itself is not, and the copy was live when it was made. */
  lemma {:induction false} UnsafeCopyDies(z: Setting, cfg: Config, e: Entry)
    requires Lasting(z, e) && Grantable(z, e) && !Safe(z, cfg, e)
    ensures var t := Worst(z, cfg, e);
      z.start <= t <= z.end && !Expired(CopyAt(cfg, e, t, t), t) && Expired(CopyAt(cfg, e, t, t), z.end)
  {
    if e.expires.Some? {
      var left := e.expires.value - Worst(z, cfg, e);
      assert TICKS_PER_SECOND < left < 2 * TICKS_PER_SECOND;
      assert left / TICKS_PER_SECOND == 1;
    }
  }
}
