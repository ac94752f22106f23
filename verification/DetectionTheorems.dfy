/** The failure detector characterised by its event trace, and how long detection takes. */
module DetectionTheorems {
  import opened Options
  import opened Sequences
  import opened RingModel
  import opened ClusterModel

  // ----- what a trace says about one node, without the manager

  /** Index of the registration in force, or -1 if the node is not registered. */
  function RegisteredAt(events: seq<Event>, id: Node): (i: int)
    ensures -1 <= i < |events|
  {
    if events == [] then -1
    else
      var n := |events| - 1;
      match events[n]
      case Registered(m, _) => if m == id then n else RegisteredAt(events[..n], id)
      case Deregistered(m) => if m == id then -1 else RegisteredAt(events[..n], id)
      case Beat(_, _) => RegisteredAt(events[..n], id)
      case Scanned(_) => RegisteredAt(events[..n], id)
  }

  /** Time of the last heartbeat or registration of the node. */
  function LastBeat(events: seq<Event>, id: Node): real {
    if events == [] then 0.0
    else
      var n := |events| - 1;
      match events[n]
      case Registered(m, t) => if m == id then t else LastBeat(events[..n], id)
      case Deregistered(_) => LastBeat(events[..n], id)
      case Beat(m, t) => if m == id then t else LastBeat(events[..n], id)
      case Scanned(_) => LastBeat(events[..n], id)
  }

  /** Scans since the last heartbeat or registration that came later than the timeout after it. */
  function LateScans(timeout: real, events: seq<Event>, id: Node): nat {
    if events == [] then 0
    else
      var n := |events| - 1;
      match events[n]
      case Registered(m, _) => if m == id then 0 else LateScans(timeout, events[..n], id)
      case Deregistered(_) => LateScans(timeout, events[..n], id)
      case Beat(m, _) => if m == id then 0 else LateScans(timeout, events[..n], id)
      case Scanned(t) =>
        LateScans(timeout, events[..n], id) + if t - LastBeat(events[..n], id) > timeout then 1 else 0
  }

  /** The node has had three late scans at some moment since its registration. */
  predicate EverDead(timeout: real, events: seq<Event>, id: Node) {
    if events == [] then false
    else
      var n := |events| - 1;
      if events[n].Registered? && events[n].id == id then false
      else EverDead(timeout, events[..n], id) || LateScans(timeout, events, id) >= DEAD_THRESHOLD
  }

  /** The same, by naming the moment. */
  ghost predicate WasDead(timeout: real, events: seq<Event>, id: Node) {
    exists n :: RegisteredAt(events, id) < n <= |events| && LateScans(timeout, events[..n], id) >= DEAD_THRESHOLD
  }

  lemma {:induction false} EverDeadNamesMoment(timeout: real, events: seq<Event>, id: Node)
    requires RegisteredAt(events, id) >= 0
    ensures EverDead(timeout, events, id) <==> WasDead(timeout, events, id)
  {
    var k := |events| - 1;
    assert events[..|events|] == events;
    if !(events[k].Registered? && events[k].id == id) {
      EverDeadNamesMoment(timeout, events[..k], id);
      forall n | 0 <= n <= k
        ensures events[..k][..n] == events[..n]
      {
      }
      if WasDead(timeout, events[..k], id) {
        var n :| RegisteredAt(events, id) < n <= k && LateScans(timeout, events[..k][..n], id) >= DEAD_THRESHOLD;
        assert LateScans(timeout, events[..n], id) >= DEAD_THRESHOLD;
      }
    }
  }

  ghost function ExpectedStatus(timeout: real, events: seq<Event>, id: Node): Status {
    if LateScans(timeout, events, id) >= DEAD_THRESHOLD then Dead
    else if EverDead(timeout, events, id) then Recovered
    else if LateScans(timeout, events, id) >= 1 then Suspect
    else Alive
  }

  /** The manager's record of a node, read off the trace. */
  ghost function Expected(timeout: real, events: seq<Event>, id: Node): Option<Member> {
    if RegisteredAt(events, id) < 0 then None
    else Some(Member(ExpectedStatus(timeout, events, id), LastBeat(events, id),
                     Min(DEAD_THRESHOLD, LateScans(timeout, events, id))))
  }

  function Record(c: Cluster, id: Node): Option<Member> {
    if id in c.members then Some(c.members[id]) else None
  }

  /** What an event does to one node, seen alone. */
  function Follow(env: Env, m: Option<Member>, e: Event, id: Node): Option<Member> {
    match e
    case Registered(n, t) => if n == id then Some(Member(Alive, t, 0)) else m
    case Deregistered(n) => if n == id then None else m
    case Beat(n, t) => if n == id && m.Some? then Some(Member(Revived(m.value.status), t, 0)) else m
    case Scanned(t) => if m.Some? && Overdue(env, m.value, t) then Some(Missed(m.value)) else m
  }

  /** Nodes are judged independently of each other. */
  lemma HandleFollows(env: Env, c: Cluster, e: Event, id: Node)
    requires Tabled(c)
    ensures Record(Handle(env, c, e), id) == Follow(env, Record(c, id), e, id)
  {
    if e.Scanned? {
      ScanMembers(env, c, e.at, id);
    }
  }

  /** The trace functions advance as the manager does. */
  lemma ExpectedFollows(env: Env, events: seq<Event>, id: Node)
    requires events != []
    ensures Expected(env.timeout, events, id) ==
      Follow(env, Expected(env.timeout, events[..|events| - 1], id), events[|events| - 1], id)
  {
    var init := events[..|events| - 1];
    LateMeansDead(env.timeout, init, id);
    match events[|events| - 1]
    case Registered(n, t) =>
    case Deregistered(n) =>
    case Beat(n, t) =>
    case Scanned(t) =>
  }

  lemma LateMeansDead(timeout: real, events: seq<Event>, id: Node)
    ensures LateScans(timeout, events, id) >= DEAD_THRESHOLD ==> EverDead(timeout, events, id)
  {
  }

  /** Over every run, whatever the clock readings, the manager's record of a node is exactly what
      the trace says: the capped number of late scans, and a status determined by it and by
      whether the node has been dead since its registration. */
  lemma {:induction false} DetectorCharacterised(env: Env, events: seq<Event>, id: Node)
    ensures Record(Run(env, events), id) == Expected(env.timeout, events, id)
  {
    if events != [] {
      var n := |events| - 1;
      DetectorCharacterised(env, events[..n], id);
      RunTabled(env, events[..n]);
      HandleFollows(env, Run(env, events[..n]), events[n], id);
      ExpectedFollows(env, events, id);
    }
  }

  /** A heartbeat brings a registered node back to ALIVE exactly when it has not been dead since
      its registration; a recovered node stays RECOVERED until it registers again. */
  lemma HeartbeatRevivesIff(env: Env, events: seq<Event>, id: Node, now: real)
    requires id in Run(env, events).members
    ensures var before := Run(env, events).members[id].status;
      var after := Run(env, events + [Beat(id, now)]).members;
      && id in after
      && (after[id].status == Alive <==> before == Alive || before == Suspect)
      && (after[id].status == Alive <==> !WasDead(env.timeout, events, id))
  {
    var longer := events + [Beat(id, now)];
    assert longer[..|longer| - 1] == events;
    DetectorCharacterised(env, events, id);
    DetectorCharacterised(env, longer, id);
    EverDeadNamesMoment(env.timeout, events, id);
    LateMeansDead(env.timeout, events, id);
  }

  /** A run against the documentation: the node "n" registers, three scans come late, it sends a
      heartbeat and one more. */
  const RECOVERY: seq<Event> := [
    Registered("n", 0.0), Scanned(16.0), Scanned(19.0), Scanned(22.0), Beat("n", 23.0), Beat("n", 28.0)]

  /** The node was DEAD, is RECOVERED and not ALIVE after both heartbeats, and no key is routed to it. */
  lemma {:induction false} RecoveredStaysOut(hash: string -> int, x: int, rf: int)
    ensures var env := Env(hash, 15.0);
      && Record(Run(env, RECOVERY[..4]), "n") == Some(Member(Dead, 0.0, 3))
      && Record(Run(env, RECOVERY[..5]), "n") == Some(Member(Recovered, 23.0, 0))
      && Record(Run(env, RECOVERY), "n") == Some(Member(Recovered, 28.0, 0))
      && Primary(Run(env, RECOVERY), x).None? && Replicas(Run(env, RECOVERY), x, rf) == []
  {
    var env := Env(hash, 15.0);
    RecoveryCounts();
    RecoveryPrefixes();
    DetectorCharacterised(env, RECOVERY[..4], "n");
    DetectorCharacterised(env, RECOVERY[..5], "n");
    DetectorCharacterised(env, RECOVERY, "n");
    var c := Run(env, RECOVERY);
    RoutedNodesHealthy(env, RECOVERY, 0, 0.0, x, rf);
    forall id
      ensures !Healthy(c, id)
    {
      DetectorCharacterised(env, RECOVERY, id);
      RecoveryRegisters(id);
    }
    var replicas := Replicas(c, x, rf);
    if replicas != [] {
      var first := FirstOf(replicas);
      assert false;
    }
  }

  lemma {:induction false} RecoveryRegisters(id: Node)
    ensures RegisteredAt(RECOVERY, id) >= 0 ==> id == "n"
  {
    RecoveryPrefixes();
    assert RegisteredAt(RECOVERY[..1], id) >= 0 ==> id == "n";
    assert RegisteredAt(RECOVERY[..2], id) == RegisteredAt(RECOVERY[..1], id);
    assert RegisteredAt(RECOVERY[..3], id) == RegisteredAt(RECOVERY[..2], id);
    assert RegisteredAt(RECOVERY[..4], id) == RegisteredAt(RECOVERY[..3], id);
    assert RegisteredAt(RECOVERY[..5], id) == RegisteredAt(RECOVERY[..4], id);
  }

  lemma RecoveryPrefixes()
    ensures RECOVERY[..1][..0] == [] && RECOVERY[..2][..1] == RECOVERY[..1]
    ensures RECOVERY[..3][..2] == RECOVERY[..2] && RECOVERY[..4][..3] == RECOVERY[..3]
    ensures RECOVERY[..5][..4] == RECOVERY[..4] && RECOVERY[..6][..5] == RECOVERY[..5]
    ensures RECOVERY[..6] == RECOVERY && RECOVERY[..|RECOVERY| - 1] == RECOVERY[..5]
  {
  }

  /** What the first `n` events of that run come to. */
  ghost predicate Counts(n: nat, beat: real, late: nat, dead: bool)
    requires n <= |RECOVERY|
  {
    && RegisteredAt(RECOVERY[..n], "n") == 0 && LastBeat(RECOVERY[..n], "n") == beat
    && LateScans(15.0, RECOVERY[..n], "n") == late && EverDead(15.0, RECOVERY[..n], "n") == dead
  }

  lemma {:induction false} RecoveryCounts()
    ensures Counts(4, 0.0, 3, true) && Counts(5, 23.0, 0, true) && Counts(6, 28.0, 0, true)
  {
    RecoveryPrefixes();
    assert Counts(1, 0.0, 0, false);
    assert Counts(2, 0.0, 1, false);
    assert Counts(3, 0.0, 2, false);
  }

  // ----- detection time

  /** No event of the stretch concerns the node itself. */
  ghost predicate Quiet(events: seq<Event>, id: Node) {
    forall i :: 0 <= i < |events| ==> events[i].Scanned? || events[i].id != id
  }

  /** The scan at position `i` of the trace reports the node. */
  ghost predicate Reported(env: Env, events: seq<Event>, i: nat, id: Node)
    requires i < |events|
  {
    events[i].Scanned? && id in NewlyDead(env, Run(env, events[..i]), events[i].at)
  }

  /** The third late scan, and only it, finds the node dying. */
  lemma {:induction false} DyingByTrace(env: Env, events: seq<Event>, id: Node, now: real)
    ensures Dying(env, Run(env, events), id, now) <==>
      && RegisteredAt(events, id) >= 0
      && LateScans(env.timeout, events, id) == DEAD_THRESHOLD - 1
      && now - LastBeat(events, id) > env.timeout
  {
    DetectorCharacterised(env, events, id);
  }

  lemma ScanCounts(timeout: real, events: seq<Event>, i: nat, id: Node)
    requires i < |events| && events[i].Scanned?
    ensures LateScans(timeout, events[..i + 1], id) == LateScans(timeout, events[..i], id)
      + if events[i].at - LastBeat(events[..i], id) > timeout then 1 else 0
  {
    assert events[..i + 1][..i] == events[..i];
  }

  /** A scan reports a registered node exactly when it raises its late scans from two to three. */
  lemma ReportedExactly(env: Env, events: seq<Event>, i: nat, id: Node)
    requires i < |events| && events[i].Scanned?
    ensures Reported(env, events, i, id) <==>
      && RegisteredAt(events[..i], id) >= 0
      && LateScans(env.timeout, events[..i], id) == DEAD_THRESHOLD - 1
      && LateScans(env.timeout, events[..i + 1], id) == DEAD_THRESHOLD
  {
    RunTabled(env, events[..i]);
    DyingByTrace(env, events[..i], id, events[i].at);
    ScanCounts(env.timeout, events, i, id);
  }

  /** How the trace functions run along a quiet stretch. */
  lemma {:induction false} QuietStretch(timeout: real, events: seq<Event>, from: nat, n: nat, id: Node)
    requires from <= n <= |events| && Quiet(events[from..], id)
    ensures RegisteredAt(events[..n], id) == RegisteredAt(events[..from], id)
    ensures LastBeat(events[..n], id) == LastBeat(events[..from], id)
    ensures LateScans(timeout, events[..n], id) >= LateScans(timeout, events[..from], id)
  {
    if n > from {
      QuietStretch(timeout, events, from, n - 1, id);
      assert events[..n][..n - 1] == events[..n - 1];
      assert events[n - 1] == events[from..][n - 1 - from];
    }
  }

  /** Along a quiet stretch late scans only accumulate, so a node is reported at most once. */
  lemma {:induction false} ReportedOnce(env: Env, events: seq<Event>, from: nat, i: nat, j: nat, id: Node)
    requires from <= i < j < |events| && Quiet(events[from..], id)
    requires Reported(env, events, i, id)
    ensures !Reported(env, events, j, id)
  {
    if Reported(env, events, j, id) {
      ReportedExactly(env, events, i, id);
      ReportedExactly(env, events, j, id);
      QuietSuffix(events, from, i + 1, id);
      QuietStretch(env.timeout, events, i + 1, j, id);
    }
  }

  lemma {:induction false} QuietSuffix(events: seq<Event>, from: nat, later: nat, id: Node)
    requires from <= later <= |events| && Quiet(events[from..], id)
    ensures Quiet(events[later..], id)
  {
    forall i | 0 <= i < |events[later..]|
      ensures events[later..][i] == events[from..][i + later - from]
    {
    }
  }

  /** Positions of three consecutive scans of a trace, the first of them the first late one. */
  ghost predicate ThreeScans(events: seq<Event>, from: nat, deadline: real, a: nat, b: nat, c: nat) {
    && from <= a < b < c < |events|
    && events[a].Scanned? && events[b].Scanned? && events[c].Scanned?
    && (forall i :: from <= i < a && events[i].Scanned? ==> events[i].at <= deadline)
    && (forall i :: a < i < c && i != b ==> !events[i].Scanned?)
    && deadline < events[a].at && deadline < events[b].at && deadline < events[c].at
  }

  /** The third late scan after the last heartbeat is the one that reports. */
  lemma ThirdLateScanReports(env: Env, events: seq<Event>, from: nat, a: nat, b: nat, c: nat, id: Node)
    requires from <= |events| && Quiet(events[from..], id)
    requires RegisteredAt(events[..from], id) >= 0 && LateScans(env.timeout, events[..from], id) == 0
    requires ThreeScans(events, from, LastBeat(events[..from], id) + env.timeout, a, b, c)
    ensures Reported(env, events, c, id)
  {
    TwoLateScans(env.timeout, events, from, a, b, c, id);
    ThirdLateScan(env.timeout, events, from, a, b, c, id);
    ReportedExactly(env, events, c, id);
  }

  lemma ThirdLateScan(timeout: real, events: seq<Event>, from: nat, a: nat, b: nat, c: nat, id: Node)
    requires from <= |events| && Quiet(events[from..], id)
    requires ThreeScans(events, from, LastBeat(events[..from], id) + timeout, a, b, c)
    requires LateScans(timeout, events[..b + 1], id) == 2
    ensures LateScans(timeout, events[..c], id) == 2 && LateScans(timeout, events[..c + 1], id) == 3
    ensures RegisteredAt(events[..c], id) == RegisteredAt(events[..from], id)
  {
    StretchThenScan(timeout, events, from, b + 1, c, id);
    QuietStretch(timeout, events, from, c, id);
  }

  lemma TwoLateScans(timeout: real, events: seq<Event>, from: nat, a: nat, b: nat, c: nat, id: Node)
    requires from <= |events| && Quiet(events[from..], id) && LateScans(timeout, events[..from], id) == 0
    requires ThreeScans(events, from, LastBeat(events[..from], id) + timeout, a, b, c)
    ensures LateScans(timeout, events[..b + 1], id) == 2
  {
    StretchThenScan(timeout, events, from, from, a, id);
    StretchThenScan(timeout, events, from, a + 1, b, id);
  }

  /** A stretch without late scans, then a late one. */
  lemma StretchThenScan(timeout: real, events: seq<Event>, from: nat, lo: nat, scan: nat, id: Node)
    requires from <= lo <= scan < |events| && Quiet(events[from..], id) && events[scan].Scanned?
    requires forall i :: lo <= i < scan && events[i].Scanned? ==> events[i].at <= LastBeat(events[..from], id) + timeout
    requires events[scan].at > LastBeat(events[..from], id) + timeout
    ensures LateScans(timeout, events[..scan], id) == LateScans(timeout, events[..lo], id)
    ensures LateScans(timeout, events[..scan + 1], id) == LateScans(timeout, events[..lo], id) + 1
  {
    CountStretch(timeout, events, from, lo, scan, id);
    CountOne(timeout, events, from, scan, id);
  }

  lemma CountOne(timeout: real, events: seq<Event>, from: nat, i: nat, id: Node)
    requires from <= i < |events| && Quiet(events[from..], id) && events[i].Scanned?
    ensures LateScans(timeout, events[..i + 1], id) == LateScans(timeout, events[..i], id)
      + if events[i].at > LastBeat(events[..from], id) + timeout then 1 else 0
  {
    QuietStretch(timeout, events, from, i, id);
    ScanCounts(timeout, events, i, id);
  }

  /** A stretch without late scans leaves the count as it is. */
  lemma {:induction false} CountStretch(timeout: real, events: seq<Event>, from: nat, lo: nat, hi: nat, id: Node)
    requires from <= lo <= hi <= |events| && Quiet(events[from..], id)
    requires forall i :: lo <= i < hi && events[i].Scanned? ==> events[i].at <= LastBeat(events[..from], id) + timeout
    ensures LateScans(timeout, events[..hi], id) == LateScans(timeout, events[..lo], id)
  {
    if lo < hi {
      CountStretch(timeout, events, from, lo, hi - 1, id);
      assert events[..hi][..hi - 1] == events[..hi - 1];
      assert events[hi - 1] == events[from..][hi - 1 - from];
      if events[hi - 1].Scanned? {
        CountOne(timeout, events, from, hi - 1, id);
      }
    }
  }

  /** Scanning goes on: every scan in the stretch is followed, no later than `period` after it,
      by another one, until a scan at `until` or later. The clock does not run backwards. */
  ghost predicate ScansContinue(events: seq<Event>, from: nat, period: real, until: real) {
    forall i {:trigger HasNextScan(events, i, period)} ::
      from <= i < |events| && events[i].Scanned? && events[i].at < until ==> HasNextScan(events, i, period)
  }

  ghost predicate HasNextScan(events: seq<Event>, i: nat, period: real)
    requires i < |events| && events[i].Scanned?
  {
    exists j: nat :: NextScan(events, i, j) && events[i].at <= events[j].at <= events[i].at + period
  }

  ghost predicate NextScan(events: seq<Event>, i: nat, j: nat) {
    i < j < |events| && events[j].Scanned? && forall k :: i < k < j ==> !events[k].Scanned?
  }

  ghost predicate FirstScan(events: seq<Event>, from: nat, j: nat) {
    from <= j < |events| && events[j].Scanned? && forall k :: from <= k < j ==> !events[k].Scanned?
  }

  /** The first late scan comes within one period of the deadline. */
  lemma {:induction false} FirstLate(events: seq<Event>, from: nat, at: nat, deadline: real, period: real,
                                     until: real) returns (a: nat)
    requires from <= at < |events| && events[at].Scanned? && events[at].at <= deadline + period
    requires forall i :: from <= i < at && events[i].Scanned? ==> events[i].at <= deadline
    requires period > 0.0 && until > deadline && ScansContinue(events, from, period, until)
    ensures at <= a < |events| && events[a].Scanned? && deadline < events[a].at <= deadline + period
    ensures forall i :: from <= i < a && events[i].Scanned? ==> events[i].at <= deadline
    decreases |events| - at
  {
    if events[at].at > deadline {
      a := at;
    } else {
      assert HasNextScan(events, at, period);
      var j: nat :| NextScan(events, at, j) && events[at].at <= events[j].at <= events[at].at + period;
      a := FirstLate(events, from, j, deadline, period, until);
    }
  }

  /** Detection bound: a node silent since `t` is reported by exactly one scan of the silent
      stretch, strictly after `t + timeout` and no later than three periods after that, provided
      scanning started in time and continues that long. */
  lemma DetectionBound(env: Env, events: seq<Event>, from: nat, first: nat, period: real, id: Node) returns (c: nat)
    requires from <= |events| && Quiet(events[from..], id) && period > 0.0
    requires RegisteredAt(events[..from], id) >= 0 && LateScans(env.timeout, events[..from], id) == 0
    requires var deadline := LastBeat(events[..from], id) + env.timeout;
      && FirstScan(events, from, first) && events[first].at <= deadline + period
      && ScansContinue(events, from, period, deadline + 3.0 * period)
    ensures from <= c < |events| && Reported(env, events, c, id)
    ensures var deadline := LastBeat(events[..from], id) + env.timeout;
      deadline < events[c].at <= deadline + 3.0 * period
    ensures forall j :: from <= j < |events| && j != c ==> !Reported(env, events, j, id)
  {
    var deadline := LastBeat(events[..from], id) + env.timeout;
    var until := deadline + 3.0 * period;
    var a := FirstLate(events, from, first, deadline, period, until);
    assert HasNextScan(events, a, period);
    var b: nat :| NextScan(events, a, b) && events[a].at <= events[b].at <= events[a].at + period;
    assert HasNextScan(events, b, period);
    c :| NextScan(events, b, c) && events[b].at <= events[c].at <= events[b].at + period;
    assert ThreeScans(events, from, deadline, a, b, c);
    ThirdLateScanReports(env, events, from, a, b, c, id);
    forall j | from <= j < |events| && j != c
      ensures !Reported(env, events, j, id)
    {
      if j < c && Reported(env, events, j, id) {
        ReportedOnce(env, events, from, j, c, id);
      } else if c < j {
        ReportedOnce(env, events, from, c, j, id);
      }
    }
  }
}
