/** The circuit breaker of one node on values, and theorems about all its runs. */
module BreakerModel {
  datatype BreakerState = Closed | Open | HalfOpen

  datatype Circuit = Circuit(state: BreakerState, failures: nat, lastFailure: real, lastSuccess: real)

  datatype Settings = Settings(threshold: int, timeout: real)

  /** Calls on one node, each with its clock reading. `Query` is `is_available`. */
  datatype Call = Success(at: real) | Failure(at: real) | Query(at: real)

  function Fresh(now: real): Circuit {
    Circuit(Closed, 0, now, now)
  }

  predicate CooledDown(cfg: Settings, c: Circuit, now: real) {
    now - c.lastFailure >= cfg.timeout
  }

  function After(cfg: Settings, c: Circuit, call: Call): Circuit {
    match call
    case Success(now) => c.(state := Closed, failures := 0, lastSuccess := now)
    case Failure(now) =>
      c.(failures := c.failures + 1, lastFailure := now,
         state := if c.failures + 1 >= cfg.threshold then Open else c.state)
    case Query(now) =>
      if c.state == Open && CooledDown(cfg, c, now) then c.(state := HalfOpen, failures := 0) else c
  }

  predicate Available(cfg: Settings, c: Circuit, now: real) {
    c.state != Open || CooledDown(cfg, c, now)
  }

  /** A circuit created at `born` after the given calls. */
  function Run(cfg: Settings, born: real, calls: seq<Call>): Circuit {
    if calls == [] then Fresh(born)
    else After(cfg, Run(cfg, born, calls[..|calls| - 1]), calls[|calls| - 1])
  }

  // ----- what a trace says, without the circuit

  /** Time of the last failure, or of creation. */
  function LastFailure(born: real, calls: seq<Call>): real {
    if calls == [] then born
    else
      var last := calls[|calls| - 1];
      if last.Failure? then last.at else LastFailure(born, calls[..|calls| - 1])
  }

  /** Time of the last success, or of creation. */
  function LastSuccess(born: real, calls: seq<Call>): real {
    if calls == [] then born
    else
      var last := calls[|calls| - 1];
      if last.Success? then last.at else LastSuccess(born, calls[..|calls| - 1])
  }

  /** How many failures in a row open a circuit. A failure is counted before the count is compared with
      the threshold, so one below 1 acts as 1. */
  function Full(cfg: Settings): nat {
    if cfg.threshold < 1 then 1 else cfg.threshold
  }

  /** Failures since the last success or the last cooled-down query of a full streak. */
  function Streak(cfg: Settings, born: real, calls: seq<Call>): nat
    decreases |calls|, 0
  {
    if calls == [] then 0
    else
      var init, last := calls[..|calls| - 1], calls[|calls| - 1];
      match last
      case Success(_) => 0
      case Failure(_) => Streak(cfg, born, init) + 1
      case Query(_) => if Trips(cfg, born, init, last) then 0 else Streak(cfg, born, init)
  }

  /** The call, made after `init`, starts a half-open period. */
  predicate Trips(cfg: Settings, born: real, init: seq<Call>, call: Call)
    decreases |init|, 1
  {
    && call.Query?
    && Streak(cfg, born, init) >= Full(cfg)
    && call.at - LastFailure(born, init) >= cfg.timeout
  }

  /** The latest success or trip was a trip. */
  predicate Probing(cfg: Settings, born: real, calls: seq<Call>) {
    if calls == [] then false
    else
      var init, last := calls[..|calls| - 1], calls[|calls| - 1];
      if last.Success? then false
      else if Trips(cfg, born, init, last) then true
      else Probing(cfg, born, init)
  }

  /** Over every run the circuit is what the trace says: open exactly while the current streak
      is full, otherwise half-open exactly after a trip. */
  lemma {:induction false} BreakerCharacterised(cfg: Settings, born: real, calls: seq<Call>)
    ensures var c := Run(cfg, born, calls);
      && c.failures == Streak(cfg, born, calls)
      && c.lastFailure == LastFailure(born, calls) && c.lastSuccess == LastSuccess(born, calls)
      && c.state == (if Streak(cfg, born, calls) >= Full(cfg) then Open
                     else if Probing(cfg, born, calls) then HalfOpen else Closed)
  {
    if calls != [] {
      BreakerCharacterised(cfg, born, calls[..|calls| - 1]);
    }
  }

  /** A request is refused exactly while a full streak is younger than the timeout. */
  lemma RefusedExactly(cfg: Settings, born: real, calls: seq<Call>, now: real)
    ensures !Available(cfg, Run(cfg, born, calls), now) <==>
      Streak(cfg, born, calls) >= Full(cfg) && now - LastFailure(born, calls) < cfg.timeout
  {
    BreakerCharacterised(cfg, born, calls);
  }

  ghost predicate OpenMeansFull(cfg: Settings, c: Circuit) {
    c.state == Open <==> c.failures >= cfg.threshold
  }

  /** "Open exactly at the threshold" holds over all runs exactly for thresholds of at least 1;
      with a smaller one a fresh circuit already breaks it. */
  lemma OpenMeansFullIff(cfg: Settings)
    ensures (forall born, calls :: OpenMeansFull(cfg, Run(cfg, born, calls))) <==> cfg.threshold >= 1
  {
    if cfg.threshold >= 1 {
      forall born, calls
        ensures OpenMeansFull(cfg, Run(cfg, born, calls))
      {
        BreakerCharacterised(cfg, born, calls);
      }
    } else {
      assert Run(cfg, 0.0, []) == Fresh(0.0);
      assert !OpenMeansFull(cfg, Run(cfg, 0.0, []));
    }
  }

  function Failures(calls: seq<Call>): nat {
    if calls == [] then 0 else Failures(calls[..|calls| - 1]) + if calls[|calls| - 1].Failure? then 1 else 0
  }

  /** From position `from` on there is neither a success nor a trip. */
  ghost predicate Unbroken(cfg: Settings, born: real, calls: seq<Call>, from: nat) {
    forall i :: from <= i < |calls| ==> !calls[i].Success? && !Trips(cfg, born, calls[..i], calls[i])
  }

  /** The streak counts the failures of an unbroken stretch at the end of the trace. */
  lemma {:induction false} StreakWindow(cfg: Settings, born: real, calls: seq<Call>) returns (from: nat)
    ensures from <= |calls| && Unbroken(cfg, born, calls, from)
    ensures Failures(calls[from..]) == Streak(cfg, born, calls)
  {
    if calls == [] {
      from := 0;
    } else {
      var n := |calls| - 1;
      if calls[n].Success? || Trips(cfg, born, calls[..n], calls[n]) {
        from := |calls|;
      } else {
        from := StreakWindow(cfg, born, calls[..n]);
        assert calls[from..][..|calls[from..]| - 1] == calls[..n][from..];
        forall i | from <= i < |calls|
          ensures !calls[i].Success? && !Trips(cfg, born, calls[..i], calls[i])
        {
          if i < n {
            assert calls[..n][..i] == calls[..i];
          }
        }
      }
    }
  }

  /** Without a success or a trip the streak only grows: it has at least the failures of the stretch. */
  lemma {:induction false} StreakAtLeast(cfg: Settings, born: real, calls: seq<Call>, from: nat)
    requires from <= |calls| && Unbroken(cfg, born, calls, from)
    ensures Streak(cfg, born, calls) >= Failures(calls[from..])
  {
    if from < |calls| {
      var n := |calls| - 1;
      forall i | from <= i < n
        ensures calls[..n][..i] == calls[..i]
      {
      }
      StreakAtLeast(cfg, born, calls[..n], from);
      assert calls[from..][..|calls[from..]| - 1] == calls[..n][from..];
    }
  }

  /** Every entry into OPEN ends a stretch with exactly `threshold` failures, or one if that is
      below 1, and with no success and no half-open transition in it. */
  lemma OpeningNeedsFailures(cfg: Settings, born: real, calls: seq<Call>) returns (from: nat)
    requires calls != []
    requires Run(cfg, born, calls).state == Open && Run(cfg, born, calls[..|calls| - 1]).state != Open
    ensures from < |calls| && calls[|calls| - 1].Failure?
    ensures Unbroken(cfg, born, calls, from) && Failures(calls[from..]) == Full(cfg)
  {
    BreakerCharacterised(cfg, born, calls);
    BreakerCharacterised(cfg, born, calls[..|calls| - 1]);
    from := StreakWindow(cfg, born, calls);
  }

  // ----- opening by force, and failing fast

  /** `count` failures in a row at the same time. */
  function Fail(cfg: Settings, c: Circuit, now: real, count: nat): Circuit {
    if count == 0 then c else After(cfg, Fail(cfg, c, now, count - 1), Failure(now))
  }

  lemma {:induction false} FailCounts(cfg: Settings, c: Circuit, now: real, count: nat)
    ensures var f := Fail(cfg, c, now, count);
      && f.failures == c.failures + count
      && (count > 0 ==> f.lastFailure == now)
      && f.state == (if count > 0 && c.failures + count >= cfg.threshold then Open else c.state)
  {
    if count > 0 {
      FailCounts(cfg, c, now, count - 1);
    }
  }

  /** How many failures the detection loop records: `range(threshold)`. */
  function Burst(cfg: Settings): nat {
    if cfg.threshold < 0 then 0 else cfg.threshold
  }

  /** Whatever the circuit was, recording `threshold` failures opens it exactly when the
      threshold is at least 1 or it was open already. */
  lemma BurstOpens(cfg: Settings, c: Circuit, now: real)
    ensures Fail(cfg, c, now, Burst(cfg)).state == Open <==> cfg.threshold >= 1 || c.state == Open
  {
    FailCounts(cfg, c, now, Burst(cfg));
  }

  function Continue(cfg: Settings, c: Circuit, calls: seq<Call>): Circuit {
    if calls == [] then c else After(cfg, Continue(cfg, c, calls[..|calls| - 1]), calls[|calls| - 1])
  }

  /** Fail-fast: from an open circuit, without a success and before the timeout has passed since
      the opening failure, every query is refused, whatever other failures and queries happen. */
  lemma {:induction false} OpenRefuses(cfg: Settings, c: Circuit, calls: seq<Call>, now: real)
    requires c.state == Open
    requires forall i :: 0 <= i < |calls| ==>
      !calls[i].Success? && c.lastFailure <= calls[i].at && calls[i].at - c.lastFailure < cfg.timeout
    requires now - c.lastFailure < cfg.timeout
    ensures var d := Continue(cfg, c, calls);
      d.state == Open && d.lastFailure >= c.lastFailure && !Available(cfg, d, now)
  {
    if calls != [] {
      var n := |calls| - 1;
      assert calls[n].at - c.lastFailure < cfg.timeout;
      OpenRefuses(cfg, c, calls[..n], calls[n].at);
    }
  }

  /** The circuit is half-open at the beginning and after every call. */
  ghost predicate StaysHalfOpen(cfg: Settings, c: Circuit, calls: seq<Call>) {
    forall n :: 0 <= n <= |calls| ==> HalfOpenAt(cfg, c, calls, n)
  }

  /** The circuit is half-open after the first `n` calls. */
  predicate HalfOpenAt(cfg: Settings, c: Circuit, calls: seq<Call>, n: nat)
    requires n <= |calls|
  {
    Continue(cfg, c, calls[..n]).state == HalfOpen
  }

  /** No call is a success, and no failure brings the count to the threshold. */
  ghost predicate Inconclusive(cfg: Settings, c: Circuit, calls: seq<Call>) {
    forall i :: 0 <= i < |calls| ==> !Settles(cfg, c, calls, i)
  }

  /** The call is a success, or a failure that brings the count to the threshold. */
  predicate Settles(cfg: Settings, c: Circuit, calls: seq<Call>, i: nat)
    requires i < |calls|
  {
    calls[i].Success? || (calls[i].Failure? && c.failures + Failures(calls[..i + 1]) >= cfg.threshold)
  }

  /** A half-open circuit stays half-open, and admits every probe, exactly until a success or until a
      failure brings the count to the threshold: not one probe but any number of them. */
  lemma {:induction false} HalfOpenStaysIff(cfg: Settings, c: Circuit, calls: seq<Call>)
    requires c.state == HalfOpen
    ensures StaysHalfOpen(cfg, c, calls) <==> Inconclusive(cfg, c, calls)
    ensures StaysHalfOpen(cfg, c, calls) ==>
      var d := Continue(cfg, c, calls);
      d.failures == c.failures + Failures(calls) && forall now :: Available(cfg, d, now)
  {
    assert calls[..|calls|] == calls;
    assert HalfOpenAt(cfg, c, calls, |calls|) <==> Continue(cfg, c, calls).state == HalfOpen;
    if calls != [] {
      HalfOpenStaysIff(cfg, c, calls[..|calls| - 1]);
      StaysStep(cfg, c, calls);
      InconclusiveStep(cfg, c, calls);
      var init := calls[..|calls| - 1];
      assert init[..|init|] == init && calls[..|calls| - 1 + 1] == calls;
      assert HalfOpenAt(cfg, c, init, |init|) <==> Continue(cfg, c, init).state == HalfOpen;
    }
  }

  lemma {:induction false} StaysStep(cfg: Settings, c: Circuit, calls: seq<Call>)
    requires calls != []
    ensures StaysHalfOpen(cfg, c, calls) <==>
      StaysHalfOpen(cfg, c, calls[..|calls| - 1]) && Continue(cfg, c, calls).state == HalfOpen
  {
    var init := calls[..|calls| - 1];
    assert HalfOpenAt(cfg, c, calls, |calls|) <==> Continue(cfg, c, calls).state == HalfOpen by {
      assert calls[..|calls|] == calls;
    }
    forall m | 0 <= m <= |init|
      ensures HalfOpenAt(cfg, c, init, m) <==> HalfOpenAt(cfg, c, calls, m)
    {
      assert init[..m] == calls[..m];
    }
  }

  lemma InconclusiveStep(cfg: Settings, c: Circuit, calls: seq<Call>)
    requires calls != []
    ensures Inconclusive(cfg, c, calls) <==>
      Inconclusive(cfg, c, calls[..|calls| - 1]) && !Settles(cfg, c, calls, |calls| - 1)
  {
    var init := calls[..|calls| - 1];
    forall i | 0 <= i < |init|
      ensures Settles(cfg, c, init, i) <==> Settles(cfg, c, calls, i)
    {
      SettlesPrefix(cfg, c, calls, i);
    }
  }

  lemma SettlesPrefix(cfg: Settings, c: Circuit, calls: seq<Call>, i: nat)
    requires i < |calls| - 1
    ensures Settles(cfg, c, calls[..|calls| - 1], i) <==> Settles(cfg, c, calls, i)
  {
    assert calls[..|calls| - 1][..i + 1] == calls[..i + 1];
  }

  /** Threshold 2 and a timeout of 30 s: two failures, a probe at 31 s, and the probe's failure. */
  const PROBING: seq<Call> := [Failure(0.0), Failure(0.0), Query(31.0), Failure(31.0)]

  /** After the failed probe the circuit is still half-open, and the next probe is admitted. */
  lemma {:induction false} FailedProbeStaysHalfOpen(now: real)
    ensures var c := Run(Settings(2, 30.0), 0.0, PROBING);
      c.state == HalfOpen && Available(Settings(2, 30.0), c, now)
  {
    var cfg := Settings(2, 30.0);
    assert PROBING[..1][..0] == [] && PROBING[..2][..1] == PROBING[..1] && PROBING[..3][..2] == PROBING[..2];
    assert Run(cfg, 0.0, PROBING[..1]) == Circuit(Closed, 1, 0.0, 0.0);
    assert Run(cfg, 0.0, PROBING[..2]) == Circuit(Open, 2, 0.0, 0.0);
    assert Run(cfg, 0.0, PROBING[..3]) == Circuit(HalfOpen, 0, 0.0, 0.0);
    assert PROBING[..|PROBING| - 1] == PROBING[..3];
  }
}
