/**
 The half-open period: how many calls it lets through, and how many of them it takes to close.
 */
module BreakerProbes {
  import opened Redis
  import opened CircuitBreaker
  import opened BreakerReference

  /** A half-open circuit closes on a successful probe exactly when the probe successes counted since it
      last closed or failed a probe reach the threshold. */
  lemma {:induction false} ClosesExactlyAtThreshold(cfg: Config, calls: seq<Call>, c: Call)
    requires ValidRun(calls + [c])
    requires Admits(cfg, KeysAfter(cfg, calls), c.start)
    requires GetState(Enter(KeysAfter(cfg, calls), c.start), c.finish) == HALF_OPEN
    ensures GetState(KeysAfter(cfg, calls + [c]), c.finish) == CLOSED
       <==> c.ok && CircuitAfter(cfg, calls).wins + 1 >= cfg.successThreshold
  {
    LastCall(cfg, calls, c);
    var k, r := KeysAfter(cfg, calls), CircuitAfter(cfg, calls);
    EnterKeeps(cfg, k, r, c);
    ReadsPhase(cfg, Enter(k, c.start), Entered(r, c.start), c.finish);
    ReadsPhase(cfg, KeysAfter(cfg, calls + [c]), CircuitAfter(cfg, calls + [c]), c.finish);
  }

  function StepAll(cfg: Config, r: Circuit, calls: seq<Call>): Circuit {
    if |calls| == 0 then r
    else Step(cfg, StepAll(cfg, r, calls[..|calls| - 1]), calls[|calls| - 1]).0
  }

  /** Probe successes in a row, seen on the circuit. */
  lemma {:induction false} ProbesOnCircuit(cfg: Config, r: Circuit, calls: seq<Call>)
    requires r.phase.Open? && |calls| > 0 && ValidRun(calls)
    requires PhaseAt(r.phase, calls[0].start).Open? && !BlackedOut(cfg, r.phase.since, calls[0].start)
    requires forall i :: 0 <= i < |calls| ==> calls[i].ok && calls[i].finish < calls[0].start + 3600.0
    requires |calls| == 1 || r.wins + |calls| - 1 < cfg.successThreshold
    ensures var r' := StepAll(cfg, r, calls);
            if r.wins + |calls| >= cfg.successThreshold then r' == FRESH
            else r' == r.(phase := Probing(calls[0].start), wins := r.wins + |calls|)
  {
    var n := |calls|;
    if n == 1 {
      assert StepAll(cfg, r, calls[..0]) == r;
    } else {
      ProbesOnCircuit(cfg, r, calls[..n - 1]);
      assert calls[0].start <= calls[n - 1].start;
    }
  }

  lemma {:induction false} StepAllFollows(cfg: Config, before: seq<Call>, probes: seq<Call>)
    ensures CircuitAfter(cfg, before + probes) == StepAll(cfg, CircuitAfter(cfg, before), probes)
  {
    if |probes| == 0 {
      assert before + probes == before;
    } else {
      StepAllFollows(cfg, before, probes[..|probes| - 1]);
      assert (before + probes)[..|before + probes| - 1] == before + probes[..|probes| - 1];
    }
  }

  function Count(e: Entry<int>): int {
    if e.Present? then e.value else 0
  }

  lemma {:induction false} RunParts(before: seq<Call>, probes: seq<Call>)
    requires ValidRun(before + probes) && |probes| > 0
    ensures ValidRun(before) && ValidRun(probes) && Last(before) <= probes[0].start
    ensures Last(before + probes) == probes[|probes| - 1].finish
  {
    var run := before + probes;
    assert forall i :: 0 <= i < |before| ==> before[i] == run[i];
    assert forall i :: 0 <= i < |probes| ==> probes[i] == run[|before| + i];
  }

  /** In every run, successful probes in a row after an opening, all done within the hour of the first: the
      state closes on the one that brings the stored count, leftovers included, to the threshold, and until
      then it stays half-open with every success counted. With no leftovers that takes the configured number
      of successes; with leftovers, fewer. */
  lemma {:induction false} ProbesToClose(cfg: Config, before: seq<Call>, probes: seq<Call>)
    requires ValidRun(before + probes) && |probes| > 0
    requires GetState(KeysAfter(cfg, before), probes[0].start) == OPEN
    requires Admits(cfg, KeysAfter(cfg, before), probes[0].start)
    requires forall i :: 0 <= i < |probes| ==> probes[i].ok && probes[i].finish < probes[0].start + 3600.0
    requires |probes| == 1 || Count(KeysAfter(cfg, before).successes) + |probes| - 1 < cfg.successThreshold
    ensures var count, after := Count(KeysAfter(cfg, before).successes) + |probes|, KeysAfter(cfg, before + probes);
            var state := GetState(after, probes[|probes| - 1].finish);
            if count >= cfg.successThreshold then state == CLOSED && after.successes == Absent
            else state == HALF_OPEN && after.successes == Present(count, Never)
  {
    var k, r, now := KeysAfter(cfg, before), CircuitAfter(cfg, before), probes[0].start;
    RunParts(before, probes);
    RunKeeps(cfg, before);
    Waiting(cfg, k, r, Last(before), now);
    ReadsPhase(cfg, k, r, now);
    ProbesOnCircuit(cfg, r, probes);
    StepAllFollows(cfg, before, probes);
    RunKeeps(cfg, before + probes);
    ReadsPhase(cfg, KeysAfter(cfg, before + probes), CircuitAfter(cfg, before + probes), probes[|probes| - 1].finish);
  }

  /** Closing can take fewer probes than configured: two successes are required, yet the second half-open
      period below closes on its first, because the count left by the first period never expires. */
  lemma {:induction false} LeftoverSuccessClosesEarly()
    ensures var cfg := Config(1, 60, 2);
            var calls := [Call(0.0, 0.0, false), Call(60.0, 60.0, true),
                          Call(4000.0, 4000.0, false), Call(4060.0, 4060.0, true)];
            && ValidRun(calls)
            && GetState(KeysAfter(cfg, calls[..3]), 4060.0) == OPEN
            && GetState(KeysAfter(cfg, calls), 4060.0) == CLOSED
  {
    var cfg := Config(1, 60, 2);
    var calls := [Call(0.0, 0.0, false), Call(60.0, 60.0, true),
                  Call(4000.0, 4000.0, false), Call(4060.0, 4060.0, true)];
    var k1 := Keys(Present(OPEN, At(3600.0)), Present(1, At(60.0)), Absent, Present(0, At(3600.0)));
    var k2 := k1.(state := Present(HALF_OPEN, At(3660.0)), successes := Present(1, Never));
    var k3 := Keys(Present(OPEN, At(7600.0)), Present(1, At(4060.0)), Present(1, Never), Present(4000, At(7600.0)));
    assert calls[..4] == calls && calls[..0] == [];
    assert calls[..1][..0] == [] && calls[..2][..1] == calls[..1] && calls[..3][..2] == calls[..2];
    assert KeysAfter(cfg, calls[..0]) == NO_KEYS;
    assert KeysAfter(cfg, calls[..1]) == k1;
    assert KeysAfter(cfg, calls[..2]) == k2;
    assert KeysAfter(cfg, calls[..3]) == k3;
  }

  // ----- how many calls a half-open period lets through -----

  /** An admitted call leaves the circuit half-open if and only if it finds it half-open when it finishes,
      succeeds, and is not the success that closes it. */
  lemma {:induction false} StaysHalfOpenIff(cfg: Config, calls: seq<Call>, c: Call)
    requires ValidRun(calls + [c]) && Admits(cfg, KeysAfter(cfg, calls), c.start)
    ensures GetState(KeysAfter(cfg, calls + [c]), c.finish) == HALF_OPEN
       <==> && GetState(Enter(KeysAfter(cfg, calls), c.start), c.finish) == HALF_OPEN
            && c.ok && CircuitAfter(cfg, calls).wins + 1 < cfg.successThreshold
  {
    LastCall(cfg, calls, c);
    var k, r := KeysAfter(cfg, calls), CircuitAfter(cfg, calls);
    EnterKeeps(cfg, k, r, c);
    ReadsPhase(cfg, Enter(k, c.start), Entered(r, c.start), c.finish);
    ReadsPhase(cfg, KeysAfter(cfg, calls + [c]), CircuitAfter(cfg, calls + [c]), c.finish);
  }

  /** The state a call of a run finds when it starts. */
  function Found(cfg: Config, calls: seq<Call>, i: nat): CircuitState
    requires i < |calls|
  {
    GetState(KeysAfter(cfg, calls[..i]), calls[i].start)
  }

  /** Call i finds the circuit open and is let through, which makes it half-open; every later call of the
      run, call j among them, still finds it half-open, and is let through as well. */
  ghost predicate SamePeriod(cfg: Config, calls: seq<Call>, i: nat, j: nat) {
    && ValidRun(calls) && i < j < |calls|
    && Found(cfg, calls, i) == OPEN && CallStep(cfg, KeysAfter(cfg, calls[..i]), calls[i]).1 != Rejected
    && forall m :: i < m < |calls| ==>
         Found(cfg, calls, m) == HALF_OPEN && CallStep(cfg, KeysAfter(cfg, calls[..m]), calls[m]).1 != Rejected
  }

  /** What the class comment promises: no half-open period lets a second call through. */
  ghost predicate OneProbeOnly(cfg: Config) {
    forall calls, i, j :: !SamePeriod(cfg, calls, i, j)
  }

  lemma {:induction false} NeverProbing(cfg: Config, calls: seq<Call>)
    requires ValidRun(calls) && (cfg.successThreshold <= 1 || cfg.recoveryTimeout > 3600)
    ensures !CircuitAfter(cfg, calls).phase.Probing?
  {
    if |calls| > 0 {
      NeverProbing(cfg, calls[..|calls| - 1]);
    }
  }

  /** What a call finds is the phase of the circuit. */
  lemma FoundIsPhase(cfg: Config, calls: seq<Call>, i: nat)
    requires ValidRun(calls) && i < |calls|
    ensures ValidRun(calls[..i])
    ensures Found(cfg, calls, i) == match PhaseAt(CircuitAfter(cfg, calls[..i]).phase, calls[i].start)
                                    case Closed => CLOSED
                                    case Open(_) => OPEN
                                    case Probing(_) => HALF_OPEN
  {
    var k, r := KeysAfter(cfg, calls[..i]), CircuitAfter(cfg, calls[..i]);
    RunKeeps(cfg, calls[..i]);
    assert Last(calls[..i]) <= calls[i].start by { if i > 0 { assert calls[i - 1].finish <= calls[i].start; } }
    Waiting(cfg, k, r, Last(calls[..i]), calls[i].start);
    ReadsPhase(cfg, k, r, calls[i].start);
  }

  const OPENED_AT := 0.5

  /** Failing calls, all at one moment. */
  function Failing(n: nat): seq<Call> {
    seq(n, i => Call(OPENED_AT, OPENED_AT, false))
  }

  function Failed(n: nat): seq<Outcome> {
    seq(n, i => Outcome(OPENED_AT, false))
  }

  lemma {:induction false} RunOfFailed(n: nat)
    ensures FailureRun(Failed(n), OPENED_AT) == n
  {
    if n > 0 {
      assert Failed(n)[..n - 1] == Failed(n - 1);
      RunOfFailed(n - 1);
    }
  }

  lemma FailureCounts(cfg: Config, n: nat)
    requires n >= 1
    ensures Step(cfg, Circuit(Closed, Failed(n - 1), 0), Call(OPENED_AT, OPENED_AT, false)).0
         == if n >= cfg.failureThreshold then Circuit(Open(OPENED_AT), [], 0) else Circuit(Closed, Failed(n), 0)
  {
    assert Failed(n - 1) + [Outcome(OPENED_AT, false)] == Failed(n);
    RunOfFailed(n);
  }

  lemma {:induction false} FailingTrips(cfg: Config, n: nat)
    requires n <= 1 || n <= cfg.failureThreshold
    ensures CircuitAfter(cfg, Failing(n))
         == if 1 <= n && n >= cfg.failureThreshold then Circuit(Open(OPENED_AT), [], 0)
            else Circuit(Closed, Failed(n), 0)
  {
    if n > 0 {
      assert Failing(n)[..n - 1] == Failing(n - 1);
      FailingTrips(cfg, n - 1);
      FailureCounts(cfg, n);
    }
  }

  /** Enough failures to open the circuit, then two successful calls when the timeout is over. */
  function TwoProbes(cfg: Config): seq<Call> {
    var at := if cfg.recoveryTimeout > 0 then cfg.recoveryTimeout as real else OPENED_AT;
    Failing(if cfg.failureThreshold < 1 then 1 else cfg.failureThreshold) + [Call(at, at, true), Call(at, at, true)]
  }

  predicate ProbesAt(cfg: Config, at: real) {
    at == if cfg.recoveryTimeout > 0 then cfg.recoveryTimeout as real else OPENED_AT
  }

  lemma ProbeSteps(cfg: Config, at: real)
    requires cfg.successThreshold >= 2 && cfg.recoveryTimeout <= 3600 && ProbesAt(cfg, at)
    ensures Step(cfg, Circuit(Open(OPENED_AT), [], 0), Call(at, at, true)) == (Circuit(Probing(at), [], 1), Returned)
    ensures Step(cfg, Circuit(Probing(at), [], 1), Call(at, at, true)).1 == Returned
    ensures PhaseAt(Open(OPENED_AT), at) == Open(OPENED_AT)
  {
    assert OPENED_AT.Floor == 0;
  }

  lemma NextCircuit(cfg: Config, calls: seq<Call>, n: nat)
    requires n < |calls|
    ensures CircuitAfter(cfg, calls[..n + 1]) == Step(cfg, CircuitAfter(cfg, calls[..n]), calls[n]).0
  {
    assert calls[..n + 1][..n] == calls[..n];
  }

  lemma {:induction false} ProbesShareAPeriod(cfg: Config, calls: seq<Call>, n: nat, at: real)
    requires cfg.successThreshold >= 2 && cfg.recoveryTimeout <= 3600 && ProbesAt(cfg, at)
    requires ValidRun(calls) && |calls| == n + 2 && calls[n] == calls[n + 1] == Call(at, at, true)
    requires CircuitAfter(cfg, calls[..n]) == Circuit(Open(OPENED_AT), [], 0)
    ensures SamePeriod(cfg, calls, n, n + 1)
  {
    ProbeSteps(cfg, at);
    NextCircuit(cfg, calls, n);
    FoundIsPhase(cfg, calls, n);
    FoundIsPhase(cfg, calls, n + 1);
    BreakerRefinesCircuit(cfg, calls, n);
    BreakerRefinesCircuit(cfg, calls, n + 1);
  }

  lemma TwoProbesAreARun(cfg: Config)
    ensures ValidRun(TwoProbes(cfg))
  {
  }

  /** In the run above both calls after the failures are let through in one half-open period. */
  lemma {:induction false} TwoProbesGoThrough(cfg: Config)
    requires cfg.successThreshold >= 2 && cfg.recoveryTimeout <= 3600
    ensures var calls := TwoProbes(cfg); |calls| >= 3 && SamePeriod(cfg, calls, |calls| - 2, |calls| - 1)
  {
    var calls := TwoProbes(cfg);
    var n := |calls| - 2;
    assert calls[..n] == Failing(n);
    FailingTrips(cfg, n);
    TwoProbesAreARun(cfg);
    ProbesShareAPeriod(cfg, calls, n, calls[n].start);
  }

  /** The promise of one probe, exactly: it is kept if and only if one success closes the circuit, or the
      timeout outlasts the state key, so that the circuit never becomes half-open at all. */
  lemma {:induction false} OneProbeIff(cfg: Config)
    ensures OneProbeOnly(cfg) <==> cfg.successThreshold <= 1 || cfg.recoveryTimeout > 3600
  {
    if cfg.successThreshold <= 1 || cfg.recoveryTimeout > 3600 {
      forall calls, i: nat, j: nat ensures !SamePeriod(cfg, calls, i, j) {
        if SamePeriod(cfg, calls, i, j) {
          FoundIsPhase(cfg, calls, j);
          NeverProbing(cfg, calls[..j]);
        }
      }
    } else {
      TwoProbesGoThrough(cfg);
    }
  }
}
