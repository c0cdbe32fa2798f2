/**
 What several workers do to the documented promises: the state diagram, one probe in HALF_OPEN, no way past
 an open circuit before its time, no calls while it is open. For each the numbers of workers that keep it.
 */
module BreakerRaces {
  import opened CircuitBreaker
  import opened BreakerInterleaved

  ghost predicate Reachable(cfg: Config, workers: nat, g: System) {
    exists moves :: ValidSchedule(workers, moves) && After(cfg, workers, moves) == g
  }

  /** A step that some schedule takes from rest. */
  ghost predicate CanMove(cfg: Config, workers: nat, g: System, m: Move) {
    Reachable(cfg, workers, g) && |g.pc| == workers && m.worker < workers
  }

  /** Every step of every schedule follows the diagram. */
  ghost predicate KeepsDiagram(cfg: Config, workers: nat) {
    forall g, m :: CanMove(cfg, workers, g, m) ==> InDiagram(g.state, Act(cfg, g, m).state)
  }

  /** Some step of some schedule takes one state to another. */
  ghost predicate Happens(cfg: Config, workers: nat, before: CircuitState, after: CircuitState) {
    exists g, m :: CanMove(cfg, workers, g, m) && g.state == before && Act(cfg, g, m).state == after
  }

  lemma Reaches(cfg: Config, workers: nat, g: System, m: Move) returns (g': System)
    requires CanMove(cfg, workers, g, m)
    ensures g' == Act(cfg, g, m) && Reachable(cfg, workers, g') && |g'.pc| == workers
  {
    var moves :| ValidSchedule(workers, moves) && After(cfg, workers, moves) == g;
    assert (moves + [m])[..|moves|] == moves;
    g' := Act(cfg, g, m);
    assert After(cfg, workers, moves + [m]) == g';
  }

  /** A reachable system in a given state, with one worker at a given point. */
  ghost predicate With(cfg: Config, workers: nat, g: System, w: nat, state: CircuitState, p: Pc) {
    Reachable(cfg, workers, g) && w < workers == |g.pc| && g.state == state && g.pc[w] == p
  }

  lemma AtRest(cfg: Config, workers: nat) returns (g: System)
    ensures Reachable(cfg, workers, g) && g == Start(workers)
  {
    g := Start(workers);
    assert ValidSchedule(workers, []) && After(cfg, workers, []) == g;
  }

  // ----- one worker moves, the others stand still -----

  /** A failing call, up to the point where its failure is counted. */
  lemma OneFailure(cfg: Config, workers: nat, g: System, w: nat) returns (g': System)
    requires With(cfg, workers, g, w, CLOSED, Idle)
    ensures With(cfg, workers, g', w, CLOSED, FailureIncr) && g' == g.(pc := g.pc[w := FailureIncr])
  {
    var m := Move(w, true, false);
    g' := Reaches(cfg, workers, g, m);
    g' := Reaches(cfg, workers, g', m);
    g' := Reaches(cfg, workers, g', m);
    assert g'.pc == g.pc[w := FailureIncr];
  }

  /** Counting it trips the circuit, or leaves one failure more. */
  lemma CountOrTrip(cfg: Config, workers: nat, g: System, w: nat) returns (g': System)
    requires With(cfg, workers, g, w, CLOSED, FailureIncr)
    ensures if g.failures + 1 >= cfg.failureThreshold then
              With(cfg, workers, g', w, OPEN, TripStamp)
              && g' == System(OPEN, g.failures + 1, g.successes, g.stamped, g.pc[w := TripStamp])
            else
              With(cfg, workers, g', w, CLOSED, Idle)
              && g' == System(CLOSED, g.failures + 1, g.successes, g.stamped, g.pc[w := Idle])
  {
    var m := Move(w, true, false);
    g' := Reaches(cfg, workers, g, m);
    g' := Reaches(cfg, workers, g', m);
    if g.failures + 1 >= cfg.failureThreshold {
      g' := Reaches(cfg, workers, g', m);
      assert g'.pc == g.pc[w := TripStamp];
    } else {
      assert g'.pc == g.pc[w := Idle];
    }
  }

  /** A worker fails until it has tripped the circuit; the failure time is not stored yet. */
  lemma {:induction false} FailUntilTripped(cfg: Config, workers: nat, g: System, w: nat) returns (g': System)
    requires With(cfg, workers, g, w, CLOSED, Idle)
    ensures With(cfg, workers, g', w, OPEN, TripStamp)
    ensures g'.pc == g.pc[w := TripStamp] && g'.successes == g.successes && g'.stamped == g.stamped
    decreases cfg.failureThreshold - g.failures
  {
    g' := OneFailure(cfg, workers, g, w);
    g' := CountOrTrip(cfg, workers, g', w);
    if g.failures + 1 < cfg.failureThreshold {
      assert g'.pc == g.pc;
      g' := FailUntilTripped(cfg, workers, g', w);
    }
  }

  lemma FailUntilOpen(cfg: Config, workers: nat, g: System, w: nat) returns (g': System)
    requires With(cfg, workers, g, w, CLOSED, Idle)
    ensures With(cfg, workers, g', w, OPEN, Idle) && g'.pc == g.pc && g'.successes == g.successes
  {
    g' := FailUntilTripped(cfg, workers, g, w);
    g' := Reaches(cfg, workers, g', Move(w, true, false));
  }

  /** A worker finds the recovery time passed and starts to probe. */
  lemma Probe(cfg: Config, workers: nat, g: System, w: nat) returns (g': System)
    requires With(cfg, workers, g, w, OPEN, Idle)
    ensures With(cfg, workers, g', w, HALF_OPEN, Running) && g'.pc == g.pc[w := Running] && g'.successes == g.successes
  {
    var m := Move(w, true, true);
    g' := Reaches(cfg, workers, g, m);
    g' := Reaches(cfg, workers, g', m);
    g' := Reaches(cfg, workers, g', m);
  }

  // ----- two workers -----

  /** A reachable system in a given state, with its first two workers at given points. */
  ghost predicate Pair(cfg: Config, workers: nat, g: System, state: CircuitState, a: Pc, b: Pc) {
    workers >= 2 && With(cfg, workers, g, 0, state, a) && With(cfg, workers, g, 1, state, b)
  }

  const A := Move(0, true, true)
  const B := Move(1, true, true)
  const A_FAILS := Move(0, true, false)

  lemma Opened(cfg: Config, workers: nat) returns (g: System)
    requires workers >= 2
    ensures Pair(cfg, workers, g, OPEN, Idle, Idle)
  {
    g := AtRest(cfg, workers);
    g := FailUntilOpen(cfg, workers, g, 1);
  }

  /** Both workers find the recovery time passed; worker 1 goes ahead. */
  lemma BothProbe(cfg: Config, workers: nat, g: System) returns (g': System)
    requires Pair(cfg, workers, g, OPEN, Idle, Idle)
    ensures Pair(cfg, workers, g', HALF_OPEN, EnterHalfOpen, Running)
  {
    g' := Reaches(cfg, workers, g, A);
    g' := Reaches(cfg, workers, g', A);
    g' := Probe(cfg, workers, g', 1);
  }

  /** Worker 1 probes with success until it is about to close the circuit. */
  lemma {:induction false} SucceedUntilClosing(cfg: Config, workers: nat, g: System, a: Pc) returns (g': System)
    requires Pair(cfg, workers, g, HALF_OPEN, a, Running)
    ensures Pair(cfg, workers, g', HALF_OPEN, a, CloseState)
    decreases cfg.successThreshold - g.successes
  {
    g' := Reaches(cfg, workers, g, B);
    g' := Reaches(cfg, workers, g', B);
    g' := Reaches(cfg, workers, g', B);
    if g'.pc[1] == Idle {
      g' := Reaches(cfg, workers, g', B);
      g' := SucceedUntilClosing(cfg, workers, g', a);
    }
  }

  lemma Stalled(cfg: Config, workers: nat) returns (g: System)
    requires workers >= 2
    ensures Pair(cfg, workers, g, HALF_OPEN, EnterHalfOpen, CloseState)
  {
    g := Opened(cfg, workers);
    g := BothProbe(cfg, workers, g);
    g := SucceedUntilClosing(cfg, workers, g, EnterHalfOpen);
  }

  /** A worker that stalled on its way to a probe reopens a circuit that another has closed meanwhile. */
  lemma {:induction false} ClosedToHalfOpen(cfg: Config, workers: nat)
    requires workers >= 2
    ensures Happens(cfg, workers, CLOSED, HALF_OPEN)
  {
    var g := Stalled(cfg, workers);
    g := Reaches(cfg, workers, g, B);
    assert CanMove(cfg, workers, g, A) && Act(cfg, g, A).state == HALF_OPEN;
  }

  /** Worker 0 probes as well, fails, and is about to reopen. */
  lemma FailedProbe(cfg: Config, workers: nat, g: System) returns (g': System)
    requires Pair(cfg, workers, g, HALF_OPEN, EnterHalfOpen, CloseState)
    ensures Pair(cfg, workers, g', HALF_OPEN, ReopenState, CloseState)
  {
    g' := Reaches(cfg, workers, g, A_FAILS);
    g' := Reaches(cfg, workers, g', A_FAILS);
    g' := Reaches(cfg, workers, g', A_FAILS);
  }

  /** A worker that stalled on its way to closing closes a circuit that another's failed probe has opened. */
  lemma {:induction false} OpenToClosed(cfg: Config, workers: nat)
    requires workers >= 2
    ensures Happens(cfg, workers, OPEN, CLOSED)
  {
    var g := Stalled(cfg, workers);
    g := FailedProbe(cfg, workers, g);
    g := Reaches(cfg, workers, g, A_FAILS);
    assert CanMove(cfg, workers, g, B) && Act(cfg, g, B).state == CLOSED;
  }

  /** Under every configuration, all schedules of a number of workers keep the diagram if and only if there is
      at most one worker. */
  lemma {:induction false} DiagramKeptIff(cfg: Config, workers: nat)
    ensures KeepsDiagram(cfg, workers) <==> workers <= 1
  {
    if workers == 1 {
      forall g, m | CanMove(cfg, workers, g, m) ensures InDiagram(g.state, Act(cfg, g, m).state) {
        var moves :| ValidSchedule(workers, moves) && After(cfg, workers, moves) == g;
        OneWorkerKeepsDiagram(cfg, moves, m);
      }
    } else if workers >= 2 {
      OpenToClosed(cfg, workers);
      var g, m :| CanMove(cfg, workers, g, m) && g.state == OPEN && Act(cfg, g, m).state == CLOSED;
      assert !InDiagram(g.state, Act(cfg, g, m).state);
    }
  }

  /** With two or more workers, every transition that the diagram leaves out takes place. */
  lemma {:induction false} MissingTransitionsHappen(cfg: Config, workers: nat, before: CircuitState,
                                                    after: CircuitState)
    requires workers >= 2 && !InDiagram(before, after)
    ensures Happens(cfg, workers, before, after)
  {
    if before == CLOSED {
      ClosedToHalfOpen(cfg, workers);
    } else {
      OpenToClosed(cfg, workers);
    }
  }

  // ----- the other promises, over all schedules -----

  /** A worker starts a call while the circuit is already half-open. */
  ghost predicate JoinsProbe(cfg: Config, workers: nat, g: System, m: Move) {
    CanMove(cfg, workers, g, m) && g.state == HALF_OPEN && g.pc[m.worker] == Idle
  }

  /** What the class comment promises of HALF_OPEN: no call is started beside the one that made it so. */
  ghost predicate OneProbeAmongWorkers(cfg: Config, workers: nat) {
    forall g, m :: !JoinsProbe(cfg, workers, g, m)
  }

  /** Where one success closes the circuit, a lone worker is never at rest in HALF_OPEN. */
  lemma {:induction false} LoneWorkerProbesOnce(cfg: Config, moves: seq<Move>)
    requires ValidSchedule(1, moves) && cfg.successThreshold <= 1
    ensures var g := After(cfg, 1, moves); g.state == HALF_OPEN ==> g.pc[0] != Idle
  {
    if |moves| > 0 {
      LoneWorkerKept(cfg, moves[..|moves| - 1]);
      LoneWorkerProbesOnce(cfg, moves[..|moves| - 1]);
    }
  }

  lemma LoneWorkerNeverJoins(cfg: Config, g: System, m: Move)
    requires Reachable(cfg, 1, g) && cfg.successThreshold <= 1
    ensures !JoinsProbe(cfg, 1, g, m)
  {
    var moves :| ValidSchedule(1, moves) && After(cfg, 1, moves) == g;
    LoneWorkerProbesOnce(cfg, moves);
  }

  lemma {:induction false} LoneWorkerJoins(cfg: Config)
    requires cfg.successThreshold >= 2
    ensures !OneProbeAmongWorkers(cfg, 1)
  {
    var g := AtRest(cfg, 1);
    g := FailUntilOpen(cfg, 1, g, 0);
    g := Probe(cfg, 1, g, 0);
    g := Reaches(cfg, 1, g, A);
    g := Reaches(cfg, 1, g, A);
    g := Reaches(cfg, 1, g, A);
    assert JoinsProbe(cfg, 1, g, A);
  }

  lemma {:induction false} OtherWorkerJoins(cfg: Config, workers: nat)
    requires workers >= 2
    ensures !OneProbeAmongWorkers(cfg, workers)
  {
    var g := Opened(cfg, workers);
    g := Probe(cfg, workers, g, 1);
    assert JoinsProbe(cfg, workers, g, A);
  }

  /** The promise of one probe, over all schedules: no call is started while the circuit is half-open if and
      only if there is no worker, or a single one and one success closes the circuit. */
  lemma {:induction false} OneProbeAmongWorkersIff(cfg: Config, workers: nat)
    ensures OneProbeAmongWorkers(cfg, workers) <==> workers == 0 || (workers == 1 && cfg.successThreshold <= 1)
  {
    if workers >= 2 {
      OtherWorkerJoins(cfg, workers);
    } else if workers == 1 && cfg.successThreshold >= 2 {
      LoneWorkerJoins(cfg);
    } else if workers == 1 {
      forall g, m | Reachable(cfg, 1, g) ensures !JoinsProbe(cfg, 1, g, m) {
        LoneWorkerNeverJoins(cfg, g, m);
      }
    }
  }

  /** And the probes need not even wait for each other: two workers run the protected function at once. */
  lemma {:induction false} ProbesRunTogether(cfg: Config, workers: nat)
    requires workers >= 2
    ensures exists g :: Pair(cfg, workers, g, HALF_OPEN, Running, Running)
  {
    var g := Opened(cfg, workers);
    g := BothProbe(cfg, workers, g);
    g := Reaches(cfg, workers, g, A);
    assert Pair(cfg, workers, g, HALF_OPEN, Running, Running);
  }

  /** A worker is let through an open circuit although the recovery time is not over. */
  ghost predicate PassesEarly(cfg: Config, workers: nat, g: System, m: Move) {
    && CanMove(cfg, workers, g, m) && g.pc[m.worker] == CheckReset && !m.due
    && Act(cfg, g, m).pc[m.worker] == EnterHalfOpen
  }

  ghost predicate KeepsBlackout(cfg: Config, workers: nat) {
    forall g, m :: !PassesEarly(cfg, workers, g, m)
  }

  lemma LoneWorkerWaits(cfg: Config, g: System, m: Move)
    requires Reachable(cfg, 1, g)
    ensures !PassesEarly(cfg, 1, g, m)
  {
    var moves :| ValidSchedule(1, moves) && After(cfg, 1, moves) == g;
    LoneWorkerKept(cfg, moves);
    EveryScheduleAccounted(cfg, 1, moves);
    if g.pc[0] == CheckReset {
      assert !Stamping(g);
    }
  }

  /** One worker has tripped the circuit and not stored the failure time; another finds no time and passes. */
  lemma {:induction false} OtherWorkerPasses(cfg: Config, workers: nat)
    requires workers >= 2
    ensures !KeepsBlackout(cfg, workers)
  {
    var g := AtRest(cfg, workers);
    g := FailUntilTripped(cfg, workers, g, 1);
    g := Reaches(cfg, workers, g, A);
    assert PassesEarly(cfg, workers, g, Move(0, false, true));
  }

  /** The blackout, over all schedules: no worker gets past an open circuit before the recovery time is over if
      and only if there is at most one worker. */
  lemma {:induction false} BlackoutKeptIff(cfg: Config, workers: nat)
    ensures KeepsBlackout(cfg, workers) <==> workers <= 1
  {
    if workers >= 2 {
      OtherWorkerPasses(cfg, workers);
    } else if workers == 1 {
      forall g, m | Reachable(cfg, 1, g) ensures !PassesEarly(cfg, 1, g, m) {
        LoneWorkerWaits(cfg, g, m);
      }
    }
  }

  /** A worker is inside the protected function while the circuit is open. */
  ghost predicate RunsWhileOpen(cfg: Config, workers: nat, g: System, w: nat) {
    With(cfg, workers, g, w, OPEN, Running)
  }

  /** What the class comment promises of OPEN: no calls to the protected function. */
  ghost predicate NoCallsWhileOpen(cfg: Config, workers: nat) {
    forall g, w :: !RunsWhileOpen(cfg, workers, g, w)
  }

  lemma LoneWorkerFailsFast(cfg: Config, g: System, w: nat)
    requires Reachable(cfg, 1, g)
    ensures !RunsWhileOpen(cfg, 1, g, w)
  {
    var moves :| ValidSchedule(1, moves) && After(cfg, 1, moves) == g;
    LoneWorkerKept(cfg, moves);
  }

  lemma {:induction false} CallStillRunning(cfg: Config, workers: nat)
    requires workers >= 2
    ensures !NoCallsWhileOpen(cfg, workers)
  {
    var g := AtRest(cfg, workers);
    g := Reaches(cfg, workers, g, A);
    g := FailUntilTripped(cfg, workers, g, 1);
    assert RunsWhileOpen(cfg, workers, g, 0);
  }

  /** Fast failure, over all schedules: the protected function never runs while the circuit is open if and only
      if there is at most one worker. */
  lemma {:induction false} FastFailIff(cfg: Config, workers: nat)
    ensures NoCallsWhileOpen(cfg, workers) <==> workers <= 1
  {
    if workers >= 2 {
      CallStillRunning(cfg, workers);
    } else if workers == 1 {
      forall g, w | Reachable(cfg, 1, g) ensures !RunsWhileOpen(cfg, 1, g, w) {
        LoneWorkerFailsFast(cfg, g, w);
      }
    }
  }
}
