/**
 Many workers sharing one breaker. Every Redis command is one atomic step and each worker keeps a
 program counter between commands; deadlines are ignored, so keys live until they are deleted.
 The counters can overshoot in the gaps between reading and acting; every excess is accounted for by a
 worker that still owes a write.
 */
module BreakerInterleaved {
  import opened CircuitBreaker

  /** What a worker does next. */
  datatype Pc =
    | Idle                      // next: GET state, starting a call
    | CheckReset                // GET last_failure
    | EnterHalfOpen             // SET state half_open
    | Running                   // inside the protected function
    | SuccessRead               // GET state, in _on_success
    | SuccessIncr               // INCR successes
    | CloseState                // SET state closed
    | DeleteBoth                // DEL failures successes
    | DeleteFailures            // DEL failures
    | FailureRead               // GET state, in _on_failure
    | ReopenState               // SET state open, after a failed probe
    | ReopenStamp               // SET last_failure
    | DeleteSuccesses           // DEL successes
    | FailureIncr               // INCR failures
    | FailureExpire(count: int) // EXPIRE failures, holding the INCR reply
    | TripState                 // SET state open, threshold reached
    | TripStamp                 // SET last_failure

  datatype System = System(
    state: CircuitState,
    failures: nat,
    successes: nat,
    stamped: bool,
    pc: seq<Pc>)

  /** A scheduled step: which worker moves, whether the recovery time is seen to have passed, and
      whether the protected function succeeds. */
  datatype Move = Move(worker: nat, due: bool, ok: bool)

  function Start(workers: nat): System {
    System(CLOSED, 0, 0, false, seq(workers, i => Idle))
  }

  function At(g: System, w: nat, next: Pc): System
    requires w < |g.pc|
  {
    g.(pc := g.pc[w := next])
  }

  function Act(cfg: Config, g: System, m: Move): (g': System)
    requires m.worker < |g.pc|
    ensures |g'.pc| == |g.pc|
  {
    var w := m.worker;
    match g.pc[w]
    case Idle => At(g, w, if g.state == OPEN then CheckReset else Running)
    case CheckReset => At(g, w, if !g.stamped || m.due then EnterHalfOpen else Idle)
    case EnterHalfOpen => At(g.(state := HALF_OPEN), w, Running)
    case Running => At(g, w, if m.ok then SuccessRead else FailureRead)
    case SuccessRead =>
      At(g, w, match g.state case HALF_OPEN => SuccessIncr case CLOSED => DeleteFailures case OPEN => Idle)
    case SuccessIncr =>
      At(g.(successes := g.successes + 1), w, if g.successes + 1 >= cfg.successThreshold then CloseState else Idle)
    case CloseState => At(g.(state := CLOSED), w, DeleteBoth)
    case DeleteBoth => At(g.(failures := 0, successes := 0), w, Idle)
    case DeleteFailures => At(g.(failures := 0), w, Idle)
    case FailureRead =>
      At(g, w, match g.state case HALF_OPEN => ReopenState case CLOSED => FailureIncr case OPEN => Idle)
    case ReopenState => At(g.(state := OPEN), w, ReopenStamp)
    case ReopenStamp => At(g.(stamped := true), w, DeleteSuccesses)
    case DeleteSuccesses => At(g.(successes := 0), w, Idle)
    case FailureIncr => At(g.(failures := g.failures + 1), w, FailureExpire(g.failures + 1))
    case FailureExpire(count) => At(g, w, if count >= cfg.failureThreshold then TripState else Idle)
    case TripState => At(g.(state := OPEN), w, TripStamp)
    case TripStamp => At(g.(stamped := true), w, Idle)
  }

  ghost predicate ValidSchedule(workers: nat, moves: seq<Move>) {
    forall i :: 0 <= i < |moves| ==> moves[i].worker < workers
  }

  /** The system after a schedule, from rest. */
  function After(cfg: Config, workers: nat, moves: seq<Move>): (g: System)
    requires ValidSchedule(workers, moves)
    ensures |g.pc| == workers
  {
    if |moves| == 0 then Start(workers)
    else Act(cfg, After(cfg, workers, moves[..|moves| - 1]), moves[|moves| - 1])
  }

  // ----- who owes what -----

  /** A worker whose INCR reached the threshold and that has not yet written OPEN. */
  predicate OwesTrip(cfg: Config, p: Pc) {
    p == TripState || (p.FailureExpire? && p.count >= cfg.failureThreshold)
  }

  /** A worker whose INCR reached the success threshold and that has not yet deleted the counters. */
  predicate OwesRecovery(p: Pc) {
    p == CloseState || p == DeleteBoth
  }

  /** A worker that wrote OPEN and has not yet stored the failure time. */
  predicate OwesStamp(p: Pc) {
    p == ReopenStamp || p == TripStamp
  }

  function Tripping(cfg: Config, g: System): set<nat> {
    set w: nat | w < |g.pc| && OwesTrip(cfg, g.pc[w])
  }

  function Recovering(g: System): set<nat> {
    set w: nat | w < |g.pc| && OwesRecovery(g.pc[w])
  }

  predicate Deleting(g: System) {
    exists w :: 0 <= w < |g.pc| && g.pc[w] == DeleteBoth
  }

  predicate Stamping(g: System) {
    exists w :: 0 <= w < |g.pc| && OwesStamp(g.pc[w])
  }

  function Below(threshold: int): nat {
    if threshold > 0 then threshold - 1 else 0
  }

  /** Each unit of a counter beyond its last harmless value is a worker that owes the matching write. */
  ghost predicate Accounted(cfg: Config, g: System) {
    && (g.state == CLOSED && !Deleting(g) ==> g.failures <= Below(cfg.failureThreshold) + |Tripping(cfg, g)|)
    && g.successes <= Below(cfg.successThreshold) + |Recovering(g)|
    && (g.state == OPEN ==> g.stamped || Stamping(g))
  }

  function Owed(owes: bool): nat {
    if owes then 1 else 0
  }

  lemma TrippingMoves(cfg: Config, g: System, w: nat, g': System)
    requires w < |g.pc| == |g'.pc| && g'.pc == g.pc[w := g'.pc[w]]
    ensures |Tripping(cfg, g')| == |Tripping(cfg, g)| + Owed(OwesTrip(cfg, g'.pc[w])) - Owed(OwesTrip(cfg, g.pc[w]))
  {
    var rest := Tripping(cfg, g) - {w};
    assert Tripping(cfg, g) == if OwesTrip(cfg, g.pc[w]) then rest + {w} else rest;
    assert Tripping(cfg, g') == if OwesTrip(cfg, g'.pc[w]) then rest + {w} else rest;
  }

  lemma RecoveringMoves(g: System, w: nat, g': System)
    requires w < |g.pc| == |g'.pc| && g'.pc == g.pc[w := g'.pc[w]]
    ensures |Recovering(g')| == |Recovering(g)| + Owed(OwesRecovery(g'.pc[w])) - Owed(OwesRecovery(g.pc[w]))
  {
    var rest := Recovering(g) - {w};
    assert Recovering(g) == if OwesRecovery(g.pc[w]) then rest + {w} else rest;
    assert Recovering(g') == if OwesRecovery(g'.pc[w]) then rest + {w} else rest;
  }

  lemma FailuresAccounted(cfg: Config, g: System, m: Move)
    requires m.worker < |g.pc| && Accounted(cfg, g)
    requires Act(cfg, g, m).state == CLOSED && !Deleting(Act(cfg, g, m))
    ensures Act(cfg, g, m).failures <= Below(cfg.failureThreshold) + |Tripping(cfg, Act(cfg, g, m))|
  {
    var g', w := Act(cfg, g, m), m.worker;
    assert g'.pc[w] != DeleteBoth;
    if g.pc[w] != DeleteBoth {
      TrippingMoves(cfg, g, w, g');
      forall v | 0 <= v < |g.pc| ensures g.pc[v] != DeleteBoth {
        assert g'.pc[v] != DeleteBoth;
      }
    }
  }

  lemma SuccessesAccounted(cfg: Config, g: System, m: Move)
    requires m.worker < |g.pc| && Accounted(cfg, g)
    ensures Act(cfg, g, m).successes <= Below(cfg.successThreshold) + |Recovering(Act(cfg, g, m))|
  {
    RecoveringMoves(g, m.worker, Act(cfg, g, m));
  }

  lemma StampAccounted(cfg: Config, g: System, m: Move)
    requires m.worker < |g.pc| && Accounted(cfg, g)
    requires Act(cfg, g, m).state == OPEN
    ensures Act(cfg, g, m).stamped || Stamping(Act(cfg, g, m))
  {
    var g', w := Act(cfg, g, m), m.worker;
    if g.state == OPEN && !g.stamped {
      var v :| 0 <= v < |g.pc| && OwesStamp(g.pc[v]);
      assert v != w ==> OwesStamp(g'.pc[v]);
    }
    assert g.pc[w] == ReopenState || g.pc[w] == TripState ==> OwesStamp(g'.pc[w]);
  }

  /** In every interleaving, every excess is accounted for. */
  lemma {:induction false} EveryScheduleAccounted(cfg: Config, workers: nat, moves: seq<Move>)
    requires ValidSchedule(workers, moves)
    ensures Accounted(cfg, After(cfg, workers, moves))
  {
    if |moves| > 0 {
      var g, m := After(cfg, workers, moves[..|moves| - 1]), moves[|moves| - 1];
      EveryScheduleAccounted(cfg, workers, moves[..|moves| - 1]);
      if Act(cfg, g, m).state == CLOSED && !Deleting(Act(cfg, g, m)) {
        FailuresAccounted(cfg, g, m);
      }
      SuccessesAccounted(cfg, g, m);
      if Act(cfg, g, m).state == OPEN {
        StampAccounted(cfg, g, m);
      }
    }
  }

  // ----- main results -----

  /** A closed circuit with too many failures, or too many successes, has a worker that owes the write
      that will clear it. */
  lemma {:induction false} ExcessNamesAWorker(cfg: Config, workers: nat, moves: seq<Move>)
    requires ValidSchedule(workers, moves)
    ensures var g := After(cfg, workers, moves);
            && (g.state == CLOSED && g.failures > 0 && g.failures >= cfg.failureThreshold ==>
                  exists w :: 0 <= w < workers && (OwesTrip(cfg, g.pc[w]) || g.pc[w] == DeleteBoth))
            && (g.successes > 0 && g.successes >= cfg.successThreshold ==>
                  exists w :: 0 <= w < workers && OwesRecovery(g.pc[w]))
  {
    EveryScheduleAccounted(cfg, workers, moves);
    var g := After(cfg, workers, moves);
    if g.successes > 0 && g.successes >= cfg.successThreshold {
      assert |Recovering(g)| > 0;
      var w :| w in Recovering(g);
      assert OwesRecovery(g.pc[w]);
    }
    if g.state == CLOSED && g.failures > 0 && g.failures >= cfg.failureThreshold && !Deleting(g) {
      assert |Tripping(cfg, g)| > 0;
      var w :| w in Tripping(cfg, g);
      assert OwesTrip(cfg, g.pc[w]);
    }
  }

  /** With all workers at rest the counters are below their thresholds and an open circuit is stamped. */
  lemma {:induction false} QuietSystemIsSound(cfg: Config, workers: nat, moves: seq<Move>)
    requires ValidSchedule(workers, moves)
    requires forall w :: 0 <= w < workers ==> After(cfg, workers, moves).pc[w] == Idle
    ensures var g := After(cfg, workers, moves);
            && (g.state == CLOSED ==> g.failures <= Below(cfg.failureThreshold))
            && g.successes <= Below(cfg.successThreshold)
            && (g.state == OPEN ==> g.stamped)
  {
    EveryScheduleAccounted(cfg, workers, moves);
    var g := After(cfg, workers, moves);
    assert Tripping(cfg, g) == {} && Recovering(g) == {};
  }

  lemma {:induction false} SubsetOfWorkers(s: set<nat>, n: nat)
    requires forall w :: w in s ==> w < n
    ensures |s| <= n
  {
    if n == 0 {
      assert s == {};
    } else {
      SubsetOfWorkers(s - {n - 1}, n - 1);
      assert |s| <= |s - {n - 1}| + 1;
    }
  }

  /** However the workers race, the counters overshoot by at most one per worker. */
  lemma {:induction false} OvershootBounded(cfg: Config, workers: nat, moves: seq<Move>)
    requires ValidSchedule(workers, moves)
    ensures var g := After(cfg, workers, moves);
            && g.successes <= Below(cfg.successThreshold) + workers
            && (g.state == CLOSED && !Deleting(g) ==> g.failures <= Below(cfg.failureThreshold) + workers)
  {
    EveryScheduleAccounted(cfg, workers, moves);
    var g := After(cfg, workers, moves);
    SubsetOfWorkers(Recovering(g), workers);
    SubsetOfWorkers(Tripping(cfg, g), workers);
  }

  // ----- one worker keeps the state diagram -----

  predicate InDiagram(before: CircuitState, after: CircuitState) {
    || before == after
    || (before, after) in {(CLOSED, OPEN), (OPEN, HALF_OPEN), (HALF_OPEN, CLOSED), (HALF_OPEN, OPEN)}
  }

  /** A lone worker's pending write always matches the state that it read. */
  predicate LoneWorker(g: System) {
    && |g.pc| == 1
    && match g.pc[0]
       case CheckReset | EnterHalfOpen => g.state == OPEN
       case Running | SuccessRead | FailureRead => g.state != OPEN
       case SuccessIncr | CloseState | ReopenState => g.state == HALF_OPEN
       case DeleteBoth | DeleteFailures | FailureIncr | FailureExpire(_) | TripState => g.state == CLOSED
       case ReopenStamp | DeleteSuccesses | TripStamp => g.state == OPEN
       case Idle => true
  }

  lemma {:induction false} LoneWorkerKept(cfg: Config, moves: seq<Move>)
    requires ValidSchedule(1, moves)
    ensures LoneWorker(After(cfg, 1, moves))
  {
    if |moves| > 0 {
      LoneWorkerKept(cfg, moves[..|moves| - 1]);
    }
  }

  lemma {:induction false} OneWorkerKeepsDiagram(cfg: Config, moves: seq<Move>, m: Move)
    requires ValidSchedule(1, moves) && m.worker == 0
    ensures var g := After(cfg, 1, moves);
            InDiagram(g.state, Act(cfg, g, m).state)
  {
    LoneWorkerKept(cfg, moves);
  }
}
