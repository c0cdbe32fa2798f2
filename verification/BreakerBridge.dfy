/**
 The bridge between the two models of the breaker: one worker whose call nobody disturbs does the same in
 the interleaved model, command by command, as the timed breaker does in one step.
 */
module BreakerBridge {
  import opened Redis
  import opened CircuitBreaker
  import opened BreakerInterleaved

  predicate Countable(k: Keys, now: real) {
    && (Live(k.failures, now) ==> k.failures.value >= 0)
    && (Live(k.successes, now) ==> k.successes.value >= 0)
  }

  /** The keys of the timed model as the interleaved model sees them at one moment. */
  function View(k: Keys, now: real, pc: Pc): System
    requires Countable(k, now)
  {
    System(GetState(k, now),
           if Live(k.failures, now) then k.failures.value else 0,
           if Live(k.successes, now) then k.successes.value else 0,
           Live(k.lastFailure, now),
           [pc])
  }

  /** One Redis command of a worker on the timed keys. */
  function Command(cfg: Config, k: Keys, p: Pc, now: real, ok: bool): (Keys, Pc) {
    match p
    case Idle => (k, if GetState(k, now) == OPEN then CheckReset else Running)
    case CheckReset => (k, if ShouldAttemptReset(cfg, k, now) then EnterHalfOpen else Idle)
    case EnterHalfOpen => (SetState(k, HALF_OPEN, now), Running)
    case Running => (k, if ok then SuccessRead else FailureRead)
    case SuccessRead =>
      (k, match GetState(k, now) case HALF_OPEN => SuccessIncr case CLOSED => DeleteFailures case OPEN => Idle)
    case SuccessIncr =>
      var count := Incr(k.successes, now);
      (k.(successes := count), if count.value >= cfg.successThreshold then CloseState else Idle)
    case CloseState => (SetState(k, CLOSED, now), DeleteBoth)
    case DeleteBoth => (k.(failures := Absent, successes := Absent), Idle)
    case DeleteFailures => (k.(failures := Absent), Idle)
    case FailureRead =>
      (k, match GetState(k, now) case HALF_OPEN => ReopenState case CLOSED => FailureIncr case OPEN => Idle)
    case ReopenState => (SetState(k, OPEN, now), ReopenStamp)
    case ReopenStamp => (k.(lastFailure := SetEx(now.Floor, now, STATE_TTL)), DeleteSuccesses)
    case DeleteSuccesses => (k.(successes := Absent), Idle)
    case FailureIncr => var count := Incr(k.failures, now); (k.(failures := count), FailureExpire(count.value))
    case FailureExpire(count) =>
      (k.(failures := Expire(k.failures, now, FAILURES_TTL)), if count >= cfg.failureThreshold then TripState else Idle)
    case TripState => (SetState(k, OPEN, now), TripStamp)
    case TripStamp => (k.(lastFailure := SetEx(now.Floor, now, STATE_TTL)), Idle)
  }

  /** Commands up to the end of the call. */
  function Drain(cfg: Config, k: Keys, p: Pc, now: real, ok: bool, fuel: nat): (Keys, Pc)
    decreases fuel
  {
    if p == Idle || fuel == 0 then (k, p)
    else
      var (k', p') := Command(cfg, k, p, now, ok);
      Drain(cfg, k', p', now, ok, fuel - 1)
  }

  /** A step of a lone worker is that command: forgetting the deadlines loses nothing at one moment. */
  lemma CommandMatchesAct(cfg: Config, k: Keys, p: Pc, now: real, m: Move)
    requires Countable(k, now) && m.worker == 0
    requires p == CheckReset && Live(k.lastFailure, now) ==> m.due == ShouldAttemptReset(cfg, k, now)
    ensures var (k', p') := Command(cfg, k, p, now, m.ok);
            Countable(k', now) && Act(cfg, View(k, now, p), m) == View(k', now, p')
  {
  }

  /** From the moment the protected function returns, at most six commands settle its outcome. */
  lemma {:induction false} SettleIsItsCommands(cfg: Config, k: Keys, c: Call, fuel: nat)
    requires fuel >= 6
    ensures Drain(cfg, k, Running, c.finish, c.ok, fuel) == (Settle(cfg, k, c), Idle)
  {
    var now, ok := c.finish, c.ok;
    var (k1, p1) := Command(cfg, k, Running, now, ok);
    var (k2, p2) := Command(cfg, k1, p1, now, ok);
    assert Drain(cfg, k, Running, now, ok, fuel) == Drain(cfg, k2, p2, now, ok, fuel - 2);
    if p2 != Idle {
      var (k3, p3) := Command(cfg, k2, p2, now, ok);
      assert Drain(cfg, k2, p2, now, ok, fuel - 2) == Drain(cfg, k3, p3, now, ok, fuel - 3);
      if p3 != Idle {
        var (k4, p4) := Command(cfg, k3, p3, now, ok);
        assert Drain(cfg, k3, p3, now, ok, fuel - 3) == Drain(cfg, k4, p4, now, ok, fuel - 4);
        if p4 != Idle {
          var (k5, p5) := Command(cfg, k4, p4, now, ok);
          var (k6, p6) := Command(cfg, k5, p5, now, ok);
          assert Drain(cfg, k4, p4, now, ok, fuel - 4) == Drain(cfg, k5, p5, now, ok, fuel - 5);
          assert p5 != Idle ==> Drain(cfg, k5, p5, now, ok, fuel - 5) == Drain(cfg, k6, p6, now, ok, fuel - 6);
        }
      }
    }
  }

  /** Commands up to the call of the protected function, or up to the rejection. */
  function Begin(cfg: Config, k: Keys, now: real): (Keys, Pc) {
    var (k1, p1) := Command(cfg, k, Idle, now, false);
    if p1 == Running then (k1, p1)
    else
      var (k2, p2) := Command(cfg, k1, p1, now, false);
      if p2 == Idle then (k2, p2) else Command(cfg, k2, p2, now, false)
  }

  /** A call is its commands: those at its start, and, if it is let through, those at its finish. */
  lemma {:induction false} CallIsItsCommands(cfg: Config, k: Keys, c: Call)
    ensures var (k1, p1) := Begin(cfg, k, c.start);
            var (k', verdict) := CallStep(cfg, k, c);
            if verdict == Rejected then (k1, p1) == (k', Idle)
            else p1 == Running && Drain(cfg, k1, Running, c.finish, c.ok, 6) == (k', Idle)
  {
    SettleIsItsCommands(cfg, Enter(k, c.start), c, 6);
  }

  /** Let worker 0 move until it is at rest. */
  function ToRest(cfg: Config, g: System, m: Move, fuel: nat): System
    requires |g.pc| == 1 && m.worker == 0
    decreases fuel
  {
    if g.pc[0] == Idle || fuel == 0 then g else ToRest(cfg, Act(cfg, g, m), m, fuel - 1)
  }

  lemma {:induction false} DrainMatchesToRest(cfg: Config, k: Keys, p: Pc, now: real, m: Move, fuel: nat)
    requires Countable(k, now) && m.worker == 0
    requires p == CheckReset && Live(k.lastFailure, now) ==> m.due == ShouldAttemptReset(cfg, k, now)
    ensures var (k', p') := Drain(cfg, k, p, now, m.ok, fuel);
            Countable(k', now) && ToRest(cfg, View(k, now, p), m, fuel) == View(k', now, p')
    decreases fuel
  {
    if p != Idle && fuel > 0 {
      CommandMatchesAct(cfg, k, p, now, m);
      var (k', p') := Command(cfg, k, p, now, m.ok);
      DrainMatchesToRest(cfg, k', p', now, m, fuel - 1);
    }
  }

  /** No key expires between the two times. */
  predicate NoneExpires(k: Keys, from: real, until: real) {
    && (Live(k.state, from) ==> Live(k.state, until))
    && (Live(k.failures, from) ==> Live(k.failures, until))
    && (Live(k.successes, from) ==> Live(k.successes, until))
    && (Live(k.lastFailure, from) ==> Live(k.lastFailure, until))
  }

  /** While the protected function runs and no key expires, the interleaved model sees nothing move. */
  lemma ViewStays(k: Keys, from: real, until: real, p: Pc)
    requires from <= until && NoneExpires(k, from, until) && Countable(k, from)
    ensures Countable(k, until) && View(k, from, p) == View(k, until, p)
  {
  }

  lemma {:induction false} SettleMatches(cfg: Config, k: Keys, c: Call, m: Move, fuel: nat)
    requires c.start <= c.finish && NoneExpires(k, c.start, c.finish) && Countable(k, c.start)
    requires m.worker == 0 && m.ok == c.ok && fuel >= 6
    ensures var k' := Settle(cfg, k, c);
            Countable(k', c.finish) && ToRest(cfg, View(k, c.start, Running), m, fuel) == View(k', c.finish, Idle)
  {
    ViewStays(k, c.start, c.finish, Running);
    DrainMatchesToRest(cfg, k, Running, c.finish, m, fuel);
    SettleIsItsCommands(cfg, k, c, fuel);
  }

  /** The bridge: one worker that runs a whole call, of any length but with no key expiring while the
      protected function runs, leaves the shared keys exactly as the timed breaker leaves them. */
  lemma {:induction false} LoneCallMatchesBreaker(cfg: Config, k: Keys, c: Call)
    requires Countable(k, c.start) && c.start <= c.finish
    requires NoneExpires(if Admits(cfg, k, c.start) then Enter(k, c.start) else k, c.start, c.finish)
    ensures var m := Move(0, ShouldAttemptReset(cfg, k, c.start), c.ok);
            var k' := CallStep(cfg, k, c).0;
            && Countable(k', c.finish)
            && ToRest(cfg, Act(cfg, View(k, c.start, Idle), m), m, 8) == View(k', c.finish, Idle)
  {
    var m := Move(0, ShouldAttemptReset(cfg, k, c.start), c.ok);
    CommandMatchesAct(cfg, k, Idle, c.start, m);
    if GetState(k, c.start) != OPEN {
      SettleMatches(cfg, k, c, m, 8);
    } else {
      CommandMatchesAct(cfg, k, CheckReset, c.start, m);
      assert ToRest(cfg, View(k, c.start, CheckReset), m, 8)
          == ToRest(cfg, Act(cfg, View(k, c.start, CheckReset), m), m, 7);
      if Admits(cfg, k, c.start) {
        CommandMatchesAct(cfg, k, EnterHalfOpen, c.start, m);
        var k1 := Enter(k, c.start);
        assert ToRest(cfg, View(k, c.start, EnterHalfOpen), m, 7) == ToRest(cfg, View(k1, c.start, Running), m, 6);
        SettleMatches(cfg, k1, c, m, 6);
      } else {
        ViewStays(k, c.start, c.finish, Idle);
      }
    }
  }
}
