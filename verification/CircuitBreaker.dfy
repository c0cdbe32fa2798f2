/**
 The circuit breaker as it runs on one worker: four Redis keys with their deadlines.
 A call reads the state when it starts, runs the protected function, and settles the
 outcome when the function returns; time may pass in between.
 */
module CircuitBreaker {
  import opened Redis

  datatype CircuitState = CLOSED | OPEN | HALF_OPEN

  datatype Config = Config(failureThreshold: int, recoveryTimeout: int, successThreshold: int)

  const STATE_TTL := 3600
  const FAILURES_TTL := 60

  datatype Keys = Keys(
    state: Entry<CircuitState>,
    failures: Entry<int>,
    successes: Entry<int>,
    lastFailure: Entry<int>)

  const NO_KEYS := Keys(Absent, Absent, Absent, Absent)

  /** One use of `call`: when it starts, when the protected function is done, and how it ended. */
  datatype Call = Call(start: real, finish: real, ok: bool)

  datatype Verdict = Rejected | Returned | Raised

  // ----- specification: what each operation does to the keys -----

  function GetState(k: Keys, now: real): CircuitState {
    if Live(k.state, now) then k.state.value else CLOSED
  }

  function SetState(k: Keys, s: CircuitState, now: real): Keys {
    k.(state := SetEx(s, now, STATE_TTL))
  }

  predicate ShouldAttemptReset(cfg: Config, k: Keys, now: real) {
    match Get(k.lastFailure, now)
    case None => true
    case Some(stamp) => now - stamp as real >= cfg.recoveryTimeout as real
  }

  function OnSuccess(cfg: Config, k: Keys, now: real): Keys {
    match GetState(k, now)
    case HALF_OPEN =>
      var counted := k.(successes := Incr(k.successes, now));
      if counted.successes.value >= cfg.successThreshold then
        SetState(counted, CLOSED, now).(failures := Absent, successes := Absent)
      else
        counted
    case CLOSED => k.(failures := Absent)
    case OPEN => k
  }

  function OnFailure(cfg: Config, k: Keys, now: real): Keys {
    match GetState(k, now)
    case HALF_OPEN =>
      SetState(k, OPEN, now).(lastFailure := SetEx(now.Floor, now, STATE_TTL), successes := Absent)
    case CLOSED =>
      var counted := k.(failures := Expire(Incr(k.failures, now), now, FAILURES_TTL));
      if Incr(k.failures, now).value >= cfg.failureThreshold then
        SetState(counted, OPEN, now).(lastFailure := SetEx(now.Floor, now, STATE_TTL))
      else
        counted
    case OPEN => k
  }

  predicate Admits(cfg: Config, k: Keys, now: real) {
    GetState(k, now) == OPEN ==> ShouldAttemptReset(cfg, k, now)
  }

  /** The keys while the protected function runs. */
  function Enter(k: Keys, now: real): Keys {
    if GetState(k, now) == OPEN then SetState(k, HALF_OPEN, now) else k
  }

  function Settle(cfg: Config, k: Keys, c: Call): Keys {
    if c.ok then OnSuccess(cfg, k, c.finish) else OnFailure(cfg, k, c.finish)
  }

  function CallStep(cfg: Config, k: Keys, c: Call): (Keys, Verdict) {
    if Admits(cfg, k, c.start) then
      (Settle(cfg, Enter(k, c.start), c), if c.ok then Returned else Raised)
    else
      (k, Rejected)
  }

  // ----- the breaker object -----

  class Breaker {
    const cfg: Config
    var state: Entry<CircuitState>
    var failures: Entry<int>
    var successes: Entry<int>
    var lastFailure: Entry<int>

    function Store(): Keys
      reads this
    {
      Keys(state, failures, successes, lastFailure)
    }

    /** The object is made anew on each worker; the keys are whatever Redis already holds under the name. */
    constructor (cfg: Config, found: Keys)
      ensures this.cfg == cfg && Store() == found
    {
      this.cfg := cfg;
      state, failures, successes, lastFailure := found.state, found.failures, found.successes, found.lastFailure;
    }

    method ReadState(now: real) returns (s: CircuitState)
      ensures s == GetState(Store(), now)
    {
      var raw := Get(state, now);
      if raw.Some? {
        return raw.value;
      }
      return CLOSED;
    }

    method WriteState(s: CircuitState, now: real)
      modifies this`state
      ensures Store() == SetState(old(Store()), s, now)
    {
      state := SetEx(s, now, STATE_TTL);
    }

    method ResetDue(now: real) returns (due: bool)
      ensures due == ShouldAttemptReset(cfg, Store(), now)
    {
      var raw := Get(lastFailure, now);
      if raw.None? {
        return true;
      }
      return now - raw.value as real >= cfg.recoveryTimeout as real;
    }

    method RecordSuccess(now: real)
      modifies this
      ensures Store() == OnSuccess(cfg, old(Store()), now)
    {
      var s := ReadState(now);
      if s == HALF_OPEN {
        successes := Incr(successes, now);
        if successes.value >= cfg.successThreshold {
          WriteState(CLOSED, now);
          failures, successes := Absent, Absent;
        }
      } else if s == CLOSED {
        failures := Absent;
      }
    }

    method RecordFailure(now: real)
      modifies this
      ensures Store() == OnFailure(cfg, old(Store()), now)
    {
      var s := ReadState(now);
      if s == HALF_OPEN {
        WriteState(OPEN, now);
        lastFailure := SetEx(now.Floor, now, STATE_TTL);
        successes := Absent;
      } else if s == CLOSED {
        failures := Incr(failures, now);
        var count := failures.value;
        failures := Expire(failures, now, FAILURES_TTL);
        if count >= cfg.failureThreshold {
          WriteState(OPEN, now);
          lastFailure := SetEx(now.Floor, now, STATE_TTL);
        }
      }
    }

    method Guard(c: Call) returns (v: Verdict)
      modifies this
      ensures (Store(), v) == CallStep(cfg, old(Store()), c)
    {
      var s := ReadState(c.start);
      if s == OPEN {
        var due := ResetDue(c.start);
        if !due {
          return Rejected;
        }
        WriteState(HALF_OPEN, c.start);
      }
      if c.ok {
        RecordSuccess(c.finish);
        return Returned;
      } else {
        RecordFailure(c.finish);
        return Raised;
      }
    }
  }
}
