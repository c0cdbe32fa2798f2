/**
 What the breaker means, told without Redis keys: a phase, the outcomes of the current closed
 period, and the probe successes since the circuit last closed or failed a probe. The counters,
 their deadlines and the stored failure stamp are shown to implement exactly this.
 */
module BreakerReference {
  import opened Options
  import opened Redis
  import opened CircuitBreaker

  datatype Outcome = Outcome(at: real, ok: bool)

  datatype Phase = Closed | Open(since: real) | Probing(since: real)

  datatype Circuit = Circuit(phase: Phase, period: seq<Outcome>, wins: nat)

  const FRESH := Circuit(Closed, [], 0)

  /** The phase seen at a given time: both other phases lapse into Closed after an hour. */
  function PhaseAt(p: Phase, now: real): Phase {
    if p != Closed && now >= p.since + 3600.0 then Closed else p
  }

  /** Length of the longest run of failures, each within a minute of the next, that ends within a
      minute of `now`. */
  function FailureRun(period: seq<Outcome>, now: real): nat {
    if |period| == 0 then 0
    else
      var last := period[|period| - 1];
      if !last.ok && now < last.at + 60.0 then 1 + FailureRun(period[..|period| - 1], last.at) else 0
  }

  /** A circuit opened at `since` still turns calls away at `now`. */
  predicate BlackedOut(cfg: Config, since: real, now: real) {
    now < since + 3600.0 && now < (since.Floor + cfg.recoveryTimeout) as real
  }

  function Finish(cfg: Config, r: Circuit, now: real, ok: bool): Circuit {
    match PhaseAt(r.phase, now)
    case Open(_) => r
    case Probing(_) =>
      if !ok then Circuit(Open(now), [], 0)
      else if r.wins + 1 >= cfg.successThreshold then FRESH
      else r.(wins := r.wins + 1)
    case Closed =>
      var period := r.period + [Outcome(now, ok)];
      if !ok && FailureRun(period, now) >= cfg.failureThreshold
      then Circuit(Open(now), [], r.wins)
      else Circuit(Closed, period, r.wins)
  }

  function Step(cfg: Config, r: Circuit, c: Call): (Circuit, Verdict) {
    var verdict := if c.ok then Returned else Raised;
    match PhaseAt(r.phase, c.start)
    case Open(since) =>
      if BlackedOut(cfg, since, c.start) then (r, Rejected)
      else (Finish(cfg, r.(phase := Probing(c.start)), c.finish, c.ok), verdict)
    case _ => (Finish(cfg, r, c.finish, c.ok), verdict)
  }

  // ----- runs -----

  /** Calls of one worker: one after the other on a clock that never goes back. */
  ghost predicate ValidRun(calls: seq<Call>) {
    && (forall i :: 0 <= i < |calls| ==> 0.0 <= calls[i].start <= calls[i].finish)
    && (forall i, j :: 0 <= i < j < |calls| ==> calls[i].finish <= calls[j].start)
  }

  function Last(calls: seq<Call>): real {
    if |calls| == 0 then 0.0 else calls[|calls| - 1].finish
  }

  function KeysAfter(cfg: Config, calls: seq<Call>): Keys {
    if |calls| == 0 then NO_KEYS
    else CallStep(cfg, KeysAfter(cfg, calls[..|calls| - 1]), calls[|calls| - 1]).0
  }

  function CircuitAfter(cfg: Config, calls: seq<Call>): Circuit {
    if |calls| == 0 then FRESH
    else Step(cfg, CircuitAfter(cfg, calls[..|calls| - 1]), calls[|calls| - 1]).0
  }

  // ----- the abstraction relation -----

  /** A failures key that carries no information any more at `now`. */
  predicate Spent(e: Entry<int>, now: real) {
    e.Present? ==> e.expiry.At? && e.expiry.deadline <= now
  }

  predicate StateMatches(k: Keys, r: Circuit, now: real) {
    match r.phase
    case Closed => Live(k.state, now) ==> k.state.value == CLOSED
    case Probing(s) => k.state == Present(HALF_OPEN, At(s + 3600.0)) && s <= now
    case Open(s) =>
      && k.state == Present(OPEN, At(s + 3600.0)) && s <= now
      && k.lastFailure == Present(s.Floor, At(s + 3600.0))
  }

  predicate FailuresMatch(cfg: Config, k: Keys, r: Circuit, now: real) {
    match r.phase
    case Closed =>
      if |r.period| > 0 && !r.period[|r.period| - 1].ok then
        var a := r.period[|r.period| - 1].at;
        && a <= now
        && k.failures == Present(FailureRun(r.period, a), At(a + 60.0))
        && FailureRun(r.period, a) < cfg.failureThreshold
      else
        Spent(k.failures, now)
    case _ => r.period == [] && Spent(k.failures, r.phase.since + 3600.0)
  }

  predicate SuccessesMatch(cfg: Config, k: Keys, r: Circuit) {
    if r.wins == 0 then k.successes == Absent
    else k.successes == Present(r.wins, Never) && r.wins < cfg.successThreshold
  }

  predicate Implements(cfg: Config, k: Keys, r: Circuit, now: real) {
    StateMatches(k, r, now) && FailuresMatch(cfg, k, r, now) && SuccessesMatch(cfg, k, r)
  }

  lemma Waiting(cfg: Config, k: Keys, r: Circuit, now: real, later: real)
    requires Implements(cfg, k, r, now) && now <= later
    ensures Implements(cfg, k, r, later)
  {
  }

  lemma ReadsPhase(cfg: Config, k: Keys, r: Circuit, now: real)
    requires Implements(cfg, k, r, now)
    ensures GetState(k, now) == match PhaseAt(r.phase, now)
                                case Closed => CLOSED
                                case Open(_) => OPEN
                                case Probing(_) => HALF_OPEN
  {
  }

  lemma ClosedFailureKeeps(cfg: Config, k: Keys, r: Circuit, now: real)
    requires Implements(cfg, k, r, now) && PhaseAt(r.phase, now) == Closed
    ensures Implements(cfg, OnFailure(cfg, k, now), Finish(cfg, r, now, false), now)
  {
    ReadsPhase(cfg, k, r, now);
    var period := r.period + [Outcome(now, false)];
    assert period[..|period| - 1] == r.period;
    if r.phase != Closed {
      assert r.period == [] && Spent(k.failures, now);
    }
    assert Incr(k.failures, now).value == FailureRun(period, now);
    assert OnFailure(cfg, k, now).failures == Present(FailureRun(period, now), At(now + 60.0));
  }

  lemma ClosedSuccessKeeps(cfg: Config, k: Keys, r: Circuit, now: real)
    requires Implements(cfg, k, r, now) && PhaseAt(r.phase, now) == Closed
    ensures Implements(cfg, OnSuccess(cfg, k, now), Finish(cfg, r, now, true), now)
  {
    ReadsPhase(cfg, k, r, now);
  }

  lemma ProbeKeeps(cfg: Config, k: Keys, r: Circuit, c: Call)
    requires Implements(cfg, k, r, c.finish) && PhaseAt(r.phase, c.finish).Probing?
    ensures Implements(cfg, Settle(cfg, k, c), Finish(cfg, r, c.finish, c.ok), c.finish)
  {
    ReadsPhase(cfg, k, r, c.finish);
  }

  /** Settling an admitted call keeps the keys and the circuit in step. */
  lemma FinishKeeps(cfg: Config, k: Keys, r: Circuit, c: Call)
    requires Implements(cfg, k, r, c.finish)
    ensures Implements(cfg, Settle(cfg, k, c), Finish(cfg, r, c.finish, c.ok), c.finish)
  {
    match PhaseAt(r.phase, c.finish) {
      case Open(_) => ReadsPhase(cfg, k, r, c.finish);
      case Probing(_) => ProbeKeeps(cfg, k, r, c);
      case Closed =>
        if c.ok { ClosedSuccessKeeps(cfg, k, r, c.finish); } else { ClosedFailureKeeps(cfg, k, r, c.finish); }
    }
  }

  lemma StepKeeps(cfg: Config, k: Keys, r: Circuit, c: Call, now: real)
    requires Implements(cfg, k, r, now) && now <= c.start <= c.finish
    ensures CallStep(cfg, k, c).1 == Step(cfg, r, c).1
    ensures Implements(cfg, CallStep(cfg, k, c).0, Step(cfg, r, c).0, c.finish)
  {
    Waiting(cfg, k, r, now, c.start);
    ReadsPhase(cfg, k, r, c.start);
    match PhaseAt(r.phase, c.start) {
      case Open(since) =>
        assert Admits(cfg, k, c.start) <==> !BlackedOut(cfg, since, c.start);
        if Admits(cfg, k, c.start) {
          var k', r' := Enter(k, c.start), r.(phase := Probing(c.start));
          assert Implements(cfg, k', r', c.start);
          Waiting(cfg, k', r', c.start, c.finish);
          FinishKeeps(cfg, k', r', c);
        } else {
          Waiting(cfg, k, r, c.start, c.finish);
        }
      case _ =>
        Waiting(cfg, k, r, c.start, c.finish);
        FinishKeeps(cfg, k, r, c);
    }
  }

  lemma {:induction false} RunKeeps(cfg: Config, calls: seq<Call>)
    requires ValidRun(calls)
    ensures Implements(cfg, KeysAfter(cfg, calls), CircuitAfter(cfg, calls), Last(calls))
  {
    if |calls| > 0 {
      var before, c := calls[..|calls| - 1], calls[|calls| - 1];
      RunKeeps(cfg, before);
      StepKeeps(cfg, KeysAfter(cfg, before), CircuitAfter(cfg, before), c, Last(before));
    }
  }

  // ----- main results, for every run -----

  /** The breaker over Redis answers every call exactly as the reference circuit does. */
  lemma {:induction false} BreakerRefinesCircuit(cfg: Config, calls: seq<Call>, i: nat)
    requires ValidRun(calls) && i < |calls|
    ensures CallStep(cfg, KeysAfter(cfg, calls[..i]), calls[i]).1
         == Step(cfg, CircuitAfter(cfg, calls[..i]), calls[i]).1
  {
    RunKeeps(cfg, calls[..i]);
    StepKeeps(cfg, KeysAfter(cfg, calls[..i]), CircuitAfter(cfg, calls[..i]), calls[i], Last(calls[..i]));
  }

  lemma FailureRunShrinks(period: seq<Outcome>, now: real, later: real)
    requires now <= later
    ensures FailureRun(period, later) <= FailureRun(period, now)
  {
  }

  /** While the state reads CLOSED, the live failures counter is the length of the current run of
      failures, and stays below the threshold; this includes a CLOSED read off an expired key. */
  lemma {:induction false} CounterIsFailureRun(cfg: Config, calls: seq<Call>, now: real)
    requires ValidRun(calls) && Last(calls) <= now
    requires GetState(KeysAfter(cfg, calls), now) == CLOSED
    ensures var r := CircuitAfter(cfg, calls);
            var run := if r.phase == Closed then FailureRun(r.period, now) else 0;
            && Get(KeysAfter(cfg, calls).failures, now) == (if run == 0 then None else Some(run))
            && (run > 0 ==> run < cfg.failureThreshold)
  {
    var k, r := KeysAfter(cfg, calls), CircuitAfter(cfg, calls);
    RunKeeps(cfg, calls);
    Waiting(cfg, k, r, Last(calls), now);
    if r.phase == Closed && |r.period| > 0 && !r.period[|r.period| - 1].ok {
      FailureRunShrinks(r.period, r.period[|r.period| - 1].at, now);
    }
  }

  /** A live OPEN state always has its failure stamp, and no stored count ever sits at its threshold. */
  lemma {:induction false} KeyInvariants(cfg: Config, calls: seq<Call>, now: real)
    requires ValidRun(calls) && Last(calls) <= now
    ensures var k := KeysAfter(cfg, calls);
            && (GetState(k, now) == OPEN ==> Live(k.lastFailure, now))
            && (GetState(k, now) == CLOSED && Live(k.failures, now) ==> k.failures.value < cfg.failureThreshold)
            && (Live(k.successes, now) ==> k.successes.value < cfg.successThreshold)
  {
    RunKeeps(cfg, calls);
    if GetState(KeysAfter(cfg, calls), now) == CLOSED {
      CounterIsFailureRun(cfg, calls, now);
    }
  }

  /** The last call of a run, seen from both sides. */
  lemma LastCall(cfg: Config, calls: seq<Call>, c: Call)
    requires ValidRun(calls + [c])
    ensures ValidRun(calls) && c.start <= c.finish
    ensures KeysAfter(cfg, calls + [c]) == CallStep(cfg, KeysAfter(cfg, calls), c).0
    ensures CircuitAfter(cfg, calls + [c]) == Step(cfg, CircuitAfter(cfg, calls), c).0
    ensures Implements(cfg, KeysAfter(cfg, calls), CircuitAfter(cfg, calls), c.start)
    ensures Implements(cfg, KeysAfter(cfg, calls + [c]), CircuitAfter(cfg, calls + [c]), c.finish)
  {
    var run := calls + [c];
    assert run[..|run| - 1] == calls && run[|calls|] == c;
    assert forall i :: 0 <= i < |calls| ==> calls[i] == run[i];
    RunKeeps(cfg, calls);
    RunKeeps(cfg, run);
    Waiting(cfg, KeysAfter(cfg, calls), CircuitAfter(cfg, calls), Last(calls), c.start);
  }

  /** The circuit while an admitted call runs. */
  function Entered(r: Circuit, now: real): Circuit {
    if PhaseAt(r.phase, now).Open? then r.(phase := Probing(now)) else r
  }

  lemma EnterKeeps(cfg: Config, k: Keys, r: Circuit, c: Call)
    requires Implements(cfg, k, r, c.start) && Admits(cfg, k, c.start) && c.start <= c.finish
    ensures Implements(cfg, Enter(k, c.start), Entered(r, c.start), c.finish)
    ensures Step(cfg, r, c).0 == Finish(cfg, Entered(r, c.start), c.finish, c.ok)
  {
    ReadsPhase(cfg, k, r, c.start);
    Waiting(cfg, Enter(k, c.start), Entered(r, c.start), c.start, c.finish);
  }

  /** A call that finds the circuit closed when it finishes opens it exactly when it fails and makes
      the run of failures reach the threshold. */
  lemma {:induction false} TripsExactlyAtThreshold(cfg: Config, calls: seq<Call>, c: Call)
    requires ValidRun(calls + [c])
    requires Admits(cfg, KeysAfter(cfg, calls), c.start)
    requires GetState(Enter(KeysAfter(cfg, calls), c.start), c.finish) == CLOSED
    ensures var r := CircuitAfter(cfg, calls);
            var period := if r.phase == Closed then r.period else [];
            GetState(KeysAfter(cfg, calls + [c]), c.finish) == OPEN
            <==> !c.ok && FailureRun(period, c.finish) + 1 >= cfg.failureThreshold
  {
    LastCall(cfg, calls, c);
    var k, r := KeysAfter(cfg, calls), CircuitAfter(cfg, calls);
    EnterKeeps(cfg, k, r, c);
    ReadsPhase(cfg, Enter(k, c.start), Entered(r, c.start), c.finish);
    ReadsPhase(cfg, KeysAfter(cfg, calls + [c]), CircuitAfter(cfg, calls + [c]), c.finish);
    var period := r.period + [Outcome(c.finish, c.ok)];
    assert period[..|period| - 1] == r.period;
    assert r.phase != Closed ==> r.period == [];
  }

  // ----- when calls are turned away -----

  /** When the circuit was last opened: the end of the latest call that ran and left OPEN behind. */
  function LastOpening(cfg: Config, calls: seq<Call>): Option<real> {
    if |calls| == 0 then None
    else
      var before, c := calls[..|calls| - 1], calls[|calls| - 1];
      if CallStep(cfg, KeysAfter(cfg, before), c).1 != Rejected
         && GetState(KeysAfter(cfg, calls), c.finish) == OPEN
      then Some(c.finish)
      else LastOpening(cfg, before)
  }

  /** One call: a rejection changes nothing; a call that runs starts after the blackout, and leaves an
      open circuit only by opening it itself. */
  lemma StepMovesPhase(cfg: Config, r: Circuit, c: Call)
    requires c.start <= c.finish
    ensures var (r', verdict) := Step(cfg, r, c);
            if verdict == Rejected then r' == r && r.phase.Open?
            else
              && (r'.phase.Open? ==> r'.phase.since == c.finish)
              && (r.phase.Open? ==> !BlackedOut(cfg, r.phase.since, c.start))
  {
  }

  /** An open circuit dates from the last opening; any other phase means that its blackout is over. */
  lemma {:induction false} OpeningTracksPhase(cfg: Config, calls: seq<Call>)
    requires ValidRun(calls)
    ensures var lastOpen := LastOpening(cfg, calls);
            match CircuitAfter(cfg, calls).phase
            case Open(s) => lastOpen == Some(s)
            case _ => lastOpen.Some? ==> !BlackedOut(cfg, lastOpen.value, Last(calls))
  {
    if |calls| > 0 {
      var before, c := calls[..|calls| - 1], calls[|calls| - 1];
      OpeningTracksPhase(cfg, before);
      RunKeeps(cfg, before);
      var k, r := KeysAfter(cfg, before), CircuitAfter(cfg, before);
      StepKeeps(cfg, k, r, c, Last(before));
      StepMovesPhase(cfg, r, c);
      ReadsPhase(cfg, KeysAfter(cfg, calls), CircuitAfter(cfg, calls), c.finish);
    }
  }

  /** Rejection, both ways and for every run: a call is turned away exactly when it starts less than an
      hour after the last opening and before the whole second of that opening plus the timeout. */
  lemma {:induction false} RejectedIffBlackedOut(cfg: Config, calls: seq<Call>, i: nat)
    requires ValidRun(calls) && i < |calls|
    ensures CallStep(cfg, KeysAfter(cfg, calls[..i]), calls[i]).1 == Rejected
       <==> var lastOpen := LastOpening(cfg, calls[..i]);
            lastOpen.Some? && BlackedOut(cfg, lastOpen.value, calls[i].start)
  {
    var before := calls[..i];
    OpeningTracksPhase(cfg, before);
    BreakerRefinesCircuit(cfg, calls, i);
    assert Last(before) <= calls[i].start by { if i > 0 { assert calls[i - 1].finish <= calls[i].start; } }
  }

  /** The blackout falls short of the configured timeout, by less than a second, unless the hour-long
      deadline of the state key cuts it off first. */
  lemma BlackoutLength(cfg: Config, since: real, now: real)
    ensures BlackedOut(cfg, since, now) ==> now < since + cfg.recoveryTimeout as real
    ensures since <= now <= since + cfg.recoveryTimeout as real - 1.0 && now < since + 3600.0
            ==> BlackedOut(cfg, since, now)
  {
  }
}
