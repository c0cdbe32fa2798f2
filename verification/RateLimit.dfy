/**
 The sliding-window rate limiter: one Redis sorted set per client key, holding the timestamps of the
 attempts in the window. The timestamp is read before the Redis pipeline runs, so an attempt has two
 times: `now`, its own timestamp, and `at`, the server time at which its commands are executed.
 */
module RateLimit {
  import opened Redis

  /** A sorted set whose members are the timestamps themselves: equal timestamps are one member. */
  type ZSet = Entry<set<real>>

  datatype Attempt = Attempt(now: real, at: real)

  datatype Answer = Answer(allowed: bool, remaining: int, resetTime: real)

  // ----- one check -----

  function Members(z: ZSet, at: real): set<real> {
    if Live(z, at) then z.value else {}
  }

  /** The pipeline: ZREMRANGEBYSCORE 0..now-window, ZADD now, EXPIRE 2*window. */
  function Stored(z: ZSet, window: int, a: Attempt): ZSet {
    SetEx((set t | t in Members(z, a.at) && !(0.0 <= t <= a.now - window as real)) + {a.now}, a.at, window * 2)
  }

  function Answered(count: int, limit: int, window: int, now: real): Answer {
    Answer(count <= limit, if limit - count > 0 then limit - count else 0, now + window as real)
  }

  function Check(z: ZSet, limit: int, window: int, a: Attempt): (ZSet, Answer) {
    var z' := Stored(z, window, a);
    (z', Answered(|z'.value|, limit, window, a.now))
  }

  // ----- a run on one key -----

  function After(window: int, run: seq<Attempt>): ZSet {
    if |run| == 0 then Absent else Stored(After(window, run[..|run| - 1]), window, run[|run| - 1])
  }

  function AnswerTo(limit: int, window: int, run: seq<Attempt>, i: nat): Answer
    requires i < |run|
  {
    Check(After(window, run[..i]), limit, window, run[i]).1
  }

  /** Attempts are executed in order on the server clock, each at most `d` seconds after its timestamp was
      read; timestamps may therefore arrive out of order by up to `d`. */
  ghost predicate ValidRun(run: seq<Attempt>, d: real) {
    && (forall i :: 0 <= i < |run| ==> 0.0 <= run[i].now <= run[i].at <= run[i].now + d)
    && (forall i, j :: 0 <= i < j < |run| ==> run[i].at <= run[j].at)
  }

  /** Attempt i was admitted, with its timestamp in lo < t <= hi. */
  predicate AdmittedAt(limit: int, window: int, run: seq<Attempt>, lo: real, hi: real, i: int)
    requires 0 <= i < |run|
  {
    AnswerTo(limit, window, run, i).allowed && lo < run[i].now <= hi
  }

  /** The distinct timestamps of the attempts admitted in lo < t <= hi. */
  function Admitted(limit: int, window: int, run: seq<Attempt>, lo: real, hi: real): set<real> {
    set i | 0 <= i < |run| && AdmittedAt(limit, window, run, lo, hi, i) :: run[i].now
  }

  /** An attempt stays in the set as long as no later one is a whole window ahead of it. */
  lemma {:induction false} Retained(window: int, d: real, run: seq<Attempt>, i: nat)
    requires 0.0 <= d < window as real && ValidRun(run, d) && i < |run|
    requires forall k :: i <= k < |run| ==> run[k].now - window as real < run[i].now
    ensures After(window, run).Present? && run[i].now in After(window, run).value
  {
    var n := |run| - 1;
    if i < n {
      Retained(window, d, run[..n], i);
      var z := After(window, run[..n]);
      assert z.expiry == At(run[..n][n - 1].at + (window * 2) as real);
      assert run[i].at <= run[n - 1].at && run[n].now - window as real < run[i].now;
      assert run[n - 1].at + (window * 2) as real > run[n].at;
    }
  }

  /** Nothing is in the set but attempts of the run that no later attempt has pruned. */
  lemma {:induction false} OnlyAttempts(window: int, run: seq<Attempt>, t: real)
    requires After(window, run).Present? && t in After(window, run).value
    ensures exists i :: 0 <= i < |run| && run[i].now == t
                        && forall k :: i < k < |run| ==> t < 0.0 || run[k].now - window as real < t
  {
    var n := |run| - 1;
    if t == run[n].now {
    } else {
      OnlyAttempts(window, run[..n], t);
      var i :| 0 <= i < n && run[..n][i].now == t
               && forall k :: i < k < n ==> t < 0.0 || run[..n][k].now - window as real < t;
      assert run[i].now == t;
      forall k | i < k < |run| ensures t < 0.0 || run[k].now - window as real < t {
        assert k < n ==> run[..n][k] == run[k];
      }
    }
  }

  // ----- main results for one key -----

  /** Two attempts less than window - d apart: the earlier one is still stored when the later one counts. */
  lemma StillStored(window: int, d: real, run: seq<Attempt>, lo: real, hi: real, i: nat, j: nat)
    requires 0.0 <= d < window as real && ValidRun(run, d) && i <= j < |run|
    requires hi <= lo + (window as real - d) && lo < run[i].now && run[j].now <= hi
    ensures run[i].now in Stored(After(window, run[..j]), window, run[j]).value
  {
    var upTo := run[..j + 1];
    assert upTo[..j] == run[..j] && upTo[j] == run[j];
    forall k | i <= k < |upTo| ensures upTo[k].now - window as real < upTo[i].now {
      assert run[k].now <= run[k].at <= run[j].at <= run[j].now + d;
    }
    Retained(window, d, upTo, i);
  }

  lemma {:induction false} LastTrue(flags: seq<bool>, first: nat) returns (j: nat)
    requires first < |flags| && flags[first]
    ensures j < |flags| && flags[j]
    ensures forall i :: j < i < |flags| ==> !flags[i]
  {
    var n := |flags| - 1;
    if flags[n] {
      j := n;
    } else {
      j := LastTrue(flags[..n], first);
    }
  }

  lemma LatestAdmitted(limit: int, window: int, run: seq<Attempt>, lo: real, hi: real, t: real) returns (j: nat)
    requires t in Admitted(limit, window, run, lo, hi)
    ensures j < |run| && AdmittedAt(limit, window, run, lo, hi, j)
    ensures forall i :: 0 <= i < |run| && AdmittedAt(limit, window, run, lo, hi, i) ==> i <= j
  {
    var first :| 0 <= first < |run| && AdmittedAt(limit, window, run, lo, hi, first) && run[first].now == t;
    var flags := seq(|run|, i requires 0 <= i < |run| => AdmittedAt(limit, window, run, lo, hi, i));
    assert flags[first];
    j := LastTrue(flags, first);
    forall i | 0 <= i < |run| && AdmittedAt(limit, window, run, lo, hi, i) ensures i <= j {
      assert flags[i];
    }
  }

  lemma {:induction false} CardinalityMonotone(a: set<real>, b: set<real>)
    requires a <= b
    ensures |a| <= |b|
  {
    assert a + (b - a) == b;
  }

  /** The rate bound under clock skew: whatever the run, no half-open interval of length window - d holds
      more than `limit` distinct admitted timestamps. With d = 0 the interval is the whole window. */
  lemma {:induction false} WindowBound(limit: int, window: int, d: real, run: seq<Attempt>, lo: real, hi: real)
    requires 0.0 <= d < window as real && ValidRun(run, d)
    requires hi <= lo + (window as real - d)
    ensures |Admitted(limit, window, run, lo, hi)| <= if limit > 0 then limit else 0
  {
    var admitted := Admitted(limit, window, run, lo, hi);
    if t :| t in admitted {
      var j := LatestAdmitted(limit, window, run, lo, hi, t);
      var stored := Stored(After(window, run[..j]), window, run[j]).value;
      assert |stored| <= limit by { assert AnswerTo(limit, window, run, j).allowed; }
      forall t | t in admitted ensures t in stored {
        var i :| 0 <= i < |run| && AdmittedAt(limit, window, run, lo, hi, i) && run[i].now == t;
        StillStored(window, d, run, lo, hi, i, j);
      }
      CardinalityMonotone(admitted, stored);
    } else {
      assert admitted == {};
    }
  }

  lemma AdmittedContains(limit: int, window: int, run: seq<Attempt>, lo: real, hi: real, i: nat)
    requires i < |run| && AnswerTo(limit, window, run, i).allowed && lo < run[i].now <= hi
    ensures run[i].now in Admitted(limit, window, run, lo, hi)
  {
    assert AdmittedAt(limit, window, run, lo, hi, i);
  }

  /** All attempts of a run, admitted or not, with their timestamp in lo < t <= hi. */
  function Attempted(run: seq<Attempt>, lo: real, hi: real): set<real> {
    set i | 0 <= i < |run| && lo < run[i].now <= hi :: run[i].now
  }

  /** With a clock that never goes back, the stored set is exactly the recent history: the distinct
      attempt times of the last window, admitted or not. Pruning and the key's expiry lose nothing. */
  lemma {:induction false} SetIsRecentHistory(window: int, run: seq<Attempt>)
    requires window > 0 && ValidRun(run, 0.0) && |run| > 0
    ensures var now := run[|run| - 1].now;
            After(window, run).value == Attempted(run, now - window as real, now)
  {
    var now := run[|run| - 1].now;
    var z := After(window, run);
    forall t | t in z.value ensures t in Attempted(run, now - window as real, now) {
      OnlyAttempts(window, run, t);
      var i :| 0 <= i < |run| && run[i].now == t
               && forall k :: i < k < |run| ==> t < 0.0 || run[k].now - window as real < t;
      assert run[i].at <= run[|run| - 1].at;
      assert i < |run| - 1 ==> run[|run| - 1].now - window as real < t;
    }
    forall t | t in Attempted(run, now - window as real, now) ensures t in z.value {
      var i :| 0 <= i < |run| && now - window as real < run[i].now <= now && run[i].now == t;
      forall k | i <= k < |run| ensures run[k].now - window as real < run[i].now {
        assert run[k].at <= run[|run| - 1].at;
      }
      Retained(window, 0.0, run, i);
    }
  }

  /** The exact decision with such a clock: an attempt is admitted if and only if at most `limit` distinct
      attempt times, its own and the rejected ones included, lie in the window that ends with it. */
  lemma {:induction false} AdmittedIff(limit: int, window: int, run: seq<Attempt>, i: nat)
    requires window > 0 && ValidRun(run, 0.0) && i < |run|
    ensures var now := run[i].now;
            var recent := |Attempted(run[..i + 1], now - window as real, now)|;
            && (AnswerTo(limit, window, run, i).allowed <==> recent <= limit)
            && (AnswerTo(limit, window, run, i).remaining == if recent < limit then limit - recent else 0)
  {
    var upTo := run[..i + 1];
    assert upTo[..i] == run[..i];
    SetIsRecentHistory(window, upTo);
  }

  /** Equal stamps count once: any number of attempts with one stamp are all admitted, under any limit of at
      least one. The rate bound is therefore one on stamps, not on attempts. */
  lemma {:induction false} OneStampAllAdmitted(limit: int, window: int, run: seq<Attempt>, t: real, i: nat)
    requires limit >= 1 && i < |run| && forall k :: 0 <= k < |run| ==> run[k].now == t
    ensures AnswerTo(limit, window, run, i).allowed
  {
    var stored := Stored(After(window, run[..i]), window, run[i]).value;
    forall u | u in stored ensures u in {t} {
      if u != t {
        OnlyAttempts(window, run[..i], u);
      }
    }
    CardinalityMonotone(stored, {t});
  }

  /** The places of the attempts admitted with their timestamp in lo < t <= hi. */
  function AdmittedPlaces(limit: int, window: int, run: seq<Attempt>, lo: real, hi: real): set<int> {
    set i | 0 <= i < |run| && AdmittedAt(limit, window, run, lo, hi, i)
  }

  function Marked(marks: seq<bool>): set<int> {
    set i | 0 <= i < |marks| && marks[i]
  }

  function MarkedStamps(marks: seq<bool>, run: seq<Attempt>): set<real>
    requires |marks| == |run|
  {
    set i | 0 <= i < |marks| && marks[i] :: run[i].now
  }

  /** Two marked attempts share a stamp. */
  predicate ShareStamp(marks: seq<bool>, run: seq<Attempt>)
    requires |marks| == |run|
  {
    exists i, j :: 0 <= i < j < |marks| && marks[i] && marks[j] && run[i].now == run[j].now
  }

  lemma LastMark(marks: seq<bool>, run: seq<Attempt>, n: nat)
    requires |marks| == |run| == n + 1
    ensures Marked(marks) == Marked(marks[..n]) + if marks[n] then {n} else {}
    ensures MarkedStamps(marks, run) == MarkedStamps(marks[..n], run[..n]) + if marks[n] then {run[n].now} else {}
  {
    forall t | t in MarkedStamps(marks[..n], run[..n]) ensures t in MarkedStamps(marks, run) {
      var i :| 0 <= i < n && marks[..n][i] && run[..n][i].now == t;
      assert marks[i] && run[i].now == t;
    }
    forall t | t in MarkedStamps(marks, run)
      ensures t in MarkedStamps(marks[..n], run[..n]) || (marks[n] && t == run[n].now)
    {
      var i :| 0 <= i <= n && marks[i] && run[i].now == t;
      if i < n {
        assert marks[..n][i] && run[..n][i].now == t;
      }
    }
  }

  lemma LastShare(marks: seq<bool>, run: seq<Attempt>, n: nat)
    requires |marks| == |run| == n + 1
    ensures ShareStamp(marks, run)
       <==> ShareStamp(marks[..n], run[..n]) || (marks[n] && run[n].now in MarkedStamps(marks[..n], run[..n]))
  {
    if i, j :| 0 <= i < j < n && marks[..n][i] && marks[..n][j] && run[..n][i].now == run[..n][j].now {
      assert marks[i] && marks[j] && run[i].now == run[j].now;
    }
    if marks[n] && run[n].now in MarkedStamps(marks[..n], run[..n]) {
      var i :| 0 <= i < n && marks[..n][i] && run[..n][i].now == run[n].now;
      assert marks[i] && run[i].now == run[n].now;
    }
    if i, j :| 0 <= i < j <= n && marks[i] && marks[j] && run[i].now == run[j].now {
      assert marks[..n][i] && run[..n][i].now == run[i].now;
      assert j < n ==> marks[..n][j] && run[..n][j].now == run[j].now;
    }
  }

  lemma {:induction false} StampsAndMarks(marks: seq<bool>, run: seq<Attempt>)
    requires |marks| == |run|
    ensures |MarkedStamps(marks, run)| <= |Marked(marks)|
    ensures |MarkedStamps(marks, run)| == |Marked(marks)| <==> !ShareStamp(marks, run)
  {
    if |run| == 0 {
      assert Marked(marks) == {} && MarkedStamps(marks, run) == {};
    } else {
      var n := |run| - 1;
      StampsAndMarks(marks[..n], run[..n]);
      LastMark(marks, run, n);
      LastShare(marks, run, n);
    }
  }

  /** Two attempts admitted in lo < t <= hi share a stamp. */
  predicate SharedStamp(limit: int, window: int, run: seq<Attempt>, lo: real, hi: real) {
    exists i, j :: 0 <= i < j < |run| && AdmittedAt(limit, window, run, lo, hi, i)
                   && AdmittedAt(limit, window, run, lo, hi, j) && run[i].now == run[j].now
  }

  lemma MarksFit(limit: int, window: int, run: seq<Attempt>, lo: real, hi: real, marks: seq<bool>)
    requires |marks| == |run| && forall i :: 0 <= i < |run| ==> marks[i] == AdmittedAt(limit, window, run, lo, hi, i)
    ensures AdmittedPlaces(limit, window, run, lo, hi) == Marked(marks)
    ensures Admitted(limit, window, run, lo, hi) == MarkedStamps(marks, run)
    ensures SharedStamp(limit, window, run, lo, hi) <==> ShareStamp(marks, run)
  {
    if i, j :| 0 <= i < j < |run| && marks[i] && marks[j] && run[i].now == run[j].now {
      assert AdmittedAt(limit, window, run, lo, hi, i) && AdmittedAt(limit, window, run, lo, hi, j);
    }
  }

  /** The admitted attempts of an interval number as many as its distinct admitted stamps, which the bound is
      about, if and only if no two of them share a stamp. */
  lemma {:induction false} AttemptsAreStampsIff(limit: int, window: int, run: seq<Attempt>, lo: real, hi: real)
    ensures |AdmittedPlaces(limit, window, run, lo, hi)| == |Admitted(limit, window, run, lo, hi)|
       <==> !SharedStamp(limit, window, run, lo, hi)
  {
    var marks := seq(|run|, i requires 0 <= i < |run| => AdmittedAt(limit, window, run, lo, hi, i));
    StampsAndMarks(marks, run);
    MarksFit(limit, window, run, lo, hi, marks);
  }

  lemma CheckGrowsByOne(window: int, z: ZSet, a: Attempt)
    ensures |Stored(z, window, a).value| <= |Members(z, a.at)| + 1
  {
    var kept := set t | t in Members(z, a.at) && !(0.0 <= t <= a.now - window as real);
    CardinalityMonotone(kept, Members(z, a.at));
  }

  /** `remaining` is a promise: after an answer with `remaining` = r, each of the next r attempts on the key
      is admitted, whenever it comes. This needs no assumption about the clocks. */
  lemma {:induction false} RemainingIsKept(limit: int, window: int, run: seq<Attempt>, i: nat, j: nat)
    requires i < j < |run|
    requires j - i <= AnswerTo(limit, window, run, i).remaining
    ensures AnswerTo(limit, window, run, j).allowed
    ensures AnswerTo(limit, window, run, j).remaining >= AnswerTo(limit, window, run, i).remaining - (j - i)
    decreases j
  {
    var z := After(window, run[..j]);
    assert run[..j][..j - 1] == run[..j - 1];
    if j - 1 > i {
      RemainingIsKept(limit, window, run, i, j - 1);
    }
    CheckGrowsByOne(window, z, run[j]);
    CardinalityMonotone(Members(z, run[j].at), z.value);
    assert z == Check(After(window, run[..j - 1]), limit, window, run[j - 1]).0;
  }

  lemma SetAt(window: int, run: seq<Attempt>, j: nat, lo: real)
    requires window > 0 && ValidRun(run, 0.0) && j < |run| && lo == run[j].now - window as real
    ensures Stored(After(window, run[..j]), window, run[j]).value == Attempted(run[..j + 1], lo, run[j].now)
  {
    assert run[..j + 1][..j] == run[..j];
    SetIsRecentHistory(window, run[..j + 1]);
  }

  lemma AttemptedHas(run: seq<Attempt>, n: nat, i: nat, lo: real, hi: real)
    requires i < n <= |run|
    ensures run[i].now in Attempted(run[..n], lo, hi) <==> lo < run[i].now <= hi
  {
    assert run[..n][i] == run[i];
  }

  /** The reset time of an answer is exact: under a monotone clock the attempt it was given to counts against a
      later attempt if and only if that one comes before the reset time. */
  lemma {:induction false} CountsUntilReset(limit: int, window: int, run: seq<Attempt>, i: nat, j: nat)
    requires window > 0 && ValidRun(run, 0.0) && i < j < |run|
    ensures run[i].now in Stored(After(window, run[..j]), window, run[j]).value
       <==> run[j].now < AnswerTo(limit, window, run, i).resetTime
  {
    SetAt(window, run, j, run[j].now - window as real);
    AttemptedHas(run, j + 1, i, run[j].now - window as real, run[j].now);
    assert run[i].at <= run[j].at;
  }

  /** A key lives for two windows after the last attempt on it, and no longer. */
  lemma KeyLivesTwoWindows(window: int, run: seq<Attempt>, at: real)
    requires |run| > 0
    ensures Live(After(window, run), at) <==> at < run[|run| - 1].at + 2.0 * window as real
  {
  }

  lemma SilencePrunes(window: int, d: real, run: seq<Attempt>, j: nat, t: real)
    requires ValidRun(run, d) && 0 < j < |run| && run[j].now >= run[j - 1].now + window as real + d
    requires t in Members(After(window, run[..j]), run[j].at)
    ensures 0.0 <= t <= run[j].now - window as real
  {
    OnlyAttempts(window, run[..j], t);
    var i :| 0 <= i < j && run[..j][i].now == t;
    assert run[i].at <= run[j - 1].at;
  }

  /** A client that is silent until its reset time, plus the skew, starts afresh. */
  lemma {:induction false} SilenceResets(limit: int, window: int, d: real, run: seq<Attempt>, j: nat)
    requires 0.0 <= d && ValidRun(run, d) && 0 < j < |run| && limit >= 1
    requires run[j].now >= AnswerTo(limit, window, run, j - 1).resetTime + d
    ensures AnswerTo(limit, window, run, j).allowed
    ensures AnswerTo(limit, window, run, j).remaining == limit - 1
  {
    var z := After(window, run[..j]);
    forall t | t in Members(z, run[j].at) ensures 0.0 <= t <= run[j].now - window as real {
      SilencePrunes(window, d, run, j, t);
    }
    assert Stored(z, window, run[j]).value == {run[j].now};
  }
}
