/**
 How long an interval the rate bound covers when timestamps may lag behind the server's clock: exactly.
 */
module RateLimitSkew {
  import opened RateLimit

  predicate WithinLimit(limit: int, window: int, run: seq<Attempt>, lo: real, hi: real) {
    |Admitted(limit, window, run, lo, hi)| <= if limit > 0 then limit else 0
  }

  /** Every run with skew d keeps its distinct admitted timestamps within the limit, in every half-open
      interval of the given length. */
  ghost predicate AlwaysWithinLimit(limit: int, window: int, d: real, length: real) {
    forall run, lo, hi :: ValidRun(run, d) && hi == lo + length ==> WithinLimit(limit, window, run, lo, hi)
  }

  // ----- a limit of one: admitted stamps are a whole window apart -----

  lemma {:induction false} Largest(run: seq<Attempt>) returns (m: nat)
    requires |run| > 0
    ensures m < |run| && forall k :: 0 <= k < |run| ==> run[k].now <= run[m].now
  {
    var n := |run| - 1;
    if n == 0 {
      m := 0;
    } else {
      m := Largest(run[..n]);
      assert forall k :: 0 <= k < n ==> run[k] == run[..n][k];
      if run[m].now < run[n].now {
        m := n;
      }
    }
  }

  /** Under a limit of one, an admitted attempt is the only one stored; so no attempt before it carries a
      later stamp, and none an earlier one within the window. */
  lemma {:induction false} AloneWhenAdmitted(window: int, d: real, run: seq<Attempt>, i: nat, j: nat)
    requires 0.0 <= d < window as real && ValidRun(run, d) && i < j < |run|
    requires AnswerTo(1, window, run, j).allowed
    ensures run[i].now == run[j].now || run[i].now + window as real <= run[j].now
  {
    var upTo := run[..j + 1];
    assert upTo[..j] == run[..j] && upTo[j] == run[j];
    var stored := After(window, upTo).value;
    forall t | t in stored ensures t == run[j].now {
      if t != run[j].now {
        CardinalityMonotone({t, run[j].now}, stored);
      }
    }
    var m := Largest(upTo);
    Retained(window, d, upTo, m);
    assert run[i] == upTo[i];
    if run[j].now - window as real < run[i].now {
      Retained(window, d, upTo, i);
    }
  }

  lemma {:induction false} SameStamp(window: int, d: real, run: seq<Attempt>, lo: real, hi: real, x: real, y: real)
    requires 0.0 <= d < window as real && ValidRun(run, d) && hi <= lo + window as real
    requires x in Admitted(1, window, run, lo, hi) && y in Admitted(1, window, run, lo, hi)
    ensures x == y
  {
    var i :| 0 <= i < |run| && AdmittedAt(1, window, run, lo, hi, i) && run[i].now == x;
    var j :| 0 <= j < |run| && AdmittedAt(1, window, run, lo, hi, j) && run[j].now == y;
    if i < j {
      AloneWhenAdmitted(window, d, run, i, j);
    } else if j < i {
      AloneWhenAdmitted(window, d, run, j, i);
    }
  }

  lemma {:induction false} OneAtATime(window: int, d: real, run: seq<Attempt>, lo: real, hi: real)
    requires 0.0 <= d < window as real && ValidRun(run, d) && hi <= lo + window as real
    ensures |Admitted(1, window, run, lo, hi)| <= 1
  {
    var admitted := Admitted(1, window, run, lo, hi);
    if x :| x in admitted {
      forall y | y in admitted ensures y in {x} {
        SameStamp(window, d, run, lo, hi, x, y);
      }
      CardinalityMonotone(admitted, {x});
    } else {
      assert admitted == {};
    }
  }

  lemma NoneUnderZero(limit: int, window: int, run: seq<Attempt>, lo: real, hi: real)
    requires limit <= 0
    ensures Admitted(limit, window, run, lo, hi) == {}
  {
    forall i | 0 <= i < |run| ensures !AnswerTo(limit, window, run, i).allowed {
      assert run[i].now in Stored(After(window, run[..i]), window, run[i]).value;
    }
  }

  // ----- a limit of two or more: a crowded run -----

  lemma {:induction false} SizeBounded(window: int, run: seq<Attempt>, at: real)
    ensures |Members(After(window, run), at)| <= |run|
  {
    if |run| > 0 {
      var n := |run| - 1;
      SizeBounded(window, run[..n], run[n].at);
      CheckGrowsByOne(window, After(window, run[..n]), run[n]);
    }
  }

  /** The first attempts of any run are admitted, as many as the limit. */
  lemma FirstAdmitted(limit: int, window: int, run: seq<Attempt>, i: nat)
    requires i < |run| && i < limit
    ensures AnswerTo(limit, window, run, i).allowed
  {
    SizeBounded(window, run[..i], run[i].at);
    CheckGrowsByOne(window, After(window, run[..i]), run[i]);
  }

  /** x halved n times. */
  function Half(x: real, n: nat): real {
    if n == 0 then x else Half(x, n - 1) / 2.0
  }

  lemma {:induction false} HalfShrinks(x: real, n: nat, m: nat)
    requires x > 0.0 && n <= m
    ensures 0.0 < Half(x, m) <= Half(x, n)
    ensures n < m ==> Half(x, m) < Half(x, n)
    decreases m
  {
    if n < m {
      HalfShrinks(x, n, m - 1);
    } else if m > 0 {
      HalfShrinks(x, n - 1, m - 1);
    }
  }

  function Halves(x: real, n: nat): set<real> {
    set i | 0 <= i < n :: Half(x, i)
  }

  lemma {:induction false} HalvesDiffer(x: real, n: nat)
    requires x > 0.0
    ensures |Halves(x, n)| == n
  {
    if n == 0 {
      assert Halves(x, n) == {};
    } else {
      HalvesDiffer(x, n - 1);
      forall i: nat | i < n - 1 ensures Half(x, i) != Half(x, n - 1) {
        HalfShrinks(x, i, n - 1);
      }
      assert Halves(x, n) == Halves(x, n - 1) + {Half(x, n - 1)};
    }
  }

  /** `limit` attempts in the first `gap` seconds; one that is stamped a whole window after all of them and so
      prunes them; and one that is stamped before that, but served after. */
  function Crowd(limit: nat, gap: real, length: real, d: real): seq<Attempt> {
    seq(limit, k requires 0 <= k < limit => Attempt(Half(gap, limit - 1 - k), Half(gap, limit - 1 - k)))
    + [Attempt(length + d, length + d), Attempt(length, length + d)]
  }

  predicate Crowded(limit: nat, window: int, gap: real, length: real, d: real) {
    limit >= 2 && d > 0.0 && 0.0 < length <= window as real && 0.0 < gap < length && gap == length + d - window as real
  }

  lemma CrowdIsARun(limit: nat, gap: real, length: real, d: real)
    requires 0.0 < gap < length && d > 0.0
    ensures ValidRun(Crowd(limit, gap, length, d), d)
    ensures forall k :: 0 <= k < limit ==> 0.0 < Crowd(limit, gap, length, d)[k].now <= gap
  {
    var run := Crowd(limit, gap, length, d);
    forall k | 0 <= k < limit ensures 0.0 < run[k].now == run[k].at <= gap {
      HalfShrinks(gap, 0, limit - 1 - k);
    }
    forall i, j | 0 <= i < j < |run| ensures run[i].at <= run[j].at {
      if j < limit {
        HalfShrinks(gap, limit - 1 - j, limit - 1 - i);
      }
    }
  }

  /** After the pruning attempt only its own stamp is left, so the late one finds room. */
  lemma {:induction false} LateOneAdmitted(limit: nat, window: int, gap: real, length: real, d: real)
    requires Crowded(limit, window, gap, length, d)
    ensures AnswerTo(limit, window, Crowd(limit, gap, length, d), limit + 1).allowed
  {
    var run := Crowd(limit, gap, length, d);
    CrowdIsARun(limit, gap, length, d);
    var z := After(window, run[..limit]);
    forall t | t in Members(z, run[limit].at) ensures 0.0 <= t <= run[limit].now - window as real {
      OnlyAttempts(window, run[..limit], t);
      var i :| 0 <= i < limit && run[..limit][i].now == t;
      assert run[i].now == t;
    }
    assert Stored(z, window, run[limit]).value == {length + d};
    assert run[..limit + 1][..limit] == run[..limit];
    var late := Stored(After(window, run[..limit + 1]), window, run[limit + 1]).value;
    CardinalityMonotone(late, {length + d, length});
  }

  lemma EarlyOneAdmitted(limit: nat, window: int, gap: real, length: real, d: real, i: nat)
    requires Crowded(limit, window, gap, length, d) && i < limit
    ensures Half(gap, i) in Admitted(limit, window, Crowd(limit, gap, length, d), 0.0, length)
  {
    var run := Crowd(limit, gap, length, d);
    CrowdIsARun(limit, gap, length, d);
    assert run[limit - 1 - i].now == Half(gap, i);
    FirstAdmitted(limit, window, run, limit - 1 - i);
    AdmittedContains(limit, window, run, 0.0, length, limit - 1 - i);
  }

  lemma EarlyOnesAdmitted(limit: nat, window: int, gap: real, length: real, d: real)
    requires Crowded(limit, window, gap, length, d)
    ensures Halves(gap, limit) <= Admitted(limit, window, Crowd(limit, gap, length, d), 0.0, length)
  {
    var admitted := Admitted(limit, window, Crowd(limit, gap, length, d), 0.0, length);
    forall t | t in Halves(gap, limit) ensures t in admitted {
      var i :| 0 <= i < limit && Half(gap, i) == t;
      EarlyOneAdmitted(limit, window, gap, length, d, i);
    }
  }

  lemma HalvesBelow(gap: real, limit: nat, length: real)
    requires 0.0 < gap < length
    ensures length !in Halves(gap, limit)
  {
    forall i: nat | i < limit ensures Half(gap, i) != length {
      HalfShrinks(gap, 0, i);
    }
  }

  lemma OneMoreThan(s: set<real>, x: real, admitted: set<real>)
    requires s <= admitted && x in admitted && x !in s
    ensures |admitted| > |s|
  {
    CardinalityMonotone(s + {x}, admitted);
  }

  /** The crowd breaks the bound: all its stamps but one lie in one interval, and all of those are admitted. */
  lemma {:induction false} CrowdExceeds(limit: nat, window: int, gap: real, length: real, d: real)
    requires Crowded(limit, window, gap, length, d)
    ensures !WithinLimit(limit, window, Crowd(limit, gap, length, d), 0.0, length)
  {
    var run := Crowd(limit, gap, length, d);
    EarlyOnesAdmitted(limit, window, gap, length, d);
    LateOneAdmitted(limit, window, gap, length, d);
    AdmittedContains(limit, window, run, 0.0, length, limit + 1);
    HalvesDiffer(gap, limit);
    HalvesBelow(gap, limit, length);
    OneMoreThan(Halves(gap, limit), length, Admitted(limit, window, run, 0.0, length));
  }

  lemma {:induction false} BoundKept(limit: int, window: int, d: real, run: seq<Attempt>, lo: real, hi: real)
    requires 0.0 <= d < window as real && hi <= lo + window as real && ValidRun(run, d)
    requires hi <= lo + (window as real - d) || limit <= 1
    ensures WithinLimit(limit, window, run, lo, hi)
  {
    if hi <= lo + (window as real - d) {
      WindowBound(limit, window, d, run, lo, hi);
    } else if limit == 1 {
      OneAtATime(window, d, run, lo, hi);
    } else {
      NoneUnderZero(limit, window, run, lo, hi);
    }
  }

  /** The rate bound, exactly. Whatever the run and the interval, an interval of the given length, up to a
      window, holds no more distinct admitted timestamps than the limit if and only if its length and the skew
      together fit into the window, or the limit is at most one. */
  lemma {:induction false} RateBoundIff(limit: int, window: int, d: real, length: real)
    requires 0.0 <= d < window as real && 0.0 < length <= window as real
    ensures AlwaysWithinLimit(limit, window, d, length) <==> length <= window as real - d || limit <= 1
  {
    if length <= window as real - d || limit <= 1 {
      forall run, lo, hi | ValidRun(run, d) && hi == lo + length ensures WithinLimit(limit, window, run, lo, hi) {
        BoundKept(limit, window, d, run, lo, hi);
      }
    } else {
      var gap := length + d - window as real;
      CrowdIsARun(limit, gap, length, d);
      CrowdExceeds(limit, window, gap, length, d);
    }
  }
}
