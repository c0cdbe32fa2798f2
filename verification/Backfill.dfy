/**
 The hourly backfill: a window of at most one hour at a time from start to end, with an optional limit on
 the number of windows and a choice to go on after a window that fails. Instants are microseconds.
 */
module Backfill {
  import opened Clock

  datatype Window = Window(from: int, until: int)

  /** Whether the pipeline raises on the k-th window it is given. */
  type Outcomes = nat -> bool

  /** The k-th hour from start, cut off at the end. */
  function WindowAt(start: int, end: int, k: nat): Window {
    Window(start + k * HOUR, if start + (k + 1) * HOUR <= end then start + (k + 1) * HOUR else end)
  }

  /** How many windows a run takes if nothing stops it: the hours of the span rounded up, and no more than
      the limit. A limit of 0 is no limit; a negative one still lets one window through. */
  function Planned(start: int, end: int, limit: int): nat {
    if end <= start then 0
    else
      var hours := (end - start + HOUR - 1) / HOUR;
      if limit == 0 || hours <= limit then hours else if limit < 1 then 1 else limit
  }

  /** Where a run that is not stopped ends: at the end, or as many hours after the start as the limit allows. */
  function CoveredUntil(start: int, end: int, limit: int): int {
    if end <= start then start
    else if limit == 0 then end
    else
      var reach := start + (if limit < 1 then 1 else limit) * HOUR;
      if reach < end then reach else end
  }

  predicate InWindow(w: Window, t: int) {
    w.from <= t < w.until
  }

  /** attempts are the windows the pipeline was started on. A failure under continueOnError counts as an
      hour done; otherwise it ends the run with an exception, and the window of the failure is the last. */
  method RunWindows(start: int, end: int, fails: Outcomes, continueOnError: bool, limit: int)
    returns (attempts: seq<Window>, hoursDone: nat, raised: bool)
    ensures forall k :: 0 <= k < |attempts| ==> attempts[k] == WindowAt(start, end, k)
    ensures raised <==> !continueOnError && exists k :: 0 <= k < Planned(start, end, limit) && fails(k)
    ensures !raised ==> |attempts| == hoursDone == Planned(start, end, limit)
    ensures raised ==> |attempts| == hoursDone + 1 <= Planned(start, end, limit)
    ensures raised ==> fails(hoursDone) && forall k :: 0 <= k < hoursDone ==> !fails(k)
  {
    attempts, hoursDone, raised := [], 0, false;
    var cur := start;
    while cur < end
      invariant |attempts| == hoursDone <= Planned(start, end, limit)
      invariant hoursDone < Planned(start, end, limit) ==> cur == start + hoursDone * HOUR
      invariant hoursDone < Planned(start, end, limit) <==> cur < end
      invariant forall k :: 0 <= k < |attempts| ==> attempts[k] == WindowAt(start, end, k)
      invariant !continueOnError ==> forall k :: 0 <= k < hoursDone ==> !fails(k)
      decreases end - cur
    {
      var next := if cur + HOUR < end then cur + HOUR else end;
      attempts := attempts + [Window(cur, next)];
      if fails(hoursDone) && !continueOnError {
        raised := true;
        return;
      }
      cur := next;
      hoursDone := hoursDone + 1;
      if limit != 0 && hoursDone >= limit {
        break;
      }
    }
  }

  /** The windows are adjacent, from the start to the end of the covered span, none empty, none longer than an
      hour, and only the last one shorter. */
  lemma WindowsTile(start: int, end: int, limit: int, k: nat)
    requires k < Planned(start, end, limit)
    ensures var w, n := WindowAt(start, end, k), Planned(start, end, limit);
            && 0 < w.until - w.from <= HOUR
            && (k == 0 ==> w.from == start)
            && (k + 1 < n ==> w.until - w.from == HOUR && w.until == WindowAt(start, end, k + 1).from)
            && (k + 1 == n ==> w.until == CoveredUntil(start, end, limit))
  {
    assert WindowAt(start, end, k).from < end;
  }

  /** An instant is in the covered span if and only if it is in some window, and never in two. */
  lemma EachInstantOnce(start: int, end: int, limit: int, t: int)
    ensures start <= t < CoveredUntil(start, end, limit)
       <==> exists k: nat :: k < Planned(start, end, limit) && InWindow(WindowAt(start, end, k), t)
    ensures forall j: nat, k: nat ::
              InWindow(WindowAt(start, end, j), t) && InWindow(WindowAt(start, end, k), t) ==> j == k
  {
    if start <= t < CoveredUntil(start, end, limit) {
      var k: nat := (t - start) / HOUR;
      assert InWindow(WindowAt(start, end, k), t);
    }
    forall k: nat | k < Planned(start, end, limit) && InWindow(WindowAt(start, end, k), t)
      ensures start <= t < CoveredUntil(start, end, limit)
    {
      assert start + k * HOUR < end;
    }
  }

  /** The number of windows is the covered span in hours, rounded up. */
  lemma CountIsCeiling(start: int, end: int, limit: int)
    ensures var n, span := Planned(start, end, limit), CoveredUntil(start, end, limit) - start;
            span <= n * HOUR < span + HOUR
  {
  }
}
