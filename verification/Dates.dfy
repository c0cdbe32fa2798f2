/** The day iterator that the gold and BI jobs share. Days are counted, one number per calendar day. */
module Dates {

  /** Every day from start up to, but not including, the end: each once, in order. */
  method DateRange(start: int, endExclusive: int) returns (days: seq<int>)
    ensures |days| == if start < endExclusive then endExclusive - start else 0
    ensures forall i :: 0 <= i < |days| ==> days[i] == start + i
  {
    days := [];
    var cur := start;
    while cur < endExclusive
      invariant cur == start + |days|
      invariant start < endExclusive ==> cur <= endExclusive
      invariant start >= endExclusive ==> |days| == 0
      invariant forall i :: 0 <= i < |days| ==> days[i] == start + i
    {
      days := days + [cur];
      cur := cur + 1;
    }
  }
}
