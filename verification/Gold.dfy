/**
 The gold layer: for each UTC day of a window the build reads the day's events from the warehouse and
 writes one partition, named by the time of the build; the partition that sorts last counts. A day
 without events gets no partition.
 */
module Gold {
  import opened Options
  import opened Clock
  import opened IsoTime
  import opened Events
  import opened Ods

  /** The UTC day of an instant: (time AT TIME ZONE 'UTC')::date. */
  function DayOf(time: int): int {
    time / DAY
  }

  datatype FeedRow = FeedRow(
    time: int, updated: int, ingestedAt: int, details: Details,
    magBucket: string, depthBucket: string, severity: string)

  function MagBucket(mag: Option<real>): string {
    match mag
    case None => "unknown"
    case Some(m) =>
      if m < 2.0 then "lt2" else if m < 3.0 then "2_3" else if m < 4.0 then "3_4"
      else if m < 5.0 then "4_5" else if m < 6.0 then "5_6" else "ge6"
  }

  function DepthBucket(depth: Option<real>): string {
    match depth
    case None => "unknown"
    case Some(d) =>
      if d < 10.0 then "0_10" else if d < 30.0 then "10_30" else if d < 70.0 then "30_70"
      else if d < 300.0 then "70_300" else "ge300"
  }

  function Severity(mag: Option<real>): string {
    match mag
    case None => "UNKNOWN"
    case Some(m) => if m >= 6.0 then "HIGH" else if m >= 4.0 then "MEDIUM" else "LOW"
  }

  function Feed(v: OdsRow): FeedRow {
    FeedRow(v.time, v.updated, v.ingestedAt, v.details,
            MagBucket(v.details.mag), DepthBucket(v.details.depth), Severity(v.details.mag))
  }

  /** A table of feed rows; event_id is its key. */
  type Frame = map<string, FeedRow>

  /** The day's events: time >= d and time < d + 1 day. */
  function DayView(ods: Table, d: int): Frame {
    map id | id in ods && d * DAY <= ods[id].time < (d + 1) * DAY :: Feed(ods[id])
  }

  lemma InDayView(ods: Table, d: int, id: string)
    ensures id in DayView(ods, d) <==> id in ods && DayOf(ods[id].time) == d
    ensures id in DayView(ods, d) ==> DayView(ods, d)[id] == Feed(ods[id]) && DayOf(DayView(ods, d)[id].time) == d
  {
  }

  /** A bucket named by its edges holds the magnitude. */
  predicate MagFits(bucket: string, mag: Option<real>) {
    match mag
    case None => bucket == "unknown"
    case Some(m) =>
      || (bucket == "lt2" && m < 2.0) || (bucket == "2_3" && 2.0 <= m < 3.0) || (bucket == "3_4" && 3.0 <= m < 4.0)
      || (bucket == "4_5" && 4.0 <= m < 5.0) || (bucket == "5_6" && 5.0 <= m < 6.0) || (bucket == "ge6" && 6.0 <= m)
  }

  predicate DepthFits(bucket: string, depth: Option<real>) {
    match depth
    case None => bucket == "unknown"
    case Some(d) =>
      || (bucket == "0_10" && d < 10.0) || (bucket == "10_30" && 10.0 <= d < 30.0)
      || (bucket == "30_70" && 30.0 <= d < 70.0) || (bucket == "70_300" && 70.0 <= d < 300.0)
      || (bucket == "ge300" && 300.0 <= d)
  }

  predicate SeverityFits(severity: string, mag: Option<real>) {
    match mag
    case None => severity == "UNKNOWN"
    case Some(m) =>
      (severity == "LOW" && m < 4.0) || (severity == "MEDIUM" && 4.0 <= m < 6.0) || (severity == "HIGH" && 6.0 <= m)
  }

  /** Every column of an event's row in a day's feed: those of the warehouse unchanged, and the three that are
      worked out, in buckets that hold their values. */
  lemma ViewColumns(ods: Table, d: int, id: string)
    requires id in DayView(ods, d)
    ensures id in ods
    ensures var row := DayView(ods, d)[id];
            && row.time == ods[id].time && row.updated == ods[id].updated && row.ingestedAt == ods[id].ingestedAt
            && row.details == ods[id].details
            && MagFits(row.magBucket, ods[id].details.mag) && DepthFits(row.depthBucket, ods[id].details.depth)
            && SeverityFits(row.severity, ods[id].details.mag)
  {
  }

  // ----- partitions -----

  /** What pandas works out on floating-point numbers, and the last quality run of the day, if any. */
  datatype Stats = Stats(
    tsunamiCnt: int, maxMag: Option<real>,
    avgUpdateDelay: real, p95UpdateDelay: real, avgIngestLag: real, maxIngestLag: real,
    dqStatus: Option<string>, dqRunAt: Option<int>, dqIssues: Option<int>)

  /** The row of catalog_health_daily; the two percentages are these counts over the number of events. */
  datatype HealthRow = HealthRow(eventsCnt: nat, missingGeo: nat, missingMag: nat, stats: Stats)

  /** What a build writes for one day in its three tables. */
  datatype Partition = Partition(feed: Frame, top: seq<string>, health: HealthRow)

  /** Day, then the stamp of the build: the two varying parts of an object key. */
  type Partitions = map<int, map<string, Partition>>

  function PartsOf(gold: Partitions, d: int): map<string, Partition> {
    if d in gold then gold[d] else map[]
  }

  predicate SortsBy(u: string, ts: string) {
    u == ts || LexLess(u, ts)
  }

  /** The last of the sorted keys. */
  predicate IsLatest(parts: map<string, Partition>, ts: string) {
    ts in parts && forall u :: u in parts ==> SortsBy(u, ts)
  }

  lemma {:induction false} LatestFrom(parts: map<string, Partition>, candidates: set<string>,
                                      ts: string) returns (latest: string)
    requires ts in candidates && candidates <= parts.Keys
    requires forall u :: u in parts && u !in candidates ==> SortsBy(u, ts)
    ensures IsLatest(parts, latest)
    decreases |candidates|
  {
    if u :| u in candidates && LexLess(ts, u) {
      forall v | v in parts && v !in candidates - {ts} ensures SortsBy(v, u) {
        if v != ts {
          LexTransitive(v, ts, u);
        }
      }
      LexIrreflexive(ts);
      latest := LatestFrom(parts, candidates - {ts}, u);
    } else {
      latest := ts;
      forall u | u in parts ensures SortsBy(u, ts) {
        LexTotal(u, ts);
      }
    }
  }

  lemma LatestExists(parts: map<string, Partition>)
    requires |parts| > 0
    ensures exists ts :: IsLatest(parts, ts)
  {
    var ts :| ts in parts;
    var latest := LatestFrom(parts, parts.Keys, ts);
  }

  lemma LatestUnique(parts: map<string, Partition>, a: string, b: string)
    requires IsLatest(parts, a) && IsLatest(parts, b)
    ensures a == b
  {
    if a != b {
      LexTransitive(a, b, a);
      LexIrreflexive(a);
    }
  }

  /** The partition of a day that is loaded: the one whose key sorts last. */
  ghost function LatestPart(gold: Partitions, d: int): Option<Partition> {
    var parts := PartsOf(gold, d);
    if |parts| == 0 then None
    else
      LatestExists(parts);
      var ts :| IsLatest(parts, ts);
      Some(parts[ts])
  }

  lemma LatestIs(gold: Partitions, d: int, ts: string)
    requires IsLatest(PartsOf(gold, d), ts)
    ensures LatestPart(gold, d) == Some(PartsOf(gold, d)[ts])
  {
    var parts := PartsOf(gold, d);
    assert |parts| > 0;
    var u :| IsLatest(parts, u) && LatestPart(gold, d) == Some(parts[u]);
    LatestUnique(parts, ts, u);
  }

  // ----- the build -----

  /** How pandas orders a day's events; ties are its own business. */
  type Sorter = Frame -> seq<string>

  /** The parts of a build that rest on pandas; they may differ from build to build. */
  datatype Pandas = Pandas(sort: Sorter, stats: (int, Frame) -> Stats)

  function TopTen(sorted: seq<string>): seq<string> {
    if |sorted| < 10 then sorted else sorted[..10]
  }

  function MissingGeo(f: Frame): set<string> {
    set id | id in f && (f[id].details.latitude.None? || f[id].details.longitude.None?)
  }

  function MissingMag(f: Frame): set<string> {
    set id | id in f && f[id].details.mag.None?
  }

  function Health(pd: Pandas, d: int, f: Frame): HealthRow
  {
    HealthRow(|f|, |MissingGeo(f)|, |MissingMag(f)|, pd.stats(d, f))
  }

  function PartitionOf(pd: Pandas, d: int, f: Frame): Partition {
    Partition(f, TopTen(pd.sort(f)), Health(pd, d, f))
  }

  function BuildDay(ods: Table, pd: Pandas, gold: Partitions, d: int, ts: string): Partitions {
    var view := DayView(ods, d);
    if |view| == 0 then gold
    else gold[d := PartsOf(gold, d)[ts := PartitionOf(pd, d, view)]]
  }

  function BuildDays(ods: Table, pd: Pandas, gold: Partitions, start: int, end: int, ts: string): Partitions
    decreases end - start
  {
    if end <= start then gold
    else BuildDay(ods, pd, BuildDays(ods, pd, gold, start, end - 1, ts), end - 1, ts)
  }

  lemma BuildDayAt(ods: Table, pd: Pandas, gold: Partitions, e: int, ts: string, d: int)
    ensures PartsOf(BuildDay(ods, pd, gold, e, ts), d)
         == if d == e && |DayView(ods, d)| > 0 then PartsOf(gold, d)[ts := PartitionOf(pd, d, DayView(ods, d))]
            else PartsOf(gold, d)
  {
  }

  /** A build changes exactly the days of its window that have events, and adds one partition to each. */
  lemma {:induction false} BuildAt(ods: Table, pd: Pandas, gold: Partitions, start: int, end: int, ts: string, d: int)
    ensures var parts := PartsOf(BuildDays(ods, pd, gold, start, end, ts), d);
            if start <= d < end && |DayView(ods, d)| > 0
            then parts == PartsOf(gold, d)[ts := PartitionOf(pd, d, DayView(ods, d))]
            else parts == PartsOf(gold, d)
    decreases end - start
  {
    if end > start {
      BuildAt(ods, pd, gold, start, end - 1, ts, d);
      BuildDayAt(ods, pd, BuildDays(ods, pd, gold, start, end - 1, ts), end - 1, ts, d);
    }
  }

  /** Rows of the warehouse in a window of days. */
  function RowsInWindow(ods: Table, start: int, end: int): set<string> {
    set id | id in ods && start <= DayOf(ods[id].time) < end
  }

  /** Rows written, table by table. */
  datatype Counts = Counts(feed: nat, top: nat, health: nat)

  function Written(ods: Table, pd: Pandas, start: int, end: int): Counts
    decreases end - start
  {
    if end <= start then Counts(0, 0, 0)
    else
      var before, view := Written(ods, pd, start, end - 1), DayView(ods, end - 1);
      if |view| == 0 then before
      else Counts(before.feed + |view|, before.top + |TopTen(pd.sort(view))|, before.health + 1)
  }

  function DaysWhere(p: int -> bool, start: int, end: int): set<int> {
    set d | start <= d < end && p(d)
  }

  lemma LastDayWhere(p: int -> bool, start: int, end: int)
    requires start < end
    ensures DaysWhere(p, start, end) == DaysWhere(p, start, end - 1) + if p(end - 1) then {end - 1} else {}
  {
  }

  function HasEvents(ods: Table): int -> bool {
    d => |DayView(ods, d)| > 0
  }

  /** One health row for each day with events. */
  lemma {:induction false} HealthPerDay(ods: Table, pd: Pandas, start: int, end: int)
    ensures Written(ods, pd, start, end).health == |DaysWhere(HasEvents(ods), start, end)|
    decreases end - start
  {
    if end <= start {
      assert DaysWhere(HasEvents(ods), start, end) == {};
    } else {
      HealthPerDay(ods, pd, start, end - 1);
      LastDayWhere(HasEvents(ods), start, end);
    }
  }

  /** Conservation: the rows exported over all days of a window are the warehouse rows of the window, each
      exactly once. */
  lemma {:induction false} DaysPartitionWindow(ods: Table, pd: Pandas, start: int, end: int)
    ensures Written(ods, pd, start, end).feed == |RowsInWindow(ods, start, end)|
    decreases end - start
  {
    if end <= start {
      assert RowsInWindow(ods, start, end) == {};
    } else {
      DaysPartitionWindow(ods, pd, start, end - 1);
      forall id ensures id in DayView(ods, end - 1) <==> id in ods && DayOf(ods[id].time) == end - 1 {
        InDayView(ods, end - 1, id);
      }
      var before, last := RowsInWindow(ods, start, end - 1), DayView(ods, end - 1).Keys;
      assert RowsInWindow(ods, start, end) == before + last && before * last == {};
    }
  }

  // ----- the top list -----

  /** mag descending with missing values last, then time descending. */
  predicate Better(a: FeedRow, b: FeedRow) {
    var x, y := a.details.mag, b.details.mag;
    || (x.Some? && (y.None? || x.value > y.value))
    || (x == y && a.time > b.time)
  }

  /** An order of all rows of a frame, each once, none strictly better than one before it. */
  ghost predicate SortedFrame(f: Frame, sorted: seq<string>) {
    && multiset(sorted) == multiset(f.Keys)
    && forall i, j :: 0 <= i < j < |sorted| && sorted[i] in f && sorted[j] in f ==> !Better(f[sorted[j]], f[sorted[i]])
  }

  ghost predicate Sorts(sort: Sorter) {
    forall f: Frame :: SortedFrame(f, sort(f))
  }

  lemma SortedRows(f: Frame, sorted: seq<string>)
    requires SortedFrame(f, sorted)
    ensures |sorted| == |f|
    ensures forall i :: 0 <= i < |sorted| ==> sorted[i] in f
    ensures forall i, j :: 0 <= i < j < |sorted| ==> sorted[i] != sorted[j]
    ensures forall id :: id in f ==> id in sorted
  {
    assert |sorted| == |multiset(sorted)| == |multiset(f.Keys)| == |f.Keys|;
    forall i | 0 <= i < |sorted| ensures sorted[i] in f {
      assert sorted[i] in multiset(sorted);
    }
    forall id | id in f ensures id in sorted {
      assert id in multiset(f.Keys);
    }
    forall i, j | 0 <= i < j < |sorted| ensures sorted[i] != sorted[j] {
      assert sorted == sorted[..j] + sorted[j..];
      assert sorted[i] in multiset(sorted[..j]) && sorted[j] in multiset(sorted[j..]);
      assert multiset(sorted)[sorted[j]] == multiset(sorted[..j])[sorted[j]] + multiset(sorted[j..])[sorted[j]];
    }
  }

  /** The daily top list, whatever the order of ties: ranks 1 to min(10, n) without gaps, no event twice,
      best first, and no omitted event strictly better than a listed one. */
  lemma {:induction false} TopListIsBest(f: Frame, sorted: seq<string>)
    requires SortedFrame(f, sorted)
    ensures var top := TopTen(sorted);
            && |top| == (if |f| < 10 then |f| else 10)
            && (forall i :: 0 <= i < |top| ==> top[i] in f)
            && (forall i, j :: 0 <= i < j < |top| ==> top[i] != top[j] && !Better(f[top[j]], f[top[i]]))
            && (forall id, i :: id in f && id !in top && 0 <= i < |top| ==> !Better(f[id], f[top[i]]))
  {
    SortedRows(f, sorted);
    var top := TopTen(sorted);
    forall id, i | id in f && id !in top && 0 <= i < |top| ensures !Better(f[id], f[top[i]]) {
      var k :| 0 <= k < |sorted| && sorted[k] == id;
      assert k >= |top|;
    }
  }

  lemma OneDayMore(ods: Table, pd: Pandas, start: int, d: int)
    requires start <= d
    ensures var before, one := Written(ods, pd, start, d), Written(ods, pd, d, d + 1);
            Written(ods, pd, start, d + 1)
            == Counts(before.feed + one.feed, before.top + one.top, before.health + one.health)
  {
    assert Written(ods, pd, d, d) == Counts(0, 0, 0);
  }

  /** The top rows written: at most ten a day, at least one, and never more than the day has events. */
  lemma {:induction false} TopCountBounds(ods: Table, pd: Pandas, start: int, end: int)
    requires Sorts(pd.sort)
    ensures var n := Written(ods, pd, start, end); n.health <= n.top <= 10 * n.health && n.top <= n.feed
    decreases end - start
  {
    if end > start {
      var view := DayView(ods, end - 1);
      TopCountBounds(ods, pd, start, end - 1);
      assert SortedFrame(view, pd.sort(view));
      SortedRows(view, pd.sort(view));
    }
  }

  /** The counts of a day's health row, told from the warehouse. */
  lemma {:induction false} HealthCounts(ods: Table, pd: Pandas, d: int)
    ensures var row := Health(pd, d, DayView(ods, d));
            && row.eventsCnt == |set id | id in ods && DayOf(ods[id].time) == d|
            && row.missingGeo == |set id | id in ods && DayOf(ods[id].time) == d
                                           && (ods[id].details.latitude == None || ods[id].details.longitude == None)|
            && row.missingMag == |set id | id in ods && DayOf(ods[id].time) == d && ods[id].details.mag == None|
  {
    var view := DayView(ods, d);
    forall id ensures id in view <==> id in ods && DayOf(ods[id].time) == d {
      InDayView(ods, d, id);
    }
    assert view.Keys == set id | id in ods && DayOf(ods[id].time) == d;
    assert MissingGeo(view) == set id | id in ods && DayOf(ods[id].time) == d
                                        && (ods[id].details.latitude == None || ods[id].details.longitude == None);
    assert MissingMag(view) == set id | id in ods && DayOf(ods[id].time) == d && ods[id].details.mag == None;
  }

  /** The order of the top list, spelled out: magnitudes do not rise down the list and missing ones come last;
      among equal magnitudes, and among missing ones, times do not rise. */
  lemma {:induction false} TopListOrder(f: Frame, sorted: seq<string>, i: nat, j: nat)
    requires SortedFrame(f, sorted) && i < j < |TopTen(sorted)|
    ensures var top := TopTen(sorted);
            && top[i] in f && top[j] in f
            && var x, y := f[top[i]].details.mag, f[top[j]].details.mag;
               && (x == None ==> y == None)
               && (x != None && y != None ==> x.value >= y.value)
               && (x == y ==> f[top[i]].time >= f[top[j]].time)
  {
    TopListIsBest(f, sorted);
  }

  // ----- the job -----

  class GoldStorage {
    var gold: Partitions

    constructor (gold: Partitions)
      ensures this.gold == gold
    {
      this.gold := gold;
    }

    /** Returns the numbers of rows written. */
    method ProcessDay(ods: Table, pd: Pandas, d: int, ts: string) returns (written: Counts)
      modifies this
      ensures gold == BuildDay(ods, pd, old(gold), d, ts)
      ensures written == Written(ods, pd, d, d + 1)
    {
      var startDt := d * DAY;
      var endDt := startDt + DAY;
      var df := map id | id in ods && startDt <= ods[id].time < endDt :: Feed(ods[id]);
      assert df == DayView(ods, d);
      if |df| == 0 {
        return Counts(0, 0, 0);
      }
      var sorted := pd.sort(df);
      var top := if |sorted| < 10 then sorted else sorted[..10];
      var n := |df|;
      var health := HealthRow(n, |MissingGeo(df)|, |MissingMag(df)|, pd.stats(d, df));
      gold := gold[d := PartsOf(gold, d)[ts := Partition(df, top, health)]];
      return Counts(n, |top|, 1);
    }

    /** None stands for the ValueError on a window that is not positive. */
    method Run(ods: Table, pd: Pandas, today: int, days: int, ts: string) returns (counts: Option<Counts>)
      modifies this
      ensures days <= 0 ==> counts == None && gold == old(gold)
      ensures days > 0 ==> gold == BuildDays(ods, pd, old(gold), today - days + 1, today + 1, ts)
      ensures days > 0 ==> counts == Some(Written(ods, pd, today - days + 1, today + 1))
    {
      if days <= 0 {
        return None;
      }
      var start, total := today - (days - 1), Counts(0, 0, 0);
      var d := start;
      while d < today + 1
        invariant start <= d <= today + 1
        invariant gold == BuildDays(ods, pd, old(gold), start, d, ts)
        invariant total == Written(ods, pd, start, d)
      {
        var n := ProcessDay(ods, pd, d, ts);
        OneDayMore(ods, pd, start, d);
        total := Counts(total.feed + n.feed, total.top + n.top, total.health + n.health);
        d := d + 1;
      }
      return Some(total);
    }
  }
}
