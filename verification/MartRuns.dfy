/**
 Whole runs of the pipeline behind the warehouse: upserts, gold builds and loads of the serving layer, in
 any order and number. After every run, and whatever the events did, the copy made by a build and a load is
 right exactly when every day of the window passes the check made before the load.
 */
module MartRuns {
  import opened IsoTime
  import opened Events
  import opened Ods
  import opened Gold
  import opened BiLoad

  datatype World = World(
    ods: Table, gold: Partitions, feed: Frame, top: map<int, seq<string>>, health: map<int, HealthRow>)

  const EMPTY := World(map[], map[], map[], map[], map[])

  /** Each build has its own order of ties and its own statistics. */
  datatype Job =
    | Upsert(rows: seq<Row>, now: int)
    | Build(today: int, days: int, ts: string, pd: Pandas)
    | Load(today: int, days: int)

  predicate ValidJob(j: Job) {
    j.Upsert? ==> ValidRows(j.rows)
  }

  /** Jobs that raise leave the world as it was. */
  function DoUpsert(w: World, rows: seq<Row>, now: int): World
    requires ValidRows(rows)
  {
    match Upserted(w.ods, rows, now)
    case None => w
    case Some(t) => w.(ods := t)
  }

  function DoBuild(w: World, today: int, days: int, ts: string, pd: Pandas): World {
    if days <= 0 then w
    else w.(gold := BuildDays(w.ods, pd, w.gold, today - days + 1, today + 1, ts))
  }

  function DoLoad(w: World, latest: Latest, today: int, days: int): World {
    if days <= 0 then w
    else w.(feed := LoadDays(w.feed, latest, today - days + 1, today + 1),
            top := LoadTops(w.top, latest, today - days + 1, today + 1),
            health := LoadHealths(w.health, latest, today - days + 1, today + 1))
  }

  ghost function Do(w: World, j: Job): World
    requires ValidJob(j)
  {
    match j
    case Upsert(rows, now) => DoUpsert(w, rows, now)
    case Build(today, days, ts, pd) => DoBuild(w, today, days, ts, pd)
    case Load(today, days) => DoLoad(w, LatestOf(w.gold), today, days)
  }

  predicate ValidJobs(jobs: seq<Job>) {
    forall i :: 0 <= i < |jobs| ==> ValidJob(jobs[i])
  }

  ghost function After(jobs: seq<Job>): World
    requires ValidJobs(jobs)
  {
    if |jobs| == 0 then EMPTY else Do(After(jobs[..|jobs| - 1]), jobs[|jobs| - 1])
  }

  /** Builds are stamped in order, as they are by a clock that does not go back. */
  predicate ClockedBuilds(jobs: seq<Job>) {
    forall i, j :: 0 <= i < j < |jobs| && jobs[i].Build? && jobs[j].Build? ==> SortsBy(jobs[i].ts, jobs[j].ts)
  }

  predicate StampedAfter(jobs: seq<Job>, ts: string) {
    forall i :: 0 <= i < |jobs| && jobs[i].Build? ==> SortsBy(jobs[i].ts, ts)
  }

  lemma LastDaysAt(ods: Table, pd: Pandas, gold: Partitions, today: int, days: int, ts: string, d: int)
    requires days > 0
    ensures var parts := PartsOf(BuildDays(ods, pd, gold, today - days + 1, today + 1, ts), d);
            if 0 <= today - d < days && |DayView(ods, d)| > 0
            then parts == PartsOf(gold, d)[ts := PartitionOf(pd, d, DayView(ods, d))]
            else parts == PartsOf(gold, d)
  {
    var start, end := today - days + 1, today + 1;
    assert start <= d < end <==> 0 <= today - d < days;
    BuildAt(ods, pd, gold, start, end, ts, d);
  }

  /** A build adds one partition, of the current view, to each of the last `days` days up to today that has
      events; it changes no other day, and with no positive number of days it changes nothing. */
  lemma {:induction false} BuildTouchesLastDays(w: World, today: int, days: int, ts: string, pd: Pandas, d: int)
    ensures var parts := PartsOf(DoBuild(w, today, days, ts, pd).gold, d);
            if 0 <= today - d < days && |DayView(w.ods, d)| > 0
            then parts == PartsOf(w.gold, d)[ts := PartitionOf(pd, d, DayView(w.ods, d))]
            else parts == PartsOf(w.gold, d)
  {
    if days > 0 {
      LastDaysAt(w.ods, pd, w.gold, today, days, ts, d);
    }
  }

  // ----- one build and one load with the same window -----

  predicate HasWindow(b: Job) {
    b.Build? && b.days > 0
  }

  function First(b: Job): int
    requires HasWindow(b)
  {
    b.today - b.days + 1
  }

  function End(b: Job): int
    requires HasWindow(b)
  {
    b.today + 1
  }

  /** The partitions after the build. */
  function Rebuilt(ods: Table, gold: Partitions, b: Job): Partitions
    requires HasWindow(b)
  {
    BuildDays(ods, b.pd, gold, First(b), End(b), b.ts)
  }

  ghost function BuildAndLoad(w: World, b: Job): World
    requires HasWindow(b)
  {
    Do(Do(w, b), Load(b.today, b.days))
  }

  lemma BuildIs(w: World, b: Job)
    requires HasWindow(b)
    ensures Do(w, b) == World(w.ods, Rebuilt(w.ods, w.gold, b), w.feed, w.top, w.health)
  {
  }

  lemma LoadIs(w: World, b: Job, latest: Latest)
    requires HasWindow(b) && latest == LatestOf(w.gold)
    ensures Do(w, Load(b.today, b.days))
         == World(w.ods, w.gold, LoadDays(w.feed, latest, First(b), End(b)), LoadTops(w.top, latest, First(b), End(b)),
                  LoadHealths(w.health, latest, First(b), End(b)))
  {
  }

  lemma BuildAndLoadIs(w: World, b: Job, latest: Latest)
    requires HasWindow(b) && latest == LatestOf(Rebuilt(w.ods, w.gold, b))
    ensures BuildAndLoad(w, b)
         == World(w.ods, Rebuilt(w.ods, w.gold, b), LoadDays(w.feed, latest, First(b), End(b)),
                  LoadTops(w.top, latest, First(b), End(b)), LoadHealths(w.health, latest, First(b), End(b)))
  {
    BuildIs(w, b);
    LoadIs(Do(w, b), b, latest);
  }

  // ----- stamps -----

  predicate StampsBy(gold: Partitions, ts: string) {
    forall d, u :: d in gold && u in gold[d] ==> SortsBy(u, ts)
  }

  lemma {:induction false} BuildStamps(ods: Table, pd: Pandas, gold: Partitions, start: int, end: int, ts: string)
    requires StampsBy(gold, ts)
    ensures StampsBy(BuildDays(ods, pd, gold, start, end, ts), ts)
    decreases end - start
  {
    if end > start {
      BuildStamps(ods, pd, gold, start, end - 1, ts);
    }
  }

  lemma StampsRaise(gold: Partitions, s: string, t: string)
    requires StampsBy(gold, s) && SortsBy(s, t)
    ensures StampsBy(gold, t)
  {
    forall d, u | d in gold && u in gold[d] ensures SortsBy(u, t) {
      assert SortsBy(u, s);
      if u != s && s != t {
        LexTransitive(u, s, t);
      }
    }
  }

  lemma DoStamps(w: World, j: Job, ts: string)
    requires ValidJob(j) && StampsBy(w.gold, if j.Build? then j.ts else ts) && (j.Build? ==> SortsBy(j.ts, ts))
    ensures StampsBy(Do(w, j).gold, ts)
  {
    if j.Build? {
      BuildStamps(w.ods, j.pd, w.gold, j.today - j.days + 1, j.today + 1, j.ts);
      StampsRaise(Do(w, j).gold, j.ts, ts);
    }
  }

  /** After a run, a stamp that follows all its builds follows all stored partitions. */
  lemma {:induction false} NextStampIsLast(jobs: seq<Job>, ts: string)
    requires ValidJobs(jobs) && ClockedBuilds(jobs) && StampedAfter(jobs, ts)
    ensures StampsBy(After(jobs).gold, ts)
  {
    if |jobs| > 0 {
      var before, j := jobs[..|jobs| - 1], jobs[|jobs| - 1];
      assert ValidJob(j);
      NextStampIsLast(before, if j.Build? then j.ts else ts);
      DoStamps(After(before), j, ts);
    }
  }

  // ----- partitions hold their own day, in every run -----

  predicate OwnParts(d: int, parts: map<string, Partition>) {
    forall ts, id :: ts in parts && id in parts[ts].feed ==> DayOf(parts[ts].feed[id].time) == d
  }

  predicate OwnGold(gold: Partitions) {
    forall d :: d in gold ==> OwnParts(d, gold[d])
  }

  lemma BuildDayOwns(ods: Table, pd: Pandas, gold: Partitions, d: int, ts: string)
    requires OwnGold(gold)
    ensures OwnGold(BuildDay(ods, pd, gold, d, ts))
  {
    var after := BuildDay(ods, pd, gold, d, ts);
    forall e | e in after ensures OwnParts(e, after[e]) {
      assert e in gold ==> OwnParts(e, gold[e]);
      if e == d && |DayView(ods, d)| > 0 {
        forall id | id in DayView(ods, d) ensures DayOf(DayView(ods, d)[id].time) == d {
          InDayView(ods, d, id);
        }
      }
    }
  }

  lemma {:induction false} BuildOwns(ods: Table, pd: Pandas, gold: Partitions, start: int, end: int, ts: string)
    requires OwnGold(gold)
    ensures OwnGold(BuildDays(ods, pd, gold, start, end, ts))
    decreases end - start
  {
    if end > start {
      BuildOwns(ods, pd, gold, start, end - 1, ts);
      BuildDayOwns(ods, pd, BuildDays(ods, pd, gold, start, end - 1, ts), end - 1, ts);
    }
  }

  lemma DoOwns(w: World, j: Job)
    requires ValidJob(j) && OwnGold(w.gold)
    ensures OwnGold(Do(w, j).gold)
  {
    if j.Build? {
      BuildOwns(w.ods, j.pd, w.gold, j.today - j.days + 1, j.today + 1, j.ts);
    }
  }

  /** In every run every partition holds rows of its own day, whatever happens to the events' times. */
  lemma {:induction false} RunOwnsDays(jobs: seq<Job>)
    requires ValidJobs(jobs)
    ensures OwnGold(After(jobs).gold)
  {
    if |jobs| > 0 {
      assert ValidJob(jobs[|jobs| - 1]);
      RunOwnsDays(jobs[..|jobs| - 1]);
      DoOwns(After(jobs[..|jobs| - 1]), jobs[|jobs| - 1]);
    }
  }

  lemma LatestOwns(gold: Partitions, d: int)
    requires OwnGold(gold)
    ensures forall id :: id in Offered(LatestOf(gold), d) ==> DayOf(Offered(LatestOf(gold), d)[id].time) == d
  {
    if d in LatestOf(gold) {
      LatestExists(PartsOf(gold, d));
      var ts :| IsLatest(PartsOf(gold, d), ts);
      LatestIs(gold, d, ts);
      assert OwnParts(d, gold[d]);
    }
  }

  /** After a build, a day of the window that has events is offered as the build wrote it. */
  lemma OffersBuilt(ods: Table, gold: Partitions, b: Job, d: int)
    requires HasWindow(b) && StampsBy(gold, b.ts) && First(b) <= d < End(b) && |DayView(ods, d)| > 0
    ensures var latest := LatestOf(Rebuilt(ods, gold, b));
            d in latest && latest[d] == PartitionOf(b.pd, d, DayView(ods, d))
  {
    var gold' := Rebuilt(ods, gold, b);
    BuildAt(ods, b.pd, gold, First(b), End(b), b.ts, d);
    assert IsLatest(PartsOf(gold', d), b.ts);
    LatestIs(gold', d, b.ts);
  }

  /** So a build by a clock that does not go back leaves what a load relies on. */
  lemma BuiltByBuild(ods: Table, gold: Partitions, b: Job)
    requires HasWindow(b) && OwnGold(gold) && StampsBy(gold, b.ts)
    ensures Built(ods, LatestOf(Rebuilt(ods, gold, b)), First(b), End(b))
  {
    var latest := LatestOf(Rebuilt(ods, gold, b));
    BuildOwns(ods, b.pd, gold, First(b), End(b), b.ts);
    forall d | First(b) <= d < End(b)
      ensures forall id :: id in Offered(latest, d) ==> DayOf(Offered(latest, d)[id].time) == d
      ensures DayView(ods, d) != map[] ==> Offered(latest, d) == DayView(ods, d)
    {
      LatestOwns(Rebuilt(ods, gold, b), d);
      if DayView(ods, d) != map[] {
        assert |DayView(ods, d)| > 0;
        OffersBuilt(ods, gold, b, d);
      }
    }
  }

  // ----- main result -----

  /** Every row of a day outside the window is what it was. */
  ghost predicate SameOutside(feed: Frame, feed': Frame, start: int, end: int) {
    forall d, id {:trigger RowOn(feed, d, id)} :: !(start <= d < end) ==> RowOn(feed', d, id) == RowOn(feed, d, id)
  }

  lemma CopyOnWorld(ods: Table, gold: Partitions, feed: Frame, b: Job, latest: Latest)
    requires HasWindow(b) && OwnGold(gold) && StampsBy(gold, b.ts) && latest == LatestOf(Rebuilt(ods, gold, b))
    ensures Agree(LoadDays(feed, latest, First(b), End(b)), FeedView(ods), First(b), End(b))
       <==> AllLoadable(ods, latest, feed, First(b), End(b))
    ensures SameOutside(feed, LoadDays(feed, latest, First(b), End(b)), First(b), End(b))
  {
    BuiltByBuild(ods, gold, b);
    CopyIsRightIff(ods, latest, feed, First(b), End(b));
    forall d, id | !(First(b) <= d < End(b))
      ensures RowOn(LoadDays(feed, latest, First(b), End(b)), d, id) == RowOn(feed, d, id)
    {
      OutsideUntouched(latest, feed, First(b), End(b), d, id);
    }
  }

  /** After every run, with no assumption on the events, a build and a load with the same window leave the
      serving table equal to the warehouse view on the window, row for row, if and only if every day passes
      the check made before the load. Days outside the window are untouched either way. */
  lemma {:induction false} CopyRightIff(jobs: seq<Job>, b: Job, latest: Latest)
    requires ValidJobs(jobs) && ClockedBuilds(jobs) && HasWindow(b) && StampedAfter(jobs, b.ts)
    requires latest == LatestOf(Rebuilt(After(jobs).ods, After(jobs).gold, b))
    ensures var w, w' := After(jobs), BuildAndLoad(After(jobs), b);
            && w'.ods == w.ods
            && (Agree(w'.feed, FeedView(w.ods), First(b), End(b))
                <==> AllLoadable(w.ods, latest, w.feed, First(b), End(b)))
            && SameOutside(w.feed, w'.feed, First(b), End(b))
  {
    var w := After(jobs);
    RunOwnsDays(jobs);
    NextStampIsLast(jobs, b.ts);
    CopyOnWorld(w.ods, w.gold, w.feed, b, latest);
    BuildAndLoadIs(w, b, latest);
  }
}
