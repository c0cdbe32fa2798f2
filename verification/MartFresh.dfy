/**
 Runs in which no event ever changes its UTC day: after every build and load with the same window the three
 tables of the serving layer are what the warehouse says.
 */
module MartFresh {
  import opened IsoTime
  import opened Events
  import opened Ods
  import opened Gold
  import opened BiLoad
  import opened MartRuns

  predicate JobDays(j: Job, dayOf: string -> int)
    requires ValidJob(j)
  {
    j.Upsert? ==> forall k :: 0 <= k < |j.rows| ==> DayOf(Instant(j.rows[k].time)) == dayOf(j.rows[k].id)
  }

  /** All rows of an id, in all batches, fall on the day given for it. */
  predicate FixedDays(jobs: seq<Job>, dayOf: string -> int)
    requires ValidJobs(jobs)
  {
    forall i :: 0 <= i < |jobs| ==> JobDays(jobs[i], dayOf)
  }

  // ----- the invariant -----

  predicate OdsOk(ods: Table, dayOf: string -> int) {
    forall id :: id in ods ==> DayOf(ods[id].time) == dayOf(id)
  }

  predicate FeedOk(feed: Frame, dayOf: string -> int) {
    forall id :: id in feed ==> DayOf(feed[id].time) == dayOf(id)
  }

  /** A partition is never empty, and holds known events of its own day only. */
  predicate PartOk(ods: Table, dayOf: string -> int, d: int, p: Partition) {
    && |p.feed| > 0
    && forall id :: id in p.feed ==> id in ods && dayOf(id) == d && DayOf(p.feed[id].time) == d
  }

  predicate DayOk(ods: Table, dayOf: string -> int, d: int, parts: map<string, Partition>) {
    forall ts :: ts in parts ==> PartOk(ods, dayOf, d, parts[ts])
  }

  predicate GoldOk(ods: Table, dayOf: string -> int, gold: Partitions) {
    forall d :: d in gold ==> DayOk(ods, dayOf, d, gold[d])
  }

  ghost predicate Good(w: World, dayOf: string -> int) {
    OdsOk(w.ods, dayOf) && FeedOk(w.feed, dayOf) && GoldOk(w.ods, dayOf, w.gold)
  }

  lemma GoldOwns(ods: Table, dayOf: string -> int, gold: Partitions)
    requires GoldOk(ods, dayOf, gold)
    ensures OwnGold(gold)
  {
    forall d | d in gold ensures OwnParts(d, gold[d]) {
      assert DayOk(ods, dayOf, d, gold[d]);
    }
  }

  lemma {:induction false} MergeKeeps(t: Table, s: seq<Arrival>, dayOf: string -> int)
    requires OdsOk(t, dayOf)
    requires forall i :: 0 <= i < |s| ==> DayOf(s[i].row.time) == dayOf(s[i].id)
    ensures OdsOk(Merge(t, s), dayOf) && t.Keys <= Merge(t, s).Keys
  {
    if |s| > 0 {
      MergeKeeps(t, s[..|s| - 1], dayOf);
    }
  }

  lemma GoldKeeps(ods: Table, ods': Table, gold: Partitions, dayOf: string -> int)
    requires GoldOk(ods, dayOf, gold) && ods.Keys <= ods'.Keys
    ensures GoldOk(ods', dayOf, gold)
  {
    forall d | d in gold ensures DayOk(ods', dayOf, d, gold[d]) {
      assert DayOk(ods, dayOf, d, gold[d]);
    }
  }

  lemma UpsertKeeps(w: World, rows: seq<Row>, now: int, dayOf: string -> int)
    requires ValidRows(rows) && Good(w, dayOf) && JobDays(Upsert(rows, now), dayOf)
    ensures Good(DoUpsert(w, rows, now), dayOf)
  {
    if Upserted(w.ods, rows, now).Some? {
      UpsertMerges(w.ods, rows, now);
      MergeKeeps(w.ods, Arrivals(rows, now), dayOf);
      GoldKeeps(w.ods, Upserted(w.ods, rows, now).value, w.gold, dayOf);
    }
  }

  lemma BuildDayKeeps(ods: Table, pd: Pandas, gold: Partitions, d: int, ts: string, dayOf: string -> int)
    requires OdsOk(ods, dayOf) && GoldOk(ods, dayOf, gold)
    ensures GoldOk(ods, dayOf, BuildDay(ods, pd, gold, d, ts))
  {
    var view, after := DayView(ods, d), BuildDay(ods, pd, gold, d, ts);
    forall id | id in view ensures id in ods && dayOf(id) == d && DayOf(view[id].time) == d {
      InDayView(ods, d, id);
    }
    assert |view| > 0 ==> PartOk(ods, dayOf, d, PartitionOf(pd, d, view));
    forall e | e in after ensures DayOk(ods, dayOf, e, after[e]) {
      assert e in gold ==> DayOk(ods, dayOf, e, gold[e]);
    }
  }

  lemma {:induction false} BuildKeeps(ods: Table, pd: Pandas, gold: Partitions, start: int, end: int, ts: string,
                                      dayOf: string -> int)
    requires OdsOk(ods, dayOf) && GoldOk(ods, dayOf, gold)
    ensures GoldOk(ods, dayOf, BuildDays(ods, pd, gold, start, end, ts))
    decreases end - start
  {
    if end > start {
      BuildKeeps(ods, pd, gold, start, end - 1, ts, dayOf);
      BuildDayKeeps(ods, pd, BuildDays(ods, pd, gold, start, end - 1, ts), end - 1, ts, dayOf);
    }
  }

  lemma LatestOk(ods: Table, dayOf: string -> int, gold: Partitions, d: int)
    requires GoldOk(ods, dayOf, gold) && d in LatestOf(gold)
    ensures PartOk(ods, dayOf, d, LatestOf(gold)[d])
  {
    var parts := PartsOf(gold, d);
    LatestExists(parts);
    var ts :| IsLatest(parts, ts);
    LatestIs(gold, d, ts);
    assert DayOk(ods, dayOf, d, gold[d]);
  }

  lemma {:induction false} LoadKeeps(ods: Table, dayOf: string -> int, gold: Partitions, feed: Frame,
                                     start: int, end: int)
    requires GoldOk(ods, dayOf, gold) && FeedOk(feed, dayOf)
    ensures FeedOk(LoadDays(feed, LatestOf(gold), start, end), dayOf)
    decreases end - start
  {
    if end > start {
      var latest, d := LatestOf(gold), end - 1;
      LoadKeeps(ods, dayOf, gold, feed, start, d);
      if d in latest {
        LatestOk(ods, dayOf, gold, d);
      }
      var before := LoadDays(feed, latest, start, d);
      NextDay(feed, latest, start, d);
      forall id | id in LoadDay(before, Offered(latest, d), d)
        ensures DayOf(LoadDay(before, Offered(latest, d), d)[id].time) == dayOf(id)
      {
        LoadDayAt(before, Offered(latest, d), d, id);
      }
    }
  }

  lemma DoBuildKeeps(w: World, today: int, days: int, ts: string, pd: Pandas, dayOf: string -> int)
    requires Good(w, dayOf)
    ensures Good(DoBuild(w, today, days, ts, pd), dayOf)
  {
    BuildKeeps(w.ods, pd, w.gold, today - days + 1, today + 1, ts, dayOf);
  }

  lemma DoLoadKeeps(w: World, latest: Latest, today: int, days: int, dayOf: string -> int)
    requires Good(w, dayOf) && latest == LatestOf(w.gold)
    ensures Good(DoLoad(w, latest, today, days), dayOf)
  {
    LoadKeeps(w.ods, dayOf, w.gold, w.feed, today - days + 1, today + 1);
  }

  lemma DoKeeps(w: World, j: Job, dayOf: string -> int)
    requires ValidJob(j) && JobDays(j, dayOf) && Good(w, dayOf)
    ensures Good(Do(w, j), dayOf)
  {
    match j {
      case Upsert(rows, now) => UpsertKeeps(w, rows, now, dayOf);
      case Build(today, days, ts, pd) => DoBuildKeeps(w, today, days, ts, pd, dayOf);
      case Load(today, days) => DoLoadKeeps(w, LatestOf(w.gold), today, days, dayOf);
    }
  }

  lemma {:induction false} RunIsGood(jobs: seq<Job>, dayOf: string -> int)
    requires ValidJobs(jobs) && FixedDays(jobs, dayOf)
    ensures Good(After(jobs), dayOf)
  {
    if |jobs| > 0 {
      var before, j := jobs[..|jobs| - 1], jobs[|jobs| - 1];
      RunIsGood(before, dayOf);
      assert ValidJob(j) && JobDays(j, dayOf);
      DoKeeps(After(before), j, dayOf);
    }
  }

  // ----- main results -----

  /** After a build every day of the window offers its current view: nothing if it has no events. */
  lemma BuildOffersView(ods: Table, gold: Partitions, b: Job, dayOf: string -> int, d: int)
    requires OdsOk(ods, dayOf) && GoldOk(ods, dayOf, gold)
    requires HasWindow(b) && StampsBy(gold, b.ts) && First(b) <= d < End(b)
    ensures var latest := LatestOf(Rebuilt(ods, gold, b));
            if |DayView(ods, d)| > 0 then d in latest && latest[d] == PartitionOf(b.pd, d, DayView(ods, d))
            else d !in latest
  {
    var gold' := Rebuilt(ods, gold, b);
    if |DayView(ods, d)| > 0 {
      OffersBuilt(ods, gold, b, d);
    } else if d in LatestOf(gold') {
      BuildKeeps(ods, b.pd, gold, First(b), End(b), b.ts, dayOf);
      LatestOk(ods, dayOf, gold', d);
      var id :| id in LatestOf(gold')[d].feed;
      InDayView(ods, d, id);
    }
  }

  /** With fixed days the check always passes. */
  lemma AlwaysLoadable(w: World, b: Job, latest: Latest, dayOf: string -> int)
    requires Good(w, dayOf) && HasWindow(b) && StampsBy(w.gold, b.ts) && latest == LatestOf(Rebuilt(w.ods, w.gold, b))
    ensures AllLoadable(w.ods, latest, w.feed, First(b), End(b))
  {
    forall d | First(b) <= d < End(b) ensures Loadable(w.ods, latest, w.feed, First(b), d) {
      BuildOffersView(w.ods, w.gold, b, dayOf, d);
      forall id | id in DayView(w.ods, d) ensures dayOf(id) == d {
        InDayView(w.ods, d, id);
      }
    }
  }

  /** The serving table equals the warehouse view on the window, row for row, and is what it was on every
      day outside. */
  ghost predicate Fresh(ods: Table, feed: Frame, feed': Frame, start: int, end: int) {
    Agree(feed', FeedView(ods), start, end) && SameOutside(feed, feed', start, end)
  }

  lemma CopyAfterBuild(w: World, b: Job, latest: Latest, dayOf: string -> int)
    requires Good(w, dayOf) && HasWindow(b) && StampsBy(w.gold, b.ts) && latest == LatestOf(Rebuilt(w.ods, w.gold, b))
    ensures Fresh(w.ods, w.feed, LoadDays(w.feed, latest, First(b), End(b)), First(b), End(b))
  {
    AlwaysLoadable(w, b, latest, dayOf);
    GoldOwns(w.ods, dayOf, w.gold);
    CopyOnWorld(w.ods, w.gold, w.feed, b, latest);
  }

  /** A run with fixed days, about to be followed by a build with a later stamp. */
  predicate FixedRun(jobs: seq<Job>, b: Job, dayOf: string -> int) {
    && ValidJobs(jobs) && FixedDays(jobs, dayOf) && ClockedBuilds(jobs)
    && HasWindow(b) && StampedAfter(jobs, b.ts)
  }

  /** Over every run of upserts, builds and loads in which no event changes its UTC day, a build followed by
      a load with the same window leaves a fresh copy. */
  lemma {:induction false} FreshCopy(jobs: seq<Job>, b: Job, dayOf: string -> int)
    requires FixedRun(jobs, b, dayOf)
    ensures var w, w' := After(jobs), BuildAndLoad(After(jobs), b);
            w'.ods == w.ods && Fresh(w.ods, w.feed, w'.feed, First(b), End(b))
  {
    var w := After(jobs);
    var latest := LatestOf(Rebuilt(w.ods, w.gold, b));
    RunIsGood(jobs, dayOf);
    NextStampIsLast(jobs, b.ts);
    CopyAfterBuild(w, b, latest, dayOf);
    BuildAndLoadIs(w, b, latest);
  }

  lemma {:induction false} LoadTopsAt(top: map<int, seq<string>>, latest: Latest, start: int, end: int, d: int)
    ensures var top' := LoadTops(top, latest, start, end);
            if start <= d < end then
              (d in top' <==> d in latest && |latest[d].top| > 0) && (d in top' ==> top'[d] == latest[d].top)
            else (d in top' <==> d in top) && (d in top' ==> top'[d] == top[d])
    decreases end - start
  {
    if end > start {
      LoadTopsAt(top, latest, start, end - 1, d);
    }
  }

  lemma {:induction false} LoadHealthsAt(health: map<int, HealthRow>, latest: Latest, start: int, end: int, d: int)
    ensures var health' := LoadHealths(health, latest, start, end);
            if start <= d < end then
              (d in health' <==> d in latest) && (d in health' ==> health'[d] == latest[d].health)
            else (d in health' <==> d in health) && (d in health' ==> health'[d] == health[d])
    decreases end - start
  {
    if end > start {
      LoadHealthsAt(health, latest, start, end - 1, d);
    }
  }

  /** The top table holds, for a day of the window, the top list of the day's current events, and no list for
      a day without events; other days are untouched. */
  ghost predicate FreshTopOn(ods: Table, b: Job, top: map<int, seq<string>>, top': map<int, seq<string>>, d: int)
    requires HasWindow(b)
  {
    if !(First(b) <= d < End(b)) then (d in top' <==> d in top) && (d in top ==> top'[d] == top[d])
    else if |DayView(ods, d)| == 0 then d !in top'
    else d in top' && top'[d] == TopTen(b.pd.sort(DayView(ods, d)))
  }

  lemma TopAfterBuild(w: World, b: Job, latest: Latest, dayOf: string -> int, d: int)
    requires Good(w, dayOf) && HasWindow(b) && StampsBy(w.gold, b.ts) && latest == LatestOf(Rebuilt(w.ods, w.gold, b))
    requires Sorts(b.pd.sort)
    ensures FreshTopOn(w.ods, b, w.top, LoadTops(w.top, latest, First(b), End(b)), d)
  {
    LoadTopsAt(w.top, latest, First(b), End(b), d);
    if First(b) <= d < End(b) {
      BuildOffersView(w.ods, w.gold, b, dayOf, d);
      assert SortedFrame(DayView(w.ods, d), b.pd.sort(DayView(w.ods, d)));
      SortedRows(DayView(w.ods, d), b.pd.sort(DayView(w.ods, d)));
    }
  }

  /** The same for the daily top table, on every day. Only the last build has to sort as pandas does; earlier
      ones may have ordered their ties in any way. */
  lemma {:induction false} FreshTop(jobs: seq<Job>, b: Job, dayOf: string -> int, d: int)
    requires FixedRun(jobs, b, dayOf) && Sorts(b.pd.sort)
    ensures FreshTopOn(After(jobs).ods, b, After(jobs).top, BuildAndLoad(After(jobs), b).top, d)
  {
    var w := After(jobs);
    var latest := LatestOf(Rebuilt(w.ods, w.gold, b));
    RunIsGood(jobs, dayOf);
    NextStampIsLast(jobs, b.ts);
    TopAfterBuild(w, b, latest, dayOf, d);
    BuildAndLoadIs(w, b, latest);
  }

  /** The health table holds, for a day of the window, the row of the day's current events, and no row for a
      day without events; other days are untouched. */
  ghost predicate FreshHealthOn(ods: Table, b: Job, health: map<int, HealthRow>, health': map<int, HealthRow>, d: int)
    requires HasWindow(b)
  {
    if !(First(b) <= d < End(b)) then (d in health' <==> d in health) && (d in health ==> health'[d] == health[d])
    else if |DayView(ods, d)| == 0 then d !in health'
    else d in health' && health'[d] == Health(b.pd, d, DayView(ods, d))
  }

  /** The same for the daily health table. */
  lemma {:induction false} FreshHealth(jobs: seq<Job>, b: Job, dayOf: string -> int, d: int)
    requires FixedRun(jobs, b, dayOf)
    ensures FreshHealthOn(After(jobs).ods, b, After(jobs).health, BuildAndLoad(After(jobs), b).health, d)
  {
    var w := After(jobs);
    var latest := LatestOf(Rebuilt(w.ods, w.gold, b));
    RunIsGood(jobs, dayOf);
    NextStampIsLast(jobs, b.ts);
    LoadHealthsAt(w.health, latest, First(b), End(b), d);
    if First(b) <= d < End(b) {
      BuildOffersView(w.ods, w.gold, b, dayOf, d);
    }
    BuildAndLoadIs(w, b, latest);
  }
}
