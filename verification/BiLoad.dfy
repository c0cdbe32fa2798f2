/**
 The serving layer: each day of a window is deleted and reloaded from its latest gold partition, days in
 ascending order, with conflicting events skipped. When the copy equals the warehouse is settled exactly.
 */
module BiLoad {
  import opened Options
  import opened IsoTime
  import opened Ods
  import opened Gold
  import opened Dates

  // ----- one day -----

  function DeleteDay(feed: Frame, d: int): Frame {
    map id | id in feed && DayOf(feed[id].time) != d :: feed[id]
  }

  /** INSERT ... ON CONFLICT (event_id) DO NOTHING */
  function InsertNew(feed: Frame, df: Frame): Frame {
    df + feed
  }

  lemma InsertOne(feed: Frame, df: Frame, id: string, row: FeedRow)
    requires id !in df
    ensures InsertNew(feed, df[id := row])
         == if id in InsertNew(feed, df) then InsertNew(feed, df) else InsertNew(feed, df)[id := row]
  {
  }

  function LoadDay(feed: Frame, df: Frame, d: int): Frame {
    InsertNew(DeleteDay(feed, d), df)
  }

  /** The latest partition of each day that has one. */
  type Latest = map<int, Partition>

  ghost function LatestOf(gold: Partitions): Latest {
    map d | d in gold && LatestPart(gold, d).Some? :: LatestPart(gold, d).value
  }

  /** What a day is reloaded from: its latest partition, or nothing. */
  function Offered(latest: Latest, d: int): Frame {
    if d in latest then latest[d].feed else map[]
  }

  function LoadDays(feed: Frame, latest: Latest, start: int, end: int): Frame
    decreases end - start
  {
    if end <= start then feed
    else LoadDay(LoadDays(feed, latest, start, end - 1), Offered(latest, end - 1), end - 1)
  }

  /** The daily top table is keyed by day and rank, so deleting the day leaves nothing to conflict with. */
  function LoadTop(top: map<int, seq<string>>, latest: Latest, d: int): map<int, seq<string>> {
    if d in latest && |latest[d].top| > 0 then top[d := latest[d].top] else top - {d}
  }

  function LoadTops(top: map<int, seq<string>>, latest: Latest, start: int, end: int): map<int, seq<string>>
    decreases end - start
  {
    if end <= start then top else LoadTop(LoadTops(top, latest, start, end - 1), latest, end - 1)
  }

  /** The health table is keyed by day. */
  function LoadHealth(health: map<int, HealthRow>, latest: Latest, d: int): map<int, HealthRow> {
    if d in latest then health[d := latest[d].health] else health - {d}
  }

  function LoadHealths(health: map<int, HealthRow>, latest: Latest, start: int, end: int): map<int, HealthRow>
    decreases end - start
  {
    if end <= start then health else LoadHealth(LoadHealths(health, latest, start, end - 1), latest, end - 1)
  }

  lemma NextDay(feed: Frame, latest: Latest, start: int, d: int)
    requires start <= d
    ensures LoadDays(feed, latest, start, d + 1) == LoadDay(LoadDays(feed, latest, start, d), Offered(latest, d), d)
  {
  }

  lemma NextTop(top: map<int, seq<string>>, latest: Latest, start: int, d: int)
    requires start <= d
    ensures LoadTops(top, latest, start, d + 1) == LoadTop(LoadTops(top, latest, start, d), latest, d)
  {
  }

  lemma NextHealth(health: map<int, HealthRow>, latest: Latest, start: int, d: int)
    requires start <= d
    ensures LoadHealths(health, latest, start, d + 1) == LoadHealth(LoadHealths(health, latest, start, d), latest, d)
  {
  }

  // ----- the job -----

  class ServingLayer {
    var feed: Frame
    var top: map<int, seq<string>>
    var health: map<int, HealthRow>

    constructor (feed: Frame, top: map<int, seq<string>>, health: map<int, HealthRow>)
      ensures this.feed == feed && this.top == top && this.health == health
    {
      this.feed, this.top, this.health := feed, top, health;
    }

    method DeleteFeedDay(d: int)
      modifies this`feed
      ensures feed == DeleteDay(old(feed), d)
    {
      feed := map id | id in feed && DayOf(feed[id].time) != d :: feed[id];
    }

    method InsertFeed(df: Frame)
      modifies this`feed
      ensures feed == InsertNew(old(feed), df)
    {
      var todo := df.Keys;
      ghost var before, done: Frame := feed, map[];
      while todo != {}
        invariant todo <= df.Keys && done.Keys == df.Keys - todo
        invariant forall id :: id in done ==> done[id] == df[id]
        invariant feed == InsertNew(before, done)
        decreases |todo|
      {
        var id :| id in todo;
        InsertOne(before, done, id, df[id]);
        if id !in feed {
          feed := feed[id := df[id]];
        }
        done := done[id := df[id]];
        todo := todo - {id};
      }
      assert done == df;
    }

    /** sorted(keys)[-1] */
    method LatestKey(parts: map<string, Partition>) returns (latest: string)
      requires |parts| > 0
      ensures IsLatest(parts, latest)
    {
      latest :| latest in parts;
      var todo := parts.Keys - {latest};
      while todo != {}
        invariant latest in parts && todo <= parts.Keys
        invariant forall u :: u in parts && u !in todo ==> SortsBy(u, latest)
        decreases |todo|
      {
        var u :| u in todo;
        LexTotal(u, latest);
        if LexLess(latest, u) {
          forall v | v in parts && v !in todo ensures SortsBy(v, u) {
            if v != latest { LexTransitive(v, latest, u); }
          }
          latest := u;
        }
        todo := todo - {u};
      }
    }

    /** The keys of a day's prefix, the last of them sorted, and the object stored under it. */
    method ReadLatest(gold: Partitions, d: int) returns (p: Option<Partition>)
      ensures p == if d in LatestOf(gold) then Some(LatestOf(gold)[d]) else None
    {
      var parts := PartsOf(gold, d);
      if |parts| == 0 {
        return None;
      }
      var key := LatestKey(parts);
      LatestIs(gold, d, key);
      return Some(parts[key]);
    }

    method SyncFeed(gold: Partitions, d: int)
      modifies this`feed
      ensures feed == LoadDay(old(feed), Offered(LatestOf(gold), d), d)
    {
      var p := ReadLatest(gold, d);
      if p.None? || |p.value.feed| == 0 {
        DeleteFeedDay(d);
        return;
      }
      DeleteFeedDay(d);
      InsertFeed(p.value.feed);
    }

    method SyncTop(gold: Partitions, d: int)
      modifies this`top
      ensures top == LoadTop(old(top), LatestOf(gold), d)
    {
      var p := ReadLatest(gold, d);
      top := top - {d};
      if p.Some? && |p.value.top| > 0 {
        top := top[d := p.value.top];
      }
    }

    method SyncHealth(gold: Partitions, d: int)
      modifies this`health
      ensures health == LoadHealth(old(health), LatestOf(gold), d)
    {
      var p := ReadLatest(gold, d);
      health := health - {d};
      if p.Some? {
        health := health[d := p.value.health];
      }
    }

    method SyncFeeds(gold: Partitions, window: seq<int>, start: int)
      requires forall i :: 0 <= i < |window| ==> window[i] == start + i
      modifies this`feed
      ensures feed == LoadDays(old(feed), LatestOf(gold), start, start + |window|)
    {
      ghost var before, latest := feed, LatestOf(gold);
      for i := 0 to |window|
        invariant feed == LoadDays(before, latest, start, start + i)
      {
        ghost var d, sofar := window[i], feed;
        SyncFeed(gold, window[i]);
        assert feed == LoadDay(sofar, Offered(latest, d), d);
        NextDay(before, latest, start, d);
      }
    }

    method SyncTops(gold: Partitions, window: seq<int>, start: int)
      requires forall i :: 0 <= i < |window| ==> window[i] == start + i
      modifies this`top
      ensures top == LoadTops(old(top), LatestOf(gold), start, start + |window|)
    {
      ghost var before, latest := top, LatestOf(gold);
      for i := 0 to |window|
        invariant top == LoadTops(before, latest, start, start + i)
      {
        NextTop(before, latest, start, start + i);
        SyncTop(gold, window[i]);
      }
    }

    method SyncHealths(gold: Partitions, window: seq<int>, start: int)
      requires forall i :: 0 <= i < |window| ==> window[i] == start + i
      modifies this`health
      ensures health == LoadHealths(old(health), LatestOf(gold), start, start + |window|)
    {
      ghost var before, latest := health, LatestOf(gold);
      for i := 0 to |window|
        invariant health == LoadHealths(before, latest, start, start + i)
      {
        NextHealth(before, latest, start, start + i);
        SyncHealth(gold, window[i]);
      }
    }

    /** ok is false for the ValueError on a window that is not positive. */
    method Run(gold: Partitions, today: int, days: int) returns (ok: bool)
      modifies this
      ensures ok <==> days > 0
      ensures days <= 0 ==> feed == old(feed) && top == old(top) && health == old(health)
      ensures days > 0 ==> feed == LoadDays(old(feed), LatestOf(gold), today - days + 1, today + 1)
      ensures days > 0 ==> top == LoadTops(old(top), LatestOf(gold), today - days + 1, today + 1)
      ensures days > 0 ==> health == LoadHealths(old(health), LatestOf(gold), today - days + 1, today + 1)
    {
      if days <= 0 {
        return false;
      }
      var start := today - (days - 1);
      var window := DateRange(start, today + 1);
      SyncFeeds(gold, window, start);
      SyncTops(gold, window, start);
      SyncHealths(gold, window, start);
      return true;
    }
  }

  // ----- exactly when the copy is right -----

  /** The row stored for an event under a given day, if it is stored there. */
  function RowOn(feed: Frame, d: int, id: string): Option<FeedRow> {
    if id in feed && DayOf(feed[id].time) == d then Some(feed[id]) else None
  }

  /** The same rows on every day of the window. */
  ghost predicate Agree(f: Frame, g: Frame, start: int, end: int) {
    forall d, id {:trigger RowOn(f, d, id)} :: start <= d < end ==> RowOn(f, d, id) == RowOn(g, d, id)
  }

  /** The rows of a frame with their day in the window. */
  function Window(f: Frame, start: int, end: int): Frame {
    map id | id in f && start <= DayOf(f[id].time) < end :: f[id]
  }

  /** Agreeing on the days of a window is holding the same rows of it. */
  lemma {:induction false} AgreeIsSameWindow(f: Frame, g: Frame, start: int, end: int)
    ensures Agree(f, g, start, end) <==> Window(f, start, end) == Window(g, start, end)
  {
    if Agree(f, g, start, end) {
      forall id
        ensures id in Window(f, start, end) <==> id in Window(g, start, end)
        ensures id in Window(f, start, end) ==> f[id] == g[id]
      {
        if id in Window(f, start, end) { assert RowOn(f, DayOf(f[id].time), id) == RowOn(g, DayOf(f[id].time), id); }
        if id in Window(g, start, end) { assert RowOn(f, DayOf(g[id].time), id) == RowOn(g, DayOf(g[id].time), id); }
      }
    }
    if Window(f, start, end) == Window(g, start, end) {
      forall d, id | start <= d < end ensures RowOn(f, d, id) == RowOn(g, d, id) {
        assert RowOn(Window(f, start, end), d, id) == RowOn(f, d, id);
        assert RowOn(Window(g, start, end), d, id) == RowOn(g, d, id);
      }
    }
  }

  /** What the serving table should hold: the feed view of the warehouse. */
  function FeedView(ods: Table): Frame {
    map id | id in ods :: Feed(ods[id])
  }

  predicate OwnDays(latest: Latest, start: int, end: int) {
    forall e, i :: start <= e < end && i in Offered(latest, e) ==> DayOf(Offered(latest, e)[i].time) == e
  }

  /** Every partition offered holds rows of its own day, and of the days with events it is the current view. */
  predicate Built(ods: Table, latest: Latest, start: int, end: int) {
    && OwnDays(latest, start, end)
    && forall d :: start <= d < end && DayView(ods, d) != map[] ==> Offered(latest, d) == DayView(ods, d)
  }

  /** When day d is loaded, the serving table still holds the event under a day not yet reached or outside
      the window. */
  predicate Blocked(feed: Frame, start: int, d: int, id: string) {
    id in feed && !(start <= DayOf(feed[id].time) <= d)
  }

  /** The check to make before a load, for one day. With events on the day: none of them is still stored
      under a later day, or a day outside the window. Without: every event of the stale partition is, or
      has its true place on an earlier day of the window. */
  predicate Loadable(ods: Table, latest: Latest, feed: Frame, start: int, d: int) {
    if DayView(ods, d) != map[] then
      forall id :: id in DayView(ods, d) ==> !Blocked(feed, start, d, id)
    else
      forall id :: id in Offered(latest, d) ==>
        Blocked(feed, start, d, id) || (id in ods && start <= DayOf(ods[id].time) < d)
  }

  /** The event's true day is in the window and already loaded. */
  predicate Placed(ods: Table, start: int, d: int, id: string) {
    id in ods && start <= DayOf(ods[id].time) < d
  }

  /** Half way, one event: its current row if its day has been loaded, else what was stored before under a
      day not yet reached or outside the window, else nothing. */
  predicate Settled(ods: Table, feed0: Frame, feed: Frame, start: int, d: int, id: string) {
    if Placed(ods, start, d, id) then id in feed && feed[id] == Feed(ods[id])
    else if id in feed0 && !(start <= DayOf(feed0[id].time) < d) then id in feed && feed[id] == feed0[id]
    else id !in feed
  }

  ghost predicate LoadedUpTo(ods: Table, feed0: Frame, feed: Frame, start: int, d: int) {
    forall id {:trigger Settled(ods, feed0, feed, start, d, id)} :: Settled(ods, feed0, feed, start, d, id)
  }

  lemma LoadDayAt(feed: Frame, df: Frame, d: int, id: string)
    ensures var feed' := LoadDay(feed, df, d);
            if id in feed && DayOf(feed[id].time) != d then id in feed' && feed'[id] == feed[id]
            else if id in df then id in feed' && feed'[id] == df[id]
            else id !in feed'
  {
  }

  lemma LoadStepAt(ods: Table, latest: Latest, feed0: Frame, feed: Frame, start: int, d: int, end: int, id: string)
    requires start <= d < end && Built(ods, latest, start, end)
    requires Settled(ods, feed0, feed, start, d, id) && Loadable(ods, latest, feed0, start, d)
    ensures Settled(ods, feed0, LoadDay(feed, Offered(latest, d), d), start, d + 1, id)
  {
    LoadDayAt(feed, Offered(latest, d), d, id);
    InDayView(ods, d, id);
  }

  lemma {:induction false} GoodDaysLoad(ods: Table, latest: Latest, feed0: Frame, start: int, d: int, end: int)
    requires start <= d <= end && Built(ods, latest, start, end)
    requires forall e :: start <= e < d ==> Loadable(ods, latest, feed0, start, e)
    ensures LoadedUpTo(ods, feed0, LoadDays(feed0, latest, start, d), start, d)
    decreases d - start
  {
    if d == start {
      forall id ensures Settled(ods, feed0, feed0, start, d, id) {
      }
    } else {
      GoodDaysLoad(ods, latest, feed0, start, d - 1, end);
      var feed := LoadDays(feed0, latest, start, d - 1);
      forall id ensures Settled(ods, feed0, LoadDays(feed0, latest, start, d), start, d, id) {
        assert Settled(ods, feed0, feed, start, d - 1, id);
        LoadStepAt(ods, latest, feed0, feed, start, d - 1, end, id);
      }
    }
  }

  lemma OtherDayAt(feed: Frame, df: Frame, e: int, d: int, id: string)
    requires d != e && forall i :: i in df ==> DayOf(df[i].time) == e
    ensures RowOn(LoadDay(feed, df, e), d, id) == RowOn(feed, d, id)
  {
    LoadDayAt(feed, df, e, id);
  }

  /** Every row of a day outside the window stays as it was, and none is added there. */
  lemma {:induction false} OutsideUntouched(latest: Latest, feed: Frame, start: int, end: int, d: int, id: string)
    requires OwnDays(latest, start, end) && !(start <= d < end)
    ensures RowOn(LoadDays(feed, latest, start, end), d, id) == RowOn(feed, d, id)
    decreases end - start
  {
    if end > start {
      OutsideUntouched(latest, feed, start, end - 1, d, id);
      OtherDayAt(LoadDays(feed, latest, start, end - 1), Offered(latest, end - 1), end - 1, d, id);
    }
  }

  lemma {:induction false} LoadSplits(latest: Latest, feed: Frame, start: int, mid: int, end: int)
    requires start <= mid <= end
    ensures LoadDays(feed, latest, start, end) == LoadDays(LoadDays(feed, latest, start, mid), latest, mid, end)
    decreases end - mid
  {
    if mid < end {
      LoadSplits(latest, feed, start, mid, end - 1);
    }
  }

  /** Loading later days leaves the rows of a day alone. */
  lemma LaterDaysKeep(latest: Latest, feed: Frame, start: int, d: int, end: int, id: string)
    requires start <= d < end && OwnDays(latest, start, end)
    ensures RowOn(LoadDays(feed, latest, start, end), d, id) == RowOn(LoadDays(feed, latest, start, d + 1), d, id)
  {
    LoadSplits(latest, feed, start, d + 1, end);
    OutsideUntouched(latest, LoadDays(feed, latest, start, d + 1), d + 1, end, d, id);
  }

  /** Loading a day that fails the check puts some row of that day wrong. */
  lemma BadRow(ods: Table, latest: Latest, feed0: Frame, feed: Frame, start: int, d: int, end: int) returns (id: string)
    requires start <= d < end && Built(ods, latest, start, end)
    requires LoadedUpTo(ods, feed0, feed, start, d) && !Loadable(ods, latest, feed0, start, d)
    ensures RowOn(LoadDay(feed, Offered(latest, d), d), d, id) != RowOn(FeedView(ods), d, id)
  {
    if DayView(ods, d) != map[] {
      id :| id in DayView(ods, d) && Blocked(feed0, start, d, id);
    } else {
      id :| id in Offered(latest, d) && !(Blocked(feed0, start, d, id) || Placed(ods, start, d, id));
    }
    assert Settled(ods, feed0, feed, start, d, id);
    InDayView(ods, d, id);
    LoadDayAt(feed, Offered(latest, d), d, id);
  }

  /** A day that fails the check comes out wrong: the serving table then differs from the warehouse on it. */
  lemma {:induction false} BadDayShows(ods: Table, latest: Latest, feed0: Frame, start: int, d: int, end: int)
    requires start <= d < end && Built(ods, latest, start, end)
    requires forall e :: start <= e < d ==> Loadable(ods, latest, feed0, start, e)
    requires !Loadable(ods, latest, feed0, start, d)
    ensures !Agree(LoadDays(feed0, latest, start, end), FeedView(ods), start, end)
  {
    GoodDaysLoad(ods, latest, feed0, start, d, end);
    var id := BadRow(ods, latest, feed0, LoadDays(feed0, latest, start, d), start, d, end);
    NextDay(feed0, latest, start, d);
    LaterDaysKeep(latest, feed0, start, d, end, id);
    assert RowOn(LoadDays(feed0, latest, start, end), d, id) != RowOn(FeedView(ods), d, id);
  }

  ghost predicate AllLoadable(ods: Table, latest: Latest, feed0: Frame, start: int, end: int) {
    forall d :: start <= d < end ==> Loadable(ods, latest, feed0, start, d)
  }

  lemma {:induction false} FirstBadDay(ods: Table, latest: Latest, feed0: Frame, start: int, end: int) returns (d: int)
    requires !AllLoadable(ods, latest, feed0, start, end)
    ensures start <= d < end && !Loadable(ods, latest, feed0, start, d)
    ensures forall e :: start <= e < d ==> Loadable(ods, latest, feed0, start, e)
    decreases end - start
  {
    if AllLoadable(ods, latest, feed0, start, end - 1) {
      d := end - 1;
    } else {
      d := FirstBadDay(ods, latest, feed0, start, end - 1);
    }
  }

  /** The exact condition. After a build, a load makes the serving table equal to the warehouse view on the
      window, row for row, if and only if every day of the window passes the check made before the load. */
  lemma {:induction false} CopyIsRightIff(ods: Table, latest: Latest, feed0: Frame, start: int, end: int)
    requires start <= end && Built(ods, latest, start, end)
    ensures Agree(LoadDays(feed0, latest, start, end), FeedView(ods), start, end)
       <==> AllLoadable(ods, latest, feed0, start, end)
  {
    if AllLoadable(ods, latest, feed0, start, end) {
      GoodDaysLoad(ods, latest, feed0, start, end, end);
      var feed := LoadDays(feed0, latest, start, end);
      forall d, id | start <= d < end ensures RowOn(feed, d, id) == RowOn(FeedView(ods), d, id) {
        assert Settled(ods, feed0, feed, start, end, id);
      }
    } else {
      var d := FirstBadDay(ods, latest, feed0, start, end);
      BadDayShows(ods, latest, feed0, start, d, end);
    }
  }
}
