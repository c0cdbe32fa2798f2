/**
 When an event does move to another UTC day: what the next build and load make of it, and all that follow,
 exactly.
 */
module MartMoves {
  import opened Options
  import opened IsoTime
  import opened Events
  import opened Ods
  import opened Gold
  import opened BiLoad
  import opened MartRuns
  import opened MartFresh

  // ----- what a load does to one event -----

  predicate OfferedOnlyOn(latest: Latest, start: int, end: int, d: int, id: string) {
    forall e :: start <= e < end && e != d ==> id !in Offered(latest, e)
  }

  /** Where an event offered on day d only is, once the days before k are loaded: a row under a day not yet
      reloaded, or outside the window, stays and keeps a new one out; else it is under d, unless an old row stood
      in the way when d was loaded. */
  predicate Loaded(latest: Latest, feed: Frame, f: Frame, start: int, k: int, d: int, id: string) {
    if id in feed && !(start <= DayOf(feed[id].time) < k) then id in f && f[id] == feed[id]
    else if start <= d < k && id in Offered(latest, d) && !(id in feed && DayOf(feed[id].time) > d) then
      id in f && f[id] == Offered(latest, d)[id]
    else id !in f
  }

  lemma OneDayLoaded(latest: Latest, feed: Frame, f: Frame, start: int, k: int, end: int, d: int, id: string)
    requires start <= k < end && OwnDays(latest, start, end) && OfferedOnlyOn(latest, start, end, d, id)
    requires Loaded(latest, feed, f, start, k, d, id)
    ensures Loaded(latest, feed, LoadDay(f, Offered(latest, k), k), start, k + 1, d, id)
  {
    LoadDayAt(f, Offered(latest, k), k, id);
  }

  lemma {:induction false} LoadedOnce(latest: Latest, feed: Frame, start: int, k: int, end: int, d: int, id: string)
    requires start <= k <= end && OwnDays(latest, start, end) && OfferedOnlyOn(latest, start, end, d, id)
    ensures Loaded(latest, feed, LoadDays(feed, latest, start, k), start, k, d, id)
    decreases k - start
  {
    if k > start {
      LoadedOnce(latest, feed, start, k - 1, end, d, id);
      NextDay(feed, latest, start, k - 1);
      OneDayLoaded(latest, feed, LoadDays(feed, latest, start, k - 1), start, k - 1, end, d, id);
    }
  }

  lemma DayKeeps(feed: Frame, df: Frame, e: int, d: int, id: string)
    requires id in feed && DayOf(feed[id].time) == d
    requires e == d ==> id in df && DayOf(df[id].time) == d
    ensures var f := LoadDay(feed, df, e); id in f && DayOf(f[id].time) == d
  {
    LoadDayAt(feed, df, e, id);
  }

  /** An event whose stored day offers it again stays on that day. */
  lemma {:induction false} LoadedAgain(latest: Latest, feed: Frame, start: int, k: int, d: int, id: string)
    requires start <= k && id in feed && DayOf(feed[id].time) == d
    requires id in Offered(latest, d) && DayOf(Offered(latest, d)[id].time) == d
    ensures var f := LoadDays(feed, latest, start, k); id in f && DayOf(f[id].time) == d
    decreases k - start
  {
    if k > start {
      LoadedAgain(latest, feed, start, k - 1, d, id);
      NextDay(feed, latest, start, k - 1);
      DayKeeps(LoadDays(feed, latest, start, k - 1), Offered(latest, k - 1), k - 1, d, id);
    }
  }

  // ----- where the event is stored -----

  datatype Spot = Nowhere | Outside | On(day: int)

  function SpotOf(feed: Frame, start: int, end: int, id: string): Spot {
    if id !in feed then Nowhere
    else if start <= DayOf(feed[id].time) < end then On(DayOf(feed[id].time)) else Outside
  }

  /** One event has moved to another day. */
  ghost predicate Moved(w: World, dayOf: string -> int, ods': Table, id: string, from: int, to: int) {
    && Good(w, dayOf) && id in w.ods && id in ods' && ods' == w.ods[id := ods'[id]]
    && from == DayOf(w.ods[id].time) && to == DayOf(ods'[id].time) && from != to
  }

  /** The move has left a day of the window empty, so its old partition is the one that is loaded. */
  predicate Stuck(ods': Table, start: int, end: int, from: int) {
    start <= from < end && DayView(ods', from) == map[]
  }

  /** A day without events is reloaded from the partition it had before the move, if any. */
  predicate OldOffers(ods: Table, dayOf: string -> int, ods': Table, latest: Latest, start: int, end: int) {
    forall d :: start <= d < end && DayView(ods', d) == map[] && d in latest ==> PartOk(ods, dayOf, d, latest[d])
  }

  ghost predicate Offers(w: World, dayOf: string -> int, ods': Table, latest: Latest, start: int, end: int, from: int) {
    && Built(ods', latest, start, end) && OldOffers(w.ods, dayOf, ods', latest, start, end)
    && (Stuck(ods', start, end, from) ==> from in latest)
  }

  /** All other events of the window are stored under their day. */
  predicate OthersInPlace(ods': Table, feed: Frame, start: int, end: int, id: string) {
    forall i :: i in ods' && i != id && start <= DayOf(ods'[i].time) < end ==>
      i in feed && DayOf(feed[i].time) == DayOf(ods'[i].time)
  }

  /** What a day offers are its current events, or, on the day left empty, the event that has gone. */
  lemma OfferedHere(w: World, dayOf: string -> int, ods': Table, latest: Latest, start: int, end: int, id: string,
                    from: int, to: int, e: int, i: string)
    requires Moved(w, dayOf, ods', id, from, to) && Offers(w, dayOf, ods', latest, start, end, from)
    requires start <= e < end && i in Offered(latest, e)
    ensures (i in ods' && DayOf(ods'[i].time) == e) || (i == id && e == from && Stuck(ods', start, end, from))
  {
    InDayView(ods', e, i);
    if DayView(ods', e) == map[] {
      assert PartOk(w.ods, dayOf, e, latest[e]);
      assert i in w.ods && DayOf(w.ods[i].time) == e;
    }
  }

  lemma StuckOffers(w: World, dayOf: string -> int, ods': Table, latest: Latest, start: int, end: int, id: string,
                    from: int, to: int)
    requires Moved(w, dayOf, ods', id, from, to) && Offers(w, dayOf, ods', latest, start, end, from)
    requires Stuck(ods', start, end, from)
    ensures id in Offered(latest, from)
  {
    assert PartOk(w.ods, dayOf, from, latest[from]);
    var i :| i in latest[from].feed;
    OfferedHere(w, dayOf, ods', latest, start, end, id, from, to, from, i);
    InDayView(ods', from, i);
  }

  // ----- one round, seen from the serving table -----

  function NextSpot(stuck: bool, inTo: bool, to: int, s: Spot): Spot {
    if stuck then s
    else match s
         case Outside => Outside
         case Nowhere => if inTo then On(to) else Nowhere
         case On(d) => if inTo && d <= to then On(to) else Nowhere
  }

  predicate RightFrom(stuck: bool, inTo: bool, to: int, s: Spot) {
    !stuck && (inTo ==> s != Outside && (s.On? ==> s.day <= to))
  }

  /** While a day is stuck, the event stays on it. */
  predicate Consistent(ods': Table, feed: Frame, start: int, end: int, id: string, from: int) {
    && OthersInPlace(ods', feed, start, end, id)
    && (Stuck(ods', start, end, from) ==> SpotOf(feed, start, end, id) == On(from))
  }

  lemma OthersStay(w: World, dayOf: string -> int, ods': Table, latest: Latest, start: int, end: int, id: string,
                   from: int, to: int, feed: Frame)
    requires Moved(w, dayOf, ods', id, from, to) && Offers(w, dayOf, ods', latest, start, end, from) && start <= end
    requires OthersInPlace(ods', feed, start, end, id)
    ensures OthersInPlace(ods', LoadDays(feed, latest, start, end), start, end, id)
  {
    forall i | i in ods' && i != id && start <= DayOf(ods'[i].time) < end
      ensures i in LoadDays(feed, latest, start, end)
      ensures DayOf(LoadDays(feed, latest, start, end)[i].time) == DayOf(ods'[i].time)
    {
      var d := DayOf(ods'[i].time);
      forall e | start <= e < end && e != d ensures i !in Offered(latest, e) {
        if i in Offered(latest, e) {
          OfferedHere(w, dayOf, ods', latest, start, end, id, from, to, e, i);
        }
      }
      InDayView(ods', d, i);
      LoadedOnce(latest, feed, start, end, end, d, i);
    }
  }

  lemma NewDayOffers(w: World, dayOf: string -> int, ods': Table, latest: Latest, start: int, end: int, id: string,
                     from: int, to: int)
    requires Moved(w, dayOf, ods', id, from, to) && Offers(w, dayOf, ods', latest, start, end, from)
    requires !Stuck(ods', start, end, from)
    ensures forall e :: start <= e < end && e != to ==> id !in Offered(latest, e)
    ensures start <= to < end ==> id in Offered(latest, to) && DayOf(Offered(latest, to)[id].time) == to
  {
    forall e | start <= e < end && e != to ensures id !in Offered(latest, e) {
      if id in Offered(latest, e) {
        OfferedHere(w, dayOf, ods', latest, start, end, id, from, to, e, id);
      }
    }
    InDayView(ods', to, id);
  }

  lemma MovedGoes(w: World, dayOf: string -> int, ods': Table, latest: Latest, start: int, end: int, id: string,
                  from: int, to: int, feed: Frame)
    requires Moved(w, dayOf, ods', id, from, to) && Offers(w, dayOf, ods', latest, start, end, from) && start <= end
    requires Consistent(ods', feed, start, end, id, from)
    ensures SpotOf(LoadDays(feed, latest, start, end), start, end, id)
         == NextSpot(Stuck(ods', start, end, from), start <= to < end, to, SpotOf(feed, start, end, id))
  {
    if Stuck(ods', start, end, from) {
      StuckOffers(w, dayOf, ods', latest, start, end, id, from, to);
      LoadedAgain(latest, feed, start, end, from, id);
    } else {
      NewDayOffers(w, dayOf, ods', latest, start, end, id, from, to);
      LoadedOnce(latest, feed, start, end, end, to, id);
    }
  }

  lemma DayLoadableIff(w: World, dayOf: string -> int, ods': Table, latest: Latest, start: int, end: int, id: string,
                       from: int, to: int, feed: Frame, d: int)
    requires Moved(w, dayOf, ods', id, from, to) && Offers(w, dayOf, ods', latest, start, end, from)
    requires Consistent(ods', feed, start, end, id, from) && start <= d < end
    ensures Loadable(ods', latest, feed, start, d)
       <==> && (d == from && Stuck(ods', start, end, from) ==> start <= to < from)
            && (d == to ==> !Blocked(feed, start, to, id))
  {
    if DayView(ods', d) != map[] {
      InDayView(ods', d, id);
      forall i | i in DayView(ods', d) && i != id ensures !Blocked(feed, start, d, i) {
        InDayView(ods', d, i);
      }
    } else {
      forall i | i in Offered(latest, d) ensures i == id && d == from {
        OfferedHere(w, dayOf, ods', latest, start, end, id, from, to, d, i);
        InDayView(ods', d, i);
      }
      if d == from {
        StuckOffers(w, dayOf, ods', latest, start, end, id, from, to);
      }
      InDayView(ods', d, id);
    }
  }

  lemma AllLoadableFrom(w: World, dayOf: string -> int, ods': Table, latest: Latest, start: int, end: int, id: string,
                        from: int, to: int, feed: Frame)
    requires Moved(w, dayOf, ods', id, from, to) && Offers(w, dayOf, ods', latest, start, end, from)
    requires Consistent(ods', feed, start, end, id, from)
    ensures AllLoadable(ods', latest, feed, start, end)
       <==> RightFrom(Stuck(ods', start, end, from), start <= to < end, to, SpotOf(feed, start, end, id))
  {
    forall d | start <= d < end
      ensures Loadable(ods', latest, feed, start, d)
         <==> && (d == from && Stuck(ods', start, end, from) ==> start <= to < from)
              && (d == to ==> !Blocked(feed, start, to, id))
    {
      DayLoadableIff(w, dayOf, ods', latest, start, end, id, from, to, feed, d);
    }
    assert start <= to < end ==> (Loadable(ods', latest, feed, start, to) ==> !Blocked(feed, start, to, id));
    assert Stuck(ods', start, end, from) ==> (Loadable(ods', latest, feed, start, from) ==> start <= to < from);
  }

  // ----- rounds of builds and loads -----

  predicate Spans(b: Job, start: int, end: int) {
    HasWindow(b) && start == First(b) && end == End(b)
  }

  /** Builds with the same window, stamped in order from a given stamp on. */
  predicate SameSpans(bs: seq<Job>, start: int, end: int, ts: string) {
    && (forall k :: 0 <= k < |bs| ==> Spans(bs[k], start, end) && SortsBy(ts, bs[k].ts))
    && (forall j, k :: 0 <= j < k < |bs| ==> SortsBy(bs[j].ts, bs[k].ts))
  }

  predicate AllWindows(bs: seq<Job>) {
    forall k :: 0 <= k < |bs| ==> HasWindow(bs[k])
  }

  ghost function Rounds(w: World, bs: seq<Job>): World
    requires AllWindows(bs)
  {
    if |bs| == 0 then w else BuildAndLoad(Rounds(w, bs[..|bs| - 1]), bs[|bs| - 1])
  }

  function SpotAfter(stuck: bool, inTo: bool, to: int, s: Spot, n: nat): Spot {
    if n == 0 then s else NextSpot(stuck, inTo, to, SpotAfter(stuck, inTo, to, s, n - 1))
  }

  /** Partitions of days that the move has left without events, or that had none, are as they were. */
  ghost predicate SameWhereEmpty(gold: Partitions, gold': Partitions, ods': Table) {
    forall d :: DayView(ods', d) == map[] ==> PartsOf(gold', d) == PartsOf(gold, d)
  }

  lemma SameParts(gold: Partitions, gold': Partitions, ods: Table, dayOf: string -> int, d: int)
    requires GoldOk(ods, dayOf, gold) && PartsOf(gold', d) == PartsOf(gold, d)
    ensures d in LatestOf(gold') <==> d in LatestOf(gold)
    ensures d in LatestOf(gold') ==> PartOk(ods, dayOf, d, LatestOf(gold')[d])
  {
    if |PartsOf(gold, d)| > 0 {
      LatestExists(PartsOf(gold, d));
      var u :| IsLatest(PartsOf(gold, d), u);
      LatestIs(gold, d, u);
      LatestIs(gold', d, u);
      assert DayOk(ods, dayOf, d, gold[d]);
    }
  }

  lemma RebuiltWhereEmpty(gold: Partitions, g: Partitions, ods': Table, b: Job)
    requires HasWindow(b) && SameWhereEmpty(gold, g, ods')
    ensures SameWhereEmpty(gold, Rebuilt(ods', g, b), ods')
  {
    forall d | DayView(ods', d) == map[] ensures PartsOf(Rebuilt(ods', g, b), d) == PartsOf(gold, d) {
      BuildAt(ods', b.pd, g, First(b), End(b), b.ts, d);
    }
  }

  /** The copy of the window is right, and its partitions are stamped by a given stamp. */
  ghost predicate Copied(w: World, dayOf: string -> int, ts: string, start: int, end: int) {
    && Good(w, dayOf) && StampsBy(w.gold, ts) && Agree(w.feed, FeedView(w.ods), start, end)
    && forall d :: start <= d < end && |DayView(w.ods, d)| > 0 ==> d in LatestOf(w.gold)
  }

  lemma RoundOffers(w: World, dayOf: string -> int, ods': Table, id: string, from: int, to: int, ts: string,
                    g: Partitions, b: Job)
    requires Moved(w, dayOf, ods', id, from, to) && HasWindow(b) && Copied(w, dayOf, ts, First(b), End(b))
    requires OwnGold(g) && StampsBy(g, b.ts) && SameWhereEmpty(w.gold, g, ods')
    ensures Offers(w, dayOf, ods', LatestOf(Rebuilt(ods', g, b)), First(b), End(b), from)
  {
    BuiltByBuild(ods', g, b);
    RebuiltWhereEmpty(w.gold, g, ods', b);
    forall d | First(b) <= d < End(b) && DayView(ods', d) == map[]
      ensures d in LatestOf(Rebuilt(ods', g, b)) <==> d in LatestOf(w.gold)
      ensures d in LatestOf(Rebuilt(ods', g, b)) ==> PartOk(w.ods, dayOf, d, LatestOf(Rebuilt(ods', g, b))[d])
    {
      SameParts(w.gold, Rebuilt(ods', g, b), w.ods, dayOf, d);
    }
    InDayView(w.ods, from, id);
    assert |DayView(w.ods, from)| > 0;
  }

  lemma CopiedRow(w: World, start: int, end: int, d: int, i: string)
    requires Agree(w.feed, FeedView(w.ods), start, end) && start <= d < end
    ensures i in w.feed && DayOf(w.feed[i].time) == d <==> i in w.ods && DayOf(w.ods[i].time) == d
  {
    assert RowOn(w.feed, d, i) == RowOn(FeedView(w.ods), d, i);
  }

  lemma CopyIsConsistent(w: World, dayOf: string -> int, ods': Table, id: string, from: int, to: int, ts: string,
                         start: int, end: int)
    requires Moved(w, dayOf, ods', id, from, to) && Copied(w, dayOf, ts, start, end)
    ensures Consistent(ods', w.feed, start, end, id, from)
    ensures SpotOf(w.feed, start, end, id).On? ==> SpotOf(w.feed, start, end, id).day == from
  {
    forall i | i in ods' && i != id && start <= DayOf(ods'[i].time) < end
      ensures i in w.feed && DayOf(w.feed[i].time) == DayOf(ods'[i].time)
    {
      CopiedRow(w, start, end, DayOf(ods'[i].time), i);
    }
    if start <= from < end {
      CopiedRow(w, start, end, from, id);
    }
    if SpotOf(w.feed, start, end, id).On? {
      CopiedRow(w, start, end, SpotOf(w.feed, start, end, id).day, id);
    }
  }

  /** What holds after any number of rounds. */
  ghost predicate RoundState(w: World, ods': Table, g: World, start: int, end: int, id: string, from: int, s: Spot) {
    && g.ods == ods' && OwnGold(g.gold) && SameWhereEmpty(w.gold, g.gold, ods')
    && Consistent(ods', g.feed, start, end, id, from) && SpotOf(g.feed, start, end, id) == s
  }

  lemma OneRound(w: World, dayOf: string -> int, ods': Table, id: string, from: int, to: int, ts: string,
                 start: int, end: int, g: World, b: Job, s: Spot)
    requires Moved(w, dayOf, ods', id, from, to) && Spans(b, start, end) && Copied(w, dayOf, ts, start, end)
    requires RoundState(w, ods', g, start, end, id, from, s) && StampsBy(g.gold, b.ts)
    ensures var stuck, inTo := Stuck(ods', start, end, from), start <= to < end;
            var g' := BuildAndLoad(g, b);
            && RoundState(w, ods', g', start, end, id, from, NextSpot(stuck, inTo, to, s)) && StampsBy(g'.gold, b.ts)
            && (Agree(g'.feed, FeedView(ods'), start, end) <==> RightFrom(stuck, inTo, to, s))
  {
    var latest := LatestOf(Rebuilt(ods', g.gold, b));
    RoundOffers(w, dayOf, ods', id, from, to, ts, g.gold, b);
    RebuiltWhereEmpty(w.gold, g.gold, ods', b);
    BuildOwns(ods', b.pd, g.gold, start, end, b.ts);
    BuildStamps(ods', b.pd, g.gold, start, end, b.ts);
    OthersStay(w, dayOf, ods', latest, start, end, id, from, to, g.feed);
    MovedGoes(w, dayOf, ods', latest, start, end, id, from, to, g.feed);
    AllLoadableFrom(w, dayOf, ods', latest, start, end, id, from, to, g.feed);
    CopyOnWorld(ods', g.gold, g.feed, b, latest);
    BuildAndLoadIs(g, b, latest);
  }

  lemma {:induction false} AfterRounds(w: World, dayOf: string -> int, ods': Table, id: string, from: int, to: int,
                                       ts: string, start: int, end: int, bs: seq<Job>, next: string)
    requires Moved(w, dayOf, ods', id, from, to) && Copied(w, dayOf, ts, start, end) && SameSpans(bs, start, end, ts)
    requires SortsBy(ts, next) && forall k :: 0 <= k < |bs| ==> SortsBy(bs[k].ts, next)
    ensures var stuck, inTo, s := Stuck(ods', start, end, from), start <= to < end, SpotOf(w.feed, start, end, id);
            var g := Rounds(w.(ods := ods'), bs);
            && RoundState(w, ods', g, start, end, id, from, SpotAfter(stuck, inTo, to, s, |bs|))
            && StampsBy(g.gold, next)
            && (|bs| > 0 ==>
                  (Agree(g.feed, FeedView(ods'), start, end)
                   <==> RightFrom(stuck, inTo, to, SpotAfter(stuck, inTo, to, s, |bs| - 1))))
  {
    if |bs| == 0 {
      CopyIsConsistent(w, dayOf, ods', id, from, to, ts, start, end);
      GoldOwns(w.ods, dayOf, w.gold);
      StampsRaise(w.gold, ts, next);
    } else {
      var n := |bs| - 1;
      var b, s := bs[n], SpotOf(w.feed, start, end, id);
      AfterRounds(w, dayOf, ods', id, from, to, ts, start, end, bs[..n], b.ts);
      OneRound(w, dayOf, ods', id, from, to, ts, start, end, Rounds(w.(ods := ods'), bs[..n]), b,
               SpotAfter(Stuck(ods', start, end, from), start <= to < end, to, s, n));
      StampsRaise(Rounds(w.(ods := ods'), bs).gold, b.ts, next);
    }
  }

  /** After the first round an event is never on a later day than its new one. */
  lemma {:induction false} SettledSpot(inTo: bool, to: int, s: Spot, n: nat)
    requires n > 0
    ensures var later := SpotAfter(false, inTo, to, s, n);
            && (later == Outside <==> s == Outside)
            && (inTo && later.On? ==> later.day <= to)
  {
    if n > 1 {
      SettledSpot(inTo, to, s, n - 1);
    }
  }

  /** When the copy is right after some rounds, told from where the event is stored before them. */
  predicate RightAfter(stuck: bool, inTo: bool, to: int, s: Spot, rounds: nat) {
    !stuck && (inTo ==> s != Outside && (rounds == 1 && s.On? ==> s.day <= to))
  }

  lemma RightSpots(stuck: bool, inTo: bool, to: int, s: Spot, rounds: nat)
    requires rounds > 0
    ensures RightFrom(stuck, inTo, to, SpotAfter(stuck, inTo, to, s, rounds - 1))
       <==> RightAfter(stuck, inTo, to, s, rounds)
  {
    if !stuck && rounds > 1 {
      SettledSpot(inTo, to, s, rounds - 1);
    }
  }

  lemma LastStamp(bs: seq<Job>, start: int, end: int, ts: string)
    requires SameSpans(bs, start, end, ts) && |bs| > 0
    ensures SortsBy(ts, bs[|bs| - 1].ts) && forall k :: 0 <= k < |bs| ==> SortsBy(bs[k].ts, bs[|bs| - 1].ts)
  {
  }

  lemma RoundsAgree(w: World, dayOf: string -> int, ods': Table, id: string, from: int, to: int, ts: string,
                    start: int, end: int, bs: seq<Job>, g: World, stuck: bool, inTo: bool, s: Spot)
    requires Moved(w, dayOf, ods', id, from, to) && Copied(w, dayOf, ts, start, end)
    requires SameSpans(bs, start, end, ts) && |bs| > 0 && g == Rounds(w.(ods := ods'), bs)
    requires stuck == Stuck(ods', start, end, from) && inTo == (start <= to < end)
    requires s == SpotOf(w.feed, start, end, id)
    ensures g.ods == ods'
    ensures Agree(g.feed, FeedView(ods'), start, end)
       <==> RightFrom(stuck, inTo, to, SpotAfter(stuck, inTo, to, s, |bs| - 1))
  {
    LastStamp(bs, start, end, ts);
    AfterRounds(w, dayOf, ods', id, from, to, ts, start, end, bs, bs[|bs| - 1].ts);
  }

  lemma RoundsCopyIff(w: World, dayOf: string -> int, ods': Table, id: string, from: int, to: int, ts: string,
                      start: int, end: int, bs: seq<Job>, g: World)
    requires Moved(w, dayOf, ods', id, from, to) && Copied(w, dayOf, ts, start, end)
    requires SameSpans(bs, start, end, ts) && |bs| > 0 && g == Rounds(w.(ods := ods'), bs)
    ensures g.ods == ods'
    ensures Agree(g.feed, FeedView(ods'), start, end)
       <==> RightAfter(Stuck(ods', start, end, from), start <= to < end, to, SpotOf(w.feed, start, end, id), |bs|)
  {
    var stuck, s := Stuck(ods', start, end, from), SpotOf(w.feed, start, end, id);
    RoundsAgree(w, dayOf, ods', id, from, to, ts, start, end, bs, g, stuck, start <= to < end, s);
    RightSpots(stuck, start <= to < end, to, s, |bs|);
  }

  /** The state after a build and a load over a run with fixed days. */
  lemma AfterCopy(jobs: seq<Job>, b: Job, dayOf: string -> int, ts: string)
    requires FixedRun(jobs, b, dayOf) && SortsBy(b.ts, ts)
    ensures var w := BuildAndLoad(After(jobs), b);
            Copied(w, dayOf, ts, First(b), End(b)) && w.ods == After(jobs).ods
  {
    var w := After(jobs);
    var gold := Rebuilt(w.ods, w.gold, b);
    RunIsGood(jobs, dayOf);
    NextStampIsLast(jobs, b.ts);
    BuildAndLoadIs(w, b, LatestOf(gold));
    CopyAfterBuild(w, b, LatestOf(gold), dayOf);
    DoKeeps(w, b, dayOf);
    DoKeeps(Do(w, b), Load(b.today, b.days), dayOf);
    BuildStamps(w.ods, b.pd, w.gold, First(b), End(b), b.ts);
    StampsRaise(gold, b.ts, ts);
    forall d | First(b) <= d < End(b) && |DayView(w.ods, d)| > 0 ensures d in LatestOf(gold) {
      OffersBuilt(w.ods, w.gold, b, d);
    }
  }

  lemma UpsertOne(w: World, r: Row, now: int)
    requires ValidRow(r) && r.id in w.ods && w.ods[r.id].updated < Instant(r.updated)
    ensures Do(w, Upsert([r], now)) == w.(ods := w.ods[r.id := ToOds(r, now)])
  {
    var t := w.ods[r.id := ToOds(r, now)];
    assert [r][..1] == [r] && [r][1..] == [];
    assert Statement(w.ods, {}, [r], now) == Statement(t, {r.id}, [], now) == Some(t);
    assert Upserted(w.ods, [r], now) == Upserted(t, [], now) == Some(t);
  }

  /** Why the hypothesis of fixed days is needed, exactly. After any run with fixed days and a build and a load,
      let a newer version of one event move it to another day, and let builds and loads with the same window
      follow. Each copy is right if and only if the move left no day of the window empty and, if the new day is
      in the window, no row of the event stands in the way: none outside the window, and, for the first copy,
      none under a later day. So a move to an earlier day heals with the second copy, and a move off a day left
      empty never does. */
  lemma {:induction false} MoveIsCopiedIff(jobs: seq<Job>, b: Job, dayOf: string -> int, r: Row, now: int, bs: seq<Job>,
                                           start: int, end: int, from: int, to: int)
    requires FixedRun(jobs, b, dayOf) && ValidRow(r)
    requires Spans(b, start, end) && SameSpans(bs, start, end, b.ts) && |bs| > 0
    requires var ods := After(jobs).ods;
             && r.id in ods && ods[r.id].updated < Instant(r.updated)
             && from == DayOf(ods[r.id].time) && to == DayOf(Instant(r.time)) && from != to
    ensures var copied := BuildAndLoad(After(jobs), b);
            var moved := Do(copied, Upsert([r], now));
            var again := Rounds(moved, bs);
            && again.ods == moved.ods
            && (Agree(again.feed, FeedView(again.ods), start, end)
                <==> RightAfter(Stuck(again.ods, start, end, from), start <= to < end, to,
                                SpotOf(copied.feed, start, end, r.id), |bs|))
  {
    var w := BuildAndLoad(After(jobs), b);
    AfterCopy(jobs, b, dayOf, b.ts);
    UpsertOne(w, r, now);
    var ods' := w.ods[r.id := ToOds(r, now)];
    RoundsCopyIff(w, dayOf, ods', r.id, from, to, b.ts, start, end, bs, Rounds(w.(ods := ods'), bs));
  }
}
