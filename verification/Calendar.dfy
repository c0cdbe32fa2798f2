/**
 The day counts of the gold layer and the clock of the jobs are those of the calendar: UTC days, hours and
 microseconds, over all times Python can represent.
 */
module Calendar {
  import opened Clock
  import opened IsoTime
  import opened Ods
  import opened Gold
  import opened BiLoad

  predicate SameDate(a: DateTime, b: DateTime) {
    a.year == b.year && a.month == b.month && a.day == b.day
  }

  /** Microseconds into the day. */
  function IntoDay(t: DateTime): nat {
    ((t.hour * 60 + t.minute) * 60 + t.second) * 1_000_000 + t.micro
  }

  lemma InstantInDay(t: DateTime)
    requires Valid(t)
    ensures Instant(t) == DayNumber(t) * 86_400_000_000 + IntoDay(t) && IntoDay(t) < 86_400_000_000
  {
  }

  /** The UTC day of an instant is its calendar day. */
  lemma {:induction false} DayOfIsCalendarDay(t: DateTime)
    requires Valid(t)
    ensures DayOf(Instant(t)) == DayNumber(t)
  {
    InstantInDay(t);
  }

  /** Two times have one day number if and only if they have one date. */
  lemma {:induction false} DayNumberIsDate(a: DateTime, b: DateTime)
    requires Valid(a) && Valid(b)
    ensures DayNumber(a) == DayNumber(b) <==> SameDate(a, b)
  {
    DayOrder(a, b);
    DayOrder(b, a);
  }

  /** An hour, and a day, on the clock. */
  lemma {:induction false} HourIsClockHour(t: DateTime)
    requires Valid(t) && t.hour < 23
    ensures Instant(t.(hour := t.hour + 1)) == Instant(t) + HOUR
    ensures DAY == 24 * HOUR
  {
  }

  /** One microsecond later, with all carries. */
  function Tick(t: DateTime): DateTime
    requires Valid(t)
  {
    if t.micro < 999_999 then t.(micro := t.micro + 1)
    else if t.second < 59 then t.(second := t.second + 1, micro := 0)
    else if t.minute < 59 then t.(minute := t.minute + 1, second := 0, micro := 0)
    else if t.hour < 23 then t.(hour := t.hour + 1, minute := 0, second := 0, micro := 0)
    else Tomorrow(t.(hour := 0, minute := 0, second := 0, micro := 0))
  }

  lemma {:induction false} TickIsNextInstant(t: DateTime)
    requires Valid(t) && Valid(Tick(t))
    ensures Instant(Tick(t)) == Instant(t) + 1
  {
    if t.micro == 999_999 && t.second == 59 && t.minute == 59 && t.hour == 23 {
      TomorrowIsNextDay(t.(hour := 0, minute := 0, second := 0, micro := 0));
    }
  }

  /** The days before a month, from the formula for a year that starts in March: months alternate over five. */
  lemma {:induction false} MonthFormula(y: nat, m: nat)
    requires 1 <= m <= 12
    ensures DaysBeforeMonth(y, m)
         == if m == 1 then 0 else if m == 2 then 31
            else (153 * (m - 3) + 2) / 5 + 59 + if Leap(y) then 1 else 0
  {
    if m > 1 {
      MonthFormula(y, m - 1);
    }
  }

  // ----- what that means for the marts -----

  /** An event is in the view of a day if and only if it took place on that date. */
  lemma {:induction false} ViewHoldsDate(ods: Table, id: string, t: DateTime, d: int)
    requires Valid(t) && id in ods && ods[id].time == Instant(t)
    ensures id in DayView(ods, d) <==> DayNumber(t) == d
  {
    InDayView(ods, d, id);
    DayOfIsCalendarDay(t);
  }

  /** Two events share a day's view if and only if their year, month and day agree. */
  lemma {:induction false} SameViewIffSameDate(ods: Table, x: string, s: DateTime, y: string, t: DateTime)
    requires Valid(s) && Valid(t) && x in ods && y in ods && ods[x].time == Instant(s) && ods[y].time == Instant(t)
    ensures (exists d :: x in DayView(ods, d) && y in DayView(ods, d)) <==> SameDate(s, t)
  {
    DayNumberIsDate(s, t);
    ViewHoldsDate(ods, x, s, DayNumber(s));
    ViewHoldsDate(ods, y, t, DayNumber(s));
    forall d ensures x in DayView(ods, d) <==> DayNumber(s) == d {
      ViewHoldsDate(ods, x, s, d);
    }
  }

  /** Deleting a day from the serving table takes the rows of that date and no others. */
  lemma {:induction false} DeletesDate(feed: Frame, id: string, t: DateTime, d: int)
    requires Valid(t) && id in feed && feed[id].time == Instant(t)
    ensures id in DeleteDay(feed, d) <==> DayNumber(t) != d
  {
    DayOfIsCalendarDay(t);
  }
}
