/**
 Times as text. The silver layer compares the ISO rendering of a UTC time, the warehouse compares the
 instant, and gold partitions are sorted by a compact stamp. The three orders are one.
 */
module IsoTime {

  // ----- calendar -----

  datatype DateTime = DateTime(year: nat, month: nat, day: nat, hour: nat, minute: nat, second: nat, micro: nat)

  predicate Leap(y: nat) {
    y % 4 == 0 && (y % 100 != 0 || y % 400 == 0)
  }

  function DaysInYear(y: nat): nat {
    if Leap(y) then 366 else 365
  }

  function DaysInMonth(y: nat, m: nat): nat {
    if m == 2 then (if Leap(y) then 29 else 28)
    else if m == 4 || m == 6 || m == 9 || m == 11 then 30
    else 31
  }

  /** What Python's datetime can hold. */
  predicate Valid(t: DateTime) {
    && 1 <= t.year <= 9999 && 1 <= t.month <= 12 && 1 <= t.day <= DaysInMonth(t.year, t.month)
    && t.hour < 24 && t.minute < 60 && t.second < 60 && t.micro < 1_000_000
  }

  /** Field by field, most significant first: the order of aware datetimes in one zone. */
  predicate Before(a: DateTime, b: DateTime) {
    || a.year < b.year
    || (a.year == b.year && (|| a.month < b.month
    || (a.month == b.month && (|| a.day < b.day
    || (a.day == b.day && (|| a.hour < b.hour
    || (a.hour == b.hour && (|| a.minute < b.minute
    || (a.minute == b.minute && (|| a.second < b.second
    || (a.second == b.second && a.micro < b.micro)))))))))))
  }

  // ----- text -----

  /** Byte order of strings. */
  predicate LexLess(a: string, b: string) {
    |b| > 0 && (|a| == 0 || a[0] < b[0] || (a[0] == b[0] && LexLess(a[1..], b[1..])))
  }

  function Digit(d: nat): char
    requires d < 10
  {
    '0' + d as char
  }

  function Pow10(w: nat): nat {
    if w == 0 then 1 else 10 * Pow10(w - 1)
  }

  /** n in exactly w decimal digits. */
  function Pad(n: nat, w: nat): (s: string)
    ensures |s| == w
  {
    if w == 0 then "" else Pad(n / 10, w - 1) + [Digit(n % 10)]
  }

  /** The end of `isoformat()`: the fraction only when it is not zero, then the UTC offset. */
  function Tail(micro: nat): string {
    if micro == 0 then "+00:00" else "." + (Pad(micro, 6) + "+00:00")
  }

  /** YYYY-MM-DDTHH:MM:SS[.ffffff]+00:00 */
  function Iso(t: DateTime): string {
    Pad(t.year, 4) + ("-" + (Pad(t.month, 2) + ("-" + (Pad(t.day, 2) + ("T" + (Pad(t.hour, 2)
    + (":" + (Pad(t.minute, 2) + (":" + (Pad(t.second, 2) + Tail(t.micro)))))))))))
  }

  /** YYYYMMDDTHHMMSSZ, the stamp in a partition's file name. */
  function Stamp(t: DateTime): string {
    Pad(t.year, 4) + (Pad(t.month, 2) + (Pad(t.day, 2) + ("T" + (Pad(t.hour, 2)
    + (Pad(t.minute, 2) + (Pad(t.second, 2) + "Z"))))))
  }

  // ----- comparing text piece by piece -----

  lemma {:induction false} LexAppend(a: string, b: string, c: string, d: string)
    requires |a| == |b|
    ensures LexLess(a + c, b + d) <==> LexLess(a, b) || (a == b && LexLess(c, d))
  {
    if |a| == 0 {
      assert a + c == c && b + d == d;
    } else {
      assert (a + c)[1..] == a[1..] + c && (b + d)[1..] == b[1..] + d;
      LexAppend(a[1..], b[1..], c, d);
      assert a == [a[0]] + a[1..] && b == [b[0]] + b[1..];
    }
  }

  lemma {:induction false} LexIrreflexive(a: string)
    ensures !LexLess(a, a)
  {
    if |a| > 0 {
      LexIrreflexive(a[1..]);
    }
  }

  lemma {:induction false} LexTotal(a: string, b: string)
    ensures a == b || LexLess(a, b) || LexLess(b, a)
  {
    if |a| > 0 && |b| > 0 && a[0] == b[0] {
      LexTotal(a[1..], b[1..]);
      assert a == [a[0]] + a[1..] && b == [b[0]] + b[1..];
    }
  }

  lemma {:induction false} LexTransitive(a: string, b: string, c: string)
    requires LexLess(a, b) && LexLess(b, c)
    ensures LexLess(a, c)
  {
    if |a| > 0 && a[0] == b[0] && b[0] == c[0] {
      LexTransitive(a[1..], b[1..], c[1..]);
    }
  }

  lemma {:induction false} PadOrder(n: nat, m: nat, w: nat)
    requires n < Pow10(w) && m < Pow10(w)
    ensures LexLess(Pad(n, w), Pad(m, w)) <==> n < m
    ensures Pad(n, w) == Pad(m, w) <==> n == m
  {
    if w > 0 {
      var a, b := Pad(n / 10, w - 1), Pad(m / 10, w - 1);
      var x, y := [Digit(n % 10)], [Digit(m % 10)];
      PadOrder(n / 10, m / 10, w - 1);
      LexAppend(a, b, x, y);
      assert LexLess(x, y) <==> n % 10 < m % 10;
      assert x == y <==> n % 10 == m % 10;
      assert a + x == b + y <==> a == b && x == y by {
        if a + x == b + y {
          assert a == (a + x)[..w - 1] && b == (b + y)[..w - 1];
          assert x[0] == (a + x)[w - 1] && y[0] == (b + y)[w - 1];
        }
      }
    }
  }

  /** One fixed-width field, then the rest. */
  lemma {:induction false} FieldOrder(n: nat, m: nat, w: nat, s: string, t: string)
    requires n < Pow10(w) && m < Pow10(w)
    ensures LexLess(Pad(n, w) + s, Pad(m, w) + t) <==> n < m || (n == m && LexLess(s, t))
    ensures Pad(n, w) + s == Pad(m, w) + t <==> n == m && s == t
  {
    PadOrder(n, m, w);
    LexAppend(Pad(n, w), Pad(m, w), s, t);
    if Pad(n, w) + s == Pad(m, w) + t {
      assert Pad(n, w) == (Pad(n, w) + s)[..w] && Pad(m, w) == (Pad(m, w) + t)[..w];
      assert s == (Pad(n, w) + s)[w..] && t == (Pad(m, w) + t)[w..];
    }
  }

  lemma {:induction false} SeparatorOrder(c: char, s: string, t: string)
    ensures LexLess([c] + s, [c] + t) <==> LexLess(s, t)
    ensures [c] + s == [c] + t <==> s == t
  {
    assert ([c] + s)[1..] == s && ([c] + t)[1..] == t;
  }

  lemma Widths()
    ensures Pow10(2) == 100 && Pow10(4) == 10000 && Pow10(6) == 1_000_000
  {
    assert Pow10(2) == 100;
    assert Pow10(4) == 100 * Pow10(2);
    assert Pow10(6) == 100 * Pow10(4);
  }

  /** The optional fraction keeps the order only because '+' sorts before '.'. */
  lemma {:induction false} TailOrder(x: nat, y: nat)
    requires x < 1_000_000 && y < 1_000_000
    ensures LexLess(Tail(x), Tail(y)) <==> x < y
    ensures Tail(x) == Tail(y) <==> x == y
  {
    Widths();
    if x == 0 || y == 0 {
      assert Tail(0)[0] == '+';
      assert x > 0 ==> Tail(x)[0] == '.';
      assert y > 0 ==> Tail(y)[0] == '.';
      LexIrreflexive(Tail(0));
    } else {
      SeparatorOrder('.', Pad(x, 6) + "+00:00", Pad(y, 6) + "+00:00");
      FieldOrder(x, y, 6, "+00:00", "+00:00");
      LexIrreflexive("+00:00");
    }
  }

  function Seconds(t: DateTime): string {
    Pad(t.second, 2) + Tail(t.micro)
  }

  function Minutes(t: DateTime): string {
    Pad(t.minute, 2) + (":" + Seconds(t))
  }

  function Hours(t: DateTime): string {
    Pad(t.hour, 2) + (":" + Minutes(t))
  }

  function Days(t: DateTime): string {
    Pad(t.day, 2) + ("T" + Hours(t))
  }

  function Months(t: DateTime): string {
    Pad(t.month, 2) + ("-" + Days(t))
  }

  // ----- main results -----

  /** Byte order on the ISO rendering is time order, and the rendering is injective, over all UTC times
      Python can represent, although the fraction is left out when it is zero. */
  lemma {:induction false} IsoOrder(a: DateTime, b: DateTime)
    requires Valid(a) && Valid(b)
    ensures LexLess(Iso(a), Iso(b)) <==> Before(a, b)
    ensures Iso(a) == Iso(b) <==> a == b
  {
    Widths();
    TailOrder(a.micro, b.micro);
    FieldOrder(a.second, b.second, 2, Tail(a.micro), Tail(b.micro));
    SeparatorOrder(':', Seconds(a), Seconds(b));
    FieldOrder(a.minute, b.minute, 2, ":" + Seconds(a), ":" + Seconds(b));
    SeparatorOrder(':', Minutes(a), Minutes(b));
    FieldOrder(a.hour, b.hour, 2, ":" + Minutes(a), ":" + Minutes(b));
    SeparatorOrder('T', Hours(a), Hours(b));
    FieldOrder(a.day, b.day, 2, "T" + Hours(a), "T" + Hours(b));
    SeparatorOrder('-', Days(a), Days(b));
    FieldOrder(a.month, b.month, 2, "-" + Days(a), "-" + Days(b));
    SeparatorOrder('-', Months(a), Months(b));
    FieldOrder(a.year, b.year, 4, "-" + Months(a), "-" + Months(b));
    assert Iso(a) == Pad(a.year, 4) + ("-" + Months(a));
    assert Iso(b) == Pad(b.year, 4) + ("-" + Months(b));
  }

  /** Partition stamps sort like the whole seconds that they name. */
  lemma {:induction false} StampOrder(a: DateTime, b: DateTime)
    requires Valid(a) && Valid(b)
    ensures LexLess(Stamp(a), Stamp(b)) <==> Before(a.(micro := 0), b.(micro := 0))
    ensures Stamp(a) == Stamp(b) <==> a.(micro := 0) == b.(micro := 0)
  {
    Widths();
    LexIrreflexive("Z");
    var s1, s2 := Pad(a.second, 2) + "Z", Pad(b.second, 2) + "Z";
    FieldOrder(a.second, b.second, 2, "Z", "Z");
    var m1, m2 := Pad(a.minute, 2) + s1, Pad(b.minute, 2) + s2;
    FieldOrder(a.minute, b.minute, 2, s1, s2);
    var h1, h2 := Pad(a.hour, 2) + m1, Pad(b.hour, 2) + m2;
    FieldOrder(a.hour, b.hour, 2, m1, m2);
    SeparatorOrder('T', h1, h2);
    var d1, d2 := Pad(a.day, 2) + ("T" + h1), Pad(b.day, 2) + ("T" + h2);
    FieldOrder(a.day, b.day, 2, "T" + h1, "T" + h2);
    var n1, n2 := Pad(a.month, 2) + d1, Pad(b.month, 2) + d2;
    FieldOrder(a.month, b.month, 2, d1, d2);
    FieldOrder(a.year, b.year, 4, n1, n2);
    assert Stamp(a) == Pad(a.year, 4) + n1 && Stamp(b) == Pad(b.year, 4) + n2;
  }

  // ----- instants -----

  function DaysBeforeYear(y: nat): nat
    requires y >= 1
  {
    (y - 1) * 365 + (y - 1) / 4 - (y - 1) / 100 + (y - 1) / 400
  }

  function DaysBeforeMonth(y: nat, m: nat): nat
    requires m >= 1
  {
    if m == 1 then 0 else DaysBeforeMonth(y, m - 1) + DaysInMonth(y, m - 1)
  }

  function DayNumber(t: DateTime): int
    requires Valid(t)
  {
    DaysBeforeYear(t.year) + DaysBeforeMonth(t.year, t.month) + t.day - 1
  }

  /** Microseconds since the start of year 1, as the warehouse compares timestamps. */
  function Instant(t: DateTime): int
    requires Valid(t)
  {
    (((DayNumber(t) * 24 + t.hour) * 60 + t.minute) * 60 + t.second) * 1_000_000 + t.micro
  }

  lemma Fourth(y: nat)
    requires y >= 1
    ensures y / 4 == (y - 1) / 4 + if y % 4 == 0 then 1 else 0
  {
  }

  lemma Hundredth(y: nat)
    requires y >= 1
    ensures y / 100 == (y - 1) / 100 + if y % 100 == 0 then 1 else 0
  {
  }

  lemma FourHundredth(y: nat)
    requires y >= 1
    ensures y / 400 == (y - 1) / 400 + if y % 400 == 0 then 1 else 0
  {
  }

  /** A multiple of 400 is one of 100, and a multiple of 100 is one of 4. */
  lemma Multiples(y: nat)
    ensures y % 400 == 0 ==> y % 100 == 0
    ensures y % 100 == 0 ==> y % 4 == 0
  {
    if y % 400 == 0 {
      assert y == 100 * (4 * (y / 400));
    }
    if y % 100 == 0 {
      assert y == 4 * (25 * (y / 100));
    }
  }

  lemma NextYear(y: nat)
    requires y >= 1
    ensures DaysBeforeYear(y + 1) == DaysBeforeYear(y) + DaysInYear(y)
  {
    Fourth(y);
    Hundredth(y);
    FourHundredth(y);
    Multiples(y);
  }

  lemma {:induction false} LaterYear(y: nat, z: nat)
    requires 1 <= y < z
    ensures DaysBeforeYear(y) + DaysInYear(y) <= DaysBeforeYear(z)
  {
    NextYear(z - 1);
    if y < z - 1 {
      LaterYear(y, z - 1);
    }
  }

  lemma {:induction false} LaterMonth(y: nat, m: nat, n: nat)
    requires 1 <= m < n
    ensures DaysBeforeMonth(y, m) + DaysInMonth(y, m) <= DaysBeforeMonth(y, n)
  {
    if m < n - 1 {
      LaterMonth(y, m, n - 1);
    }
  }

  lemma YearIsItsMonths(y: nat)
    ensures DaysBeforeMonth(y, 13) == DaysInYear(y)
  {
    assert DaysBeforeMonth(y, 2) == 31;
    assert DaysBeforeMonth(y, 4) == 62 + DaysInMonth(y, 2);
    assert DaysBeforeMonth(y, 6) == 123 + DaysInMonth(y, 2);
    assert DaysBeforeMonth(y, 8) == 184 + DaysInMonth(y, 2);
    assert DaysBeforeMonth(y, 10) == 245 + DaysInMonth(y, 2);
    assert DaysBeforeMonth(y, 12) == 306 + DaysInMonth(y, 2);
  }

  /** The same time on the next calendar day. */
  function Tomorrow(t: DateTime): DateTime
    requires Valid(t)
  {
    if t.day < DaysInMonth(t.year, t.month) then t.(day := t.day + 1)
    else if t.month < 12 then t.(month := t.month + 1, day := 1)
    else t.(year := t.year + 1, month := 1, day := 1)
  }

  /** Day numbers run through the calendar without gaps, across months, leap days and years. */
  lemma {:induction false} TomorrowIsNextDay(t: DateTime)
    requires Valid(t) && Valid(Tomorrow(t))
    ensures DayNumber(Tomorrow(t)) == DayNumber(t) + 1
    ensures Instant(Tomorrow(t)) == Instant(t) + 86_400_000_000
  {
    NextYear(t.year);
    YearIsItsMonths(t.year);
  }

  lemma DayOrder(a: DateTime, b: DateTime)
    requires Valid(a) && Valid(b)
    ensures a.year < b.year || (a.year == b.year && (a.month < b.month || (a.month == b.month && a.day < b.day)))
        ==> DayNumber(a) < DayNumber(b)
    ensures a.year == b.year && a.month == b.month && a.day == b.day ==> DayNumber(a) == DayNumber(b)
  {
    if a.year < b.year {
      LaterYear(a.year, b.year);
      LaterMonth(a.year, a.month, 13);
      YearIsItsMonths(a.year);
    } else if a.year == b.year && a.month < b.month {
      LaterMonth(a.year, a.month, b.month);
    }
  }

  lemma {:induction false} EarlierInstant(a: DateTime, b: DateTime)
    requires Valid(a) && Valid(b) && Before(a, b)
    ensures Instant(a) < Instant(b)
  {
    DayOrder(a, b);
  }

  /** Silver's text comparison and the warehouse's timestamp comparison decide alike. */
  lemma {:induction false} IsoOrderIsInstantOrder(a: DateTime, b: DateTime)
    requires Valid(a) && Valid(b)
    ensures LexLess(Iso(a), Iso(b)) <==> Instant(a) < Instant(b)
    ensures Iso(a) == Iso(b) <==> Instant(a) == Instant(b)
  {
    IsoOrder(a, b);
    if Before(a, b) {
      EarlierInstant(a, b);
    } else if Before(b, a) {
      EarlierInstant(b, a);
    } else {
      assert a == b;
    }
  }

  /** Of two builds, the later one's stamp sorts last, or both fall into the same second. */
  lemma {:induction false} LaterStampSortsLast(a: DateTime, b: DateTime)
    requires Valid(a) && Valid(b) && Instant(a) <= Instant(b)
    ensures Stamp(a) == Stamp(b) || LexLess(Stamp(a), Stamp(b))
  {
    var a', b' := a.(micro := 0), b.(micro := 0);
    StampOrder(a, b);
    if Before(b', a') {
      EarlierInstant(b, a);
    } else if a' != b' {
      assert Before(a', b');
    }
  }
}
