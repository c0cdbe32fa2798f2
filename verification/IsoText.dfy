/** What the rendered times say when they are read back: the fields of the date and the clock at their places. */
module IsoText {
  import opened IsoTime

  /** The value of a string of decimal digits. */
  function Number(s: string): int {
    if |s| == 0 then 0 else 10 * Number(s[..|s| - 1]) + (s[|s| - 1] as int - '0' as int)
  }

  lemma {:induction false} NumberOfPad(n: nat, w: nat)
    requires n < Pow10(w)
    ensures Number(Pad(n, w)) == n
  {
    if w > 0 {
      NumberOfPad(n / 10, w - 1);
      var s := Pad(n, w);
      assert s[..w - 1] == Pad(n / 10, w - 1) && s[w - 1] == Digit(n % 10);
    }
  }

  /** A fixed-width field followed by the rest: the field reads back, and the rest is what follows. */
  lemma FieldReads(n: nat, w: nat, rest: string)
    requires n < Pow10(w)
    ensures var s := Pad(n, w) + rest; Number(s[..w]) == n && s[w..] == rest
  {
    NumberOfPad(n, w);
    assert (Pad(n, w) + rest)[..w] == Pad(n, w);
  }

  /** A field, a separator, and the rest. */
  lemma SeparatedReads(n: nat, w: nat, separator: char, rest: string)
    requires n < Pow10(w)
    ensures var s := Pad(n, w) + ([separator] + rest);
            |s| == w + 1 + |rest| && Number(s[..w]) == n && s[w] == separator && s[w + 1..] == rest
  {
    var s := Pad(n, w) + ([separator] + rest);
    FieldReads(n, w, [separator] + rest);
    assert s[w + 1..] == ([separator] + rest)[1..] == rest;
  }

  lemma TailReads(micro: nat)
    requires micro < 1_000_000
    ensures var tail := Tail(micro);
            if micro == 0 then tail == "+00:00"
            else |tail| == 13 && tail[0] == '.' && Number(tail[1..7]) == micro && tail[7..] == "+00:00"
  {
    Widths();
    if micro > 0 {
      FieldReads(micro, 6, "+00:00");
      var rest := Pad(micro, 6) + "+00:00";
      assert Tail(micro)[1..] == rest;
      assert Tail(micro)[1..7] == rest[..6] && Tail(micro)[7..] == rest[6..];
    }
  }

  /** A field at a place, read from the rest of the text that begins there. */
  lemma At(s: string, a: nat, w: nat)
    requires a + w <= |s|
    ensures s[a..][..w] == s[a..a + w]
    ensures a + w < |s| ==> s[a..][w] == s[a + w] && s[a..][w + 1..] == s[a + w + 1..]
    ensures s[a..][w..] == s[a + w..]
  {
  }

  /** The text of the time of day. */
  lemma ClockReads(t: DateTime)
    requires Valid(t)
    ensures var s := Hours(t);
            && |s| == 8 + |Tail(t.micro)|
            && Number(s[..2]) == t.hour && s[2] == ':' && Number(s[3..5]) == t.minute && s[5] == ':'
            && Number(s[6..8]) == t.second && s[8..] == Tail(t.micro)
  {
    Widths();
    SeparatedReads(t.hour, 2, ':', Minutes(t));
    SeparatedReads(t.minute, 2, ':', Seconds(t));
    FieldReads(t.second, 2, Tail(t.micro));
    var s := Hours(t);
    At(s, 3, 2);
    At(s, 6, 2);
  }

  lemma ClockInPlace(s: string, clock: string, micro: nat)
    requires micro < 1_000_000 && |s| == 11 + |clock| && s[11..] == clock
    requires |clock| == 8 + |Tail(micro)| && clock[8..] == Tail(micro)
    ensures s[11..13] == clock[..2] && s[13] == clock[2] && s[14..16] == clock[3..5] && s[16] == clock[5]
    ensures s[17..19] == clock[6..8] && s[19..] == Tail(micro)
    ensures |s| == (if micro == 0 then 25 else 32) && s[|s| - 6..] == "+00:00"
    ensures micro > 0 ==> s[19] == '.' && s[20..26] == Tail(micro)[1..7]
  {
    TailReads(micro);
    var tail := Tail(micro);
    assert s[19..] == s[11..][8..];
    assert s[|s| - 6..] == tail[|tail| - 6..];
    if micro > 0 {
      assert s[20..26] == tail[1..7];
    }
  }

  /** Reading the ISO text by position gives the time back: YYYY-MM-DDTHH:MM:SS, a fraction of six digits if it is
      not zero, and the offset of UTC. */
  lemma {:induction false} IsoReadsBack(t: DateTime)
    requires Valid(t)
    ensures |Iso(t)| == if t.micro == 0 then 25 else 32
    ensures var s := Iso(t);
            && Number(s[..4]) == t.year && s[4] == '-' && Number(s[5..7]) == t.month && s[7] == '-'
            && Number(s[8..10]) == t.day && s[10] == 'T' && Number(s[11..13]) == t.hour && s[13] == ':'
            && Number(s[14..16]) == t.minute && s[16] == ':' && Number(s[17..19]) == t.second
            && s[|s| - 6..] == "+00:00"
    ensures t.micro > 0 ==> Iso(t)[19] == '.' && Number(Iso(t)[20..26]) == t.micro
  {
    var s := Iso(t);
    Widths();
    SeparatedReads(t.year, 4, '-', Months(t));
    SeparatedReads(t.month, 2, '-', Days(t));
    SeparatedReads(t.day, 2, 'T', Hours(t));
    ClockReads(t);
    TailReads(t.micro);
    assert s == Pad(t.year, 4) + ("-" + Months(t));
    At(s, 5, 2);
    At(s, 8, 2);
    assert s[11..] == Hours(t);
    ClockInPlace(s, Hours(t), t.micro);
  }

  /** HHMMSSZ */
  function StampClock(t: DateTime): string {
    Pad(t.hour, 2) + (Pad(t.minute, 2) + (Pad(t.second, 2) + "Z"))
  }

  lemma StampClockReads(t: DateTime)
    requires Valid(t)
    ensures var s := StampClock(t);
            && |s| == 7 && Number(s[..2]) == t.hour && Number(s[2..4]) == t.minute && Number(s[4..6]) == t.second
            && s[6] == 'Z'
  {
    Widths();
    var s5 := Pad(t.second, 2) + "Z";
    var s4 := Pad(t.minute, 2) + s5;
    FieldReads(t.hour, 2, s4);
    FieldReads(t.minute, 2, s5);
    FieldReads(t.second, 2, "Z");
    At(StampClock(t), 2, 2);
    At(StampClock(t), 4, 2);
  }

  lemma StampInPlace(s: string, clock: string)
    requires |s| == 16 && |clock| == 7 && s[9..] == clock
    ensures s[9..11] == clock[..2] && s[11..13] == clock[2..4] && s[13..15] == clock[4..6] && s[15] == clock[6]
  {
  }

  /** The same for the stamp of a partition: YYYYMMDDTHHMMSSZ. */
  lemma {:induction false} StampReadsBack(t: DateTime)
    requires Valid(t)
    ensures |Stamp(t)| == 16
    ensures var s := Stamp(t);
            && Number(s[..4]) == t.year && Number(s[4..6]) == t.month && Number(s[6..8]) == t.day && s[8] == 'T'
            && Number(s[9..11]) == t.hour && Number(s[11..13]) == t.minute && Number(s[13..15]) == t.second
            && s[15] == 'Z'
  {
    Widths();
    StampClockReads(t);
    var clock := StampClock(t);
    var s2 := Pad(t.day, 2) + (['T'] + clock);
    var s1 := Pad(t.month, 2) + s2;
    var s := Pad(t.year, 4) + s1;
    FieldReads(t.year, 4, s1);
    FieldReads(t.month, 2, s2);
    SeparatedReads(t.day, 2, 'T', clock);
    assert Stamp(t) == s;
    At(s, 4, 2);
    At(s, 6, 2);
    assert s[9..] == clock;
    StampInPlace(s, clock);
  }
}
