/** The timestamp text of section 5.6 of RFC 3339, as written into key files and
    signature envelopes, and when its order as text is the order in time. */
module Timestamps {
  import opened TextOrder
  import opened CivilTime

  const SECONDS_PER_DAY: nat := 86400

  /** The first second of the year 10000. */
  const YEAR_10000: nat := 253402300800

  const DECIMAL := "0123456789"

  /** Decimal text, padded with zeros to at least `width` digits. */
  function Padded(n: nat, width: nat): string
    decreases n, width
  {
    if n < 10 && width <= 1 then [DECIMAL[n]]
    else Padded(n / 10, if width > 0 then width - 1 else 0) + [DECIMAL[n % 10]]
  }

  function DateText(d: Date): string
    requires d.year >= 0 && d.month >= 0 && d.day >= 0
  {
    Padded(d.year, 4) + ("-" + (Padded(d.month, 2) + ("-" + Padded(d.day, 2))))
  }

  function ClockText(t: nat): string {
    Padded(t / 3600, 2) + (":" + (Padded((t % 3600) / 60, 2) + (":" + (Padded(t % 60, 2) + "Z"))))
  }

  /** The timestamp of a number of seconds since the epoch. */
  function Timestamp(secs: nat): string {
    var days := secs / SECONDS_PER_DAY;
    var timeOfDay := secs % SECONDS_PER_DAY;
    var d := CivilFromDays(days);
    NonNegativeDate(days);
    DateText(d) + ("T" + ClockText(timeOfDay))
  }

  lemma NonNegativeDate(days: nat)
    ensures var d := CivilFromDays(days); IsDate(d) && d.year >= 1970
  {
    hide CivilFromDays;
    NextDayIsNextDate(days);
    EpochIsRight();
    if days > 0 {
      DatesIncrease(0, days);
    }
  }

  function Power10(n: nat): nat {
    if n == 0 then 1 else 10 * Power10(n - 1)
  }

  lemma {:induction false} PaddedLength(n: nat, width: nat)
    requires width > 0
    ensures n < Power10(width) ==> |Padded(n, width)| == width
    ensures n >= Power10(width) ==> |Padded(n, width)| > width
    decreases width
  {
    if width == 1 {
      if n >= 10 {
        PaddedNonEmpty(n / 10, 0);
      }
    } else {
      PaddedLength(n / 10, width - 1);
    }
  }

  lemma {:induction false} PaddedNonEmpty(n: nat, width: nat)
    ensures |Padded(n, width)| > 0
  {
  }

  // ---- Text order ------------------------------------------------------------------

  lemma DecimalOrder(a: nat, b: nat)
    requires a < b < 10
    ensures Less([DECIMAL[a]], [DECIMAL[b]])
  {
    assert DECIMAL == ['0', '1', '2', '3', '4', '5', '6', '7', '8', '9'];
    assert DECIMAL[a] < DECIMAL[b];
  }

  lemma SingleDigits(a: nat, b: nat)
    requires a < b < Power10(1)
    ensures Less(Padded(a, 1), Padded(b, 1))
  {
    DecimalOrder(a, b);
  }

  /** The last digit and what stands before it. */
  lemma PaddedSplits(n: nat, width: nat)
    requires 1 < width && n < Power10(width)
    ensures n / 10 < Power10(width - 1)
    ensures Padded(n, width) == Padded(n / 10, width - 1) + [DECIMAL[n % 10]]
  {
  }

  lemma SplitOrder(p: string, q: string, x: nat, y: nat)
    requires x < 10 && y < 10
    requires (|p| == |q| && Less(p, q)) || (p == q && x < y)
    ensures Less(p + [DECIMAL[x]], q + [DECIMAL[y]])
  {
    if p == q && x < y {
      DecimalOrder(x, y);
      LessThroughPrefix(p, [DECIMAL[x]], [DECIMAL[y]]);
    } else {
      LessByPrefix(p, q, [DECIMAL[x]], [DECIMAL[y]]);
    }
  }

  /** Numbers of the same padded width compare as their texts. */
  lemma {:induction false} PaddedOrder(a: nat, b: nat, width: nat)
    requires 0 < width && a < b < Power10(width)
    ensures |Padded(a, width)| == |Padded(b, width)| == width
    ensures Less(Padded(a, width), Padded(b, width))
    decreases width
  {
    hide Less;
    hide Padded;
    hide Power10;
    PaddedLength(a, width);
    PaddedLength(b, width);
    if width == 1 {
      SingleDigits(a, b);
    } else {
      PaddedSplits(a, width);
      PaddedSplits(b, width);
      PaddedLength(a / 10, width - 1);
      PaddedLength(b / 10, width - 1);
      if a / 10 < b / 10 {
        PaddedOrder(a / 10, b / 10, width - 1);
      }
      SplitOrder(Padded(a / 10, width - 1), Padded(b / 10, width - 1), a % 10, b % 10);
    }
  }

  /** One field of fixed width, then the rest: the field decides, or the rest does. */
  lemma FieldOrder(a: nat, b: nat, width: nat, u: string, v: string)
    requires 0 < width && a < Power10(width) && b < Power10(width)
    requires a < b || (a == b && Less(u, v))
    ensures Less(Padded(a, width) + u, Padded(b, width) + v)
  {
    if a < b {
      PaddedOrder(a, b, width);
      LessByPrefix(Padded(a, width), Padded(b, width), u, v);
    } else {
      LessThroughPrefix(Padded(a, width), u, v);
    }
  }

  lemma Widths()
    ensures Power10(2) == 100 && Power10(4) == 10000
  {
    assert Power10(1) == 10 * Power10(0);
    assert Power10(3) == 10 * Power10(2);
  }

  lemma ClockParts(s: nat)
    requires s < SECONDS_PER_DAY
    ensures s == 3600 * (s / 3600) + 60 * ((s % 3600) / 60) + s % 60
    ensures s / 3600 < 24 && (s % 3600) / 60 < 60 && s % 60 < 60
  {
  }

  lemma ClockOrder(s: nat, t: nat)
    requires s < t < SECONDS_PER_DAY
    ensures Less(ClockText(s), ClockText(t))
  {
    Widths();
    var h, m, c := s / 3600, (s % 3600) / 60, s % 60;
    var h', m', c' := t / 3600, (t % 3600) / 60, t % 60;
    ClockParts(s);
    ClockParts(t);
    hide Padded;
    hide Less;
    hide Power10;
    var seconds, seconds' := Padded(c, 2) + "Z", Padded(c', 2) + "Z";
    var minutes, minutes' := Padded(m, 2) + (":" + seconds), Padded(m', 2) + (":" + seconds');
    if h == h' {
      if m == m' {
        FieldOrder(c, c', 2, "Z", "Z");
        LessThroughPrefix(":", seconds, seconds');
      }
      FieldOrder(m, m', 2, ":" + seconds, ":" + seconds');
      LessThroughPrefix(":", minutes, minutes');
    }
    FieldOrder(h, h', 2, ":" + minutes, ":" + minutes');
  }

  lemma DateOrder(a: Date, b: Date, u: string, v: string)
    requires IsDate(a) && IsDate(b) && 0 <= a.year && 0 <= b.year < 10000
    requires Before(a, b)
    ensures Less(DateText(a) + u, DateText(b) + v)
  {
    Widths();
    hide Padded;
    hide Less;
    hide IsLeapYear;
    var days, days' := Padded(a.day, 2) + u, Padded(b.day, 2) + v;
    var months, months' := Padded(a.month, 2) + ("-" + days), Padded(b.month, 2) + ("-" + days');
    if a.year == b.year {
      if a.month == b.month {
        FieldOrder(a.day, b.day, 2, u, v);
        LessThroughPrefix("-", days, days');
      }
      FieldOrder(a.month, b.month, 2, "-" + days, "-" + days');
      LessThroughPrefix("-", months, months');
    }
    FieldOrder(a.year, b.year, 4, "-" + months, "-" + months');
    Regroup(Padded(a.year, 4), Padded(a.month, 2), Padded(a.day, 2), u);
    Regroup(Padded(b.year, 4), Padded(b.month, 2), Padded(b.day, 2), v);
  }

  lemma Regroup(y: string, m: string, d: string, u: string)
    ensures (y + ("-" + (m + ("-" + d)))) + u == y + ("-" + (m + ("-" + (d + u))))
  {
  }

  // ---- The theorems ------------------------------------------------------------------

  /** The first day of year 10000 as the calendar counts it. */
  lemma FirstDayOfYear10000()
    ensures CivilFromDays(YEAR_10000 / SECONDS_PER_DAY) == Date(10000, 1, 1)
  {
    CivilAtPosition(YEAR_10000 / SECONDS_PER_DAY, 24, 399, 306);
  }

  lemma FourDigitYears(secs: nat)
    ensures CivilFromDays(secs / SECONDS_PER_DAY).year < 10000 <==> secs < YEAR_10000
  {
    hide CivilFromDays;
    FirstDayOfYear10000();
    var n, limit := secs / SECONDS_PER_DAY, YEAR_10000 / SECONDS_PER_DAY;
    assert secs < YEAR_10000 <==> n < limit;
    NonNegativeDate(n);
    if n < limit {
      DatesIncrease(n, limit);
    } else if limit < n {
      DatesIncrease(limit, n);
    }
  }

  /** The text has 20 characters exactly for times before the year 10000. */
  lemma TwentyCharacters(secs: nat)
    ensures |Timestamp(secs)| == 20 <==> secs < YEAR_10000
  {
    Widths();
    hide CivilFromDays;
    hide Padded;
    var n, t := secs / SECONDS_PER_DAY, secs % SECONDS_PER_DAY;
    var d := CivilFromDays(n);
    NonNegativeDate(n);
    FourDigitYears(secs);
    PaddedLength(d.year, 4);
    PaddedLength(d.month, 2);
    PaddedLength(d.day, 2);
    PaddedLength(t / 3600, 2);
    PaddedLength((t % 3600) / 60, 2);
    PaddedLength(t % 60, 2);
  }

  /** Before the year 10000 the order of the texts is the order in time. */
  lemma TimestampOrder(s: nat, t: nat)
    requires s < t < YEAR_10000
    ensures Less(Timestamp(s), Timestamp(t))
  {
    hide CivilFromDays;
    hide Less;
    hide DateText;
    hide ClockText;
    var m, n := s / SECONDS_PER_DAY, t / SECONDS_PER_DAY;
    NonNegativeDate(m);
    NonNegativeDate(n);
    FourDigitYears(t);
    var u, v := ClockText(s % SECONDS_PER_DAY), ClockText(t % SECONDS_PER_DAY);
    if m < n {
      DatesIncrease(m, n);
      DateOrder(CivilFromDays(m), CivilFromDays(n), "T" + u, "T" + v);
    } else {
      SameDay(s, t);
      ClockOrder(s % SECONDS_PER_DAY, t % SECONDS_PER_DAY);
      LessThroughPrefix("T", u, v);
      LessThroughPrefix(DateText(CivilFromDays(m)), "T" + u, "T" + v);
    }
  }

  lemma SameDay(s: nat, t: nat)
    requires s < t && s / SECONDS_PER_DAY >= t / SECONDS_PER_DAY
    ensures s / SECONDS_PER_DAY == t / SECONDS_PER_DAY && s % SECONDS_PER_DAY < t % SECONDS_PER_DAY
  {
  }

  /** At the turn of the year 10000 the text order breaks. */
  lemma OrderBreaksAtYear10000()
    ensures Less(Timestamp(YEAR_10000), Timestamp(YEAR_10000 - 1))
  {
    hide ClockText;
    FirstDayOfYear10000();
    var before := CivilFromDays((YEAR_10000 - 1) / SECONDS_PER_DAY);
    CivilAtPosition((YEAR_10000 - 1) / SECONDS_PER_DAY, 24, 399, 305);
    hide CivilFromDays;
    assert before == Date(9999, 12, 31);
    TenThousand();
    assert Timestamp(YEAR_10000)[0] == '1';
    assert Timestamp(YEAR_10000 - 1)[0] == '9';
  }

  lemma TenThousand()
    ensures Padded(10000, 4)[0] == '1' && Padded(9999, 4)[0] == '9'
  {
    assert DECIMAL == ['0', '1', '2', '3', '4', '5', '6', '7', '8', '9'];
    assert Padded(10000, 4) == Padded(1000, 3) + [DECIMAL[0]];
    assert Padded(1000, 3) == Padded(100, 2) + [DECIMAL[0]];
    assert Padded(100, 2) == Padded(10, 1) + [DECIMAL[0]];
    assert Padded(10, 1) == Padded(1, 0) + [DECIMAL[0]];
    assert Padded(9999, 4) == Padded(999, 3) + [DECIMAL[9]];
    assert Padded(999, 3) == Padded(99, 2) + [DECIMAL[9]];
    assert Padded(99, 2) == Padded(9, 1) + [DECIMAL[9]];
  }

  /** The order of the texts is the order in time for all times before `n` exactly when
      `n` is not beyond the year 10000. */
  lemma TextOrderExactly(n: nat)
    ensures (forall s: nat, t: nat :: s < t < n ==> Less(Timestamp(s), Timestamp(t))) <==> n <= YEAR_10000
  {
    hide Timestamp;
    hide Less;
    if n <= YEAR_10000 {
      forall s: nat, t: nat | s < t < n ensures Less(Timestamp(s), Timestamp(t)) {
        TimestampOrder(s, t);
      }
    } else {
      OrderBreaksAtYear10000();
      LessTotal(Timestamp(YEAR_10000 - 1), Timestamp(YEAR_10000));
    }
  }

  // ---- Reading a timestamp ------------------------------------------------------------

  /** The number spelled by decimal digits. */
  function ReadDecimal(t: string): nat
    requires forall i :: 0 <= i < |t| ==> IsDigit(t[i])
  {
    if t == "" then 0
    else
      assert IsDigit(t[|t| - 1]);
      10 * ReadDecimal(t[..|t| - 1]) + (t[|t| - 1] as int - '0' as int)
  }

  lemma DecimalDigit(n: nat)
    requires n < 10
    ensures IsDigit(DECIMAL[n]) && DECIMAL[n] as int - '0' as int == n
  {
    assert DECIMAL == ['0', '1', '2', '3', '4', '5', '6', '7', '8', '9'];
  }

  /** Reading undoes padding. */
  lemma {:induction false} PaddedReads(n: nat, width: nat)
    ensures forall i :: 0 <= i < |Padded(n, width)| ==> IsDigit(Padded(n, width)[i])
    ensures ReadDecimal(Padded(n, width)) == n
    decreases n, width
  {
    DecimalDigit(n % 10);
    if n < 10 && width <= 1 {
      assert Padded(n, width)[..0] == "";
    } else {
      var w := if width > 0 then width - 1 else 0;
      PaddedReads(n / 10, w);
      assert Padded(n, width)[..|Padded(n, width)| - 1] == Padded(n / 10, w);
    }
  }

  /** Decimal digits at every place where section 5.6 of RFC 3339 has them, and its
      separators between them. */
  predicate LooksRight(t: string) {
    && |t| == 20
    && (forall i :: 0 <= i < 20 && i !in {4, 7, 10, 13, 16, 19} ==> IsDigit(t[i]))
    && t[4] == '-' && t[7] == '-' && t[10] == 'T' && t[13] == ':' && t[16] == ':' && t[19] == 'Z'
  }

  /** The seconds that a timestamp text stands for. */
  function ReadTimestamp(t: string): int
    requires LooksRight(t)
    requires IsDate(Date(ReadDecimal(t[..4]), ReadDecimal(t[5..7]), ReadDecimal(t[8..10])))
  {
    DaysFromCivil(Date(ReadDecimal(t[..4]), ReadDecimal(t[5..7]), ReadDecimal(t[8..10]))) * SECONDS_PER_DAY
    + 3600 * ReadDecimal(t[11..13]) + 60 * ReadDecimal(t[14..16]) + ReadDecimal(t[17..19])
  }

  /** Six padded fields with their separators: where each of them stands. */
  lemma Fields(y: string, m: string, d: string, h: string, n: string, c: string)
    requires |y| == 4 && |m| == |d| == |h| == |n| == |c| == 2
    requires forall f, i :: f in {y, m, d, h, n, c} && 0 <= i < |f| ==> IsDigit(f[i])
    ensures var t := y + ("-" + (m + ("-" + d))) + ("T" + (h + (":" + (n + (":" + (c + "Z"))))));
            && LooksRight(t)
            && t[..4] == y && t[5..7] == m && t[8..10] == d && t[11..13] == h && t[14..16] == n && t[17..19] == c
  {
    var date := y + ("-" + (m + ("-" + d)));
    var clock := h + (":" + (n + (":" + (c + "Z"))));
    var t := date + ("T" + clock);
    assert |date| == 10 && date[..4] == y && date[5..7] == m && date[8..10] == d && date[4] == '-' && date[7] == '-';
    assert |clock| == 9 && clock[0..2] == h && clock[3..5] == n && clock[6..8] == c;
    assert clock[2] == ':' && clock[5] == ':' && clock[8] == 'Z';
    forall i | 0 <= i < 20 && i !in {4, 7, 10, 13, 16, 19} ensures IsDigit(t[i]) {
      if i < 10 {
        assert t[i] == date[i];
        assert i < 4 ==> date[i] == y[i];
        assert 5 <= i < 7 ==> date[i] == m[i - 5];
        assert 8 <= i ==> date[i] == d[i - 8];
      } else {
        assert t[i] == clock[i - 11];
        assert i < 13 ==> clock[i - 11] == h[i - 11];
        assert 14 <= i < 16 ==> clock[i - 11] == n[i - 14];
        assert 17 <= i ==> clock[i - 11] == c[i - 17];
      }
    }
  }

  /** The text of a time before the year 10000 reads back as that time. */
  lemma TimestampReadsBack(secs: nat)
    requires secs < YEAR_10000
    ensures LooksRight(Timestamp(secs))
    ensures var t := Timestamp(secs);
            && IsDate(Date(ReadDecimal(t[..4]), ReadDecimal(t[5..7]), ReadDecimal(t[8..10])))
            && ReadTimestamp(t) == secs
  {
    Widths();
    hide CivilFromDays;
    hide Padded;
    hide ReadDecimal;
    hide LooksRight;
    hide DaysFromCivil;
    hide IsDate;
    var n, s := secs / SECONDS_PER_DAY, secs % SECONDS_PER_DAY;
    var d := CivilFromDays(n);
    NonNegativeDate(n);
    DatesHaveSmallParts(d);
    FourDigitYears(secs);
    DayRoundTrip(n);
    var h, m, c := s / 3600, (s % 3600) / 60, s % 60;
    FieldReads(d.year, 4);
    FieldReads(d.month, 2);
    FieldReads(d.day, 2);
    FieldReads(h, 2);
    FieldReads(m, 2);
    FieldReads(c, 2);
    Fields(Padded(d.year, 4), Padded(d.month, 2), Padded(d.day, 2), Padded(h, 2), Padded(m, 2), Padded(c, 2));
    assert secs == n * SECONDS_PER_DAY + 3600 * h + 60 * m + c;
    assert d == Date(d.year, d.month, d.day);
  }

  lemma DatesHaveSmallParts(d: Date)
    requires IsDate(d)
    ensures 1 <= d.month <= 12 && 1 <= d.day <= 31
  {
  }

  lemma FieldReads(n: nat, width: nat)
    requires 0 < width && n < Power10(width)
    ensures |Padded(n, width)| == width
    ensures forall i :: 0 <= i < |Padded(n, width)| ==> IsDigit(Padded(n, width)[i])
    ensures ReadDecimal(Padded(n, width)) == n
  {
    PaddedLength(n, width);
    PaddedReads(n, width);
  }
}
