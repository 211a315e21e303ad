/** From a day count to a calendar date in closed form, as used for the timestamps in
    key files and signatures, and its agreement with the Gregorian calendar. */
module CivilTime {
  datatype Date = Date(year: int, month: int, day: int)

  /** Unsigned subtraction: the minuend must not be smaller. */
  function Minus(a: nat, b: nat): (r: nat)
    requires b <= a
  {
    a - b
  }

  /** Division that truncates toward zero. */
  function Truncated(a: int, b: nat): int
    requires b > 0
  {
    if a >= 0 then a / b else -((-a) / b)
  }

  const DAYS_PER_ERA: nat := 146097
  const EPOCH_SHIFT: nat := 719468

  /** The 400-year era of a day counted from 1 March of year 0. */
  function Era(z: int): int {
    Truncated(if z >= 0 then z else z - 146096, DAYS_PER_ERA)
  }

  lemma EraIsFloor(z: int)
    ensures Era(z) == z / DAYS_PER_ERA
    ensures 0 <= z - Era(z) * DAYS_PER_ERA < DAYS_PER_ERA
  {
    if z < 0 {
      var q := (146096 - z) / DAYS_PER_ERA;
      assert q * DAYS_PER_ERA <= 146096 - z < q * DAYS_PER_ERA + DAYS_PER_ERA;
    }
  }

  // ---- The calendar, as RFC 3339 section 5.7 and appendix C define it ----------

  predicate IsLeapYear(y: int) {
    y % 4 == 0 && (y % 100 != 0 || y % 400 == 0)
  }

  function DaysInMonth(y: int, m: int): nat
    requires 1 <= m <= 12
  {
    if m == 2 then (if IsLeapYear(y) then 29 else 28)
    else if m == 4 || m == 6 || m == 9 || m == 11 then 30
    else 31
  }

  predicate IsDate(d: Date) {
    1 <= d.month <= 12 && 1 <= d.day <= DaysInMonth(d.year, d.month)
  }

  function NextDate(d: Date): Date
    requires IsDate(d)
  {
    if d.day < DaysInMonth(d.year, d.month) then d.(day := d.day + 1)
    else if d.month < 12 then Date(d.year, d.month + 1, 1)
    else Date(d.year + 1, 1, 1)
  }

  // ---- Positions in an era whose years start on 1 March ------------------------

  /** Days in the first `y` March-based years of an era. */
  function DaysBefore(y: nat): nat
    requires y <= 399
  {
    Minus(365 * y + y / 4, y / 100)
  }

  /** March-based year `y` of an era ends with a leap day. */
  predicate EndsWithLeapDay(y: nat) {
    (y + 1) % 4 == 0 && ((y + 1) % 100 != 0 || y == 399)
  }

  predicate InYear(yoe: nat, doy: nat) {
    yoe <= 399 && doy <= if EndsWithLeapDay(yoe) then 365 else 364
  }

  /** Centuries, four-year groups, years and days: the mixed-radix form of a day of
      an era, with the last century, group and year taking the extra days. */
  lemma Decompose(doe: nat) returns (h: nat, g: nat, f: nat, t: nat)
    requires doe < DAYS_PER_ERA
    ensures h <= 3 && g <= 24 && f <= 3 && t <= 365
    ensures doe == 36524 * h + 1461 * g + 365 * f + t
    ensures t == 365 ==> f == 3 && (g < 24 || h == 3)
  {
    h := if doe / 36524 > 3 then 3 else doe / 36524;
    var r := doe - 36524 * h;
    g := r / 1461;
    var u := r - 1461 * g;
    f := if u / 365 > 3 then 3 else u / 365;
    t := u - 365 * f;
  }

  /** The formula for the year of the era. */
  function YearOfEra(doe: nat): nat
    requires doe < DAYS_PER_ERA
  {
    Minus(Minus(doe, doe / 1460) + doe / 36524, doe / 146096) / 365
  }

  lemma LeapDaysSkipped(h: nat, g: nat, f: nat, t: nat, doe: nat)
    requires h <= 3 && g <= 24 && f <= 3 && t <= 365
    requires doe == 36524 * h + 1461 * g + 365 * f + t < DAYS_PER_ERA
    ensures var w := 24 * h + g + 365 * f + t;
            doe / 1460 == 25 * h + g + (if w >= 1460 then 1 else 0)
  {
    var w := 24 * h + g + 365 * f + t;
    assert doe == 1460 * (25 * h + g) + w;
    assert w < 2920;
  }

  lemma CenturiesCounted(h: nat, r: nat, doe: nat)
    requires h <= 3 && r <= 36524 && doe == 36524 * h + r < DAYS_PER_ERA && (r == 36524 ==> h == 3)
    ensures doe / 36524 - doe / 146096 == h
  {
  }

  /** The formula finds the year, and the day of the year is what is left over. */
  lemma YearOfEraIsRight(doe: nat)
    requires doe < DAYS_PER_ERA
    ensures YearOfEra(doe) <= 399
    ensures DaysBefore(YearOfEra(doe)) <= doe
    ensures InYear(YearOfEra(doe), doe - DaysBefore(YearOfEra(doe)))
  {
    var h, g, f, t := Decompose(doe);
    LeapDaysSkipped(h, g, f, t, doe);
    CenturiesCounted(h, 1461 * g + 365 * f + t, doe);
    var y := 100 * h + 4 * g + f;
    YearParts(h, g, f);
    var e := if 24 * h + g + 365 * f + t >= 1460 then 1 else 0;
    assert 0 <= t - e < 365;
    Quotient365(y, t - e);
    hide DaysBefore;
    hide EndsWithLeapDay;
    assert YearOfEra(doe) == y;
  }

  lemma Quotient365(y: nat, k: nat)
    requires k < 365
    ensures (365 * y + k) / 365 == y
  {
  }

  lemma YearParts(h: nat, g: nat, f: nat)
    requires h <= 3 && g <= 24 && f <= 3
    ensures var y := 100 * h + 4 * g + f;
            && y <= 399
            && DaysBefore(y) == 36524 * h + 1461 * g + 365 * f
            && (EndsWithLeapDay(y) <==> f == 3 && (g < 24 || h == 3))
  {
    var y := 100 * h + 4 * g + f;
    assert y / 4 == 25 * h + g && y / 100 == h;
    assert (y + 1) % 4 == (f + 1) % 4;
    assert (y + 1) % 100 == (4 * g + f + 1) % 100;
  }

  // ---- Months -------------------------------------------------------------------

  /** Months are counted from March; the first `mp` of them have this many days. */
  function DaysBeforeMonth(mp: nat): nat {
    (153 * mp + 2) / 5
  }

  function MonthIndex(doy: nat): nat {
    (5 * doy + 2) / 153
  }

  function MonthNumber(mp: nat): nat
    requires mp <= 11
  {
    if mp < 10 then mp + 3 else Minus(mp, 9)
  }

  /** The lengths of the months from March on, the last one without a leap day. */
  const MARCH_LENGTHS: seq<nat> := [31, 30, 31, 30, 31, 31, 30, 31, 30, 31, 31, 28]

  lemma MonthTable(mp: nat)
    requires mp <= 11
    ensures mp < 11 ==> DaysBeforeMonth(mp + 1) == DaysBeforeMonth(mp) + MARCH_LENGTHS[mp]
    ensures mp == 11 ==> DaysBeforeMonth(mp) == 337
    ensures mp == 0 ==> DaysBeforeMonth(mp) == 0
  {
  }

  lemma MonthIndexIsRight(doy: nat)
    requires doy <= 365
    ensures MonthIndex(doy) <= 11
    ensures DaysBeforeMonth(MonthIndex(doy)) <= doy
    ensures MonthIndex(doy) < 11 ==> doy < DaysBeforeMonth(MonthIndex(doy) + 1)
  {
  }

  /** The date at day `doy` of March-based year `yoe` of era `era`. */
  function DateAt(era: int, yoe: nat, doy: nat): Date
    requires InYear(yoe, doy)
  {
    MonthIndexIsRight(doy);
    var mp := MonthIndex(doy);
    var d := Minus(doy, DaysBeforeMonth(mp)) + 1;
    var m := MonthNumber(mp);
    var y := yoe + era * 400;
    Date(if m <= 2 then y + 1 else y, m, d)
  }

  /** The closed form: the date of the day `days` days after 1 January 1970. */
  function CivilFromDays(days: int): Date {
    var z := days + EPOCH_SHIFT;
    var era := Era(z);
    EraIsFloor(z);
    var doe := z - era * DAYS_PER_ERA;
    YearOfEraIsRight(doe);
    var yoe := YearOfEra(doe);
    var doy := Minus(doe, DaysBefore(yoe));
    DateAt(era, yoe, doy)
  }

  lemma Remainder4(x: int, q: int, r: nat)
    requires r < 4 && x == 4 * q + r
    ensures x % 4 == r
  {
  }

  lemma Remainder100(x: int, q: int, r: nat)
    requires r < 100 && x == 100 * q + r
    ensures x % 100 == r
  {
  }

  lemma Remainder400(x: int, q: int, r: nat)
    requires r < 400 && x == 400 * q + r
    ensures x % 400 == r
  {
  }

  lemma LeapYears(era: int, yoe: nat)
    requires yoe <= 399
    ensures IsLeapYear(yoe + 1 + era * 400) <==> EndsWithLeapDay(yoe)
  {
    var y := yoe + 1;
    var x := y + era * 400;
    Remainder4(x, y / 4 + 100 * era, y % 4);
    Remainder100(x, y / 100 + 4 * era, y % 100);
    Remainder400(x, y / 400 + era, y % 400);
  }

  lemma MonthLength(era: int, yoe: nat, mp: nat)
    requires yoe <= 399 && mp <= 11
    ensures 1 <= MonthNumber(mp) <= 12
    ensures DaysInMonth(YearAt(era, yoe, mp), MonthNumber(mp))
              == if mp == 11 && EndsWithLeapDay(yoe) then 29 else MARCH_LENGTHS[mp]
  {
    LeapYears(era, yoe);
  }

  /** The calendar year of month `mp`: January and February belong to the next one. */
  function YearAt(era: int, yoe: nat, mp: nat): int {
    yoe + era * 400 + if mp >= 10 then 1 else 0
  }

  /** A position is in month `mp` exactly when its day of the year is in that range. */
  lemma DateInMonth(era: int, yoe: nat, doy: nat, mp: nat)
    requires InYear(yoe, doy) && mp <= 11
    requires DaysBeforeMonth(mp) <= doy && (mp < 11 ==> doy < DaysBeforeMonth(mp + 1))
    ensures DateAt(era, yoe, doy) == Date(YearAt(era, yoe, mp), MonthNumber(mp), doy - DaysBeforeMonth(mp) + 1)
  {
    MonthIndexIsRight(doy);
    MonthIndexIs(doy, mp);
  }

  lemma MonthIndexIs(doy: nat, mp: nat)
    requires doy <= 365 && mp <= 11
    requires DaysBeforeMonth(mp) <= doy && (mp < 11 ==> doy < DaysBeforeMonth(mp + 1))
    ensures MonthIndex(doy) == mp
  {
  }

  /** Every computed date is a date of the Gregorian calendar. */
  lemma DateAtIsDate(era: int, yoe: nat, doy: nat)
    requires InYear(yoe, doy)
    ensures IsDate(DateAt(era, yoe, doy))
  {
    hide IsLeapYear;
    hide DaysInMonth;
    hide DateAt;
    hide MonthIndex;
    hide DaysBeforeMonth;
    hide EndsWithLeapDay;
    var mp := MonthIndex(doy);
    MonthIndexIsRight(doy);
    MonthTable(mp);
    MonthLength(era, yoe, mp);
    DateInMonth(era, yoe, doy, mp);
  }

  /** Within a March-based year, the next position is the next date. */
  lemma NextInYear(era: int, yoe: nat, doy: nat)
    requires InYear(yoe, doy + 1)
    ensures InYear(yoe, doy) && IsDate(DateAt(era, yoe, doy))
    ensures DateAt(era, yoe, doy + 1) == NextDate(DateAt(era, yoe, doy))
  {
    hide IsLeapYear;
    hide DaysInMonth;
    hide DateAt;
    hide MonthIndex;
    hide DaysBeforeMonth;
    hide EndsWithLeapDay;
    var mp := MonthIndex(doy);
    DateAtIsDate(era, yoe, doy);
    MonthIndexIsRight(doy);
    DateInMonth(era, yoe, doy, mp);
    MonthTable(mp);
    MonthLength(era, yoe, mp);
    if mp < 11 && doy + 1 == DaysBeforeMonth(mp + 1) {
      MonthTable(mp + 1);
      DateInMonth(era, yoe, doy + 1, mp + 1);
    } else {
      DateInMonth(era, yoe, doy + 1, mp);
    }
  }

  /** The last position of a March-based year is the last day of February. */
  lemma NextYear(era: int, yoe: nat, doy: nat)
    requires InYear(yoe, doy) && !InYear(yoe, doy + 1)
    ensures IsDate(DateAt(era, yoe, doy))
    ensures yoe < 399 ==> DateAt(era, yoe + 1, 0) == NextDate(DateAt(era, yoe, doy))
    ensures yoe == 399 ==> DateAt(era + 1, 0, 0) == NextDate(DateAt(era, yoe, doy))
  {
    hide IsLeapYear;
    hide DaysInMonth;
    hide EndsWithLeapDay;
    hide DateAt;
    hide MonthIndex;
    hide DaysBeforeMonth;
    DateAtIsDate(era, yoe, doy);
    MonthTable(11);
    MonthTable(0);
    MonthLength(era, yoe, 11);
    DateInMonth(era, yoe, doy, 11);
    NewYearStarts();
    if yoe < 399 {
      DateInMonth(era, yoe + 1, 0, 0);
    } else {
      DateInMonth(era + 1, 0, 0, 0);
    }
  }

  lemma NewYearStarts()
    ensures 0 < DaysBeforeMonth(1)
  {
  }

  // ---- Agreement with the calendar, day by day ---------------------------------

  /** Where day `days` is: era, year of era, day of year. */
  ghost predicate Positioned(days: int, era: int, yoe: nat, doy: nat) {
    InYear(yoe, doy) && days + EPOCH_SHIFT == era * DAYS_PER_ERA + DaysBefore(yoe) + doy
  }

  lemma PositionOf(days: int) returns (era: int, yoe: nat, doy: nat)
    ensures Positioned(days, era, yoe, doy) && CivilFromDays(days) == DateAt(era, yoe, doy)
  {
    hide EndsWithLeapDay;
    hide DaysBefore;
    hide DateAt;
    hide YearOfEra;
    hide Era;
    var z := days + EPOCH_SHIFT;
    era := Era(z);
    EraIsFloor(z);
    var doe := z - era * DAYS_PER_ERA;
    YearOfEraIsRight(doe);
    yoe := YearOfEra(doe);
    doy := doe - DaysBefore(yoe);
  }

  /** Consecutive March-based years are adjacent. */
  lemma YearsAdjacent(yoe: nat)
    requires yoe <= 399
    ensures var last := if EndsWithLeapDay(yoe) then 365 else 364;
            DaysBefore(yoe) + last + 1 == if yoe < 399 then DaysBefore(yoe + 1) else DAYS_PER_ERA
    ensures DaysBefore(0) == 0
  {
  }

  /** Different positions are different days. */
  lemma PositionIsUnique(days: int, era: int, yoe: nat, doy: nat, era': int, yoe': nat, doy': nat)
    requires Positioned(days, era, yoe, doy) && Positioned(days, era', yoe', doy')
    ensures era == era' && yoe == yoe' && doy == doy'
  {
    hide EndsWithLeapDay;
    hide DaysBefore;
    InEra(yoe, doy);
    InEra(yoe', doy');
    if yoe < yoe' {
      YearsOrdered(yoe, yoe');
    } else if yoe' < yoe {
      YearsOrdered(yoe', yoe);
    }
  }

  lemma {:induction false} YearsOrdered(a: nat, b: nat)
    requires a < b <= 399
    ensures DaysBefore(a) + (if EndsWithLeapDay(a) then 365 else 364) < DaysBefore(b)
    decreases b - a
  {
    hide EndsWithLeapDay;
    hide DaysBefore;
    YearsAdjacent(a);
    if a + 1 == b {
    } else {
      YearsOrdered(a + 1, b);
    }
  }

  lemma InEra(yoe: nat, doy: nat)
    requires InYear(yoe, doy)
    ensures DaysBefore(yoe) + doy < DAYS_PER_ERA
  {
    hide EndsWithLeapDay;
    hide DaysBefore;
    YearsAdjacent(yoe);
    if yoe < 399 {
      YearsOrdered(yoe, 399);
      YearsAdjacent(399);
    }
  }

  lemma CivilAtPosition(days: int, era: int, yoe: nat, doy: nat)
    requires Positioned(days, era, yoe, doy)
    ensures CivilFromDays(days) == DateAt(era, yoe, doy)
  {
    var e, y, d := PositionOf(days);
    PositionIsUnique(days, era, yoe, doy, e, y, d);
  }

  /** Day `n + 1` is the calendar successor of day `n`, for every day. */
  lemma NextDayIsNextDate(days: int)
    ensures IsDate(CivilFromDays(days))
    ensures CivilFromDays(days + 1) == NextDate(CivilFromDays(days))
  {
    hide CivilFromDays;
    hide DateAt;
    hide NextDate;
    hide EndsWithLeapDay;
    hide DaysBefore;
    hide IsDate;
    var era, yoe, doy := PositionOf(days);
    YearsAdjacent(yoe);
    if InYear(yoe, doy + 1) {
      NextInYear(era, yoe, doy);
      CivilAtPosition(days + 1, era, yoe, doy + 1);
    } else {
      NextYear(era, yoe, doy);
      if yoe < 399 {
        CivilAtPosition(days + 1, era, yoe + 1, 0);
      } else {
        CivilAtPosition(days + 1, era + 1, 0, 0);
      }
    }
  }

  lemma EpochIsRight()
    ensures CivilFromDays(0) == Date(1970, 1, 1)
  {
    CivilAtPosition(0, 4, 369, 306);
  }

  /** The date reached by counting `n` days one by one from 1 January 1970. */
  ghost function Counted(n: nat): (d: Date)
    ensures IsDate(d)
  {
    if n == 0 then Date(1970, 1, 1)
    else
      var d := NextDate(Counted(n - 1));
      NextIsDate(Counted(n - 1));
      d
  }

  lemma NextIsDate(d: Date)
    requires IsDate(d)
    ensures IsDate(NextDate(d))
  {
  }

  /** The closed form is what counting the days gives. */
  lemma {:induction false} ClosedFormCounts(n: nat)
    ensures CivilFromDays(n) == Counted(n)
  {
    hide CivilFromDays;
    if n == 0 {
      EpochIsRight();
    } else {
      ClosedFormCounts(n - 1);
      NextDayIsNextDate(n - 1);
    }
  }

  // ---- The inverse ---------------------------------------------------------------

  function MonthIndexOf(m: nat): nat
    requires 1 <= m <= 12
  {
    if m > 2 then m - 3 else m + 9
  }

  /** The day count of a date. */
  function DaysFromCivil(d: Date): int
    requires IsDate(d)
  {
    var y := if d.month <= 2 then d.year - 1 else d.year;
    LeapDayFits(d);
    (y / 400) * DAYS_PER_ERA + DaysBefore(y % 400) + DaysBeforeMonth(MonthIndexOf(d.month)) + (d.day - 1) - EPOCH_SHIFT
  }

  /** The position that a date stands for. */
  lemma LeapDayFits(d: Date)
    requires IsDate(d)
    ensures var y := if d.month <= 2 then d.year - 1 else d.year;
            var mp := MonthIndexOf(d.month);
            var doy := DaysBeforeMonth(mp) + (d.day - 1);
            && mp <= 11 && MonthNumber(mp) == d.month
            && InYear(y % 400, doy)
            && (mp < 11 ==> doy < DaysBeforeMonth(mp + 1))
            && YearAt(y / 400, y % 400, mp) == d.year
  {
    hide IsLeapYear;
    hide EndsWithLeapDay;
    hide DaysInMonth;
    hide DaysBeforeMonth;
    var y := if d.month <= 2 then d.year - 1 else d.year;
    var mp := MonthIndexOf(d.month);
    MonthTable(mp);
    MonthTable(11);
    MonthLength(y / 400, y % 400, mp);
    if mp < 11 {
      MonthsIncrease(mp + 1, 11);
    }
  }

  lemma MonthsIncrease(a: nat, b: nat)
    requires a <= b <= 11
    ensures DaysBeforeMonth(a) <= DaysBeforeMonth(b)
  {
  }

  /** Counting back and forth: every date has one day count, and every day one date. */
  lemma DateRoundTrip(d: Date)
    requires IsDate(d)
    ensures CivilFromDays(DaysFromCivil(d)) == d
  {
    hide IsLeapYear;
    hide EndsWithLeapDay;
    hide DaysInMonth;
    hide DaysBeforeMonth;
    hide DaysBefore;
    hide CivilFromDays;
    hide DateAt;
    var y := if d.month <= 2 then d.year - 1 else d.year;
    var doy := DaysBeforeMonth(MonthIndexOf(d.month)) + (d.day - 1);
    LeapDayFits(d);
    CivilAtPosition(DaysFromCivil(d), y / 400, y % 400, doy);
    DateInMonth(y / 400, y % 400, doy, MonthIndexOf(d.month));
  }

  lemma DayRoundTrip(days: int)
    ensures IsDate(CivilFromDays(days))
    ensures DaysFromCivil(CivilFromDays(days)) == days
  {
    hide IsLeapYear;
    hide EndsWithLeapDay;
    hide DaysInMonth;
    hide DaysBeforeMonth;
    hide DaysBefore;
    hide CivilFromDays;
    hide DateAt;
    hide MonthIndex;
    var era, yoe, doy := PositionOf(days);
    NextDayIsNextDate(days);
    MonthIndexIsRight(doy);
    DateInMonth(era, yoe, doy, MonthIndex(doy));
    EraOfYear(era, yoe);
    MonthNumbersMatch(MonthIndex(doy));
  }

  lemma EraOfYear(era: int, yoe: nat)
    requires yoe <= 399
    ensures (yoe + era * 400) / 400 == era && (yoe + era * 400) % 400 == yoe
  {
    Remainder400(yoe + era * 400, era, yoe);
  }

  lemma MonthNumbersMatch(mp: nat)
    requires mp <= 11
    ensures 1 <= MonthNumber(mp) <= 12 && MonthIndexOf(MonthNumber(mp)) == mp
    ensures MonthNumber(mp) <= 2 <==> mp >= 10
  {
  }

  // ---- Order ---------------------------------------------------------------------

  predicate Before(a: Date, b: Date) {
    a.year < b.year || (a.year == b.year && (a.month < b.month || (a.month == b.month && a.day < b.day)))
  }

  /** Later days have later dates. */
  lemma {:induction false} DatesIncrease(m: int, n: int)
    requires m < n
    ensures Before(CivilFromDays(m), CivilFromDays(n))
    decreases n - m
  {
    hide CivilFromDays;
    NextDayIsNextDate(n - 1);
    if m == n - 1 {
    } else {
      DatesIncrease(m, n - 1);
    }
  }
}
