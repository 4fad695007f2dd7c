/**
 Day numbers to calendar dates, as the stats labels need them.  The reference is
 the proleptic Gregorian calendar itself: the leap rule of appendix C and the
 month lengths of section 5.7 of RFC 3339.
 */
module Calendar {

  datatype Date = Date(year: int, month: int, day: int)

  predicate Leap(y: int) { y % 4 == 0 && (y % 100 != 0 || y % 400 == 0) }

  function DaysInMonth(y: int, m: int): (n: nat)
    requires 1 <= m <= 12
  {
    if m == 2 then (if Leap(y) then 29 else 28)
    else if m in {4, 6, 9, 11} then 30
    else 31
  }

  predicate Valid(d: Date) { 1 <= d.month <= 12 && 1 <= d.day <= DaysInMonth(d.year, d.month) }

  /** The calendar successor of a date. */
  function NextDay(d: Date): Date
    requires Valid(d)
  {
    if d.day < DaysInMonth(d.year, d.month) then Date(d.year, d.month, d.day + 1)
    else if d.month < 12 then Date(d.year, d.month + 1, 1)
    else Date(d.year + 1, 1, 1)
  }

  /** Rust's `/` on signed integers rounds toward zero. */
  function TruncDiv(a: int, b: int): int
    requires b > 0
  {
    if a >= 0 then a / b else -(-a / b)
  }

  function Era(z: int): int {
    TruncDiv(if z >= 0 then z else z - 146096, 146097)
  }

  /** `civil_from_days`: days since 1970-01-01 to a date. */
  function CivilFromDays(days: int): Date {
    var z := days + 719468;
    CivilOfEra(z - Era(z) * 146097, Era(z))
  }

  /** Day `doe` of a 400-year era. */
  function CivilOfEra(doe: int, era: int): Date {
    var yoe := YearOfEra(doe);
    var y := yoe + era * 400;
    var doy := doe - (365 * yoe + yoe / 4 - yoe / 100);
    MarchDate(y, doy)
  }

  /** Day `doy` of the year `y` that starts on March 1st. */
  function MarchDate(y: int, doy: int): Date {
    var mp := (5 * doy + 2) / 153;
    var d := doy - (153 * mp + 2) / 5 + 1;
    var m := if mp < 10 then mp + 3 else mp - 9;
    Date(if m <= 2 then y + 1 else y, m, d)
  }

  function YearOfEra(doe: int): int {
    (doe - doe / 1460 + doe / 36524 - doe / 146096) / 365
  }

  /** Days from 0001-01-01 to January 1st of year `y`. */
  function DaysBeforeYear(y: int): int {
    365 * (y - 1) + (y - 1) / 4 - (y - 1) / 100 + (y - 1) / 400
  }

  function DaysBeforeMonth(y: int, m: int): nat
    requires 1 <= m <= 12
  {
    if m == 1 then 0 else DaysBeforeMonth(y, m - 1) + DaysInMonth(y, m - 1)
  }

  /** The inverse day count: days since 1970-01-01, counted year by year and month by month. */
  function DayNumber(d: Date): int
    requires 1 <= d.month <= 12
  {
    DaysBeforeYear(d.year) + DaysBeforeMonth(d.year, d.month) + d.day - 1 - 719162
  }

  lemma Quotients(y: int)
    ensures y / 4 == (y - 1) / 4 + (if y % 4 == 0 then 1 else 0)
    ensures y / 100 == (y - 1) / 100 + (if y % 100 == 0 then 1 else 0)
    ensures y / 400 == (y - 1) / 400 + (if y % 400 == 0 then 1 else 0)
  {
  }

  lemma YearLength(y: int)
    ensures DaysBeforeYear(y + 1) == DaysBeforeYear(y) + (if Leap(y) then 366 else 365)
  {
    Quotients(y);
  }

  lemma MonthTable(y: int)
    ensures var k := if Leap(y) then 1 else 0;
            DaysBeforeMonth(y, 2) == 31 && DaysBeforeMonth(y, 3) == 59 + k &&
            DaysBeforeMonth(y, 4) == 90 + k && DaysBeforeMonth(y, 5) == 120 + k &&
            DaysBeforeMonth(y, 6) == 151 + k && DaysBeforeMonth(y, 7) == 181 + k &&
            DaysBeforeMonth(y, 8) == 212 + k && DaysBeforeMonth(y, 9) == 243 + k &&
            DaysBeforeMonth(y, 10) == 273 + k && DaysBeforeMonth(y, 11) == 304 + k &&
            DaysBeforeMonth(y, 12) == 334 + k
  {
  }

  /** The day count grows by one from every date to its calendar successor. */
  lemma NextDayNumber(d: Date)
    requires Valid(d)
    ensures Valid(NextDay(d)) && DayNumber(NextDay(d)) == DayNumber(d) + 1
  {
    if d.day == DaysInMonth(d.year, d.month) && d.month == 12 {
      YearLength(d.year);
      DecemberEndsYear(d.year);
    }
  }

  lemma DecemberEndsYear(y: int)
    ensures DaysBeforeMonth(y, 12) + 31 == if Leap(y) then 366 else 365
  {
    MonthTable(y);
  }

  lemma {:induction false} MonthOrder(y: int, m: int, n: int)
    requires 1 <= m < n <= 12
    ensures DaysBeforeMonth(y, m) + DaysInMonth(y, m) <= DaysBeforeMonth(y, n)
  {
    if m + 1 < n {
      MonthOrder(y, m, n - 1);
    }
  }

  lemma DayOfYearRange(d: Date)
    requires Valid(d)
    ensures DaysBeforeYear(d.year) - 719162 <= DayNumber(d) < DaysBeforeYear(d.year + 1) - 719162
  {
    YearLength(d.year);
    MonthTable(d.year);
    if d.month < 12 {
      MonthOrder(d.year, d.month, 12);
    }
  }

  lemma {:induction false} YearOrder(y: int, z: int)
    requires y < z
    ensures DaysBeforeYear(y + 1) <= DaysBeforeYear(z)
    decreases z - y
  {
  }

  /** Different valid dates have different day numbers. */
  lemma DayNumberInjective(a: Date, b: Date)
    requires Valid(a) && Valid(b) && DayNumber(a) == DayNumber(b)
    ensures a == b
  {
    DayOfYearRange(a);
    DayOfYearRange(b);
    if a.year < b.year { YearOrder(a.year, b.year); }
    if b.year < a.year { YearOrder(b.year, a.year); }
    if a.month < b.month { MonthOrder(b.year, a.month, b.month); }
    if b.month < a.month { MonthOrder(a.year, b.month, a.month); }
  }

  /** Days before March 1st of year `y` in the calendar that starts its years in March. */
  function MarchDays(y: int): int { 365 * y + y / 4 - y / 100 + y / 400 }

  /** Inside century `c` of an era, where leap years come every four years. */
  lemma YearOfCentury(c: int, doe: int)
    requires 0 <= c <= 3 && 0 <= doe - 36524 * c < 36524
    ensures var k := YearOfEra(doe) - 100 * c; var r := doe - 36524 * c;
            0 <= k <= 99 && 365 * k + k / 4 <= r < 365 * (k + 1) + (k + 1) / 4
  {
    var r := doe - 36524 * c;
    var j := (r + 24 * c) / 1460;
    assert doe == r + 24 * c + 1460 * (25 * c);
    assert doe / 1460 == j + 25 * c;
    assert doe / 36524 == c && doe / 146096 == 0;
    var k := (r - j) / 365;
    assert YearOfEra(doe) == k + 100 * c by {
      assert doe - doe / 1460 + doe / 36524 - doe / 146096 == r - j + 365 * (100 * c);
    }
    if r < 1461 * j {
      assert k == 4 * j - 1;
    } else {
      assert k == 4 * j + (r - 1461 * j) / 365;
    }
  }

  /** The quotient with its three corrections is the year whose March-based span holds `doe`. */
  lemma YearOfEraIsExact(doe: int)
    requires 0 <= doe < 146097
    ensures 0 <= YearOfEra(doe) <= 399
    ensures MarchDays(YearOfEra(doe)) <= doe < MarchDays(YearOfEra(doe) + 1)
  {
    var c := doe / 36524;
    if c < 4 {
      YearOfCentury(c, doe);
      CenturySpan(c, YearOfEra(doe) - 100 * c);
    }
  }

  lemma CenturyStart(c: int, k: int)
    requires 0 <= c <= 3 && 0 <= k <= 99
    ensures MarchDays(100 * c + k) == 36524 * c + 365 * k + k / 4
  {
    assert (100 * c + k) / 4 == 25 * c + k / 4;
    assert (100 * c + k) / 100 == c;
    assert (100 * c + k) / 400 == 0;
  }

  lemma CenturySpan(c: int, k: int)
    requires 0 <= c <= 3 && 0 <= k <= 99
    ensures MarchDays(100 * c + k) == 36524 * c + 365 * k + k / 4
    ensures MarchDays(100 * c + k + 1) >= if k < 99 then 36524 * c + 365 * (k + 1) + (k + 1) / 4 else 36524 * (c + 1)
  {
    CenturyStart(c, k);
    if k < 99 {
      CenturyStart(c, k + 1);
    } else if c < 3 {
      CenturyStart(c + 1, 0);
    }
  }

  lemma EraShift(yoe: int, era: int)
    ensures MarchDays(yoe + era * 400) == MarchDays(yoe) + era * 146097
  {
    assert (yoe + era * 400) / 4 == yoe / 4 + era * 100;
    assert (yoe + era * 400) / 100 == yoe / 100 + era * 4;
    assert (yoe + era * 400) / 400 == yoe / 400 + era;
  }

  /** January 1st and March 1st of the same year, in the two ways of counting. */
  lemma MarchFromJanuary(y: int)
    ensures DaysBeforeYear(y) + 59 + (if Leap(y) then 1 else 0) - 719162 == MarchDays(y) - 719468
  {
    Quotients(y);
  }

  /** The month formula counts the days of the months from March on. */
  lemma MonthOffset(y: int, mp: int)
    requires 0 <= mp <= 11
    ensures var k := if Leap(y) then 1 else 0;
            (153 * mp + 2) / 5 ==
            if mp < 10 then DaysBeforeMonth(y, mp + 3) - 59 - k else 306 + DaysBeforeMonth(y + 1, mp - 9)
    ensures (153 * (mp + 1) + 2) / 5 - (153 * mp + 2) / 5 >=
            if mp == 11 then 30 else if mp < 10 then DaysInMonth(y, mp + 3) else DaysInMonth(y + 1, mp - 9)
    ensures mp < 11 ==>
              (153 * (mp + 1) + 2) / 5 - (153 * mp + 2) / 5 ==
              if mp < 10 then DaysInMonth(y, mp + 3) else DaysInMonth(y + 1, mp - 9)
  {
    MonthTable(y);
    MonthTable(y + 1);
  }

  lemma MarchYearLength(y: int)
    ensures MarchDays(y + 1) - MarchDays(y) == if Leap(y + 1) then 366 else 365
    ensures DaysBeforeYear(y) + 59 + (if Leap(y) then 1 else 0) - 719162 == MarchDays(y) - 719468
    ensures DaysBeforeYear(y + 1) - 719162 == MarchDays(y) - 719468 + 306
  {
    MarchFromJanuary(y);
    MarchFromJanuary(y + 1);
    YearLength(y);
  }

  lemma MarchDateIsExact(y: int, doy: int)
    requires 0 <= doy < MarchDays(y + 1) - MarchDays(y)
    ensures Valid(MarchDate(y, doy))
    ensures DayNumber(MarchDate(y, doy)) == MarchDays(y) - 719468 + doy
  {
    MarchYearLength(y);
    MonthOffset(y, (5 * doy + 2) / 153);
  }

  /** The correction for negative numbers turns the truncating division into a floor. */
  lemma EraIsFloor(z: int)
    ensures 0 <= z - Era(z) * 146097 < 146097
  {
  }

  /** Day `doe` of an era is day `doy` of a year that starts in March. */
  lemma DayOfEra(doe: int, era: int) returns (y: int, doy: int)
    requires 0 <= doe < 146097
    ensures CivilOfEra(doe, era) == MarchDate(y, doy)
    ensures MarchDays(y) + doy == doe + era * 146097 && 0 <= doy < MarchDays(y + 1) - MarchDays(y)
  {
    YearOfEraIsExact(doe);
    var yoe := YearOfEra(doe);
    EraShift(yoe, era);
    EraShift(yoe + 1, era);
    y, doy := yoe + era * 400, doe - (365 * yoe + yoe / 4 - yoe / 100);
    assert yoe / 400 == 0;
  }

  lemma MarchDateOf(z: int) returns (y: int, doy: int)
    ensures CivilFromDays(z) == MarchDate(y, doy)
    ensures MarchDays(y) + doy == z + 719468 && 0 <= doy < MarchDays(y + 1) - MarchDays(y)
  {
    var z' := z + 719468;
    EraIsFloor(z');
    y, doy := DayOfEra(z' - Era(z') * 146097, Era(z'));
  }

  /** The date is valid, and the inverse day count leads back to the day number. */
  lemma CivilRoundTrip(z: int)
    ensures Valid(CivilFromDays(z))
    ensures DayNumber(CivilFromDays(z)) == z
  {
    var y, doy := MarchDateOf(z);
    MarchDateIsExact(y, doy);
  }

  /** Every valid date is the date of exactly one day, the one the inverse day count gives. */
  lemma CivilIsBijective(d: Date, z: int)
    requires Valid(d)
    ensures CivilFromDays(z) == d <==> DayNumber(d) == z
  {
    CivilRoundTrip(z);
    if DayNumber(d) == z {
      DayNumberInjective(CivilFromDays(z), d);
    }
  }

  lemma EpochIsDayZero()
    ensures CivilFromDays(0) == Date(1970, 1, 1)
  {
    MonthTable(1970);
    CivilIsBijective(Date(1970, 1, 1), 0);
  }

  /** Each day is followed by its calendar successor. */
  lemma CivilFollowsCalendar(z: int)
    ensures Valid(CivilFromDays(z)) && CivilFromDays(z + 1) == NextDay(CivilFromDays(z))
  {
    CivilRoundTrip(z);
    var next := NextDay(CivilFromDays(z));
    NextDayNumber(CivilFromDays(z));
    CivilIsBijective(next, z + 1);
  }

  // ----- Axis labels of the throughput series.

  function TwoDigits(n: int): string
    requires 0 <= n < 100
  {
    ["0123456789"[n / 10], "0123456789"[n % 10]]
  }

  /** `MM-DD` in UTC. */
  function UtcMmDd(ms: int): string {
    var days := ms / 86_400_000;
    CivilRoundTrip(days);
    var date := CivilFromDays(days);
    TwoDigits(date.month) + "-" + TwoDigits(date.day)
  }

  lemma NextMidnight(ms: int)
    ensures (ms + 86_400_000) / 86_400_000 == ms / 86_400_000 + 1
  {
  }

  /** One day later the `MM-DD` label is the one of the calendar successor. */
  lemma DayLabelAdvances(ms: int)
    ensures var date := CivilFromDays(ms / 86_400_000);
            Valid(date) &&
            UtcMmDd(ms + 86_400_000) == TwoDigits(NextDay(date).month) + "-" + TwoDigits(NextDay(date).day)
  {
    NextMidnight(ms);
    CivilFollowsCalendar(ms / 86_400_000);
  }
}
