/** Conversion of Unix seconds to the fields of an IPP `dateTime` (src/attributes.rs),
    against a Gregorian calendar that only knows how to step one day. */
module Calendar {

  datatype Date = Date(year: int, month: int, day: int)

  predicate Leap(y: int) {
    y % 4 == 0 && (y % 100 != 0 || y % 400 == 0)
  }

  function DaysIn(y: int, m: int): int {
    if m == 2 then (if Leap(y) then 29 else 28)
    else if m == 4 || m == 6 || m == 9 || m == 11 then 30
    else 31
  }

  predicate Valid(d: Date) {
    1 <= d.month <= 12 && 1 <= d.day <= DaysIn(d.year, d.month)
  }

  function NextDay(d: Date): Date {
    if d.day < DaysIn(d.year, d.month) then Date(d.year, d.month, d.day + 1)
    else if d.month < 12 then Date(d.year, d.month + 1, 1)
    else Date(d.year + 1, 1, 1)
  }

  function PreviousDay(d: Date): Date {
    if 1 < d.day then Date(d.year, d.month, d.day - 1)
    else if 1 < d.month then Date(d.year, d.month - 1, DaysIn(d.year, d.month - 1))
    else Date(d.year - 1, 12, 31)
  }

  const EPOCH := Date(1970, 1, 1)

  /** The reference calendar: `n` single steps away from 1970-01-01. */
  function DateOf(n: int): Date
    decreases if n < 0 then -n else n
  {
    if n == 0 then EPOCH
    else if n > 0 then NextDay(DateOf(n - 1))
    else PreviousDay(DateOf(n + 1))
  }

  // ---- the closed form ------------------------------------------------------

  /** Rust's `/` on signed integers, which truncates towards zero. */
  function TruncDiv(a: int, b: int): int
    requires b > 0
  {
    if a >= 0 then a / b else -((-a) / b)
  }

  function YearOfEra(doe: int): int {
    (doe - doe / 1460 + doe / 36524 - doe / 146096) / 365
  }

  /** First day, counted from the start of its era, of the March-based year `yoe`. */
  function YearStart(yoe: int): int {
    365 * yoe + yoe / 4 - yoe / 100
  }

  /** A day of a year that starts on 1 March; its January and February belong to `year + 1`. */
  datatype MarchDay = MarchDay(year: int, doy: int)

  function ToMarchDay(days: int): MarchDay {
    var z := days + 719468;
    var era := TruncDiv(if z >= 0 then z else z - 146096, 146097);
    var doe := z - era * 146097;
    var yoe := YearOfEra(doe);
    MarchDay(yoe + era * 400, doe - YearStart(yoe))
  }

  function FromMarchDay(d: MarchDay): Date {
    var mp := (5 * d.doy + 2) / 153;
    var day := d.doy - (153 * mp + 2) / 5 + 1;
    var month := if mp < 10 then mp + 3 else mp - 9;
    Date(if month <= 2 then d.year + 1 else d.year, month, day)
  }

  function CivilFromDays(days: int): Date {
    FromMarchDay(ToMarchDay(days))
  }

  datatype DateTime = DateTime(year: int, month: int, day: int, hour: int, minutes: int, seconds: int)

  /** `div_euclid`/`rem_euclid` are Dafny's own operators; `as u16` keeps the low 16 bits. */
  function DateTimeUtc(unixSecs: int): DateTime {
    var date := CivilFromDays(unixSecs / 86400);
    var rem := unixSecs % 86400;
    DateTime(date.year % 0x1_0000, date.month, date.day, rem / 3600, rem % 3600 / 60, rem % 60)
  }

  // ---- the closed form steps like the calendar ---------------------------------

  lemma EraIsFloor(z: int)
    ensures TruncDiv(if z >= 0 then z else z - 146096, 146097) == z / 146097
  {
  }

  /** Length of the March-based year: its 29 February, if any, is its last day. */
  function YearLength(year: int): int {
    if Leap(year + 1) then 366 else 365
  }

  /** Splits a day of the era into centuries, four-year cycles, years and days. */
  lemma YearOfEraSplit(doe: int) returns (c: int, b: int, a: int, d: int)
    requires 0 <= doe < 146097
    ensures Split(doe, c, b, a, d)
  {
    c := if doe == 146096 then 3 else doe / 36524;
    var r := doe - 36524 * c;
    b := r / 1461;
    var t := r - 1461 * b;
    a := if t == 1460 then 3 else t / 365;
    d := t - 365 * a;
  }

  predicate Split(doe: int, c: int, b: int, a: int, d: int) {
    && 0 <= c <= 3 && 0 <= b <= 24 && 0 <= a <= 3 && 0 <= d <= 365
    && (d == 365 ==> a == 3 && (b < 24 || c == 3))
    && doe == 36524 * c + 1461 * b + 365 * a + d
  }

  lemma SplitQuotients(doe: int, c: int, b: int, a: int, d: int)
    requires 0 <= doe < 146097 && Split(doe, c, b, a, d)
    ensures doe / 36524 - doe / 146096 == c
    ensures doe / 1460 == 25 * c + b + (24 * c + b + 365 * a + d) / 1460
    ensures 0 <= d - (24 * c + b + 365 * a + d) / 1460 <= 364
  {
    assert doe == 1460 * (25 * c + b) + (24 * c + b + 365 * a + d);
  }

  lemma SplitYear(c: int, b: int, a: int)
    requires 0 <= c <= 3 && 0 <= b <= 24 && 0 <= a <= 3
    ensures var y := 100 * c + 4 * b + a;
            && YearStart(y) == 36524 * c + 1461 * b + 365 * a
            && (a == 3 && (b < 24 || c == 3) ==> Leap(y + 1))
  {
    var y := 100 * c + 4 * b + a;
    assert y / 4 == 25 * c + b;
    assert y / 100 == c;
    if a == 3 {
      assert y + 1 == 4 * (25 * c + b + 1);
      if b < 24 {
        assert (y + 1) % 100 == 4 * b + 4;
      }
    }
  }

  /** The closed form for the year of the era picks the year whose span holds the day. */
  lemma YearOfEraBracket(doe: int)
    requires 0 <= doe < 146097
    ensures 0 <= YearOfEra(doe) < 400
    ensures 0 <= doe - YearStart(YearOfEra(doe)) < YearLength(YearOfEra(doe))
  {
    var c, b, a, d := YearOfEraSplit(doe);
    var y := 100 * c + 4 * b + a;
    SplitQuotients(doe, c, b, a, d);
    SplitYear(c, b, a);
    assert YearOfEra(doe) == y by {
      var e := (24 * c + b + 365 * a + d) / 1460;
      assert doe - doe / 1460 + doe / 36524 - doe / 146096 == 365 * y + (d - e);
    }
  }

  /** One more day of the era is the next day of the same March-based year, or the first of the next. */
  lemma YearOfEraStep(doe: int)
    requires 0 <= doe < 146096
    ensures var y := YearOfEra(doe); var doy := doe - YearStart(y);
            if doy + 1 < YearLength(y)
            then YearOfEra(doe + 1) == y
            else YearOfEra(doe + 1) == y + 1 && doe + 1 == YearStart(y + 1)
  {
    YearOfEraBracket(doe);
    YearOfEraBracket(doe + 1);
    var y, y' := YearOfEra(doe), YearOfEra(doe + 1);
    YearSpan(y);
    YearSpan(y');
    if y' < y { YearStartMonotone(y' + 1, y); }
    if y + 1 < y' { YearStartMonotone(y + 2, y'); YearSpan(y + 1); }
  }

  lemma YearSpan(y: int)
    requires 0 <= y < 400
    ensures y < 399 ==> YearStart(y + 1) == YearStart(y) + YearLength(y)
    ensures y == 399 ==> YearStart(y) + YearLength(y) == 146097
  {
  }

  lemma YearStartMonotone(y: int, y': int)
    requires 0 <= y <= y'
    ensures YearStart(y) <= YearStart(y')
  {
  }

  function NextMarchDay(d: MarchDay): MarchDay {
    if d.doy + 1 < YearLength(d.year) then MarchDay(d.year, d.doy + 1) else MarchDay(d.year + 1, 0)
  }

  /** Month and day of a day of the March-based year: month `mp` (March is 0) starts on day `start`. */
  lemma MarchMonth(d: MarchDay) returns (mp: int, start: int)
    requires 0 <= d.doy < YearLength(d.year)
    ensures 0 <= mp <= 11 && start == (153 * mp + 2) / 5
    ensures start <= d.doy && (mp < 11 ==> d.doy < (153 * (mp + 1) + 2) / 5)
    ensures FromMarchDay(d) == Date(if mp < 10 then d.year else d.year + 1,
                                    if mp < 10 then mp + 3 else mp - 9,
                                    d.doy - start + 1)
  {
    mp := (5 * d.doy + 2) / 153;
    start := (153 * mp + 2) / 5;
  }

  lemma MarchMonthLength(year: int, mp: int)
    requires 0 <= mp <= 11
    ensures var next := if mp < 11 then (153 * (mp + 1) + 2) / 5 else YearLength(year);
            next - (153 * mp + 2) / 5
            == DaysIn(if mp < 10 then year else year + 1, if mp < 10 then mp + 3 else mp - 9)
  {
  }

  lemma FromMarchDayStep(d: MarchDay)
    requires 0 <= d.doy < YearLength(d.year)
    ensures Valid(FromMarchDay(d))
    ensures NextDay(FromMarchDay(d)) == FromMarchDay(NextMarchDay(d))
  {
    var mp, start := MarchMonth(d);
    MarchMonthLength(d.year, mp);
    var e := NextMarchDay(d);
    var mp', start' := MarchMonth(e);
    if d.doy + 1 < YearLength(d.year) {
      if mp < 11 && d.doy + 1 == (153 * (mp + 1) + 2) / 5 {
        assert mp' == mp + 1;
      } else {
        assert mp' == mp;
      }
    } else {
      assert mp == 11;
      assert mp' == 0;
    }
  }

  /** The closed form, with the era taken by the floor division it amounts to. */
  lemma MarchDayByEra(days: int) returns (era: int, doe: int)
    ensures 0 <= doe < 146097 && days + 719468 == 146097 * era + doe
    ensures ToMarchDay(days) == InEra(era, doe)
  {
    EraIsFloor(days + 719468);
    era, doe := (days + 719468) / 146097, (days + 719468) % 146097;
  }

  lemma ShiftBy4(x: int, k: int)
    ensures (x + 4 * k) % 4 == x % 4
  {
    assert x + 4 * k == 4 * (x / 4 + k) + x % 4;
  }

  lemma ShiftBy100(x: int, k: int)
    ensures (x + 100 * k) % 100 == x % 100
  {
    assert x + 100 * k == 100 * (x / 100 + k) + x % 100;
  }

  lemma ShiftBy400(x: int, k: int)
    ensures (x + 400 * k) % 400 == x % 400
  {
    assert x + 400 * k == 400 * (x / 400 + k) + x % 400;
  }

  /** The calendar repeats every era. */
  lemma LeapByEra(y: int, era: int)
    ensures YearLength(y + era * 400) == YearLength(y)
  {
    ShiftBy4(y + 1, 100 * era);
    ShiftBy100(y + 1, 4 * era);
    ShiftBy400(y + 1, era);
  }

  function InEra(era: int, doe: int): MarchDay {
    MarchDay(YearOfEra(doe) + era * 400, doe - YearStart(YearOfEra(doe)))
  }

  lemma EraDayBounds(era: int, doe: int)
    requires 0 <= doe < 146097
    ensures 0 <= InEra(era, doe).doy < YearLength(InEra(era, doe).year)
  {
    YearOfEraBracket(doe);
    LeapByEra(YearOfEra(doe), era);
  }

  lemma EraDayStep(era: int, doe: int)
    requires 0 <= doe < 146096
    ensures InEra(era, doe + 1) == NextMarchDay(InEra(era, doe))
  {
    YearOfEraStep(doe);
    LeapByEra(YearOfEra(doe), era);
  }

  lemma EraFirstDay(era: int)
    ensures InEra(era, 0) == MarchDay(era * 400, 0)
  {
    assert YearOfEra(0) == 0;
  }

  lemma EraLastDay(era: int)
    ensures InEra(era, 146096) == MarchDay(399 + era * 400, 365)
  {
    assert 146096 / 1460 == 100 && 146096 / 36524 == 4 && 146096 / 146096 == 1;
    assert YearOfEra(146096) == 399;
    assert YearStart(399) == 145731;
  }

  lemma EraTurns(era: int)
    ensures InEra(era + 1, 0) == NextMarchDay(InEra(era, 146096))
  {
    EraFirstDay(era + 1);
    EraLastDay(era);
    EraTurn(era, InEra(era, 146096), InEra(era + 1, 0));
  }

  lemma EraTurn(era: int, d: MarchDay, e: MarchDay)
    requires d == MarchDay(399 + era * 400, 365) && e == MarchDay((era + 1) * 400, 0)
    ensures e == NextMarchDay(d)
  {
    LeapByEra(399, era);
  }

  lemma MarchDayStep(days: int)
    ensures 0 <= ToMarchDay(days).doy < YearLength(ToMarchDay(days).year)
    ensures ToMarchDay(days + 1) == NextMarchDay(ToMarchDay(days))
  {
    var era, doe := MarchDayByEra(days);
    var era', doe' := MarchDayByEra(days + 1);
    EraDayBounds(era, doe);
    if doe < 146096 {
      assert era' == era && doe' == doe + 1;
      EraDayStep(era, doe);
    } else {
      assert era' == era + 1 && doe' == 0;
      EraTurns(era);
    }
  }

  lemma CivilStep(days: int)
    ensures Valid(CivilFromDays(days))
    ensures CivilFromDays(days + 1) == NextDay(CivilFromDays(days))
  {
    MarchDayStep(days);
    FromMarchDayStep(ToMarchDay(days));
  }

  lemma PreviousUndoesNext(d: Date)
    requires Valid(d)
    ensures PreviousDay(NextDay(d)) == d
  {
  }

  lemma CivilOfEpoch()
    ensures CivilFromDays(0) == EPOCH
  {
  }

  /** Anything that starts at the epoch and steps like `NextDay` is the calendar. */
  lemma {:induction false} StepsAreCalendar(f: int -> Date, n: int)
    requires f(0) == EPOCH
    requires forall k: int :: Valid(f(k)) && f(k + 1) == NextDay(f(k))
    ensures f(n) == DateOf(n)
    decreases if n < 0 then -n else n
  {
    if n > 0 {
      StepsAreCalendar(f, n - 1);
      assert f(n - 1 + 1) == NextDay(f(n - 1));
    } else if n < 0 {
      StepsAreCalendar(f, n + 1);
      assert f(n + 1) == NextDay(f(n));
      PreviousUndoesNext(f(n));
    }
  }

  /** The closed form is the calendar: it gives the date reached by stepping from the epoch. */
  lemma CivilIsCalendar(days: int)
    ensures CivilFromDays(days) == DateOf(days) && Valid(DateOf(days))
  {
    CivilOfEpoch();
    forall k: int ensures Valid(CivilFromDays(k)) && CivilFromDays(k + 1) == NextDay(CivilFromDays(k)) {
      CivilStep(k);
    }
    StepsAreCalendar(CivilFromDays, days);
  }

  // ---- day numbers: the inverse ------------------------------------------------------

  /** Days from 1 January 1970 to 1 January of year `y`. */
  function DaysToYear(y: int): int {
    365 * (y - 1970) + (y - 1) / 4 - (y - 1) / 100 + (y - 1) / 400 - 477
  }

  function DaysToMonth(y: int, m: int): int
    requires 1 <= m <= 12
  {
    if m == 1 then 0 else DaysToMonth(y, m - 1) + DaysIn(y, m - 1)
  }

  function DayNumber(d: Date): int
    requires Valid(d)
  {
    DaysToYear(d.year) + DaysToMonth(d.year, d.month) + d.day - 1
  }

  lemma MonthsOfYear(y: int)
    ensures DaysToMonth(y, 12) == 306 + DaysIn(y, 2)
  {
    var feb := DaysIn(y, 2);
    assert DaysToMonth(y, 2) == 31;
    assert DaysToMonth(y, 4) == 62 + feb by { assert DaysToMonth(y, 3) == 31 + feb; }
    assert DaysToMonth(y, 6) == 123 + feb by { assert DaysToMonth(y, 5) == 92 + feb; }
    assert DaysToMonth(y, 8) == 184 + feb by { assert DaysToMonth(y, 7) == 153 + feb; }
    assert DaysToMonth(y, 10) == 245 + feb by { assert DaysToMonth(y, 9) == 215 + feb; }
    assert DaysToMonth(y, 12) == 306 + feb by { assert DaysToMonth(y, 11) == 276 + feb; }
  }

  lemma YearHasItsDays(y: int)
    ensures DaysToMonth(y, 12) + 31 == if Leap(y) then 366 else 365
    ensures DaysToYear(y + 1) == DaysToYear(y) + DaysToMonth(y, 12) + 31
  {
    MonthsOfYear(y);
    QuotientStep(y, 4);
    QuotientStep(y, 100);
    QuotientStep(y, 400);
    LeapCount(y);
  }

  lemma LeapCount(y: int)
    ensures (if Leap(y) then 1 else 0)
         == (if y % 4 == 0 then 1 else 0) - (if y % 100 == 0 then 1 else 0) + (if y % 400 == 0 then 1 else 0)
  {
    if y % 100 == 0 { assert y == 4 * (25 * (y / 100)); }
    if y % 400 == 0 { assert y == 100 * (4 * (y / 400)); }
  }

  lemma QuotientStep(y: int, m: int)
    requires m == 4 || m == 100 || m == 400
    ensures y / m == (y - 1) / m + if y % m == 0 then 1 else 0
  {
  }

  lemma DayNumberStep(d: Date)
    requires Valid(d)
    ensures Valid(NextDay(d)) && DayNumber(NextDay(d)) == DayNumber(d) + 1
  {
    YearHasItsDays(d.year);
  }

  /** Counting the days of a date undoes stepping to it. */
  lemma {:induction false} DayNumberOfDate(n: int)
    ensures Valid(DateOf(n)) && DayNumber(DateOf(n)) == n
    decreases if n < 0 then -n else n
  {
    CivilIsCalendar(n);
    if n > 0 {
      DayNumberOfDate(n - 1);
      DayNumberStep(DateOf(n - 1));
    } else if n < 0 {
      DayNumberOfDate(n + 1);
      CivilIsCalendar(n + 1);
      CivilStep(n);
      DayNumberStep(DateOf(n));
    }
  }

  // ---- order -----------------------------------------------------------------------

  predicate Earlier(d: Date, e: Date) {
    || d.year < e.year
    || (d.year == e.year && (d.month < e.month || (d.month == e.month && d.day < e.day)))
  }

  lemma {:induction false} YearsGrow(y: int, y': int)
    requires y <= y'
    ensures DaysToYear(y) + 365 * (y' - y) <= DaysToYear(y')
    decreases y' - y
  {
    if y < y' {
      YearsGrow(y + 1, y');
      YearHasItsDays(y);
    }
  }

  lemma {:induction false} MonthsGrow(y: int, m: int, m': int)
    requires 1 <= m < m' <= 12
    ensures DaysToMonth(y, m) + DaysIn(y, m) <= DaysToMonth(y, m')
    decreases m' - m
  {
    if m + 1 < m' { MonthsGrow(y, m, m' - 1); }
  }

  /** A date lies inside its own year. */
  lemma DayNumberInYear(d: Date)
    requires Valid(d)
    ensures DaysToYear(d.year) <= DayNumber(d) < DaysToYear(d.year + 1)
  {
    YearHasItsDays(d.year);
    if 1 < d.month { MonthsGrow(d.year, 1, d.month); }
    if d.month < 12 { MonthsGrow(d.year, d.month, 12); }
  }

  lemma EarlierIsSmaller(d: Date, e: Date)
    requires Valid(d) && Valid(e) && Earlier(d, e)
    ensures DayNumber(d) < DayNumber(e)
  {
    if d.year < e.year {
      DayNumberInYear(d);
      DayNumberInYear(e);
      YearsGrow(d.year + 1, e.year);
    } else if d.month < e.month {
      MonthsGrow(d.year, d.month, e.month);
    }
  }

  /** Every date of the calendar, in either direction, is reached by stepping. */
  lemma EveryDateIsReached(d: Date)
    requires Valid(d)
    ensures DateOf(DayNumber(d)) == d
  {
    var e := DateOf(DayNumber(d));
    DayNumberOfDate(DayNumber(d));
    if Earlier(d, e) { EarlierIsSmaller(d, e); }
    if Earlier(e, d) { EarlierIsSmaller(e, d); }
  }

  /** 29 February is a day of exactly the leap years. */
  lemma LeapDays(y: int)
    ensures (exists days :: CivilFromDays(days) == Date(y, 2, 29)) <==> Leap(y)
  {
    var leapDay := Date(y, 2, 29);
    forall days | CivilFromDays(days) == leapDay ensures Leap(y) {
      CivilStep(days);
    }
    if Leap(y) {
      EveryDateIsReached(leapDay);
      CivilIsCalendar(DayNumber(leapDay));
    }
  }

  // ---- the dateTime value ------------------------------------------------------------

  /** First second of year `y`. */
  function YearBegins(y: int): int {
    86400 * DaysToYear(y)
  }

  /** The seconds whose year fits the 16-bit year field. */
  predicate YearFits(unixSecs: int) {
    YearBegins(0) <= unixSecs < YearBegins(0x1_0000)
  }

  function DateField(t: DateTime): Date {
    Date(t.year, t.month, t.day)
  }

  /** The fields put back together. */
  function SecondsOf(t: DateTime): int
    requires Valid(DateField(t))
  {
    86400 * DayNumber(DateField(t)) + 3600 * t.hour + 60 * t.minutes + t.seconds
  }

  lemma YearOfDay(days: int, y: int)
    ensures y <= DateOf(days).year <==> DaysToYear(y) <= days
  {
    var d := DateOf(days);
    DayNumberOfDate(days);
    DayNumberInYear(d);
    if y <= d.year { YearsGrow(y, d.year); } else { YearsGrow(d.year + 1, y); }
  }

  /** The 16-bit year is the calendar year exactly for the seconds in `YearFits`, and its low 16 bits for
      all. */
  lemma YearFieldExact(unixSecs: int)
    ensures DateTimeUtc(unixSecs).year == DateOf(unixSecs / 86400).year <==> YearFits(unixSecs)
    ensures DateTimeUtc(unixSecs).year == DateOf(unixSecs / 86400).year % 65536
  {
    var days := unixSecs / 86400;
    CivilIsCalendar(days);
    YearOfDay(days, 0);
    YearOfDay(days, 0x1_0000);
    DayBegins(unixSecs, DaysToYear(0));
    DayBegins(unixSecs, DaysToYear(0x1_0000));
    LowBits(DateOf(days).year);
  }

  lemma DayBegins(unixSecs: int, day: int)
    ensures 86400 * day <= unixSecs <==> day <= unixSecs / 86400
  {
  }

  lemma LowBits(y: int)
    ensures y % 0x1_0000 == y <==> 0 <= y < 0x1_0000
  {
  }

  /** `datetime_utc` is the calendar date and the time of day, and loses nothing. */
  lemma DateTimeIsCalendar(unixSecs: int)
    requires YearFits(unixSecs)
    ensures var t := DateTimeUtc(unixSecs);
            && DateField(t) == DateOf(unixSecs / 86400)
            && Valid(DateField(t))
            && 0 <= t.hour < 24 && 0 <= t.minutes < 60 && 0 <= t.seconds < 60
            && SecondsOf(t) == unixSecs
  {
    var days, rem := unixSecs / 86400, unixSecs % 86400;
    CivilIsCalendar(days);
    YearFieldExact(unixSecs);
    DayNumberOfDate(days);
    TimeOfDay(rem);
  }

  lemma TimeOfDay(rem: int)
    requires 0 <= rem < 86400
    ensures 0 <= rem / 3600 < 24 && 0 <= rem % 3600 / 60 < 60
    ensures 3600 * (rem / 3600) + 60 * (rem % 3600 / 60) + rem % 60 == rem
  {
    var h, r := rem / 3600, rem % 3600;
    assert rem == 60 * (60 * h) + r;
    assert rem % 60 == r % 60;
  }

  predicate Before(t: DateTime, u: DateTime) {
    || Earlier(DateField(t), DateField(u))
    || (DateField(t) == DateField(u)
        && 3600 * t.hour + 60 * t.minutes + t.seconds < 3600 * u.hour + 60 * u.minutes + u.seconds)
  }

  /** Later seconds give later dates and times. */
  lemma DateTimeMonotone(a: int, b: int)
    requires YearFits(a) && YearFits(b)
    ensures a < b <==> Before(DateTimeUtc(a), DateTimeUtc(b))
  {
    DateTimeIsCalendar(a);
    DateTimeIsCalendar(b);
    DateTimeOrder(DateTimeUtc(a), DateTimeUtc(b));
  }

  lemma DateTimeOrder(t: DateTime, u: DateTime)
    requires Valid(DateField(t)) && Valid(DateField(u))
    requires 0 <= t.hour < 24 && 0 <= t.minutes < 60 && 0 <= t.seconds < 60
    requires 0 <= u.hour < 24 && 0 <= u.minutes < 60 && 0 <= u.seconds < 60
    ensures SecondsOf(t) < SecondsOf(u) <==> Before(t, u)
  {
    var d, e := DateField(t), DateField(u);
    if Earlier(d, e) { EarlierIsSmaller(d, e); }
    if Earlier(e, d) { EarlierIsSmaller(e, d); }
  }
}
