/** The closed-form conversion from Unix seconds to a UTC calendar date that the exec
    server stamps on its log records, proved equal to counting days one at a time under the
    Gregorian leap rule (RFC 3339, sections 5.6 and 5.7 and appendix C). */
module CivilDate {

  datatype Date = Date(year: int, month: int, day: int)
  datatype Civil = Civil(date: Date, hour: int, min: int, sec: int)

  // ---------------------------------------------------------------- the simple calendar

  predicate Leap(y: int) { y % 4 == 0 && (y % 100 != 0 || y % 400 == 0) }

  function MonthLength(y: int, m: int): int
    requires 1 <= m <= 12
  {
    if m == 2 then (if Leap(y) then 29 else 28)
    else if m == 4 || m == 6 || m == 9 || m == 11 then 30
    else 31
  }

  predicate Valid(d: Date) {
    1 <= d.month <= 12 && 1 <= d.day <= MonthLength(d.year, d.month)
  }

  function NextDay(d: Date): Date
    requires Valid(d)
  {
    if d.day < MonthLength(d.year, d.month) then d.(day := d.day + 1)
    else if d.month < 12 then Date(d.year, d.month + 1, 1)
    else Date(d.year + 1, 1, 1)
  }

  function PreviousDay(d: Date): Date
    requires Valid(d)
  {
    if 1 < d.day then d.(day := d.day - 1)
    else if 1 < d.month then Date(d.year, d.month - 1, MonthLength(d.year, d.month - 1))
    else Date(d.year - 1, 12, 31)
  }

  /** The date `n` days after 1970-01-01 (before it, when `n` is negative), one day at a time. */
  function CountDays(n: int): (d: Date)
    ensures Valid(d)
    decreases if n < 0 then -n else n
  {
    if n == 0 then Date(1970, 1, 1)
    else if n > 0 then NextDay(CountDays(n - 1))
    else PreviousDay(CountDays(n + 1))
  }

  // ---------------------------------------------------------------- days from a date

  function DaysBeforeMonth(y: int, m: int): int
    requires 1 <= m <= 12
  {
    if m == 1 then 0 else DaysBeforeMonth(y, m - 1) + MonthLength(y, m - 1)
  }

  /** Days from 1970-01-01 to the first of January of year `y`. */
  function DaysBeforeYear(y: int): int {
    365 * (y - 1970) + ((y - 1) / 4 - 492) - ((y - 1) / 100 - 19) + ((y - 1) / 400 - 4)
  }

  function DaysFromCivil(d: Date): int
    requires Valid(d)
  {
    DaysBeforeYear(d.year) + DaysBeforeMonth(d.year, d.month) + d.day - 1
  }

  lemma MonthTable(y: int)
    ensures var l := if Leap(y) then 1 else 0;
            && DaysBeforeMonth(y, 1) == 0 && DaysBeforeMonth(y, 2) == 31
            && DaysBeforeMonth(y, 3) == 59 + l && DaysBeforeMonth(y, 4) == 90 + l
            && DaysBeforeMonth(y, 5) == 120 + l && DaysBeforeMonth(y, 6) == 151 + l
            && DaysBeforeMonth(y, 7) == 181 + l && DaysBeforeMonth(y, 8) == 212 + l
            && DaysBeforeMonth(y, 9) == 243 + l && DaysBeforeMonth(y, 10) == 273 + l
            && DaysBeforeMonth(y, 11) == 304 + l && DaysBeforeMonth(y, 12) == 334 + l
  {
    assert DaysBeforeMonth(y, 3) == DaysBeforeMonth(y, 2) + MonthLength(y, 2);
    assert DaysBeforeMonth(y, 5) == DaysBeforeMonth(y, 4) + 30;
    assert DaysBeforeMonth(y, 7) == DaysBeforeMonth(y, 6) + 30;
    assert DaysBeforeMonth(y, 9) == DaysBeforeMonth(y, 8) + 31;
    assert DaysBeforeMonth(y, 11) == DaysBeforeMonth(y, 10) + 31;
  }

  lemma YearLength(y: int)
    ensures DaysBeforeYear(y + 1) - DaysBeforeYear(y) == if Leap(y) then 366 else 365
  {
    assert y / 4 - (y - 1) / 4 == if y % 4 == 0 then 1 else 0;
    assert y / 100 - (y - 1) / 100 == if y % 100 == 0 then 1 else 0;
    assert y / 400 - (y - 1) / 400 == if y % 400 == 0 then 1 else 0;
  }

  lemma {:induction false} YearsIncrease(a: int, b: int)
    requires a <= b
    ensures DaysBeforeYear(a) + 365 * (b - a) <= DaysBeforeYear(b)
    decreases b - a
  {
    if a < b { YearLength(b - 1); YearsIncrease(a, b - 1); }
  }

  /** Where a date falls inside its year. */
  lemma DayWithinYear(d: Date)
    requires Valid(d)
    ensures DaysBeforeYear(d.year) <= DaysFromCivil(d) < DaysBeforeYear(d.year + 1)
  {
    MonthTable(d.year);
    YearLength(d.year);
  }

  lemma NextDayIsOneMore(d: Date)
    requires Valid(d)
    ensures Valid(NextDay(d)) && DaysFromCivil(NextDay(d)) == DaysFromCivil(d) + 1
  {
    hide DaysBeforeYear, DaysBeforeMonth, Leap;
    MonthTable(d.year);
    MonthTable(d.year + 1);
    YearLength(d.year);
  }

  lemma PreviousDayIsOneLess(d: Date)
    requires Valid(d)
    ensures Valid(PreviousDay(d)) && DaysFromCivil(PreviousDay(d)) == DaysFromCivil(d) - 1
  {
    hide DaysBeforeYear, DaysBeforeMonth, Leap;
    MonthTable(d.year);
    MonthTable(d.year - 1);
    YearLength(d.year - 1);
  }

  lemma {:induction false} CountDaysInverts(n: int)
    ensures DaysFromCivil(CountDays(n)) == n
    decreases if n < 0 then -n else n
  {
    if n > 0 {
      CountDaysInverts(n - 1);
      NextDayIsOneMore(CountDays(n - 1));
    } else if n < 0 {
      CountDaysInverts(n + 1);
      PreviousDayIsOneLess(CountDays(n + 1));
    }
  }

  /** No two valid dates are the same number of days from the epoch. */
  lemma DatesAreDistinct(a: Date, b: Date)
    requires Valid(a) && Valid(b) && DaysFromCivil(a) == DaysFromCivil(b)
    ensures a == b
  {
    hide DaysBeforeYear, DaysBeforeMonth, Leap;
    DayWithinYear(a);
    DayWithinYear(b);
    if a.year < b.year { YearsIncrease(a.year + 1, b.year); }
    if b.year < a.year { YearsIncrease(b.year + 1, a.year); }
    MonthTable(a.year);
  }

  // ---------------------------------------------------------------- the closed form

  const SECONDS_PER_DAY := 86_400
  const DAYS_PER_ERA := 146_097
  const TWO31 := 0x8000_0000
  const TWO63 := 0x8000_0000_0000_0000

  /** Division of signed machine integers: towards zero. */
  function TruncDiv(a: int, b: int): int
    requires b > 0
  {
    if a >= 0 then a / b else -((-a) / b)
  }

  /** The low 32 bits of an i64, read as an i32. */
  function AsI32(v: int): int { (v + TWO31) % (2 * TWO31) - TWO31 }

  function Era(z: int): int { TruncDiv(if z >= 0 then z else z - 146_096, DAYS_PER_ERA) }

  function YearOfEra(doe: int): int { (doe - doe / 1460 + doe / 36524 - doe / 146_096) / 365 }

  function DayOfYear(doe: int, yoe: int): int { doe - (365 * yoe + yoe / 4 - yoe / 100) }

  function ShiftedMonth(doy: int): int { (5 * doy + 2) / 153 }

  /** Month and day of day `doy` of the March-based year `y`. */
  function DateInYear(y: int, doy: int): Date {
    var mp := ShiftedMonth(doy);
    var d := doy - (153 * mp + 2) / 5 + 1;
    var m := if mp < 10 then mp + 3 else mp - 9;
    Date(if m <= 2 then y + 1 else y, m, d)
  }

  /** The proleptic date, before the year is narrowed to 32 bits. */
  function CivilFromDays(days: int): Date {
    var z := days + 719_468;
    var era := Era(z);
    var doe := z - era * DAYS_PER_ERA;
    var yoe := YearOfEra(doe);
    DateInYear(yoe + era * 400, DayOfYear(doe, yoe))
  }

  function CivilFromUnix(secs: int): Civil {
    var days := secs / SECONDS_PER_DAY;
    var tod := secs % SECONDS_PER_DAY;
    var date := CivilFromDays(days);
    Civil(date.(year := AsI32(date.year)), tod / 3600, (tod % 3600) / 60, tod % 60)
  }

  // Years of an era run from March to February, so the leap day comes last.
  function EraYearStart(y: int): int { 365 * y + y / 4 - y / 100 + y / 400 }

  lemma EraIsFloor(z: int)
    ensures Era(z) == z / DAYS_PER_ERA
    ensures 0 <= z - Era(z) * DAYS_PER_ERA < DAYS_PER_ERA
  {
    if z < 0 {
      var q, r := (-(z - 146_096)) / DAYS_PER_ERA, (-(z - 146_096)) % DAYS_PER_ERA;
      assert z == DAYS_PER_ERA * (-q) + (146_096 - r);
    }
  }

  /** Day of era split into century, four-year cycle and remainder. */
  lemma YearOfEraSplit(c: int, q: int, s: int)
    requires 0 <= c <= 3 && 0 <= q <= 24 && 0 <= s <= 1460
    requires q == 24 && c != 3 ==> s < 1460
    ensures var doe := 36524 * c + 1461 * q + s;
            YearOfEra(doe) == 100 * c + 4 * q + (if s == 1460 then 3 else s / 365)
  {
    var doe := 36524 * c + 1461 * q + s;
    var e := if 24 * c + q + s >= 1460 then 1 else 0;
    assert doe == 1460 * (25 * c + q) + (24 * c + q + s);
    assert doe / 1460 == 25 * c + q + e;
    var last := if doe == 146_096 then 1 else 0;
    assert doe / 146_096 == last;
    assert doe / 36524 == c + last;
    var t := s - e;
    assert YearOfEra(doe) == (365 * (100 * c + 4 * q) + t) / 365;
    var k := if s == 1460 then 3 else s / 365;
    assert 365 * k <= t < 365 * (k + 1);
    DivExact(100 * c + 4 * q + k, t - 365 * k);
  }

  lemma DivExact(k: int, r: int)
    requires 0 <= r < 365
    ensures (365 * k + r) / 365 == k
  {
  }

  lemma EraYearStartSplit(c: int, q: int, k: int)
    requires 0 <= c <= 3 && 0 <= q <= 24 && 0 <= k <= 3
    ensures var y := 100 * c + 4 * q + k;
            && y / 4 == 25 * c + q && y / 100 == c && y / 400 == 0
            && EraYearStart(y) == 36524 * c + 1461 * q + 365 * k
            && EraYearStart(y + 1) == 36524 * c + 1461 * q + 365 * (k + 1)
                 + (if k < 3 then 0 else if q < 24 then 1 else if c < 3 then 0 else 1)
  {
    var y := 100 * c + 4 * q + k;
    assert y / 4 == 25 * c + q;
    assert y / 100 == c;
    if k < 3 {
      assert (y + 1) / 4 == 25 * c + q && (y + 1) / 100 == c && (y + 1) / 400 == 0;
    } else if q < 24 {
      assert (y + 1) / 4 == 25 * c + q + 1 && (y + 1) / 100 == c && (y + 1) / 400 == 0;
    } else {
      assert y + 1 == 100 * (c + 1);
    }
  }

  lemma SplitEra(doe: int) returns (c: int, q: int, s: int)
    requires 0 <= doe < DAYS_PER_ERA
    ensures doe == 36524 * c + 1461 * q + s
    ensures 0 <= c <= 3 && 0 <= q <= 24 && 0 <= s <= 1460
    ensures q == 24 && c != 3 ==> s < 1460
  {
    c := if doe == 146_096 then 3 else doe / 36524;
    var r := doe - 36524 * c;
    q := r / 1461;
    s := r - 1461 * q;
  }

  /** `yoe` is the year of the era whose days bracket `doe`. */
  lemma YearOfEraBrackets(doe: int) returns (yoe: int)
    requires 0 <= doe < DAYS_PER_ERA
    ensures yoe == YearOfEra(doe) && 0 <= yoe <= 399
    ensures EraYearStart(yoe) <= doe < EraYearStart(yoe + 1)
  {
    hide *;
    var c, q, s := SplitEra(doe);
    YearOfEraSplit(c, q, s);
    var k := if s == 1460 then 3 else s / 365;
    yoe := 100 * c + 4 * q + k;
    EraYearStartSplit(c, q, k);
  }

  /** No unsigned subtraction in the conversion goes below zero, and every u32 stays small. */
  lemma NoUnderflow(doe: int)
    requires 0 <= doe < DAYS_PER_ERA
    ensures var yoe := YearOfEra(doe);
            var doy := DayOfYear(doe, yoe);
            var mp := ShiftedMonth(doy);
            && 0 <= doe - doe / 1460 && 0 <= doe - doe / 1460 + doe / 36524 - doe / 146_096
            && 0 <= yoe <= 399
            && 0 <= 365 * yoe + yoe / 4 - yoe / 100 <= doe
            && 0 <= doy <= 365 && 0 <= mp <= 11
            && 0 <= doy - (153 * mp + 2) / 5
            && (mp >= 10 ==> 0 <= mp - 9)
  {
    var yoe := YearOfEraBrackets(doe);
    YearStep(yoe);
  }

  lemma YearStep(y: int)
    ensures EraYearStart(y + 1) - EraYearStart(y) == if Leap(y + 1) then 366 else 365
  {
    assert (y + 1) / 4 - y / 4 == if (y + 1) % 4 == 0 then 1 else 0;
    assert (y + 1) / 100 - y / 100 == if (y + 1) % 100 == 0 then 1 else 0;
    assert (y + 1) / 400 - y / 400 == if (y + 1) % 400 == 0 then 1 else 0;
  }

  /** Day of a March-based year to month and day of month. */
  lemma MonthFromDay(doy: int, mp: int)
    requires 0 <= doy <= 365 && mp == ShiftedMonth(doy)
    ensures 0 <= mp <= 11
    ensures (153 * mp + 2) / 5 <= doy
    ensures mp < 11 ==> doy < (153 * (mp + 1) + 2) / 5
  {
  }

  /** Whole eras shift a year start by a fixed number of days. */
  lemma EraShift(y: int, era: int)
    ensures EraYearStart(y + 400 * era) == EraYearStart(y) + DAYS_PER_ERA * era
  {
    assert (y + 400 * era) / 4 == y / 4 + 100 * era;
    assert (y + 400 * era) / 100 == y / 100 + 4 * era;
    assert (y + 400 * era) / 400 == y / 400 + era;
  }

  lemma LeapShift(y: int, era: int)
    ensures Leap(y + 400 * era + 1) == Leap(y + 1)
  {
    EraShift(y, era);
    EraShift(y + 1, era);
    YearStep(y);
    YearStep(y + 400 * era);
  }

  /** The first of January and the first of March, in the two ways of counting. */
  lemma MarchStart(y: int)
    ensures DaysBeforeYear(y + 1) + 59 + (if Leap(y + 1) then 1 else 0)
            == EraYearStart(y + 1) - 719_468
    ensures DaysBeforeYear(y + 1) == EraYearStart(y) + 306 - 719_468
  {
    YearStep(y);
  }

  lemma DayOfEraYear(doe: int) returns (yoe: int, doy: int)
    requires 0 <= doe < DAYS_PER_ERA
    ensures yoe == YearOfEra(doe) && doy == DayOfYear(doe, yoe)
    ensures doe == EraYearStart(yoe) + doy
    ensures 0 <= doy < if Leap(yoe + 1) then 366 else 365
  {
    yoe := YearOfEraBrackets(doe);
    doy := DayOfYear(doe, yoe);
    hide YearOfEra;
    YearStep(yoe);
  }

  /** The era, year of era and day of year place a day in one March-based year. */
  lemma ShiftedYear(days: int) returns (y: int, doy: int)
    ensures CivilFromDays(days) == DateInYear(y, doy)
    ensures days + 719_468 == EraYearStart(y) + doy
    ensures 0 <= doy < if Leap(y + 1) then 366 else 365
  {
    hide Era, YearOfEra, DayOfYear, EraYearStart, Leap, DateInYear;
    var z := days + 719_468;
    EraIsFloor(z);
    var era := Era(z);
    var yoe;
    yoe, doy := DayOfEraYear(z - era * DAYS_PER_ERA);
    y := yoe + 400 * era;
    EraShift(yoe, era);
    LeapShift(yoe, era);
  }

  /** The converted date is valid and really is `days` days from the epoch. */
  lemma CivilFromDaysInverts(days: int)
    ensures Valid(CivilFromDays(days)) && DaysFromCivil(CivilFromDays(days)) == days
  {
    hide *;
    var y, doy := ShiftedYear(days);
    DateFromShiftedYear(days, y, doy);
  }

  lemma DateFromShiftedYear(days: int, y: int, doy: int)
    requires days + 719_468 == EraYearStart(y) + doy
    requires 0 <= doy < if Leap(y + 1) then 366 else 365
    ensures Valid(DateInYear(y, doy)) && DaysFromCivil(DateInYear(y, doy)) == days
  {
    hide EraYearStart, DaysBeforeYear, DaysBeforeMonth, Leap;
    MonthFromDay(doy, ShiftedMonth(doy));
    MonthTable(y);
    MonthTable(y + 1);
    MarchStart(y - 1);
    MarchStart(y);
  }

  /** The closed form is the day-by-day count, for every day. */
  lemma ClosedFormIsDayCount(days: int)
    ensures CivilFromDays(days) == CountDays(days)
  {
    CivilFromDaysInverts(days);
    CountDaysInverts(days);
    DatesAreDistinct(CivilFromDays(days), CountDays(days));
  }

  /** ... and days-from-civil undoes it in the other direction too. */
  lemma CivilFromDaysOfDate(d: Date)
    requires Valid(d)
    ensures CivilFromDays(DaysFromCivil(d)) == d
  {
    CivilFromDaysInverts(DaysFromCivil(d));
    DatesAreDistinct(CivilFromDays(DaysFromCivil(d)), d);
  }

  /** Seconds since the epoch of a date and a time of day. */
  function UnixSeconds(c: Civil): int
    requires Valid(c.date)
  {
    ((DaysFromCivil(c.date) * 24 + c.hour) * 60 + c.min) * 60 + c.sec
  }

  const FIRST_SECOND := DaysBeforeYear(-TWO31) * SECONDS_PER_DAY
  const END_SECOND := DaysBeforeYear(TWO31) * SECONDS_PER_DAY

  lemma YearOfDay(days: int, y: int)
    ensures CivilFromDays(days).year < y <==> days < DaysBeforeYear(y)
  {
    CivilFromDaysInverts(days);
    var d := CivilFromDays(days);
    DayWithinYear(d);
    if d.year < y { YearsIncrease(d.year + 1, y); } else { YearsIncrease(y, d.year); }
  }

  /** For every i64 second: the time of day is in range and, exactly when the second lies in
      the years an i32 can hold, the whole result is the date of the day-by-day calendar. */
  lemma CivilFromUnixCorrect(secs: int)
    requires -TWO63 <= secs < TWO63
    ensures var c := CivilFromUnix(secs);
            && 0 <= c.hour < 24 && 0 <= c.min < 60 && 0 <= c.sec < 60
            && c.date.month == CountDays(secs / SECONDS_PER_DAY).month
            && c.date.day == CountDays(secs / SECONDS_PER_DAY).day
            && (c.date == CountDays(secs / SECONDS_PER_DAY) <==> FIRST_SECOND <= secs < END_SECOND)
            && (FIRST_SECOND <= secs < END_SECOND ==> Valid(c.date) && UnixSeconds(c) == secs)
  {
    var days, tod := secs / SECONDS_PER_DAY, secs % SECONDS_PER_DAY;
    ClosedFormIsDayCount(days);
    CivilFromDaysInverts(days);
    YearOfDay(days, -TWO31);
    YearOfDay(days, TWO31);
    TimeOfDay(tod);
    assert FIRST_SECOND <= secs <==> DaysBeforeYear(-TWO31) <= days;
    assert secs < END_SECOND <==> days < DaysBeforeYear(TWO31);
    Narrowing(CivilFromDays(days).year);
  }

  lemma TimeOfDay(tod: int)
    requires 0 <= tod < SECONDS_PER_DAY
    ensures 0 <= tod / 3600 < 24 && 0 <= (tod % 3600) / 60 < 60
    ensures (tod / 3600 * 60 + (tod % 3600) / 60) * 60 + tod % 60 == tod
  {
    assert tod % 60 == (tod % 3600) % 60;
  }

  lemma Narrowing(v: int)
    ensures AsI32(v) == v <==> -TWO31 <= v < TWO31
  {
  }

  /** The conversion of every i64 second stays inside i64 arithmetic. */
  lemma NoOverflow(secs: int)
    requires -TWO63 <= secs < TWO63
    ensures var z := secs / SECONDS_PER_DAY + 719_468;
            && -TWO63 <= z - 146_096 && z < TWO63
            && -TWO63 <= Era(z) * DAYS_PER_ERA < TWO63
            && -TWO63 <= Era(z) * 400 && Era(z) * 400 + 400 < TWO63
  {
    var z := secs / SECONDS_PER_DAY + 719_468;
    EraIsFloor(z);
  }

  /** The first second past the range comes back as the year -2147483648. */
  lemma YearWrapsAround()
    ensures CivilFromUnix(END_SECOND).date.year == -TWO31
  {
    var first := Date(TWO31, 1, 1);
    CivilFromDaysOfDate(first);
    WholeDay(DaysBeforeYear(TWO31));
    assert DaysFromCivil(first) == DaysBeforeYear(TWO31);
  }

  lemma WholeDay(days: int)
    ensures CivilFromUnix(days * SECONDS_PER_DAY).date.year == AsI32(CivilFromDays(days).year)
  {
    assert (days * SECONDS_PER_DAY) / SECONDS_PER_DAY == days;
  }
}
