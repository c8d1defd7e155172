/** Day numbers and Gregorian dates: the two conversions used for RRSIG times and the one used for serials. */
module Calendar {
  import opened Bytes

  /** Days from 0000-03-01 to 1970-01-01, and in a 400-year era. */
  const EPOCH := 719468
  const ERA := 146097

  datatype Date = Date(year: int, month: nat, day: nat)

  // ---- The Gregorian calendar ----------------------------------------------

  predicate IsLeap(year: int) { year % 4 == 0 && (year % 100 != 0 || year % 400 == 0) }

  function DaysInMonth(year: int, month: nat): nat {
    if month == 2 then (if IsLeap(year) then 29 else 28)
    else if month == 4 || month == 6 || month == 9 || month == 11 then 30
    else 31
  }

  predicate Valid(d: Date) { 1 <= d.month <= 12 && 1 <= d.day <= DaysInMonth(d.year, d.month) }

  /** The next day. */
  function Next(d: Date): Date {
    if d.day < DaysInMonth(d.year, d.month) then d.(day := d.day + 1)
    else if d.month < 12 then Date(d.year, d.month + 1, 1)
    else Date(d.year + 1, 1, 1)
  }

  // ---- The conversions -----------------------------------------------------

  /** `days_to_civil`. The division truncates, after the adjustment that makes it round down. */
  function DaysToCivil(days: int): Date {
    var z := days + EPOCH;
    var era := TruncatingDiv(if z >= 0 then z else z - (ERA - 1), ERA);
    var doe: U32 := z - era * ERA;
    var yoe: U32 := YearOfEra(doe);
    var doy: U32 := DayOfYear(doe, yoe);
    var mp: U32 := (5 * doy + 2) / 153;
    var d: U32 := doy - (153 * mp + 2) / 5 + 1;
    var m: U32 := if mp < 10 then mp + 3 else mp - 9;
    Date(yoe + era * 400 + if m <= 2 then 1 else 0, m, d)
  }

  function TruncatingDiv(a: int, b: nat): int
    requires b > 0
  {
    if a >= 0 then a / b else -((-a) / b)
  }

  /** The closed formula for the year within an era. No step underflows. */
  function YearOfEra(doe: U32): (yoe: U32)
    requires doe < ERA
    ensures yoe < 400
  {
    (doe - doe / 1460 + doe / 36524 - doe / 146096) / 365
  }

  /** Nor does the subtraction of the year's first day. */
  function DayOfYear(doe: U32, yoe: U32): (doy: U32)
    requires doe < ERA && yoe == YearOfEra(doe)
    ensures doy <= 365
    ensures doe == YearStart(yoe) + doy && (doy == 365 ==> LongYear(yoe))
  {
    EraDayHasYear(doe);
    doe - (365 * yoe + yoe / 4 - yoe / 100)
  }

  /** `date_from_days`, on every number for which the first addition does not overflow. */
  function DateFromDays(days: U32): (date: Date)
    requires days + EPOCH < 0x1_0000_0000
    ensures 0 <= date.year
  {
    var z: U32 := days + EPOCH;
    var era: U32 := z / ERA;
    var doe: U32 := z - era * ERA;
    var yoe: U32 := YearOfEra(doe);
    var y: U32 := yoe + era * 400;
    var doy: U32 := DayOfYear(doe, yoe);
    var mp: U32 := (5 * doy + 2) / 153;
    var d: U32 := doy - (153 * mp + 2) / 5 + 1;
    var m: U32 := if mp < 10 then mp + 3 else mp - 9;
    Date(if m <= 2 then y + 1 else y, m, d)
  }

  /** What `days_from_date` computes, on unbounded integers. */
  function DaysFromCivil(date: Date): int {
    var y := if date.month <= 2 then date.year - 1 else date.year;
    var mp := if date.month > 2 then date.month - 3 else date.month + 9;
    y / 400 * ERA + YearStart(y % 400) + (153 * mp + 2) / 5 + date.day - 1 - EPOCH
  }

  // ---- Years and days of an era --------------------------------------------

  /** Days of an era before its year `y`; years start on the first of March. */
  function YearStart(y: nat): int { 365 * y + y / 4 - y / 100 }

  /** Does the year of the era that starts in March of `y` end with a 29 February? */
  predicate LongYear(y: nat) { (y + 1) % 4 == 0 && ((y + 1) % 100 != 0 || (y + 1) % 400 == 0) }

  function YearLength(y: nat): int { if LongYear(y) then 366 else 365 }

  lemma YearEnds(y: nat)
    requires y < 400
    ensures YearStart(y) + YearLength(y) == if y == 399 then 146097 else YearStart(y + 1)
  {
    assert (y + 1) / 4 == y / 4 + if (y + 1) % 4 == 0 then 1 else 0;
    assert (y + 1) / 100 == y / 100 + if (y + 1) % 100 == 0 then 1 else 0;
  }

  /** The closed formula finds the year every day of the era lies in. */
  lemma YearOfDayInEra(y: nat, doy: nat)
    requires y < 400 && doy < YearLength(y)
    ensures YearOfEra(YearStart(y) + doy) == y
  {
    var a, c, r := y / 100, y % 100 / 4, y % 4;
    assert y == 100 * a + 4 * c + r && y / 4 == 25 * a + c;
    assert doy == 365 ==> r == 3 && (c == 24 ==> a == 3);
    hide YearLength, YearOfEra;
    YearFromParts(a, c, r, doy);
  }

  lemma YearFromParts(a: nat, c: nat, r: nat, doy: nat)
    requires a < 4 && c < 25 && r < 4 && doy <= 365 && (doy == 365 ==> r == 3 && (c == 24 ==> a == 3))
    ensures YearOfEra(36524 * a + 1461 * c + 365 * r + doy) == 100 * a + 4 * c + r
  {
    var doe := 36524 * a + 1461 * c + 365 * r + doy;
    var late := if 24 * a + c + 365 * r + doy >= 1460 then 1 else 0;
    var y := 100 * a + 4 * c + r;
    LastDay(a, c, r, doy);
    FourYears(25 * a + c, 24 * a + c + 365 * r + doy);
    Centuries(a, 1461 * c + 365 * r + doy);
    EraEnd(doe);
    YearPart(y, doy - late);
  }

  lemma LastDay(a: nat, c: nat, r: nat, doy: nat)
    requires a < 4 && c < 25 && r < 4 && doy <= 365 && (doy == 365 ==> r == 3 && (c == 24 ==> a == 3))
    ensures var w := 1461 * c + 365 * r + doy;
            (w == 36524 <==> c == 24 && doy == 365) && w <= 36524 && (36524 * a + w == 146096 <==> w == 36524)
            && (doy == 365 ==> 24 * a + c + 365 * r + doy >= 1460)
  {
    if c < 24 {
      assert 1461 * c <= 1461 * 23;
    } else if r < 3 {
      assert 365 * r <= 730;
    }
  }

  lemma FourYears(m: nat, w: nat)
    requires w < 2920
    ensures (1460 * m + w) / 1460 == m + if w >= 1460 then 1 else 0
  {
    Quotient(1460 * m + w, 1460, m + if w >= 1460 then 1 else 0);
  }

  lemma Centuries(a: nat, w: nat)
    requires w <= 36524
    ensures (36524 * a + w) / 36524 == a + if w == 36524 then 1 else 0
  {
    Quotient(36524 * a + w, 36524, a + if w == 36524 then 1 else 0);
  }

  lemma EraEnd(doe: nat)
    requires doe < ERA
    ensures doe / 146096 == if doe == 146096 then 1 else 0
  {
    Quotient(doe, 146096, if doe == 146096 then 1 else 0);
  }

  lemma YearPart(y: nat, w: nat)
    requires w < 365
    ensures (365 * y + w) / 365 == y
  {
    Quotient(365 * y + w, 365, y);
  }

  /** Every day of the era is some day of the year the formula gives. */
  lemma EraDayHasYear(doe: nat)
    requires doe < ERA
    ensures var y := YearOfEra(doe); 0 <= y < 400 && YearStart(y) <= doe < YearStart(y) + YearLength(y)
  {
    var y := YearContaining(doe, 399);
    YearOfDayInEra(y, doe - YearStart(y));
  }

  lemma {:induction false} YearContaining(doe: nat, last: nat) returns (y: nat)
    requires last < 400 && doe < YearStart(last) + YearLength(last)
    ensures y < 400 && YearStart(y) <= doe < YearStart(y) + YearLength(y)
  {
    if YearStart(last) <= doe {
      y := last;
    } else {
      YearEnds(last - 1);
      y := YearContaining(doe, last - 1);
    }
  }

  // ---- Months of a year that starts in March -------------------------------

  /** Days before month `mp`, counting from March. */
  function MonthStart(mp: nat): nat { (153 * mp + 2) / 5 }

  function MonthLength(yoe: nat, mp: nat): int {
    if mp == 11 then (if LongYear(yoe) then 29 else 28) else MonthStart(mp + 1) - MonthStart(mp)
  }

  lemma MonthContaining(yoe: nat, doy: nat) returns (mp: nat, d: nat)
    requires doy < YearLength(yoe)
    ensures mp < 12 && 1 <= d <= MonthLength(yoe, mp) && doy == MonthStart(mp) + d - 1
  {
    mp := (5 * doy + 2) / 153;
    assert mp in {0, 1, 2, 3, 4, 5, 6, 7, 8, 9, 10, 11};
    d := doy - MonthStart(mp) + 1;
  }

  // ---- Days as era, year, month and day ------------------------------------

  predicate Parts(yoe: nat, mp: nat, d: nat) { yoe < 400 && mp < 12 && 1 <= d <= MonthLength(yoe, mp) }

  function DayNumber(era: int, yoe: nat, mp: nat, d: nat): int {
    era * ERA + YearStart(yoe) + MonthStart(mp) + d - 1 - EPOCH
  }

  function DateOf(era: int, yoe: nat, mp: nat, d: nat): Date
    requires mp < 12
  {
    Date(yoe + era * 400 + if mp >= 10 then 1 else 0, if mp < 10 then mp + 3 else mp - 9, d)
  }

  lemma LeapYears(era: int, yoe: nat)
    requires yoe < 400
    ensures IsLeap(yoe + era * 400 + 1) <==> LongYear(yoe)
  {
    var n := yoe + 1;
    Remainder(n + era * 400, 4, n / 4 + era * 100, n % 4);
    Remainder(n + era * 400, 100, n / 100 + era * 4, n % 100);
    Remainder(n + era * 400, 400, n / 400 + era, n % 400);
  }

  lemma Remainder(x: int, d: nat, q: int, r: int)
    requires d > 0 && 0 <= r < d && x == q * d + r
    ensures x % d == r
  {
    Quotient(x, d, q);
  }

  lemma MonthLengths(era: int, yoe: nat, mp: nat)
    requires yoe < 400 && mp < 12
    ensures DaysInMonth(DateOf(era, yoe, mp, 1).year, DateOf(era, yoe, mp, 1).month) == MonthLength(yoe, mp)
  {
    LeapYears(era, yoe);
    hide IsLeap, LongYear;
    assert mp in {0, 1, 2, 3, 4, 5, 6, 7, 8, 9, 10, 11};
  }

  lemma DayInYear(yoe: nat, mp: nat, d: nat)
    requires Parts(yoe, mp, d)
    ensures MonthStart(mp) + d - 1 < YearLength(yoe)
  {
    hide LongYear;
    assert mp in {0, 1, 2, 3, 4, 5, 6, 7, 8, 9, 10, 11};
  }

  lemma DaySplits(days: int) returns (era: int, yoe: nat, mp: nat, d: nat)
    ensures Parts(yoe, mp, d) && days == DayNumber(era, yoe, mp, d)
  {
    var z := days + EPOCH;
    era := z / ERA;
    var doe := z % ERA;
    EraDayHasYear(doe);
    yoe := YearOfEra(doe);
    mp, d := MonthContaining(yoe, doe - YearStart(yoe));
  }

  lemma YearInEra(yoe: nat, doy: nat)
    requires yoe < 400 && doy < YearLength(yoe)
    ensures 0 <= YearStart(yoe) + doy < ERA
  {
    YearEnds(yoe);
    if yoe < 399 { YearsBefore(yoe + 1); }
  }

  lemma {:induction false} YearsBefore(y: nat)
    requires y < 400
    ensures YearStart(y) < ERA
    decreases 400 - y
  {
    if y < 399 {
      YearEnds(y);
      YearsBefore(y + 1);
    }
  }

  /** The conversion finds the parts a day number was made of. */
  lemma CivilOfDay(era: int, yoe: nat, mp: nat, d: nat)
    requires Parts(yoe, mp, d)
    ensures DaysToCivil(DayNumber(era, yoe, mp, d)) == DateOf(era, yoe, mp, d)
  {
    DayInYear(yoe, mp, d);
    var doy := MonthStart(mp) + d - 1;
    YearInEra(yoe, doy);
    YearOfDayInEra(yoe, doy);
    var doe := YearStart(yoe) + doy;
    EraOfDay(era, doe);
    hide YearStart, YearLength, LongYear, YearOfEra, TruncatingDiv;
  }

  lemma EraOfDay(era: int, doe: nat)
    requires doe < ERA
    ensures var z := era * ERA + doe; TruncatingDiv(if z >= 0 then z else z - (ERA - 1), ERA) == era
  {
    var z := era * ERA + doe;
    if z >= 0 {
      Quotient(z, ERA, era);
    } else {
      Quotient(-(z - (ERA - 1)), ERA, -era);
    }
  }

  /** Every date is made of an era, a year, a month and a day. */
  lemma DateSplits(date: Date) returns (era: int, yoe: nat, mp: nat)
    requires Valid(date)
    ensures Parts(yoe, mp, date.day) && date == DateOf(era, yoe, mp, date.day)
    ensures DaysFromCivil(date) == DayNumber(era, yoe, mp, date.day)
  {
    var y := if date.month <= 2 then date.year - 1 else date.year;
    era, yoe := y / 400, y % 400;
    mp := if date.month > 2 then date.month - 3 else date.month + 9;
    MonthLengths(era, yoe, mp);
  }

  // ---- Main results --------------------------------------------------------

  /** Every day number has a valid date, which converts back to it. */
  lemma DaysRoundTrip(days: int)
    ensures Valid(DaysToCivil(days)) && DaysFromCivil(DaysToCivil(days)) == days
  {
    hide DaysToCivil, DaysFromCivil, MonthLength, DaysInMonth;
    var era, yoe, mp, d := DaySplits(days);
    CivilOfDay(era, yoe, mp, d);
    MonthLengths(era, yoe, mp);
    DayOfDate(era, yoe, mp, d);
  }

  lemma DayOfDate(era: int, yoe: nat, mp: nat, d: nat)
    requires yoe < 400 && mp < 12
    ensures DaysFromCivil(DateOf(era, yoe, mp, d)) == DayNumber(era, yoe, mp, d)
  {
    hide YearStart;
    Quotient(yoe + era * 400, 400, era);
    Remainder(yoe + era * 400, 400, era, yoe);
  }

  /** Every valid date has a day number, which converts back to it. */
  lemma DateRoundTrip(date: Date)
    requires Valid(date)
    ensures DaysToCivil(DaysFromCivil(date)) == date
  {
    hide DaysToCivil, DaysFromCivil, Valid;
    var era, yoe, mp := DateSplits(date);
    CivilOfDay(era, yoe, mp, date.day);
  }

  /** Each part steps to a valid part, the next date and the next number. */
  ghost predicate StepsTo(era: int, yoe: nat, mp: nat, d: nat, era2: int, yoe2: nat, mp2: nat, d2: nat)
    requires mp < 12 && mp2 < 12
  {
    && Next(DateOf(era, yoe, mp, d)) == DateOf(era2, yoe2, mp2, d2)
    && DayNumber(era2, yoe2, mp2, d2) == DayNumber(era, yoe, mp, d) + 1
  }

  lemma SameMonth(era: int, yoe: nat, mp: nat, d: nat)
    requires Parts(yoe, mp, d) && d < MonthLength(yoe, mp)
    ensures StepsTo(era, yoe, mp, d, era, yoe, mp, d + 1)
  {
    MonthLengths(era, yoe, mp);
    hide DaysInMonth, MonthLength, MonthStart, YearStart;
  }

  lemma NextMonth(era: int, yoe: nat, mp: nat, d: nat)
    requires Parts(yoe, mp, d) && d == MonthLength(yoe, mp) && mp < 11
    ensures Parts(yoe, mp + 1, 1) && StepsTo(era, yoe, mp, d, era, yoe, mp + 1, 1)
  {
    MonthLengths(era, yoe, mp);
    assert MonthLength(yoe, mp + 1) >= 1 by { assert mp in {0, 1, 2, 3, 4, 5, 6, 7, 8, 9, 10}; }
    hide DaysInMonth, LongYear, MonthStart, YearStart;
  }

  lemma NextYear(era: int, yoe: nat, d: nat)
    requires Parts(yoe, 11, d) && d == MonthLength(yoe, 11)
    ensures if yoe < 399 then StepsTo(era, yoe, 11, d, era, yoe + 1, 0, 1) else StepsTo(era, yoe, 11, d, era + 1, 0, 0, 1)
  {
    MarchFollows(era, yoe, d);
    NumberFollows(era, yoe, d);
    hide Next, DateOf, DayNumber, MonthLength;
  }

  lemma MarchFollows(era: int, yoe: nat, d: nat)
    requires Parts(yoe, 11, d) && d == MonthLength(yoe, 11)
    ensures Next(DateOf(era, yoe, 11, d)) == if yoe < 399 then DateOf(era, yoe + 1, 0, 1) else DateOf(era + 1, 0, 0, 1)
  {
    MonthLengths(era, yoe, 11);
    hide DaysInMonth, MonthLength;
  }

  lemma NumberFollows(era: int, yoe: nat, d: nat)
    requires yoe < 400 && d == MonthLength(yoe, 11)
    ensures DayNumber(era, yoe, 11, d) + 1 == if yoe < 399 then DayNumber(era, yoe + 1, 0, 1) else DayNumber(era + 1, 0, 0, 1)
  {
    hide *;
    LastMonth(yoe);
    YearEnds(yoe);
    FirstYear();
    NumberIs(era, yoe, 11, d);
    if yoe < 399 {
      NumberIs(era, yoe + 1, 0, 1);
    } else {
      NumberIs(era + 1, 0, 0, 1);
    }
  }

  lemma NumberIs(era: int, yoe: nat, mp: nat, d: nat)
    ensures DayNumber(era, yoe, mp, d) == 146097 * era + YearStart(yoe) + MonthStart(mp) + d - 719469
  {}

  lemma LastMonth(yoe: nat)
    ensures MonthStart(11) + MonthLength(yoe, 11) == YearLength(yoe)
  {
    hide LongYear;
  }

  lemma FirstYear()
    ensures YearStart(0) == 0 && MonthStart(0) == 0
  {}

  lemma NextPart(era: int, yoe: nat, mp: nat, d: nat) returns (era2: int, yoe2: nat, mp2: nat, d2: nat)
    requires Parts(yoe, mp, d)
    ensures Parts(yoe2, mp2, d2) && Next(DateOf(era, yoe, mp, d)) == DateOf(era2, yoe2, mp2, d2)
    ensures DayNumber(era2, yoe2, mp2, d2) == DayNumber(era, yoe, mp, d) + 1
  {
    hide DayNumber, Next, DateOf, LongYear;
    if d < MonthLength(yoe, mp) {
      SameMonth(era, yoe, mp, d);
      era2, yoe2, mp2, d2 := era, yoe, mp, d + 1;
    } else if mp < 11 {
      NextMonth(era, yoe, mp, d);
      era2, yoe2, mp2, d2 := era, yoe, mp + 1, 1;
    } else {
      NextYear(era, yoe, d);
      era2, yoe2, mp2, d2 := if yoe < 399 then era else era + 1, if yoe < 399 then yoe + 1 else 0, 0, 1;
    }
  }

  /** The conversions enumerate the calendar: day 0 is 1 January 1970, and each day is followed by the next date. */
  lemma CalendarEnumerated(days: int)
    ensures DaysToCivil(0) == Date(1970, 1, 1)
    ensures DaysToCivil(days + 1) == Next(DaysToCivil(days))
  {
    hide *;
    var era, yoe, mp, d := DaySplits(days);
    CivilOfDay(era, yoe, mp, d);
    var era2, yoe2, mp2, d2 := NextPart(era, yoe, mp, d);
    CivilOfDay(era2, yoe2, mp2, d2);
    EpochDay();
  }

  lemma EpochDay()
    ensures DaysToCivil(0) == Date(1970, 1, 1)
  {
    var day := Date(1970, 1, 1);
    assert DaysFromCivil(day) == 0;
    DateRoundTrip(day);
  }

  /** The unsigned conversion is the same function on the days it is used for. */
  lemma ConversionsAgree(days: U32)
    requires days + EPOCH < 0x1_0000_0000
    ensures DateFromDays(days) == DaysToCivil(days)
  {
    hide DayOfYear, YearOfEra;
    assert TruncatingDiv(days + EPOCH, ERA) == (days + EPOCH) / ERA;
    hide TruncatingDiv;
  }

  /** Day numbers order dates by year. */
  lemma YearOfDay(date: Date)
    requires Valid(date)
    ensures DaysFromCivil(date) >= 0 <==> date.year >= 1970
  {
    var era, yoe, mp := DateSplits(date);
    DayInYear(yoe, mp, date.day);
    YearInEra(yoe, MonthStart(mp) + date.day - 1);
    hide LongYear;
  }
}
