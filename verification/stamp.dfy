/** UTC stamps (backup.rs): seconds since the epoch as `YYYYMMDDTHHMMSSZ`, the
    basic format of ISO 8601:2004 section 4.3.2, and back. Days and dates are
    converted arithmetically, without a table; the Gregorian calendar is the
    independent definition they are compared with. */
module Stamp {
  import opened Words

  datatype Date = Date(year: int, month: int, day: int)

  // ----- the Gregorian calendar

  predicate Leap(y: int) {
    y % 4 == 0 && (y % 100 != 0 || y % 400 == 0)
  }

  function DaysIn(y: int, m: int): int {
    if m == 2 then if Leap(y) then 29 else 28
    else if m == 4 || m == 6 || m == 9 || m == 11 then 30
    else 31
  }

  predicate ValidDate(c: Date) {
    1 <= c.month <= 12 && 1 <= c.day <= DaysIn(c.year, c.month)
  }

  function NextDate(c: Date): Date {
    if c.day < DaysIn(c.year, c.month) then Date(c.year, c.month, c.day + 1)
    else if c.month < 12 then Date(c.year, c.month + 1, 1)
    else Date(c.year + 1, 1, 1)
  }

  predicate Earlier(a: Date, b: Date) {
    a.year < b.year || (a.year == b.year && (a.month < b.month || (a.month == b.month && a.day < b.day)))
  }

  // ----- days and dates as the code computes them

  /** Day of the March-based year a day of the 400-year era falls in. */
  function YearOfEra(doe: int): int {
    (doe - doe / 1460 + doe / 36_524 - doe / 146_096) / 365
  }

  /** Days of the era before a year of it. */
  function YearDays(yoe: int): int {
    365 * yoe + yoe / 4 - yoe / 100
  }

  function CivilOf(days: int): Date {
    var z := days + 719_468;
    var era := z / 146_097;
    EraDate(era, z - era * 146_097)
  }

  function EraDate(era: int, doe: int): Date {
    var yoe := YearOfEra(doe);
    MarchDate(era, yoe, doe - YearDays(yoe))
  }

  /** The date of a day of a year that starts in March. */
  function MarchDate(era: int, yoe: int, doy: int): Date {
    var mp := (5 * doy + 2) / 153;
    var d := doy - (153 * mp + 2) / 5 + 1;
    var m := if mp < 10 then mp + 3 else mp - 9;
    Date(if m <= 2 then yoe + era * 400 + 1 else yoe + era * 400, m, d)
  }

  function DaysOf(c: Date): int {
    var y := if c.month <= 2 then c.year - 1 else c.year;
    var era := y / 400;
    var yoe := y - era * 400;
    var mp := if c.month > 2 then c.month - 3 else c.month + 9;
    var doy := (153 * mp + 2) / 5 + c.day - 1;
    var doe := YearDays(yoe) + doy;
    era * 146_097 + doe - 719_468
  }

  // ----- the arithmetic inside an era

  /** A year of the era by century, four-year cycle and year of the cycle. */
  predicate CycleDay(c: int, q: int, r: int, doy: int) {
    && 0 <= c <= 3 && 0 <= q <= 24 && 0 <= r <= 3
    && 0 <= doy <= if r == 3 && (q != 24 || c == 3) then 365 else 364
  }

  function DayOfEra(c: int, q: int, r: int, doy: int): int {
    36_524 * c + 1461 * q + 365 * r + doy
  }

  /** The division by 1460, 36524 and 146096 takes out exactly the leap days. */
  lemma EraYear(c: int, q: int, r: int, doy: int)
    requires CycleDay(c, q, r, doy)
    ensures YearOfEra(DayOfEra(c, q, r, doy)) == 100 * c + 4 * q + r
    ensures 0 <= DayOfEra(c, q, r, doy) <= 146_096
  {
    var doe := DayOfEra(c, q, r, doy);
    Centuries(c, 1461 * q + 365 * r + doy);
    LeapDays(c, q, r, doy);
    var e := (24 * c + q + 365 * r + doy) / 1460;
    var f := doe - doe / 1460 + doe / 36_524 - doe / 146_096;
    assert f == 365 * (100 * c + 4 * q + r) + (doy - e);
    Exact(f, 365, 100 * c + 4 * q + r, doy - e);
  }

  lemma LeapDays(c: int, q: int, r: int, doy: int)
    requires CycleDay(c, q, r, doy)
    ensures var e := (24 * c + q + 365 * r + doy) / 1460;
            DayOfEra(c, q, r, doy) / 1460 == 25 * c + q + e && 0 <= doy - e < 365
  {
    var rest := 24 * c + q + 365 * r + doy;
    Quotient(DayOfEra(c, q, r, doy), 1460, 25 * c + q, rest);
  }

  lemma Quotient(n: int, step: int, k: int, rest: int)
    requires step > 0 && n == step * k + rest
    ensures n / step == k + rest / step
  {
    var quotient, left := rest / step, rest % step;
    assert n == step * (k + quotient) + left;
    Exact(n, step, k + quotient, left);
  }

  lemma Exact(n: int, step: int, k: int, left: int)
    requires step > 0 && n == step * k + left && 0 <= left < step
    ensures n / step == k && n % step == left
  {
    var d := n / step - k;
    assert step * d == left - n % step;
    Apart(step, d);
  }

  lemma Apart(step: int, d: int)
    requires step > 0
    ensures d >= 1 ==> step * d >= step
    ensures d <= -1 ==> step * d <= -step
  {
  }

  lemma Centuries(c: int, rest: int)
    requires 0 <= c <= 3 && 0 <= rest <= 36_524 && (rest == 36_524 ==> c == 3)
    ensures var doe := 36_524 * c + rest;
            doe / 36_524 - doe / 146_096 == c
  {
  }

  /** Every day of the era has a place in a cycle. */
  lemma EraDay(doe: int) returns (c: int, q: int, r: int, doy: int)
    requires 0 <= doe <= 146_096
    ensures CycleDay(c, q, r, doy) && doe == DayOfEra(c, q, r, doy)
  {
    c := if doe / 36_524 > 3 then 3 else doe / 36_524;
    var inCentury := doe - 36_524 * c;
    q := if inCentury / 1461 > 24 then 24 else inCentury / 1461;
    var inCycle := inCentury - 1461 * q;
    r := if inCycle / 365 > 3 then 3 else inCycle / 365;
    doy := inCycle - 365 * r;
  }

  /** Leap days before a year of the era. */
  lemma EraYearStart(c: int, q: int, r: int)
    requires 0 <= c <= 3 && 0 <= q <= 24 && 0 <= r <= 3
    ensures YearDays(100 * c + 4 * q + r) == DayOfEra(c, q, r, 0)
  {
  }

  // ----- months of the March-based year

  function MonthStart(mp: int): int {
    (153 * mp + 2) / 5
  }

  /** The month of a day of the year, and the day of the month. */
  lemma MonthOfDay(doy: int)
    requires 0 <= doy <= 365
    ensures var mp := (5 * doy + 2) / 153;
            0 <= mp <= 11 && MonthStart(mp) <= doy && (mp < 11 ==> doy < MonthStart(mp + 1))
  {
  }

  lemma DayOfMonth(mp: int, doy: int)
    requires 0 <= mp <= 11 && MonthStart(mp) <= doy <= 365 && (mp < 11 ==> doy < MonthStart(mp + 1))
    ensures (5 * doy + 2) / 153 == mp
  {
  }

  /** Month lengths from March to January are those of the calendar. */
  lemma MonthLengths(y: int, m: int)
    requires 1 <= m <= 12 && m != 2
    ensures var mp := if m > 2 then m - 3 else m + 9;
            DaysIn(y, m) == MonthStart(mp + 1) - MonthStart(mp)
  {
  }

  // ----- days and dates are inverse

  /** A March-based year of an era ends with a leap day exactly when the
      calendar year its February lies in is a leap year. */
  lemma LeapCycle(era: int, c: int, q: int, r: int)
    requires 0 <= c <= 3 && 0 <= q <= 24 && 0 <= r <= 3
    ensures Leap(400 * era + 100 * c + 4 * q + r + 1) <==> r == 3 && (q != 24 || c == 3)
  {
    var y := 400 * era + 100 * c + 4 * q + r + 1;
    Remainder(y, 4, 100 * era + 25 * c + q, r + 1);
    Remainder(y, 100, 4 * era + c, 4 * q + r + 1);
    Remainder(y, 400, era, 100 * c + 4 * q + r + 1);
  }

  lemma Remainder(n: int, step: int, k: int, left: int)
    requires step > 0 && n == step * k + left && 0 <= left <= step
    ensures n % step == if left == step then 0 else left
  {
    if left == step {
      Exact(n, step, k + 1, 0);
    } else {
      Exact(n, step, k, left);
    }
  }

  /** The parts of a year of an era. */
  lemma YearParts(yoe: int) returns (c: int, q: int, r: int)
    requires 0 <= yoe <= 399
    ensures 0 <= c <= 3 && 0 <= q <= 24 && 0 <= r <= 3 && yoe == 100 * c + 4 * q + r
  {
    c := yoe / 100;
    q := (yoe - 100 * c) / 4;
    r := yoe - 100 * c - 4 * q;
  }

  /** Turning a day of a March-based year into a date loses nothing. */
  lemma MarchDays(era: int, yoe: int, doy: int)
    requires 0 <= yoe <= 399 && 0 <= doy <= 365
    ensures DaysOf(MarchDate(era, yoe, doy)) + 719_468 == era * 146_097 + YearDays(yoe) + doy
  {
    hide YearDays;
    MonthOfDay(doy);
    Exact(yoe + era * 400, 400, era, yoe);
  }

  lemma MarchValid(era: int, c: int, q: int, r: int, doy: int)
    requires CycleDay(c, q, r, doy)
    ensures ValidDate(MarchDate(era, 100 * c + 4 * q + r, doy))
  {
    var yoe := 100 * c + 4 * q + r;
    MonthOfDay(doy);
    LeapCycle(era, c, q, r);
    var date := MarchDate(era, yoe, doy);
    if date.month != 2 {
      MonthLengths(date.year, date.month);
    }
  }

  lemma EraDateIs(era: int, c: int, q: int, r: int, doy: int)
    requires CycleDay(c, q, r, doy)
    ensures EraDate(era, DayOfEra(c, q, r, doy)) == MarchDate(era, 100 * c + 4 * q + r, doy)
  {
    hide YearOfEra, MarchDate, YearDays;
    EraYear(c, q, r, doy);
    EraYearStart(c, q, r);
  }

  lemma CivilAt(era: int, doe: int)
    requires 0 <= doe <= 146_096
    ensures CivilOf(era * 146_097 + doe - 719_468) == EraDate(era, doe)
  {
    hide EraDate;
    Exact(era * 146_097 + doe, 146_097, era, doe);
  }

  /** Date and day number of a day of a year of an era. */
  lemma EraPair(era: int, c: int, q: int, r: int, doy: int)
    requires CycleDay(c, q, r, doy)
    ensures var days := era * 146_097 + DayOfEra(c, q, r, doy) - 719_468;
            var date := MarchDate(era, 100 * c + 4 * q + r, doy);
            CivilOf(days) == date && DaysOf(date) == days && ValidDate(date)
  {
    hide EraDate, MarchDate, DaysOf, ValidDate, CivilOf, YearDays, CycleDay, DayOfEra;
    DayPlace(c, q, r, doy);
    EraDateIs(era, c, q, r, doy);
    MarchDays(era, 100 * c + 4 * q + r, doy);
    MarchValid(era, c, q, r, doy);
    CivilAt(era, DayOfEra(c, q, r, doy));
  }

  lemma DayPlace(c: int, q: int, r: int, doy: int)
    requires CycleDay(c, q, r, doy)
    ensures 0 <= doy <= 365 && 0 <= 100 * c + 4 * q + r <= 399 && 0 <= DayOfEra(c, q, r, doy) <= 146_096
    ensures YearDays(100 * c + 4 * q + r) + doy == DayOfEra(c, q, r, doy)
  {
    hide YearDays;
    EraYearStart(c, q, r);
  }

  /** The date of a day is on the calendar, and leads back to the day. */
  lemma CivilOfDay(days: int)
    ensures ValidDate(CivilOf(days)) && DaysOf(CivilOf(days)) == days
  {
    hide MarchDate, DaysOf, ValidDate, CivilOf, CycleDay, DayOfEra;
    var era, doe := (days + 719_468) / 146_097, (days + 719_468) % 146_097;
    var c, q, r, doy := EraDay(doe);
    EraPair(era, c, q, r, doy);
  }

  /** A date on the calendar as a day of a March-based year. */
  lemma AsMarchDate(date: Date) returns (era: int, c: int, q: int, r: int, doy: int)
    requires ValidDate(date)
    ensures CycleDay(c, q, r, doy) && MarchDate(era, 100 * c + 4 * q + r, doy) == date
  {
    var y := if date.month <= 2 then date.year - 1 else date.year;
    era := y / 400;
    c, q, r := YearParts(y % 400);
    var mp := if date.month > 2 then date.month - 3 else date.month + 9;
    doy := MonthStart(mp) + date.day - 1;
    LeapCycle(era, c, q, r);
    if date.month != 2 {
      MonthLengths(date.year, date.month);
    }
    DayOfMonth(mp, doy);
  }

  /** And the day of a date on the calendar leads back to the date. */
  lemma DayOfCivil(date: Date)
    requires ValidDate(date)
    ensures CivilOf(DaysOf(date)) == date
  {
    hide MarchDate, DaysOf, ValidDate, CivilOf, CycleDay, DayOfEra;
    var era, c, q, r, doy := AsMarchDate(date);
    EraPair(era, c, q, r, doy);
  }

  // ----- consecutive days

  /** Day number of the first of March of a year. */
  function YearStart(y: int): int {
    var era := y / 400;
    var yoe := y - era * 400;
    era * 146_097 + YearDays(yoe)
  }

  lemma NextYearDays(c: int, q: int, r: int)
    requires 0 <= c <= 3 && 0 <= q <= 24 && 0 <= r <= 3 && 100 * c + 4 * q + r < 399
    ensures YearDays(100 * c + 4 * q + r + 1)
         == YearDays(100 * c + 4 * q + r) + if r == 3 && (q != 24 || c == 3) then 366 else 365
  {
    hide YearDays;
    EraYearStart(c, q, r);
    if r < 3 {
      EraYearStart(c, q, r + 1);
    } else if q < 24 {
      EraYearStart(c, q + 1, 0);
    } else {
      EraYearStart(c + 1, 0, 0);
    }
  }

  lemma YearStartAt(era: int, yoe: int)
    requires 0 <= yoe <= 399
    ensures YearStart(400 * era + yoe) == era * 146_097 + YearDays(yoe)
  {
    hide YearDays;
    Exact(400 * era + yoe, 400, era, yoe);
  }

  /** The last year of an era, and any other. */
  lemma EraTurns(era: int)
    ensures YearStart(400 * (era + 1)) == YearStart(400 * era + 399) + 366
  {
    hide YearStart;
    YearStartAt(era, 399);
    YearStartAt(era + 1, 0);
  }

  lemma YearInEra(era: int, c: int, q: int, r: int, yoe: int)
    requires 0 <= c <= 3 && 0 <= q <= 24 && 0 <= r <= 3 && yoe == 100 * c + 4 * q + r < 399
    ensures YearStart(400 * era + (yoe + 1)) == YearStart(400 * era + yoe) + if r == 3 && (q != 24 || c == 3) then 366
            else 365
  {
    hide YearStart, YearDays;
    YearStartAt(era, yoe);
    YearStartAt(era, yoe + 1);
    NextYearDays(c, q, r);
  }

  lemma YearStepAt(era: int, c: int, q: int, r: int, y: int)
    requires 0 <= c <= 3 && 0 <= q <= 24 && 0 <= r <= 3 && y == 400 * era + (100 * c + 4 * q + r)
    ensures YearStart(y + 1) == YearStart(y) + if r == 3 && (q != 24 || c == 3) then 366 else 365
  {
    hide YearStart;
    if c == 3 && q == 24 && r == 3 {
      EraTurns(era);
    } else {
      YearInEra(era, c, q, r, 100 * c + 4 * q + r);
    }
  }

  lemma YearStep(y: int)
    ensures YearStart(y + 1) == YearStart(y) + if Leap(y + 1) then 366 else 365
  {
    hide YearStart, Leap;
    var c, q, r := YearParts(y % 400);
    YearStepAt(y / 400, c, q, r, y);
    LeapCycle(y / 400, c, q, r);
    assert y + 1 == 400 * (y / 400) + 100 * c + 4 * q + r + 1;
  }

  /** The calendar's next day is the next day number. */
  lemma NextDayNumber(date: Date)
    requires ValidDate(date)
    ensures ValidDate(NextDate(date)) && DaysOf(NextDate(date)) == DaysOf(date) + 1
  {
    hide DaysOf, YearStart, MonthStart;
    DayNumber(date);
    DayNumber(NextDate(date));
    if date.day == DaysIn(date.year, date.month) {
      LastDay(date);
      YearStep(date.year - 1);
    }
  }

  lemma LastDay(date: Date)
    requires ValidDate(date) && date.day == DaysIn(date.year, date.month)
    ensures date.month != 2 ==> MonthStart(MarchMonth(date)) + date.day == MonthStart(MarchMonth(date) + 1)
    ensures date.month == 2 ==> MonthStart(MarchMonth(date)) + date.day == if Leap(date.year) then 366 else 365
    ensures MonthStart(0) == 0
  {
    if date.month != 2 {
      MonthLengths(date.year, date.month);
    }
  }

  /** Dates follow each other as the calendar says: the arithmetic agrees with
      the Gregorian calendar on every day, before and after the epoch. */
  lemma DatesFollow(days: int)
    ensures CivilOf(days + 1) == NextDate(CivilOf(days)) && CivilOf(0) == Date(1970, 1, 1)
  {
    hide CivilOf, DaysOf, NextDate, ValidDate;
    CivilOfDay(days);
    NextDayNumber(CivilOf(days));
    DayOfCivil(NextDate(CivilOf(days)));
    Epoch();
  }

  lemma Epoch()
    ensures CivilOf(0) == Date(1970, 1, 1)
  {
    assert ValidDate(Date(1970, 1, 1)) && DaysOf(Date(1970, 1, 1)) == 0;
    hide CivilOf;
    DayOfCivil(Date(1970, 1, 1));
  }

  // ----- order

  lemma {:induction false} YearsGrow(a: int, b: int)
    requires a <= b
    ensures YearStart(a) <= YearStart(b)
    decreases b - a
  {
    if a < b {
      YearsGrow(a, b - 1);
      YearStep(b - 1);
    }
  }

  function MarchYear(date: Date): int {
    if date.month <= 2 then date.year - 1 else date.year
  }

  /** A day of a March-based year lies in it. */
  lemma InYear(date: Date)
    requires ValidDate(date)
    ensures YearStart(MarchYear(date)) <= DaysOf(date) + 719_468 < YearStart(MarchYear(date) + 1)
  {
    YearStep(MarchYear(date));
    if date.month != 2 {
      MonthLengths(date.year, date.month);
    }
  }

  function MarchMonth(date: Date): int {
    if date.month > 2 then date.month - 3 else date.month + 9
  }

  lemma DayNumber(date: Date)
    ensures DaysOf(date) == YearStart(MarchYear(date)) + MonthStart(MarchMonth(date)) + date.day - 1 - 719_468
  {
    hide YearDays;
  }

  lemma LaterMonth(a: Date, b: Date)
    requires ValidDate(a) && ValidDate(b) && MarchMonth(a) < MarchMonth(b)
    ensures MonthStart(MarchMonth(a)) + a.day - 1 < MonthStart(MarchMonth(b))
  {
    MonthLengths(a.year, a.month);
  }

  lemma EarlierDay(a: Date, b: Date)
    requires ValidDate(a) && ValidDate(b) && Earlier(a, b)
    ensures DaysOf(a) < DaysOf(b)
  {
    hide DaysOf, YearStart, DaysIn, MonthStart;
    if MarchYear(a) < MarchYear(b) {
      InYear(a);
      InYear(b);
      YearsGrow(MarchYear(a) + 1, MarchYear(b));
    } else {
      DayNumber(a);
      DayNumber(b);
      if MarchMonth(a) != MarchMonth(b) {
        LaterMonth(a, b);
      }
    }
  }

  /** Days are ordered as their dates are. */
  lemma DaysOrder(s: int, t: int)
    ensures s < t <==> Earlier(CivilOf(s), CivilOf(t))
  {
    hide CivilOf, DaysOf, ValidDate;
    CivilOfDay(s);
    CivilOfDay(t);
    if Earlier(CivilOf(s), CivilOf(t)) {
      EarlierDay(CivilOf(s), CivilOf(t));
    } else if Earlier(CivilOf(t), CivilOf(s)) {
      EarlierDay(CivilOf(t), CivilOf(s));
    }
  }
}
