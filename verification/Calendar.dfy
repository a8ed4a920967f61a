/** include/utility/iplCalendar.h: dates of the proleptic Gregorian calendar (section 3.2.1 of
    ISO 8601:2004) and their neighbours, tied to a count of days. */
module Calendar {
  import opened Arithmetic

  const MIN_MONTH: int := 1
  const MAX_MONTH: int := 12
  const MIN_DAY: int := 1

  datatype Ymd = Ymd(year: int, month: int, day: int)

  /** C's truncating division and remainder. */
  function CDiv(a: int, b: int): int
    requires b > 0
  {
    if a >= 0 then a / b else -((-a) / b)
  }

  function CMod(a: int, b: int): int
    requires b > 0
  {
    a - b * CDiv(a, b)
  }

  predicate LeapYear(year: int) {
    (CMod(year, 4) == 0 && CMod(year, 100) != 0) || CMod(year, 400) == 0
  }

  function GetDays(year: int, month: int): (r: int)
    requires 1 <= month <= 12
    ensures 28 <= r <= 31
  {
    match month
    case 2 => if LeapYear(year) then 29 else 28
    case 4 => 30
    case 6 => 30
    case 9 => 30
    case 11 => 30
    case _ => 31
  }

  predicate ValidDate(d: Ymd) {
    1 <= d.month <= 12 && 1 <= d.day <= GetDays(d.year, d.month)
  }

  /** Days up to and including d, counted from the last day of February of year 0: whole March
      to February years, whole months of such a year, days of the month. */
  function DayNumber(d: Ymd): int {
    var y := if d.month <= 2 then d.year - 1 else d.year;
    var m := if d.month <= 2 then d.month + 9 else d.month - 3;
    DaysBefore(y) + MonthOffset(m) + d.day
  }

  /** Days of the m months from March on. */
  function MonthOffset(m: int): int {
    (153 * m + 2) / 5
  }

  /** Days of all March to February years before the one that starts in year y. */
  function DaysBefore(y: int): int {
    365 * y + y / 4 - y / 100 + y / 400
  }

  // The steps, as functions on values; the methods of class Date below are proved equal to them.

  function Tomorrow(d: Ymd): Ymd
    requires 1 <= d.month <= 12
  {
    if d.day + 1 <= GetDays(d.year, d.month) then d.(day := d.day + 1)
    else if d.month == 12 then Ymd(d.year + 1, 1, 1)
    else Ymd(d.year, d.month + 1, 1)
  }

  function Yesterday(d: Ymd): Ymd
    requires 1 <= d.month <= 12
  {
    if d.day > 1 then d.(day := d.day - 1)
    else if d.month == 1 then Ymd(d.year - 1, 12, 31)
    else Ymd(d.year, d.month - 1, GetDays(d.year, d.month - 1))
  }

  class Date {
    var year: int
    var month: int
    var day: int

    function Value(): Ymd
      reads this
    {
      Ymd(year, month, day)
    }

    constructor (myYear: int, myMonth: int, myDay: int)
      ensures Value() == Ymd(myYear, myMonth, myDay)
    {
      year, month, day := myYear, myMonth, myDay;
    }

    method Greater(rhs: Date) returns (result: bool)
      ensures result <==> Before(rhs.Value(), Value())
      ensures ValidDate(Value()) && ValidDate(rhs.Value())
              ==> (result <==> DayNumber(Value()) > DayNumber(rhs.Value()))
    {
      result := false;
      if year > rhs.year {
        result := true;
      } else if year == rhs.year {
        if month > rhs.month {
          result := true;
        } else if month == rhs.month {
          if day > rhs.day {
            result := true;
          }
        }
      }
      if ValidDate(Value()) && ValidDate(rhs.Value()) {
        DayOrder(Value(), rhs.Value());
        DayOrder(rhs.Value(), Value());
      }
    }

    method Less(rhs: Date) returns (result: bool)
      ensures result <==> Before(Value(), rhs.Value())
      ensures ValidDate(Value()) && ValidDate(rhs.Value())
              ==> (result <==> DayNumber(Value()) < DayNumber(rhs.Value()))
    {
      result := false;
      if year < rhs.year {
        result := true;
      } else if year == rhs.year {
        if month < rhs.month {
          result := true;
        } else if month == rhs.month {
          if day < rhs.day {
            result := true;
          }
        }
      }
      if ValidDate(Value()) && ValidDate(rhs.Value()) {
        DayOrder(Value(), rhs.Value());
        DayOrder(rhs.Value(), Value());
      }
    }

    method Assign(src: Date)
      modifies this
      ensures Value() == old(src.Value())
    {
      year, month, day := src.year, src.month, src.day;
    }
  }

  /** src and dest may be the same object, as in the callers' getTomorrow(d, &d). */
  method GetTomorrow(src: Date, dest: Date)
    requires 1 <= src.month <= 12
    modifies dest
    ensures dest.Value() == Tomorrow(old(src.Value()))
  {
    dest.Assign(src);
    var days := GetDays(dest.year, dest.month);
    dest.day := dest.day + 1;
    if dest.day > days {
      dest.month := dest.month + 1;
      if dest.month > MAX_MONTH {
        dest.month := MIN_MONTH;
        dest.year := dest.year + 1;
      }
      dest.day := MIN_DAY;
    }
  }

  method GetYesterday(src: Date, dest: Date)
    requires 1 <= src.month <= 12
    modifies dest
    ensures dest.Value() == Yesterday(old(src.Value()))
  {
    dest.Assign(src);
    dest.day := dest.day - 1;
    if dest.day <= 0 {
      dest.month := dest.month - 1;
      if dest.month <= 0 {
        dest.month := MAX_MONTH;
        dest.year := dest.year - 1;
      }
      dest.day := GetDays(dest.year, dest.month);
    }
  }

  /** The first day of the month after src's, found by stepping over the rest of src's month. */
  method GetNextMonth(src: Date, dest: Date)
    requires 1 <= src.month <= 12
    modifies dest
    ensures ValidDate(dest.Value()) && dest.day == 1
    ensures dest.month == old(src.month) % 12 + 1
    ensures DayNumber(dest.Value()) == DayNumber(old(src.Value())) + GetDays(old(src.year), old(src.month)) - old(src.day) + 1
  {
    var v := src.Value();
    dest.Assign(src);
    dest.month := dest.month + 1;
    if dest.month > MAX_MONTH {
      dest.month := MIN_MONTH;
      dest.year := dest.year + 1;
    }
    dest.day := MIN_DAY;
    MonthLength(v);
    DaysInMonth(v, 1);
  }

  /** The last day of the month before src's. The inner decrement of month 0 to -1 leads to
      December all the same. */
  method GetLastMonth(src: Date, dest: Date)
    requires 1 <= src.month <= 12
    modifies dest
    ensures ValidDate(dest.Value()) && dest.month == (old(src.month) + 10) % 12 + 1 && dest.day == GetDays(dest.year, dest.month)
    ensures DayNumber(dest.Value()) == DayNumber(old(src.Value())) - old(src.day)
  {
    var v := src.Value();
    dest.Assign(src);
    dest.month := dest.month - 1;
    if dest.month <= 0 {
      dest.month := dest.month - 1;
      if dest.month <= 0 {
        dest.month := MAX_MONTH;
        dest.year := dest.year - 1;
      }
    }
    dest.day := GetDays(dest.year, dest.month);
    assert dest.Value() == Yesterday(v.(day := 1));
    EndOfLastMonth(v);
  }

  lemma EndOfLastMonth(v: Ymd)
    requires 1 <= v.month <= 12
    ensures var last := Yesterday(v.(day := 1));
            && ValidDate(last) && last.day == GetDays(last.year, last.month)
            && DayNumber(last) == DayNumber(v) - v.day
  {
    YesterdayCounts(v.(day := 1));
    DaysInMonth(v, 1);
  }

  // ---------------------------------------------------------------- the day count

  lemma QuotientStep(y: int, n: int)
    requires n > 1
    ensures (y + 1) / n - y / n == if (y + 1) % n == 0 then 1 else 0
  {
    var q, r := y / n, y % n;
    if r + 1 < n {
      ModUnique(y + 1, n, q, r + 1);
    } else {
      ModUnique(y + 1, n, q + 1, 0);
    }
  }

  lemma CModZero(a: int, n: int)
    requires n > 0
    ensures CMod(a, n) == 0 <==> a % n == 0
  {
    if a < 0 {
      var q, r := (-a) / n, (-a) % n;
      assert CMod(a, n) == -r;
      if r == 0 {
        ModUnique(a, n, -q, 0);
      } else {
        ModUnique(a, n, -q - 1, n - r);
      }
    }
  }

  /** The remainders of C decide the Gregorian rule correctly for negative years too. */
  lemma LeapRule(year: int)
    ensures LeapYear(year) <==> (year % 4 == 0 && year % 100 != 0) || year % 400 == 0
  {
    CModZero(year, 4);
    CModZero(year, 100);
    CModZero(year, 400);
  }

  /** A March to February year is a day longer when its February falls in a leap year. */
  lemma YearLength(y: int)
    ensures DaysBefore(y + 1) - DaysBefore(y) == if LeapYear(y + 1) then 366 else 365
  {
    LeapRule(y + 1);
    QuotientStep(y, 4);
    QuotientStep(y, 100);
    QuotientStep(y, 400);
    if (y + 1) % 400 == 0 {
      MultipleOf(y + 1, 100, 4);
    }
    if (y + 1) % 100 == 0 {
      MultipleOf(y + 1, 4, 25);
    }
  }

  /** From March on the months have 31, 30, 31, 30, 31, 31, 30, 31, 30, 31 and 31 days. */
  lemma MonthStep(m: int)
    requires 0 <= m < 11
    ensures MonthOffset(m + 1) - MonthOffset(m) == if m == 1 || m == 3 || m == 6 || m == 8 then 30 else 31
  {
  }

  lemma MonthLength(d: Ymd)
    requires 1 <= d.month <= 12
    ensures var first := if d.month == 12 then Ymd(d.year + 1, 1, 1) else Ymd(d.year, d.month + 1, 1);
            DayNumber(first) == DayNumber(d.(day := 1)) + GetDays(d.year, d.month)
  {
    if d.month == 2 {
      YearLength(d.year - 1);
    } else {
      MonthStep(if d.month <= 2 then d.month + 9 else d.month - 3);
    }
  }

  lemma StepsAreValid(d: Ymd)
    requires ValidDate(d)
    ensures ValidDate(Tomorrow(d)) && ValidDate(Yesterday(d))
  {
  }

  lemma DaysInMonth(d: Ymd, day: int)
    ensures DayNumber(d.(day := day)) == DayNumber(d) + day - d.day
  {
  }

  /** getTomorrow keeps dates valid and moves the count on by one day. */
  lemma TomorrowCounts(d: Ymd)
    requires ValidDate(d)
    ensures ValidDate(Tomorrow(d))
    ensures DayNumber(Tomorrow(d)) == DayNumber(d) + 1
  {
    StepsAreValid(d);
    if d.day + 1 <= GetDays(d.year, d.month) {
      DaysInMonth(d, d.day + 1);
    } else {
      MonthLength(d);
      DaysInMonth(d, 1);
    }
  }

  /** getYesterday keeps dates valid and moves the count back by one day. */
  lemma YesterdayCounts(d: Ymd)
    requires ValidDate(d)
    ensures ValidDate(Yesterday(d))
    ensures DayNumber(Yesterday(d)) == DayNumber(d) - 1
  {
    StepsAreValid(d);
    if d.day > 1 {
      DaysInMonth(d, d.day - 1);
    } else {
      var p := Yesterday(d);
      DayBeforeFirst(d);
      MonthLength(p);
      DaysInMonth(p, 1);
    }
  }

  lemma DayBeforeFirst(d: Ymd)
    requires ValidDate(d) && d.day == 1
    ensures var p := Yesterday(d);
            && 1 <= p.month <= 12 && p.day == GetDays(p.year, p.month)
            && d == if p.month == 12 then Ymd(p.year + 1, 1, 1) else Ymd(p.year, p.month + 1, 1)
  {
  }

  lemma StepsAreInverse(d: Ymd)
    requires ValidDate(d)
    ensures Yesterday(Tomorrow(d)) == d
    ensures Tomorrow(Yesterday(d)) == d
  {
    StepsAreValid(d);
  }

  predicate Before(a: Ymd, b: Ymd) {
    a.year < b.year || (a.year == b.year && (a.month < b.month || (a.month == b.month && a.day < b.day)))
  }

  lemma {:induction false} YearsGrow(y: int, z: int)
    requires y <= z
    ensures 365 * (z - y) <= DayNumber(Ymd(z, 3, 1)) - DayNumber(Ymd(y, 3, 1))
    decreases z - y
  {
    if y < z {
      YearLength(y);
      YearsGrow(y + 1, z);
    }
  }

  /** A year starts where the March-based count says. */
  lemma WithinYear(d: Ymd)
    requires ValidDate(d)
    ensures DayNumber(Ymd(d.year, 1, 1)) <= DayNumber(d) < DayNumber(Ymd(d.year + 1, 1, 1))
  {
    YearLength(d.year - 1);
    MonthLength(d);
  }

  lemma YearStartsGrow(y: int, z: int)
    requires y <= z
    ensures DayNumber(Ymd(y, 1, 1)) <= DayNumber(Ymd(z, 1, 1))
  {
    YearsGrow(y - 1, z - 1);
    assert DayNumber(Ymd(y, 1, 1)) == DayNumber(Ymd(y - 1, 3, 1)) + 306;
    assert DayNumber(Ymd(z, 1, 1)) == DayNumber(Ymd(z - 1, 3, 1)) + 306;
  }

  lemma {:induction false} MonthStartsGrow(year: int, m: int, n: int)
    requires 1 <= m <= n <= 12
    ensures DayNumber(Ymd(year, m, 1)) <= DayNumber(Ymd(year, n, 1))
    decreases n - m
  {
    if m < n {
      MonthLength(Ymd(year, m, 1));
      MonthStartsGrow(year, m + 1, n);
    }
  }

  lemma WithinMonth(d: Ymd)
    requires ValidDate(d)
    ensures DayNumber(d) == DayNumber(d.(day := 1)) + d.day - 1
    ensures d.month < 12 ==> DayNumber(d) < DayNumber(Ymd(d.year, d.month + 1, 1))
  {
    MonthLength(d);
  }

  lemma BeforeCounts(a: Ymd, b: Ymd)
    requires ValidDate(a) && ValidDate(b) && Before(a, b)
    ensures DayNumber(a) < DayNumber(b)
  {
    if a.year < b.year {
      WithinYear(a);
      WithinYear(b);
      YearStartsGrow(a.year + 1, b.year);
    } else {
      WithinMonth(a);
      WithinMonth(b);
      if a.month < b.month {
        MonthStartsGrow(a.year, a.month + 1, b.month);
      }
    }
  }

  /** The lexicographic order of operator< is the order of the day count. */
  lemma DayOrder(a: Ymd, b: Ymd)
    requires ValidDate(a) && ValidDate(b)
    ensures Before(a, b) <==> DayNumber(a) < DayNumber(b)
  {
    if Before(a, b) {
      BeforeCounts(a, b);
    } else if Before(b, a) {
      BeforeCounts(b, a);
    }
  }

  /** Distinct valid dates have distinct day numbers. */
  lemma DayNumberInjective(a: Ymd, b: Ymd)
    requires ValidDate(a) && ValidDate(b)
    ensures DayNumber(a) == DayNumber(b) <==> a == b
  {
    DayOrder(a, b);
    DayOrder(b, a);
  }

  /** The date n days after d, by n calls of getTomorrow. */
  function After(d: Ymd, n: nat): Ymd
    requires ValidDate(d)
    ensures ValidDate(After(d, n))
  {
    if n == 0 then d
    else
      TomorrowCounts(After(d, n - 1));
      Tomorrow(After(d, n - 1))
  }

  lemma {:induction false} AfterCounts(d: Ymd, n: nat)
    requires ValidDate(d)
    ensures DayNumber(After(d, n)) == DayNumber(d) + n
  {
    if n > 0 {
      AfterCounts(d, n - 1);
      var e := After(d, n - 1);
      TomorrowCounts(e);
      assert After(d, n) == Tomorrow(e);
    }
  }

  /** Walking from one date to a later one: the difference of the counts is the only number of
      tomorrows that gets there. */
  lemma AfterReaches(a: Ymd, b: Ymd, n: nat)
    requires ValidDate(a) && ValidDate(b)
    ensures After(a, n) == b <==> DayNumber(b) - DayNumber(a) == n
  {
    AfterCounts(a, n);
    if DayNumber(b) - DayNumber(a) == n {
      DayNumberInjective(After(a, n), b);
    }
  }

  // ---------------------------------------------------------------- the day of the week

  /** The number getWeek reduces modulo 7, in C arithmetic. */
  function WeekSum(year: int, month: int, day: int): int
    requires 1 <= month <= 12
  {
    var y := if month <= 2 then year - 1 else year;
    var m := if month <= 2 then month + MAX_MONTH else month;
    day + CDiv(m * 13 + 8, 5) + (CDiv(y, 400) + ((y + CDiv(y, 4)) - CDiv(y, 100)))
  }

  method GetWeek(year: int, month: int, day: int) returns (r: int)
    requires 1 <= month <= 12
    ensures r == CMod(WeekSum(year, month, day), 7)
    ensures ValidDate(Ymd(year, month, day)) && year >= 1 ==> r == Weekday(Ymd(year, month, day))
  {
    var m, y := month, year;
    if m <= 2 {
      y := y - 1;
      m := m + MAX_MONTH;
    }
    var t := day + CDiv(m * 13 + 8, 5) + (CDiv(y, 400) + ((y + CDiv(y, 4)) - CDiv(y, 100)));
    r := CMod(t, 7);
    if ValidDate(Ymd(year, month, day)) && year >= 1 {
      WeekExact(Ymd(year, month, day));
    }
  }

  /** The weekday by the day count: 0 is Sunday. 1 March of year 0 was a Wednesday. */
  function Weekday(d: Ymd): (r: int)
    ensures 0 <= r < 7
  {
    (DayNumber(d) + 2) % 7
  }

  /** The two month formulas differ by a whole number of weeks and two days. */
  lemma MonthWeeks(m: int) returns (k: int)
    requires 3 <= m <= 14
    ensures (153 * (m - 3) + 2) / 5 + 2 == (13 * m + 8) / 5 + 7 * k
  {
    k := if m == 3 then -1 else if m == 4 then 3 else if m == 5 then 7 else if m == 6 then 11 else if m == 7 then 15
         else if m == 8 then 19 else if m == 9 then 23 else if m == 10 then 27 else if m == 11 then 31
         else if m == 12 then 35 else if m == 13 then 39 else 43;
  }

  /** n tomorrows shift the weekday by n modulo 7. */
  lemma WeekAdvances(d: Ymd, n: nat)
    requires ValidDate(d)
    ensures Weekday(After(d, n)) == (Weekday(d) + n) % 7
  {
    AfterCounts(d, n);
    ModAdd(DayNumber(d) + 2, n, 7);
  }

  lemma DaysInCenturies(y: int)
    ensures DaysBefore(y + 400) == DaysBefore(y) + 146097
  {
    ModShift(y, 4, 100);
    ModShift(y, 100, 4);
    ModShift(y, 400, 1);
  }

  lemma LeapRuleRepeats(year: int)
    ensures LeapYear(year + 400) == LeapYear(year)
  {
    LeapRule(year);
    LeapRule(year + 400);
    ModShift(year, 4, 100);
    ModShift(year, 100, 4);
    ModShift(year, 400, 1);
  }

  /** 400 years are 146097 days, a whole number of weeks, so the calendar repeats. */
  lemma CenturiesRepeat(d: Ymd)
    requires ValidDate(d)
    ensures ValidDate(d.(year := d.year + 400))
    ensures DayNumber(d.(year := d.year + 400)) == DayNumber(d) + 146097
    ensures Weekday(d.(year := d.year + 400)) == Weekday(d)
  {
    LeapRuleRepeats(d.year);
    DaysInCenturies(if d.month <= 2 then d.year - 1 else d.year);
    ModShift(DayNumber(d) + 2, 7, 20871);
  }

  lemma Truncated(a: int, n: int)
    requires n > 0
    ensures CDiv(a, n) == a / n + if a < 0 && a % n != 0 then 1 else 0
  {
    if a < 0 {
      var q, r := (-a) / n, (-a) % n;
      if r == 0 {
        ModUnique(a, n, -q, 0);
      } else {
        ModUnique(a, n, -q - 1, n - r);
      }
    }
  }

  /** One if some C division in getWeek rounds towards zero where the calendar rounds down. */
  function Late(y: int): int {
    if y < 0 && !LeapYear(y) then 1 else 0
  }

  lemma CenturyTerms(y: int)
    ensures CDiv(y, 400) + y + CDiv(y, 4) - CDiv(y, 100) == y / 400 + y + y / 4 - y / 100 + Late(y)
  {
    Truncated(y, 4);
    Truncated(y, 100);
    Truncated(y, 400);
    LeapRule(y);
    if y % 400 == 0 {
      MultipleOf(y, 100, 4);
    }
    if y % 100 == 0 {
      MultipleOf(y, 4, 25);
    }
  }

  lemma WeekSumCounts(d: Ymd) returns (weeks: int)
    requires ValidDate(d)
    ensures var y := if d.month <= 2 then d.year - 1 else d.year;
            DayNumber(d) + 2 == WeekSum(d.year, d.month, d.day) - Late(y) + 7 * weeks
  {
    var y := if d.month <= 2 then d.year - 1 else d.year;
    var m := if d.month <= 2 then d.month + 12 else d.month;
    var k := MonthWeeks(m);
    CenturyTerms(y);
    weeks := 52 * y + k;
  }

  lemma RemainderExact(sum: int, late: int)
    requires late == 0 || late == 1
    ensures CMod(sum, 7) == (sum - late) % 7 <==> late == 0 && (sum >= 0 || sum % 7 == 0)
  {
    Truncated(sum, 7);
    assert CMod(sum, 7) == sum % 7 - if sum < 0 && sum % 7 != 0 then 7 else 0;
    if late == 1 {
      if sum % 7 == 0 {
        ModUnique(sum - 1, 7, sum / 7 - 1, 6);
      } else {
        ModUnique(sum - 1, 7, sum / 7, sum % 7 - 1);
      }
    }
  }

  /** In a leap year before year 0 getWeek's sum is not negative exactly when the day and the days
      the month formula counts make up for the year. */
  lemma SumSign(y: int, rest: int)
    requires y < 0 && LeapYear(y) && 10 <= rest <= 69
    ensures rest + (y / 400 + y + y / 4 - y / 100) >= 0 <==> rest >= -5 * y / 4
  {
    LeapRule(y);
    if y % 400 == 0 {
      MultipleOf(y, 4, 100);
    }
    var q := y / 4;
    assert y == 4 * q;
    ModUnique(-5 * y, 4, -5 * q, 0);
    if y >= -99 {
      ModUnique(y, 100, -1, y + 100);
      ModUnique(y, 400, -1, y + 400);
    } else {
      CenturiesSmall(y);
    }
  }

  lemma CenturiesSmall(y: int)
    requires y < -99
    ensures y / 400 - y / 100 < -y / 4 - 5
  {
    assert 100 * (y / 100) > y - 100 && y / 400 < 0;
  }

  /** Exactly where getWeek is right, over all years. Counting years from March, the year is not
      negative, or it is a leap year and the day is a Sunday or late enough in one of the last
      such years (the bound is 69 at most, so it holds in no year before -52). */
  lemma WeekExact(d: Ymd)
    requires ValidDate(d)
    ensures var y := if d.month <= 2 then d.year - 1 else d.year;
            var m := if d.month <= 2 then d.month + 12 else d.month;
            CMod(WeekSum(d.year, d.month, d.day), 7) == Weekday(d)
            <==> y >= 0 || (LeapYear(y) && (Weekday(d) == 0 || d.day + (13 * m + 8) / 5 >= -5 * y / 4))
  {
    var y := if d.month <= 2 then d.year - 1 else d.year;
    var m := if d.month <= 2 then d.month + 12 else d.month;
    var sum := WeekSum(d.year, d.month, d.day);
    var weeks := WeekSumCounts(d);
    ModShift(sum - Late(y), 7, weeks);
    RemainderExact(sum, Late(y));
    if y < 0 && LeapYear(y) {
      SumSign(y, d.day + (13 * m + 8) / 5);
      CenturyTerms(y);
    } else if y >= 0 {
      CenturyTerms(y);
    }
  }
}
