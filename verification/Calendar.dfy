/**
 The Gregorian calendar as far as the backups need it: weekday and day of the month of a date
 given by its ordinal, and the calendar of month lengths and leap years that these must agree
 with.

 Day 1 is 1 January of year 1, counted on in the Gregorian calendar throughout.
 */
module Calendar {

  type Date = int

  // Monday is 0.
  function Weekday(d: Date): int {
    (d + 6) % 7
  }

  predicate IsSunday(d: Date) {
    Weekday(d) == 6
  }

  // Day of the month, from the ordinal: years counted from 1 March, in eras of 400 years.
  function DayOfMonth(d: Date): int {
    var dayOfEra := (d + 305) % 146097;
    var yearOfEra := YearOfEra(dayOfEra);
    var dayOfYear := dayOfEra - (365 * yearOfEra + yearOfEra / 4 - yearOfEra / 100);
    var month := (5 * dayOfYear + 2) / 153;
    dayOfYear - (153 * month + 2) / 5 + 1
  }

  function YearOfEra(dayOfEra: int): int {
    (dayOfEra - dayOfEra / 1460 + dayOfEra / 36524 - dayOfEra / 146096) / 365
  }

  predicate IsFirst(d: Date) {
    DayOfMonth(d) == 1
  }

  // ---------- the calendar ----------

  predicate Leap(y: int) {
    y % 4 == 0 && (y % 100 != 0 || y % 400 == 0)
  }

  function MonthLength(y: int, m: int): nat {
    if m == 2 then if Leap(y) then 29 else 28
    else if m == 4 || m == 6 || m == 9 || m == 11 then 30
    else 31
  }

  function DaysBeforeYear(y: nat): nat
    requires y >= 1
  {
    if y == 1 then 0 else DaysBeforeYear(y - 1) + if Leap(y - 1) then 366 else 365
  }

  function DaysBeforeMonth(y: nat, m: nat): nat
    requires 1 <= m
  {
    if m == 1 then 0 else DaysBeforeMonth(y, m - 1) + MonthLength(y, m - 1)
  }

  predicate IsDay(y: int, m: int, k: int) {
    1 <= y && 1 <= m <= 12 && 1 <= k <= MonthLength(y, m)
  }

  function Ordinal(y: nat, m: nat, k: nat): Date
    requires IsDay(y, m, k)
  {
    DaysBeforeYear(y) + DaysBeforeMonth(y, m) + k
  }

  // ---------- every date is a day of one month ----------

  // The months add up to the year.
  lemma {:induction false} YearEnds(y: nat)
    requires y >= 1
    ensures DaysBeforeMonth(y, 12) + 31 == if Leap(y) then 366 else 365
  {
    MonthsBefore(y, 12);
  }

  predicate DayIs(d: Date, y: nat, m: nat, k: nat) {
    IsDay(y, m, k) && Ordinal(y, m, k) == d
  }

  lemma {:induction false} EveryDateIsADay(d: Date)
    requires d >= 1
    ensures exists y: nat, m: nat, k: nat :: DayIs(d, y, m, k)
    decreases d
  {
    if d == 1 {
      assert DayIs(d, 1, 1, 1);
    } else {
      EveryDateIsADay(d - 1);
      var y: nat, m: nat, k: nat :| DayIs(d - 1, y, m, k);
      if k < MonthLength(y, m) {
        assert DayIs(d, y, m, k + 1);
      } else if m < 12 {
        assert DayIs(d, y, m + 1, 1);
      } else {
        YearEnds(y);
        assert DayIs(d, y + 1, 1, 1);
      }
    }
  }

  // ---------- the formula against the calendar ----------

  lemma {:induction false} DaysBeforeYearIs(y: nat)
    requires y >= 1
    ensures DaysBeforeYear(y) == 365 * (y - 1) + (y - 1) / 4 - (y - 1) / 100 + (y - 1) / 400
  {
    if y > 1 {
      DaysBeforeYearIs(y - 1);
      Quotient(y - 1, 4);
      Quotient(y - 1, 100);
      Quotient(y - 1, 400);
      LeapCounts(y - 1);
    }
  }

  lemma {:induction false} Quotient(n: nat, k: nat)
    requires n >= 1 && k >= 1
    ensures k == 4 || k == 100 || k == 400 ==> n / k == (n - 1) / k + if n % k == 0 then 1 else 0
  {
  }

  lemma {:induction false} LeapCounts(y: nat)
    ensures (if Leap(y) then 1 else 0)
            == (if y % 4 == 0 then 1 else 0) - (if y % 100 == 0 then 1 else 0) + (if y % 400 == 0 then 1 else 0)
  {
    HundredthIsFourth(y, y / 100);
    FourHundredthIsHundredth(y, y / 400);
  }

  lemma {:induction false} HundredthIsFourth(y: nat, q: nat)
    requires q == y / 100
    ensures y % 100 == 0 ==> y % 4 == 0
  {
    if y % 100 == 0 {
      Fours(25 * q, 0);
    }
  }

  lemma {:induction false} FourHundredthIsHundredth(y: nat, q: nat)
    requires q == y / 400
    ensures y % 400 == 0 ==> y % 100 == 0
  {
    if y % 400 == 0 {
      Hundreds(4 * q, 0);
    }
  }

  // With the year begun in March, all months but the last have their places fixed.
  lemma {:induction false} MonthsBefore(y: nat, m: nat)
    requires 1 <= m <= 12
    ensures m <= 2 ==> DaysBeforeMonth(y, m) == 31 * (m - 1)
    ensures m >= 3 ==> DaysBeforeMonth(y, m) == (153 * (m - 3) + 2) / 5 + if Leap(y) then 60 else 59
  {
    if m > 1 {
      MonthsBefore(y, m - 1);
    }
  }

  // Year and month counted from March: 1 March opens month 0 of its year.
  function MarchYear(y: int, m: int): int {
    if m >= 3 then y else y - 1
  }

  function MarchMonth(m: int): int {
    if m >= 3 then m - 3 else m + 9
  }

  function DayOfMarchYear(m: int, k: int): int {
    (153 * MarchMonth(m) + 2) / 5 + k - 1
  }

  lemma {:induction false} DaysSinceMarch(y: nat, m: nat, k: nat)
    requires IsDay(y, m, k)
    ensures var n := MarchYear(y, m);
            Ordinal(y, m, k) + 305 == 365 * n + n / 4 - n / 100 + n / 400 + DayOfMarchYear(m, k)
  {
    DaysBeforeYearIs(y);
    MonthsBefore(y, m);
    if m >= 3 {
      Quotient(y, 4);
      Quotient(y, 100);
      Quotient(y, 400);
      LeapCounts(y);
    }
  }

  // A year from March on is a day longer exactly when its February is of a leap year.
  lemma {:induction false} MarchYearLength(y: nat, m: nat, k: nat)
    requires IsDay(y, m, k)
    ensures 0 <= DayOfMarchYear(m, k) <= 365
    ensures DayOfMarchYear(m, k) == 365 ==> Leap(MarchYear(y, m) + 1)
  {
  }

  // In an era: century c, block b of four years, year r of the block, and day.
  lemma {:induction false} YearFound(c: int, b: int, r: int, day: int)
    requires 0 <= c <= 3 && 0 <= b <= 24 && 0 <= r <= 3 && 0 <= day <= 365
    requires day == 365 ==> r == 3 && (b < 24 || c == 3)
    ensures YearOfEra(36524 * c + 1461 * b + 365 * r + day) == 100 * c + 4 * b + r
  {
    var n := 36524 * c + 1461 * b + 365 * r + day;
    var e := 24 * c + b + 365 * r + day;
    assert n == 1460 * (25 * c + b) + e;
    assert n / 1460 == 25 * c + b + e / 1460;
    CenturyFound(c, 1461 * b + 365 * r + day);
    assert n - n / 1460 + n / 36524 - n / 146096 == 365 * (100 * c + 4 * b + r) + (day - e / 1460);
    assert 0 <= day - e / 1460 < 365;
  }

  // The last day of the era alone would count as a fifth century.
  lemma {:induction false} CenturyFound(c: int, day: int)
    requires 0 <= c <= 3 && 0 <= day <= 36524 && (day == 36524 ==> c == 3)
    ensures (36524 * c + day) / 36524 - (36524 * c + day) / 146096 == c
  {
  }

  lemma {:induction false} InEra(e: int, y: int)
    requires e >= 0 && 0 <= y < 400
    ensures var n := 400 * e + y;
            n / 4 == 100 * e + y / 4 && n / 100 == 4 * e + y / 100 && n / 400 == e && n % 400 == y
    ensures Leap(400 * e + y + 1) <==> Leap(y + 1)
  {
    Fours(100 * e, y);
    Fours(100 * e, y + 1);
    Hundreds(4 * e, y);
    Hundreds(4 * e, y + 1);
    FourHundreds(e, y);
    FourHundreds(e, y + 1);
  }

  lemma {:induction false} Fours(q: int, a: int)
    ensures (4 * q + a) / 4 == q + a / 4 && (4 * q + a) % 4 == a % 4
  {
  }

  lemma {:induction false} Hundreds(q: int, a: int)
    ensures (100 * q + a) / 100 == q + a / 100 && (100 * q + a) % 100 == a % 100
  {
  }

  lemma {:induction false} FourHundreds(q: int, a: int)
    ensures (400 * q + a) / 400 == q + a / 400 && (400 * q + a) % 400 == a % 400
  {
  }

  lemma {:induction false} InCentury(y: int, day: int)
    requires 0 <= y < 400 && 0 <= day <= 365 && (day == 365 ==> Leap(y + 1))
    ensures var c, b, r := y / 100, y % 100 / 4, y % 4;
            && y == 100 * c + 4 * b + r && y / 4 == 25 * c + b
            && 0 <= c <= 3 && 0 <= b <= 24 && 0 <= r <= 3
            && (day == 365 ==> r == 3 && (b < 24 || c == 3))
  {
  }

  lemma {:induction false} EraDropped(e: int, dayOfEra: int)
    requires 0 <= dayOfEra < 146097
    ensures (146097 * e + dayOfEra) % 146097 == dayOfEra
  {
  }

  lemma {:induction false} EraFound(e: int, y: int, day: int)
    requires e >= 0 && 0 <= y < 400 && 0 <= day <= 365 && (day == 365 ==> Leap(y + 1))
    ensures var n := 400 * e + y;
            var dayOfEra := (365 * n + n / 4 - n / 100 + n / 400 + day) % 146097;
            dayOfEra == 365 * y + y / 4 - y / 100 + day && YearOfEra(dayOfEra) == y
  {
    var c, b, r := y / 100, y % 100 / 4, y % 4;
    var dayOfEra := 365 * y + y / 4 - y / 100 + day;
    InEra(e, y);
    InCentury(y, day);
    assert dayOfEra == 36524 * c + 1461 * b + 365 * r + day;
    EraDropped(e, dayOfEra);
    YearFound(c, b, r, day);
  }

  lemma {:induction false} MonthFound(y: int, m: int, k: int)
    requires IsDay(y, m, k)
    ensures var day := DayOfMarchYear(m, k);
            var month := (5 * day + 2) / 153;
            month == MarchMonth(m) && day - (153 * month + 2) / 5 + 1 == k
  {
  }

  // The day of a year from March on gives month and day of the month.
  lemma {:induction false} FoundInMarchYear(d: Date, n: int, day: int)
    requires n >= 0 && 0 <= day <= 365 && (day == 365 ==> Leap(n + 1))
    requires d + 305 == 365 * n + n / 4 - n / 100 + n / 400 + day
    ensures DayOfMonth(d) == day - (153 * ((5 * day + 2) / 153) + 2) / 5 + 1
  {
    var e, y := n / 400, n % 400;
    assert n == 400 * e + y;
    InEra(e, y);
    EraFound(e, y, day);
  }

  // The formula gives every day of the calendar its day of the month.
  lemma {:induction false} DayOfMonthIs(y: nat, m: nat, k: nat)
    requires IsDay(y, m, k)
    ensures DayOfMonth(Ordinal(y, m, k)) == k
  {
    DaysSinceMarch(y, m, k);
    MarchYearLength(y, m, k);
    FoundInMarchYear(Ordinal(y, m, k), MarchYear(y, m), DayOfMarchYear(m, k));
    MonthFound(y, m, k);
  }

  // A date is a first of the month exactly when the calendar says so.
  lemma {:induction false} FirstsAre(d: Date)
    requires d >= 1
    ensures IsFirst(d) <==> exists y, m :: IsFirstOf(d, y, m)
  {
    EveryDateIsADay(d);
    var y: nat, m: nat, k: nat :| DayIs(d, y, m, k);
    DayOfMonthIs(y, m, k);
    if IsFirst(d) {
      assert IsFirstOf(d, y, m);
    }
    forall y', m' | IsFirstOf(d, y', m') ensures IsFirst(d) {
      DayOfMonthIs(y', m', 1);
    }
  }

  predicate IsFirstOf(d: Date, y: nat, m: nat) {
    IsDay(y, m, 1) && d == Ordinal(y, m, 1)
  }

  // Weekdays, tied to a day everyone knows: 1 January 1970 was a Thursday, and every week has
  // seven days; so 4 January 1970 and every seventh day from it are the Sundays.
  lemma {:induction false} WeekdaysAre(d: Date, y: nat)
    requires y == 1970
    ensures Weekday(Ordinal(y, 1, 1)) == 3
    ensures Weekday(d) == (3 + d - Ordinal(y, 1, 1)) % 7
    ensures IsSunday(d) <==> (d - Ordinal(y, 1, 4)) % 7 == 0
  {
    YearStarts(y);
    assert Ordinal(y, 1, 1) == 719163 && Ordinal(y, 1, 4) == 719166;
    SevenApart(d, 719163);
  }

  lemma {:induction false} YearStarts(y: nat)
    requires y >= 1
    ensures Ordinal(y, 1, 1) == 365 * (y - 1) + (y - 1) / 4 - (y - 1) / 100 + (y - 1) / 400 + 1
  {
    DaysBeforeYearIs(y);
    MonthsBefore(y, 1);
  }

  lemma {:induction false} SevenApart(d: Date, thursday: Date)
    requires Weekday(thursday) == 3
    ensures Weekday(d) == (3 + d - thursday) % 7
  {
    var weeks := (thursday + 6) / 7;
    assert thursday + 6 == 7 * weeks + 3;
    assert d + 6 == 3 + d - thursday + 7 * weeks;
  }

  // ---------- months in a row ----------

  // The first day of the i-th month since January of year 1.
  function MonthStart(i: nat): Date {
    Ordinal(i / 12 + 1, i % 12 + 1, 1)
  }

  lemma {:induction false} NextMonth(i: nat)
    ensures MonthStart(i + 1) == MonthStart(i) + MonthLength(i / 12 + 1, i % 12 + 1)
  {
    var y, m := i / 12 + 1, i % 12 + 1;
    if m < 12 {
      assert (i + 1) / 12 == i / 12 && (i + 1) % 12 == i % 12 + 1;
    } else {
      assert (i + 1) / 12 == i / 12 + 1 && (i + 1) % 12 == 0;
      YearEnds(y);
    }
  }

  lemma {:induction false} MonthsRise(i: nat, j: nat)
    requires i < j
    ensures MonthStart(i) < MonthStart(j)
    decreases j
  {
    NextMonth(j - 1);
    if i < j - 1 {
      MonthsRise(i, j - 1);
    }
  }

  lemma {:induction false} FirstIsMonthStart(d: Date) returns (i: nat)
    requires d >= 1 && IsFirst(d)
    ensures MonthStart(i) == d
  {
    EveryDateIsADay(d);
    var y: nat, m: nat, k: nat :| DayIs(d, y, m, k);
    DayOfMonthIs(y, m, k);
    i := 12 * (y - 1) + (m - 1);
    assert i / 12 == y - 1 && i % 12 == m - 1;
  }

  lemma {:induction false} MonthStartIsFirst(i: nat)
    ensures IsFirst(MonthStart(i)) && MonthStart(i) >= 1
  {
    DayOfMonthIs(i / 12 + 1, i % 12 + 1, 1);
  }
}
