/** The proleptic Gregorian calendar that Go's time package shows to cron:
    days are numbered from 1 January of year 0. */
module Calendar {

  predicate Leap(y: int) {
    y % 4 == 0 && (y % 100 != 0 || y % 400 == 0)
  }

  /** Leap years from year 0 up to, not including, year y. */
  function LeapsBefore(y: int): int {
    (y + 3) / 4 - (y + 99) / 100 + (y + 399) / 400
  }

  function YearStart(y: int): int {
    365 * y + LeapsBefore(y)
  }

  lemma YearLength(y: int)
    ensures YearStart(y + 1) == YearStart(y) + if Leap(y) then 366 else 365
  {
    Quads(y);
    Centuries(y);
    QuadCenturies(y);
    Divisors(y);
  }

  lemma Quads(y: int)
    ensures (y + 4) / 4 - (y + 3) / 4 == if y % 4 == 0 then 1 else 0
  {
  }

  lemma Divisors(y: int)
    ensures y % 100 == 0 ==> y % 4 == 0
    ensures y % 400 == 0 ==> y % 100 == 0
  {
  }

  lemma Centuries(y: int)
    ensures (y + 100) / 100 - (y + 99) / 100 == if y % 100 == 0 then 1 else 0
  {
  }

  lemma QuadCenturies(y: int)
    ensures (y + 400) / 400 - (y + 399) / 400 == if y % 400 == 0 then 1 else 0
  {
  }

  lemma {:induction false} YearStartMonotone(y: int, z: int)
    requires y <= z
    ensures YearStart(y) + 365 * (z - y) <= YearStart(z) <= YearStart(y) + 366 * (z - y)
    decreases z - y
  {
    if y < z {
      YearLength(y);
      YearStartMonotone(y + 1, z);
    }
  }

  /** The year a day lies in: an estimate by the mean year length is off by at
      most one. */
  function YearOf(day: int): (y: int)
    ensures YearStart(y) <= day < YearStart(y + 1)
  {
    var y := (400 * day) / 146097;
    if day < YearStart(y) then y - 1 else if day >= YearStart(y + 1) then y + 1 else y
  }

  lemma YearOfUnique(day: int, y: int)
    requires YearStart(y) <= day < YearStart(y + 1)
    ensures YearOf(day) == y
  {
    var z := YearOf(day);
    if z < y { YearStartMonotone(z + 1, y); }
    if y < z { YearStartMonotone(y + 1, z); }
  }

  function MonthLength(leap: bool, m: int): (n: int)
    ensures 28 <= n <= 31
  {
    if m == 2 then if leap then 29 else 28
    else if m == 4 || m == 6 || m == 9 || m == 11 then 30
    else 31
  }

  /** Day of the year on which month m starts; month 13 is the end of the year. */
  function MonthStart(leap: bool, m: int): (n: int)
    requires 1 <= m <= 13
    ensures 28 * (m - 1) <= n <= 31 * (m - 1)
  {
    if m == 1 then 0 else MonthStart(leap, m - 1) + MonthLength(leap, m - 1)
  }

  /** The days of the year before each month. */
  const MONTH_STARTS := [0, 31, 59, 90, 120, 151, 181, 212, 243, 273, 304, 334, 365]

  lemma {:induction false} MonthTable(leap: bool, m: int)
    requires 1 <= m <= 13
    ensures MonthStart(leap, m) == MONTH_STARTS[m - 1] + if leap && m > 2 then 1 else 0
  {
    if m > 1 { MonthTable(leap, m - 1); }
  }

  lemma TwelveMonths(leap: bool)
    ensures MonthStart(leap, 13) == if leap then 366 else 365
  {
    if leap { assert MonthStart(true, 13) == 366; } else { assert MonthStart(false, 13) == 365; }
  }

  lemma {:induction false} MonthStartMonotone(leap: bool, m: int, n: int)
    requires 1 <= m < n <= 13
    ensures MonthStart(leap, m) + MonthLength(leap, m) <= MonthStart(leap, n)
    decreases n
  {
    if m + 1 < n { MonthStartMonotone(leap, m, n - 1); }
  }

  /** The month, searched upwards from m. */
  function MonthFrom(leap: bool, doy: int, m: int): (r: int)
    requires 1 <= m <= 12 && MonthStart(leap, m) <= doy < MonthStart(leap, 13)
    ensures m <= r <= 12 && MonthStart(leap, r) <= doy < MonthStart(leap, r + 1)
    decreases 12 - m
  {
    if m == 12 || doy < MonthStart(leap, m + 1) then m else MonthFrom(leap, doy, m + 1)
  }

  function DayOfYear(day: int): int {
    day - YearStart(YearOf(day))
  }

  function MonthOf(day: int): (m: int)
    ensures 1 <= m <= 12
  {
    YearLength(YearOf(day));
    TwelveMonths(Leap(YearOf(day)));
    MonthFrom(Leap(YearOf(day)), DayOfYear(day), 1)
  }

  function DayOfMonth(day: int): int {
    DayOfYear(day) - MonthStart(Leap(YearOf(day)), MonthOf(day)) + 1
  }

  /** 0 is Sunday; 1 January of year 0 is a Saturday. */
  function Weekday(day: int): (w: int)
    ensures 0 <= w <= 6
  {
    (day + 6) % 7
  }

  function DayNumber(y: int, m: int, d: int): int
    requires 1 <= m <= 12
  {
    YearStart(y) + MonthStart(Leap(y), m) + d - 1
  }

  /** 1 January 1970 was a Thursday. */
  lemma EpochWeekday()
    ensures DayNumber(1970, 1, 1) == 719528 && Weekday(719528) == 4
  {
  }

  /** The weekdays follow from that one. */
  lemma WeekdayFromEpoch(day: int)
    ensures Weekday(day) == (day - DayNumber(1970, 1, 1) + 4) % 7
  {
    EpochWeekday();
  }

  /** Reading a civil date off its day number gives the date back. */
  lemma CivilRoundTrip(y: int, m: int, d: int)
    requires 1 <= m <= 12 && 1 <= d <= MonthLength(Leap(y), m)
    ensures var n := DayNumber(y, m, d); YearOf(n) == y && MonthOf(n) == m && DayOfMonth(n) == d
  {
    var n := DayNumber(y, m, d);
    var leap := Leap(y);
    YearLength(y);
    TwelveMonths(leap);
    MonthStartMonotone(leap, m, 13);
    YearOfUnique(n, y);
    var r := MonthOf(n);
    if r < m { MonthStartMonotone(leap, r, m); }
    if m < r { MonthStartMonotone(leap, m, r); }
  }

  /** Every day is the civil date read off it. */
  lemma CivilOf(day: int)
    ensures 1 <= DayOfMonth(day) <= MonthLength(Leap(YearOf(day)), MonthOf(day))
    ensures DayNumber(YearOf(day), MonthOf(day), DayOfMonth(day)) == day
  {
    YearLength(YearOf(day));
    TwelveMonths(Leap(YearOf(day)));
  }
}
