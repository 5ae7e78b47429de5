/** From which cron specifications the search always succeeds, from which it
    never does, and what lies between. */
module CronFiring {
  import opened Text
  import opened Calendar
  import opened Cron

  predicate Fires(f: Fields, off: int, after: int, k: int) {
    after / MINUTE < k <= (after + WINDOW) / MINUTE && Due(f, off, k)
  }

  /** A listed day exists in a listed month of a year of the given kind. */
  predicate DayExists(f: Fields, leap: bool, m: int, d: int) {
    1 <= m <= 12 && Contains(f.month, m) && Contains(f.dayOfMonth, d) && 1 <= d <= MonthLength(leap, m)
  }

  /** The specifications that fire every year. */
  ghost predicate Yearly(f: Fields) {
    f.dayOfWeek.Some? || f.dayOfMonth.None? || exists m, d :: DayExists(f, false, m, d)
  }

  /** The specifications that no date satisfies. */
  ghost predicate Impossible(f: Fields) {
    f.dayOfWeek.None? && f.dayOfMonth.Some? && forall m, d :: !DayExists(f, true, m, d)
  }

  function Pick(vals: Values, default: int): int {
    if vals.Some? && vals.value != [] then vals.value[0] else default
  }

  lemma PickFits(vals: Values, min: int, max: int)
    requires InRange(vals, min, max) && min <= max
    ensures Contains(vals, Pick(vals, min)) && min <= Pick(vals, min) <= max
  {
  }

  /** The first listed minute of a given local day. */
  function FirstMinute(f: Fields, day: int): int {
    day * 1440 + Pick(f.hour, 0) * 60 + Pick(f.minute, 0)
  }

  lemma FirstMinuteDue(f: Fields, day: int, t: int)
    requires Accepted(f) && Contains(f.month, MonthOf(day)) && DayMatches(f, day)
    requires t == FirstMinute(f, day)
    ensures CronMatches(f, t)
    ensures day * 1440 <= t < (day + 1) * 1440
  {
    PickFits(f.hour, 0, 23);
    PickFits(f.minute, 0, 59);
    MinuteParts(day, Pick(f.hour, 0), Pick(f.minute, 0), t);
  }

  lemma MinuteParts(day: int, h: int, m: int, t: int)
    requires 0 <= h < 24 && 0 <= m < 60 && t == day * 1440 + h * 60 + m
    ensures t % 60 == m && t / 60 % 24 == h && t / 1440 == day
  {
    assert t / 60 == day * 24 + h;
  }

  /** A matching day in a year gives a firing, if the window reaches the end of that year. */
  lemma FiringOnDay(f: Fields, off: int, after: int, day: int) returns (k: int)
    requires Accepted(f) && Contains(f.month, MonthOf(day)) && DayMatches(f, day)
    requires var today := (after / MINUTE + off) / 1440; today < day < today + WINDOW_DAYS
    ensures Fires(f, off, after, k)
  {
    var t := FirstMinute(f, day);
    k := t - off;
    FirstMinuteDue(f, day, t);
    FiresAt(f, off, after, k, t, day);
  }

  lemma FiresAt(f: Fields, off: int, after: int, k: int, t: int, day: int)
    requires CronMatches(f, t) && t == k + off && day * 1440 <= t < (day + 1) * 1440
    requires var today := (after / MINUTE + off) / 1440; today < day < today + WINDOW_DAYS
    ensures Fires(f, off, after, k)
  {
    WindowReaches(after, off, day, k);
  }

  lemma WindowReaches(after: int, off: int, day: int, k: int)
    requires var today := (after / MINUTE + off) / 1440; today < day < today + WINDOW_DAYS
    requires day * 1440 <= k + off < (day + 1) * 1440
    ensures after / MINUTE < k <= (after + WINDOW) / MINUTE
  {
    assert (after + WINDOW) / MINUTE == after / MINUTE + WINDOW_DAYS * 1440;
  }

  lemma WeekdayInMonth(f: Fields, y: int) returns (day: int)
    requires Accepted(f) && f.dayOfWeek.Some?
    ensures YearStart(y) <= day < YearStart(y + 1)
    ensures Contains(f.month, MonthOf(day)) && Contains(f.dayOfWeek, Weekday(day))
  {
    var m, w := Pick(f.month, 1), Pick(f.dayOfWeek, 0);
    PickFits(f.month, 1, 12);
    PickFits(f.dayOfWeek, 0, 6);
    var first := DayNumber(y, m, 1);
    var k := DaysUntil(first, w);
    var date := 1 + k;
    day := DayNumber(y, m, date);
    assert day == first + k;
    OnDate(y, m, date);
  }

  /** Every weekday occurs among any seven days. */
  lemma DaysUntil(first: int, w: int) returns (k: int)
    requires 0 <= w <= 6
    ensures 0 <= k <= 6 && Weekday(first + k) == w
  {
    k := (w - Weekday(first)) % 7;
  }

  /** A matching day of year y, for a specification that fires every year. */
  lemma YearlyDay(f: Fields, y: int) returns (day: int)
    requires Accepted(f) && Yearly(f)
    ensures YearStart(y) <= day < YearStart(y + 1)
    ensures Contains(f.month, MonthOf(day)) && DayMatches(f, day)
  {
    if f.dayOfWeek.Some? {
      day := WeekdayInMonth(f, y);
    } else if f.dayOfMonth.None? {
      var m := Pick(f.month, 1);
      PickFits(f.month, 1, 12);
      day := DayNumber(y, m, 1);
      OnDate(y, m, 1);
    } else {
      var m, d :| DayExists(f, false, m, d);
      day := DayNumber(y, m, d);
      OnDate(y, m, d);
    }
  }

  lemma OnDate(y: int, m: int, d: int)
    requires 1 <= m <= 12 && 1 <= d <= MonthLength(false, m)
    ensures var day := DayNumber(y, m, d);
      YearStart(y) <= day < YearStart(y + 1) && MonthOf(day) == m && DayOfMonth(day) == d
  {
    CivilRoundTrip(y, m, d);
  }

  lemma DayNextYear(f: Fields, today: int) returns (day: int)
    requires Accepted(f) && Yearly(f)
    ensures today < day < today + WINDOW_DAYS && Contains(f.month, MonthOf(day)) && DayMatches(f, day)
  {
    var y := YearOf(today);
    var next := y + 1;
    day := YearlyDay(f, next);
    NextYearIsNear(today, y, day);
  }

  lemma YearlyFires(f: Fields, off: int, after: int) returns (k: int)
    requires Accepted(f) && Yearly(f)
    ensures Fires(f, off, after, k)
  {
    var today := (after / MINUTE + off) / 1440;
    var day := DayNextYear(f, today);
    k := FiringOnDay(f, off, after, day);
  }

  lemma NextYearIsNear(today: int, y: int, day: int)
    requires YearStart(y) <= today < YearStart(y + 1) <= day < YearStart(y + 1 + 1)
    ensures today < day < today + WINDOW_DAYS
  {
    YearStartMonotone(y, y + 2);
  }

  /** The four years 2097 to 2100 have no leap day and fill the whole window. */
  lemma FourPlainYears(day: int)
    requires YearStart(2097) <= day <= YearStart(2097) + WINDOW_DAYS
    ensures !Leap(YearOf(day))
  {
    YearLength(2097);
    YearLength(2098);
    YearLength(2099);
    YearLength(2100);
    YearLength(2101);
    if day < YearStart(2098) { YearOfUnique(day, 2097); }
    else if day < YearStart(2099) { YearOfUnique(day, 2098); }
    else if day < YearStart(2100) { YearOfUnique(day, 2099); }
    else if day < YearStart(2101) { YearOfUnique(day, 2100); }
    else { YearOfUnique(day, 2101); }
  }

  /** Local midnight on 1 January 2097. */
  function PlainStart(off: int): int {
    (YearStart(2097) * 1440 - off) * MINUTE
  }

  lemma NotYearlyMisses(f: Fields, off: int, k: int)
    requires Accepted(f) && !Yearly(f)
    ensures !Fires(f, off, PlainStart(off), k)
  {
    if Fires(f, off, PlainStart(off), k) {
      var day := (k + off) / 1440;
      PlainWindow(off, k);
      FourPlainYears(day);
      CivilOf(day);
      assert DayExists(f, false, MonthOf(day), DayOfMonth(day));
    }
  }

  lemma PlainWindow(off: int, k: int)
    requires PlainStart(off) / MINUTE < k <= (PlainStart(off) + WINDOW) / MINUTE
    ensures YearStart(2097) <= (k + off) / 1440 <= YearStart(2097) + WINDOW_DAYS
  {
    var base := YearStart(2097) * 1440;
    assert PlainStart(off) / MINUTE == base - off;
    assert (PlainStart(off) + WINDOW) / MINUTE == base - off + WINDOW_DAYS * 1440;
  }

  lemma NoneMeansNoFiring(f: Fields, off: int, after: int)
    ensures NoneDue(DueAt(f, off), after) <==> forall k :: !Fires(f, off, after, k)
  {
    if forall k :: !Fires(f, off, after, k) {
      forall k | after / MINUTE < k <= (after + WINDOW) / MINUTE ensures !DueAt(f, off)(k) {
        assert !Fires(f, off, after, k);
      }
    }
    if NoneDue(DueAt(f, off), after) {
      forall k ensures !Fires(f, off, after, k) {
        assert DueAt(f, off)(k) == Due(f, off, k);
      }
    }
  }

  /** The search succeeds from every instant exactly for the specifications that
      constrain the day of week, leave the day of month free, or list a day that
      exists in a listed month of every year. */
  lemma AlwaysFiresTheorem(f: Fields, off: int)
    requires Accepted(f)
    ensures (forall after :: !NoneDue(DueAt(f, off), after)) <==> Yearly(f)
  {
    if Yearly(f) {
      forall after ensures !NoneDue(DueAt(f, off), after) {
        var k := YearlyFires(f, off, after);
        NoneMeansNoFiring(f, off, after);
      }
    } else {
      forall k ensures !Fires(f, off, PlainStart(off), k) { NotYearlyMisses(f, off, k); }
      NoneMeansNoFiring(f, off, PlainStart(off));
    }
  }

  lemma {:induction false} LeapDayFires(f: Fields, off: int, m: int, d: int) returns (after: int, k: int)
    requires Accepted(f) && f.dayOfWeek.None? && DayExists(f, true, m, d)
    ensures Fires(f, off, after, k)
  {
    var day := DayNumber(2000, m, d);
    CivilRoundTrip(2000, m, d);
    after := ((day - 1) * 1440 - off) * MINUTE;
    assert (after / MINUTE + off) / 1440 == day - 1;
    k := FiringOnDay(f, off, after, day);
  }

  lemma DueDayExists(f: Fields, minute: int)
    requires CronMatches(f, minute) && f.dayOfWeek.None?
    ensures DayExists(f, true, MonthOf(minute / 1440), DayOfMonth(minute / 1440))
  {
    CivilOf(minute / 1440);
  }

  /** The search fails from every instant exactly for the specifications whose
      day and month lists name no date of any year, with a free day of week. */
  lemma NeverFiresTheorem(f: Fields, off: int)
    requires Accepted(f)
    ensures (forall after :: NoneDue(DueAt(f, off), after)) <==> Impossible(f)
  {
    if Impossible(f) {
      forall after ensures NoneDue(DueAt(f, off), after) {
        forall k ensures !Fires(f, off, after, k) {
          if Fires(f, off, after, k) { DueDayExists(f, k + off); }
        }
        NoneMeansNoFiring(f, off, after);
      }
    } else if Yearly(f) {
      var k := YearlyFires(f, off, 0);
      NoneMeansNoFiring(f, off, 0);
    } else {
      var m, d :| DayExists(f, true, m, d);
      var after, k := LeapDayFires(f, off, m, d);
      NoneMeansNoFiring(f, off, after);
    }
  }

  /** Whatever sometimes fires and sometimes misses the window lists, of all
      dates that exist, 29 February only. */
  lemma OnlyLeapDays(f: Fields, m: int, d: int)
    requires !Yearly(f) && DayExists(f, true, m, d)
    ensures m == 2 && d == 29
  {
    assert !DayExists(f, false, m, d);
  }

  /** "0 0 29 2 *" searched from the start of 2097 misses: the next leap day is in 2104. */
  lemma LeapDayMiss()
    ensures var f := Fields(Some([0]), Some([0]), Some([29]), Some([2]), None);
      Accepted(f) && !Impossible(f) && NoneDue(DueAt(f, 0), PlainStart(0))
  {
    var f := Fields(Some([0]), Some([0]), Some([29]), Some([2]), None);
    assert DayExists(f, true, 2, 29);
    forall m, d ensures !DayExists(f, false, m, d) {
    }
    forall k ensures !Fires(f, 0, PlainStart(0), k) { NotYearlyMisses(f, 0, k); }
    NoneMeansNoFiring(f, 0, PlainStart(0));
  }
}
