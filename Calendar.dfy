/**
 * The Gregorian calendar the app relies on through Foundation's `Calendar.current`, with fixed
 * 86 400-second days and no time zones. An instant (`Date`) is a valid civil day plus the second
 * within that day; instants are ordered chronologically through `Key`.
 */
module Calendar {

  const SecondsPerDay: int := 86400

  predicate IsLeapYear(y: int) {
    y % 4 == 0 && (y % 100 != 0 || y % 400 == 0)
  }

  function DaysInMonth(y: int, m: int): (n: int)
    requires 1 <= m <= 12
    ensures 28 <= n <= 31
  {
    if m == 2 then (if IsLeapYear(y) then 29 else 28)
    else if m == 4 || m == 6 || m == 9 || m == 11 then 30
    else 31
  }

  datatype CivilDay = CivilDay(year: int, month: int, day: int)

  predicate IsValidDay(c: CivilDay) {
    1 <= c.month <= 12 && 1 <= c.day <= DaysInMonth(c.year, c.month)
  }

  /** A calendar day that exists. */
  type Day = c: CivilDay | IsValidDay(c) witness CivilDay(1970, 1, 1)

  datatype Moment = Moment(day: Day, second: int)

  /** An instant: a day and the second of that day. */
  type Date = m: Moment | 0 <= m.second < SecondsPerDay witness Moment(CivilDay(1970, 1, 1), 0)

  // ---------------------------------------------------------------------------------------------
  // Chronological order

  function DayKey(c: Day): int {
    (c.year * 12 + (c.month - 1)) * 31 + (c.day - 1)
  }

  /** Orders instants chronologically: `Key(a) < Key(b)` iff `a` is earlier than `b`. */
  function Key(d: Date): int {
    DayKey(d.day) * SecondsPerDay + d.second
  }

  predicate DayBefore(a: Day, b: Day) {
    a.year < b.year
    || (a.year == b.year && a.month < b.month)
    || (a.year == b.year && a.month == b.month && a.day < b.day)
  }

  lemma DayKeyOrder(a: Day, b: Day)
    ensures DayKey(a) < DayKey(b) <==> DayBefore(a, b)
    ensures DayKey(a) == DayKey(b) <==> a == b
  {
  }

  lemma KeyOrder(a: Date, b: Date)
    ensures Key(a) < Key(b) <==> DayBefore(a.day, b.day) || (a.day == b.day && a.second < b.second)
    ensures Key(a) == Key(b) <==> a == b
  {
    DayKeyOrder(a.day, b.day);
  }

  // ---------------------------------------------------------------------------------------------
  // Moving by days

  function NextDay(c: Day): (n: Day)
    ensures DayBefore(c, n)
  {
    if c.day < DaysInMonth(c.year, c.month) then CivilDay(c.year, c.month, c.day + 1)
    else if c.month < 12 then CivilDay(c.year, c.month + 1, 1)
    else CivilDay(c.year + 1, 1, 1)
  }

  function PrevDay(c: Day): (p: Day)
    ensures DayBefore(p, c)
  {
    if c.day > 1 then CivilDay(c.year, c.month, c.day - 1)
    else if c.month > 1 then CivilDay(c.year, c.month - 1, DaysInMonth(c.year, c.month - 1))
    else CivilDay(c.year - 1, 12, 31)
  }

  /** No day lies strictly between a day and the next one. */
  lemma NextDayIsSuccessor(c: Day, x: Day)
    ensures DayBefore(c, x) <==> (x == NextDay(c) || DayBefore(NextDay(c), x))
  {
  }

  lemma NextPrevInverse(c: Day)
    ensures PrevDay(NextDay(c)) == c
    ensures NextDay(PrevDay(c)) == c
  {
  }

  /** The day `n` days after `c` (before it when `n` is negative). */
  function AddDays(c: Day, n: int): Day
    decreases if n >= 0 then n else -n
  {
    if n == 0 then c
    else if n > 0 then AddDays(NextDay(c), n - 1)
    else AddDays(PrevDay(c), n + 1)
  }

  lemma AddDaysShiftNext(c: Day, k: int)
    ensures AddDays(NextDay(c), k) == AddDays(c, k + 1)
  {
    if k < 0 {
      NextPrevInverse(c);
    }
  }

  lemma AddDaysShiftPrev(c: Day, k: int)
    ensures AddDays(PrevDay(c), k) == AddDays(c, k - 1)
  {
    if k > 0 {
      NextPrevInverse(c);
    }
  }

  lemma {:induction false} AddDaysCompose(c: Day, a: int, b: int)
    ensures AddDays(AddDays(c, a), b) == AddDays(c, a + b)
    decreases if a >= 0 then a else -a
  {
    if a > 0 {
      AddDaysCompose(NextDay(c), a - 1, b);
      AddDaysShiftNext(c, a - 1 + b);
    } else if a < 0 {
      AddDaysCompose(PrevDay(c), a + 1, b);
      AddDaysShiftPrev(c, a + 1 + b);
    }
  }

  /** Inside one month, adding days only advances the day of the month. */
  lemma {:induction false} AddDaysWithinMonth(c: Day, j: nat)
    requires c.day + j <= DaysInMonth(c.year, c.month)
    ensures AddDays(c, j) == CivilDay(c.year, c.month, c.day + j)
    decreases j
  {
    if j > 0 {
      AddDaysWithinMonth(NextDay(c), j - 1);
    }
  }

  function FirstOfNextMonth(y: int, m: int): (f: Day)
    requires 1 <= m <= 12
    ensures f.day == 1 && f.month != m
  {
    if m < 12 then CivilDay(y, m + 1, 1) else CivilDay(y + 1, 1, 1)
  }

  /** Adding days from the first of a month to a day up to four weeks into the next month. */
  lemma AddDaysFromFirst(y: int, m: int, j: nat)
    requires 1 <= m <= 12
    requires j < DaysInMonth(y, m) + 28
    ensures j < DaysInMonth(y, m) ==> AddDays(CivilDay(y, m, 1), j) == CivilDay(y, m, 1 + j)
    ensures j >= DaysInMonth(y, m) ==> AddDays(CivilDay(y, m, 1), j).month != m
  {
    var first: Day := CivilDay(y, m, 1);
    var dim := DaysInMonth(y, m);
    if j < dim {
      AddDaysWithinMonth(first, j);
    } else {
      var last: Day := CivilDay(y, m, dim);
      AddDaysWithinMonth(first, dim - 1);
      var next := FirstOfNextMonth(y, m);
      assert NextDay(last) == next;
      AddDaysCompose(first, dim - 1, 1);
      AddDaysShiftNext(last, 0);
      assert AddDays(first, dim) == next;
      AddDaysCompose(first, dim, j - dim);
      AddDaysWithinMonth(next, j - dim);
    }
  }

  // ---------------------------------------------------------------------------------------------
  // Day numbers and weekdays

  /** Leap years among years 1..n (for n >= 0; extended to all n by floor division). */
  function Leaps(n: int): int {
    n / 4 - n / 100 + n / 400
  }

  function DaysInYear(y: int): int {
    if IsLeapYear(y) then 366 else 365
  }

  function DaysBeforeYear(y: int): int {
    365 * (y - 1970) + Leaps(y - 1) - Leaps(1969)
  }

  function DaysBeforeMonth(y: int, m: int): int
    requires 1 <= m <= 12
  {
    var feb := if IsLeapYear(y) then 1 else 0;
    if m == 1 then 0
    else if m == 2 then 31
    else if m == 3 then 59 + feb
    else if m == 4 then 90 + feb
    else if m == 5 then 120 + feb
    else if m == 6 then 151 + feb
    else if m == 7 then 181 + feb
    else if m == 8 then 212 + feb
    else if m == 9 then 243 + feb
    else if m == 10 then 273 + feb
    else if m == 11 then 304 + feb
    else 334 + feb
  }

  /** Days since 1970-01-01. */
  function DayNumber(c: Day): int {
    DaysBeforeYear(c.year) + DaysBeforeMonth(c.year, c.month) + c.day - 1
  }

  lemma DivStep4(y: int)
    ensures y / 4 - (y - 1) / 4 == if y % 4 == 0 then 1 else 0
  {
  }

  lemma DivStep100(y: int)
    ensures y / 100 - (y - 1) / 100 == if y % 100 == 0 then 1 else 0
  {
  }

  lemma DivStep400(y: int)
    ensures y / 400 - (y - 1) / 400 == if y % 400 == 0 then 1 else 0
  {
  }

  lemma Mod400Divides(y: int)
    requires y % 400 == 0
    ensures y % 100 == 0
  {
    var q := y / 400;
    assert y == 100 * (4 * q);
  }

  lemma Mod100Divides(y: int)
    requires y % 100 == 0
    ensures y % 4 == 0
  {
    var q := y / 100;
    assert y == 4 * (25 * q);
  }

  lemma LeapStep(y: int)
    ensures Leaps(y) - Leaps(y - 1) == if IsLeapYear(y) then 1 else 0
  {
    DivStep4(y);
    DivStep100(y);
    DivStep400(y);
    if y % 400 == 0 {
      Mod400Divides(y);
      Mod100Divides(y);
    } else if y % 100 == 0 {
      Mod100Divides(y);
    }
  }

  lemma YearStep(y: int)
    ensures DaysBeforeYear(y + 1) == DaysBeforeYear(y) + DaysInYear(y)
  {
    LeapStep(y);
  }

  lemma NextDayNumber(c: Day)
    ensures DayNumber(NextDay(c)) == DayNumber(c) + 1
  {
    if c.day == DaysInMonth(c.year, c.month) && c.month == 12 {
      YearStep(c.year);
    }
  }

  lemma {:induction false} AddDaysNumber(c: Day, n: int)
    ensures DayNumber(AddDays(c, n)) == DayNumber(c) + n
    decreases if n >= 0 then n else -n
  {
    if n > 0 {
      NextDayNumber(c);
      AddDaysNumber(NextDay(c), n - 1);
    } else if n < 0 {
      PrevDayNumber(c);
      AddDaysNumber(PrevDay(c), n + 1);
    }
  }

  lemma PrevDayNumber(c: Day)
    ensures DayNumber(PrevDay(c)) == DayNumber(c) - 1
  {
    NextPrevInverse(c);
    NextDayNumber(PrevDay(c));
  }

  /** Foundation's weekday: 1 is Sunday, 7 is Saturday (1970-01-01 was a Thursday). */
  function Weekday(c: Day): (w: int)
    ensures 1 <= w <= 7
  {
    (DayNumber(c) + 4) % 7 + 1
  }

  lemma WeekdayAfter(c: Day, n: int)
    ensures Weekday(AddDays(c, n)) == (Weekday(c) - 1 + n) % 7 + 1
  {
    AddDaysNumber(c, n);
    var t := DayNumber(c) + 4;
    var q := t / 7;
    assert t == 7 * q + t % 7;
    assert t + n == 7 * q + (t % 7 + n);
    ModShift(t % 7 + n, q);
  }

  lemma ModShift(x: int, q: int)
    ensures (7 * q + x) % 7 == x % 7
  {
    var r := x % 7;
    var p := x / 7;
    assert x == 7 * p + r;
    assert 7 * q + x == 7 * (q + p) + r;
  }

  // ---------------------------------------------------------------------------------------------
  // Instants

  function Midnight(c: Day): (d: Date)
    ensures d.day == c && d.second == 0
  {
    Moment(c, 0)
  }

  /** `Calendar.startOfDay(for:)`. */
  function StartOfDay(d: Date): (s: Date)
    ensures s.day == d.day && Key(s) <= Key(d)
  {
    Midnight(d.day)
  }

  /** The day window `[startOfDay(d), startOfDay(d) + 1 day)` holds exactly the instants of d's day. */
  lemma DayWindow(d: Date, x: Date)
    ensures Key(StartOfDay(d)) <= Key(x) < Key(Midnight(NextDay(d.day))) <==> x.day == d.day
  {
    KeyOrder(StartOfDay(d), x);
    KeyOrder(x, Midnight(NextDay(d.day)));
    NextDayIsSuccessor(d.day, x.day);
  }

  /** `Calendar.date(byAdding: .month, value: v, to: d)`: the day is clamped to the target month. */
  function AddMonths(d: Date, v: int): (r: Date)
    ensures r.second == d.second
    ensures r.day.year * 12 + r.day.month == d.day.year * 12 + d.day.month + v
    ensures r.day.day == if d.day.day <= DaysInMonth(r.day.year, r.day.month) then d.day.day
                         else DaysInMonth(r.day.year, r.day.month)
  {
    var idx := d.day.year * 12 + (d.day.month - 1) + v;
    var y := idx / 12;
    var m := idx % 12 + 1;
    var dim := DaysInMonth(y, m);
    Moment(CivilDay(y, m, if d.day.day <= dim then d.day.day else dim), d.second)
  }

  /** `Date.startOfMonth()`: midnight of the first day of d's month. */
  function StartOfMonth(d: Date): (s: Date)
    ensures s.day.year == d.day.year && s.day.month == d.day.month
    ensures s.day.day == 1 && s.second == 0
    ensures Key(s) <= Key(d)
  {
    Midnight(CivilDay(d.day.year, d.day.month, 1))
  }

  lemma StartOfMonthIdempotent(d: Date)
    ensures StartOfMonth(StartOfMonth(d)) == StartOfMonth(d)
  {
  }

  /** `Date.endOfMonth()`: start of month plus one month minus one day. */
  function EndOfMonth(d: Date): Date {
    var next := AddMonths(StartOfMonth(d), 1);
    Midnight(AddDays(next.day, -1))
  }

  lemma EndOfMonthIsLastDay(d: Date)
    ensures EndOfMonth(d).day == CivilDay(d.day.year, d.day.month, DaysInMonth(d.day.year, d.day.month))
    ensures EndOfMonth(d).second == 0
    ensures NextDay(EndOfMonth(d).day) == FirstOfNextMonth(d.day.year, d.day.month)
  {
    var y, m := d.day.year, d.day.month;
    var next := AddMonths(StartOfMonth(d), 1);
    assert next.day == FirstOfNextMonth(y, m);
    assert AddDays(next.day, -1) == PrevDay(next.day);
    NextPrevInverse(next.day);
  }

  predicate IsSameDay(a: Date, b: Date) {
    a.day == b.day
  }

  predicate IsSameMonth(a: Date, b: Date) {
    a.day.year == b.day.year && a.day.month == b.day.month
  }

  lemma SameDayAndMonthAreEquivalences(a: Date, b: Date, c: Date)
    ensures IsSameDay(a, a) && IsSameMonth(a, a)
    ensures IsSameDay(a, b) == IsSameDay(b, a) && IsSameMonth(a, b) == IsSameMonth(b, a)
    ensures IsSameDay(a, b) && IsSameDay(b, c) ==> IsSameDay(a, c)
    ensures IsSameDay(a, b) ==> IsSameMonth(a, b)
  {
  }

  /** The month window `[startOfMonth(m), startOfMonth(m) + 1 month)` holds exactly m's month. */
  lemma MonthWindow(m: Date, x: Date)
    ensures Key(StartOfMonth(m)) <= Key(x) < Key(AddMonths(StartOfMonth(m), 1)) <==> IsSameMonth(x, m)
  {
    var s := StartOfMonth(m);
    var e := AddMonths(s, 1);
    assert e.day == FirstOfNextMonth(m.day.year, m.day.month);
    KeyOrder(s, x);
    KeyOrder(x, e);
  }
}
