/** Instants, the Gregorian calendar as datetime counts it, and soft_delete_due_at. */
module Calendar {
  import opened Wrappers

  /** Days in microseconds, and an instant's day and its clock within it. */
  function Days(n: int): (t: int) {
    n * 86400000000
  }

  function DayOf(t: int): (n: int) {
    t / 86400000000
  }

  function ClockOf(t: int): (clock: int) {
    t % 86400000000
  }

  /** Days from 0001-01-01 to 9999-12-31. */
  const DAYS: int := 3652059

  /** Microseconds since datetime.min, up to datetime.max. */
  const LAST_INSTANT: int := 315537897599999999
  type Instant = t: int | 0 <= t <= LAST_INSTANT

  /** CHINA_TIMEZONE has a fixed offset of eight hours. */
  const CHINA_OFFSET: int := 28800000000

  predicate Leap(year: int) {
    year % 4 == 0 && (year % 100 != 0 || year % 400 == 0)
  }

  function DaysInMonth(year: int, month: int): (days: int) {
    if month == 2 then (if Leap(year) then 29 else 28)
    else if month == 4 || month == 6 || month == 9 || month == 11 then 30
    else 31
  }

  /** Months are counted from January of year 1. */
  function Year(index: nat): (year: int) {
    index / 12 + 1
  }

  function Month(index: nat): (month: int) {
    index % 12 + 1
  }

  function Length(index: nat): (days: int)
    ensures 28 <= days <= 31
  {
    DaysInMonth(Year(index), Month(index))
  }

  /** The days before a month. */
  function Before(index: nat): (days: nat) {
    if index == 0 then 0 else Before(index - 1) + Length(index - 1)
  }

  /** A local date: a month and a day of it. */
  datatype Date = Date(index: nat, day: int)

  predicate Valid(d: Date) {
    1 <= d.day <= Length(d.index)
  }

  /** Whole days since 0001-01-01. */
  function DayNumber(d: Date): (n: int) {
    Before(d.index) + d.day - 1
  }

  predicate NotAfter(a: Date, b: Date) {
    a.index < b.index || (a.index == b.index && a.day <= b.day)
  }

  function DateFrom(index: nat, days: nat): (d: Date)
    ensures Valid(d) && DayNumber(d) == Before(index) + days
    decreases days
  {
    if days < Length(index) then Date(index, days + 1) else DateFrom(index + 1, days - Length(index))
  }

  /** The date of a day number. */
  function DateOf(n: nat): (d: Date)
    ensures Valid(d) && DayNumber(d) == n
  {
    DateFrom(0, n)
  }

  datatype Fault = OutOfRange

  /** Three calendar months later, on the last day of a shorter month. */
  function ThreeMonthsLater(d: Date): (due: Date) {
    var index := d.index + 3;
    Date(index, if d.day < Length(index) then d.day else Length(index))
  }

  /** soft_delete_due_at; both the shift to local time and the replaced year may leave the
      range of datetime. */
  function SoftDeleteDueAt(deletedAt: Instant): (r: Result<int, Fault>) {
    var local := deletedAt + CHINA_OFFSET;
    if local > LAST_INSTANT then Err(OutOfRange)
    else
      var due := ThreeMonthsLater(DateOf(DayOf(local)));
      if Year(due.index) > 9999 then Err(OutOfRange)
      else Ok(Days(DayNumber(due)) + ClockOf(local) - CHINA_OFFSET)
  }

  // ------------------------------------------------------------ the calendar

  lemma {:induction false} BeforeGrows(a: nat, b: nat)
    ensures a < b ==> Before(a) + Length(a) <= Before(b)
    ensures b <= a ==> Before(b) <= Before(a)
    decreases a + b
  {
    if a < b {
      BeforeGrows(a, b - 1);
    } else if b < a {
      BeforeGrows(a - 1, b);
    }
  }

  lemma Quarter(i: nat)
    ensures Before(i + 3) == Before(i) + Length(i) + Length(i + 1) + Length(i + 2)
  {
    assert Before(i + 1) == Before(i) + Length(i);
    assert Before(i + 2) == Before(i + 1) + Length(i + 1);
  }

  lemma LengthOf(year: nat, month: nat)
    requires year >= 1 && 1 <= month <= 12
    ensures Length(12 * (year - 1) + month - 1) == DaysInMonth(year, month)
  {
    assert (12 * (year - 1) + month - 1) / 12 == year - 1;
  }

  lemma TwelveMonths(year: nat)
    requires year >= 1
    ensures Before(12 * year) == Before(12 * (year - 1)) + if Leap(year) then 366 else 365
  {
    var i := 12 * (year - 1);
    LengthsOfAYear(year);
    Quarter(i);
    Quarter(i + 3);
    Quarter(i + 6);
    Quarter(i + 9);
  }

  lemma LengthsOfAYear(year: nat)
    requires year >= 1
    ensures var i := 12 * (year - 1);
            && Length(i) + Length(i + 1) + Length(i + 2) == (if Leap(year) then 91 else 90)
            && Length(i + 3) + Length(i + 4) + Length(i + 5) == 91
            && Length(i + 6) + Length(i + 7) + Length(i + 8) == 92
            && Length(i + 9) + Length(i + 10) + Length(i + 11) == 92
  {
    forall month: nat | 1 <= month <= 12
      ensures Length(12 * (year - 1) + month - 1) == DaysInMonth(year, month)
    {
      LengthOf(year, month);
    }
    var i := 12 * (year - 1);
    assert Length(i + 1 - 1) == DaysInMonth(year, 1) && Length(i + 2 - 1) == DaysInMonth(year, 2);
    assert Length(i + 3 - 1) == DaysInMonth(year, 3) && Length(i + 4 - 1) == DaysInMonth(year, 4);
    assert Length(i + 5 - 1) == DaysInMonth(year, 5) && Length(i + 6 - 1) == DaysInMonth(year, 6);
    assert Length(i + 7 - 1) == DaysInMonth(year, 7) && Length(i + 8 - 1) == DaysInMonth(year, 8);
    assert Length(i + 9 - 1) == DaysInMonth(year, 9) && Length(i + 10 - 1) == DaysInMonth(year, 10);
    assert Length(i + 11 - 1) == DaysInMonth(year, 11) && Length(i + 12 - 1) == DaysInMonth(year, 12);
  }

  /** The months add up to the proleptic Gregorian count of days before a year. */
  lemma {:induction false} YearStarts(years: nat)
    ensures Before(12 * years) == 365 * years + years / 4 - years / 100 + years / 400
  {
    if years > 0 {
      YearStarts(years - 1);
      TwelveMonths(years);
      LeapDays(years);
    }
  }

  lemma FourthDays(n: nat)
    requires n >= 1
    ensures n / 4 == (n - 1) / 4 + if n % 4 == 0 then 1 else 0
  {
  }

  lemma CenturyDays(n: nat)
    requires n >= 1
    ensures n / 100 == (n - 1) / 100 + if n % 100 == 0 then 1 else 0
  {
  }

  lemma FourCenturyDays(n: nat)
    requires n >= 1
    ensures n / 400 == (n - 1) / 400 + if n % 400 == 0 then 1 else 0
  {
  }

  lemma CenturiesAreFourths(n: nat)
    ensures n % 100 == 0 ==> n % 4 == 0
    ensures n % 400 == 0 ==> n % 100 == 0
  {
    if n % 100 == 0 {
      var q := n / 100;
      assert n == 4 * (25 * q);
    }
    if n % 400 == 0 {
      var q := n / 400;
      assert n == 100 * (4 * q);
    }
  }

  lemma LeapDays(year: nat)
    requires year >= 1
    ensures year / 4 - year / 100 + year / 400
         == (year - 1) / 4 - (year - 1) / 100 + (year - 1) / 400 + if Leap(year) then 1 else 0
  {
    FourthDays(year);
    CenturyDays(year);
    FourCenturyDays(year);
    CenturiesAreFourths(year);
  }

  /** Day numbers and dates are two names of the same thing, in the same order. */
  lemma DateOfIsTheOnlyDate(d: Date)
    requires Valid(d)
    ensures DayNumber(d) >= 0 && DateOf(DayNumber(d)) == d
  {
    DatesAreOrdered(d, DateOf(DayNumber(d)));
    DatesAreOrdered(DateOf(DayNumber(d)), d);
  }

  lemma DatesAreOrdered(a: Date, b: Date)
    requires Valid(a) && Valid(b)
    ensures DayNumber(a) <= DayNumber(b) <==> NotAfter(a, b)
  {
    BeforeGrows(a.index, b.index);
    BeforeGrows(b.index, a.index);
  }

  // ------------------------------------------------------- three months on

  function LaterLength(year: nat, month: nat, later: nat): (days: int) {
    if month + later <= 12 then DaysInMonth(year, month + later) else DaysInMonth(year + 1, month + later - 12)
  }

  lemma LengthLater(year: nat, month: nat, later: nat)
    requires year >= 1 && 1 <= month <= 12 && later <= 3
    ensures Length(12 * (year - 1) + month - 1 + later)
         == LaterLength(year, month, later)
  {
    if month + later <= 12 {
      LengthOf(year, month + later);
    } else {
      LengthOf(year + 1, month + later - 12);
    }
  }

  lemma ThreeLengths(year: nat, month: nat, day: int)
    requires year >= 1 && 1 <= month <= 12 && 1 <= day <= DaysInMonth(year, month)
    ensures var days := LaterLength(year, month, 0) + LaterLength(year, month, 1) + LaterLength(year, month, 2);
            var last := LaterLength(year, month, 3);
            89 <= days + (if day < last then day else last) - day <= 92
  {
  }

  lemma LengthAfter(i: nat, later: nat)
    requires later <= 3
    ensures Year(i) >= 1 && 1 <= Month(i) <= 12
    ensures Length(i + later) == LaterLength(Year(i), Month(i), later)
  {
    assert i == 12 * (Year(i) - 1) + Month(i) - 1;
    LengthLater(Year(i), Month(i), later);
  }

  /** Three months are 89 to 92 days, whatever the month and however short the last one. */
  lemma ThreeMonthsAreDays(d: Date)
    requires Valid(d)
    ensures Valid(ThreeMonthsLater(d)) && 89 <= DayNumber(ThreeMonthsLater(d)) - DayNumber(d) <= 92
  {
    var i := d.index;
    LengthAfter(i, 0);
    LengthAfter(i, 1);
    LengthAfter(i, 2);
    LengthAfter(i, 3);
    ThreeLengths(Year(i), Month(i), d.day);
    QuarterLater(d);
  }

  lemma QuarterLater(d: Date)
    ensures var i := d.index;
            DayNumber(ThreeMonthsLater(d)) - DayNumber(d)
            == Length(i) + Length(i + 1) + Length(i + 2)
               + (if d.day < Length(i + 3) then d.day else Length(i + 3)) - d.day
  {
    Quarter(d.index);
  }

  lemma ThreeMonthsKeepOrder(a: Date, b: Date)
    requires Valid(a) && Valid(b) && NotAfter(a, b)
    ensures NotAfter(ThreeMonthsLater(a), ThreeMonthsLater(b))
  {
  }

  function LocalDate(t: int): (d: Date)
    requires t + CHINA_OFFSET >= 0
  {
    DateOf(DayOf(t + CHINA_OFFSET))
  }

  function LocalClock(t: int): (clock: int) {
    ClockOf(t + CHINA_OFFSET)
  }

  lemma DayAndClock(day: int, clock: int)
    requires 0 <= clock < Days(1)
    ensures DayOf(Days(day) + clock) == day && ClockOf(Days(day) + clock) == clock
  {
  }

  lemma LocalSplits(t: Instant)
    ensures t == Days(DayNumber(LocalDate(t))) + LocalClock(t) - CHINA_OFFSET
    ensures Valid(LocalDate(t)) && 0 <= LocalClock(t) < Days(1)
  {
  }

  lemma LastYearEnds()
    ensures Before(119988) == DAYS
  {
    YearStarts(9999);
  }

  lemma YearEnds(d: Date)
    requires Valid(d) && Year(d.index) <= 9999
    ensures DayNumber(d) < DAYS
  {
    LastYearEnds();
    BeforeGrows(d.index, 119988);
  }

  lemma ClockOnDate(d: Date, clock: int)
    requires Valid(d) && 0 <= clock < Days(1)
    ensures 0 <= DayNumber(d)
    ensures var t := Days(DayNumber(d)) + clock;
            DateOf(DayOf(t)) == d && ClockOf(t) == clock
  {
    DayAndClock(DayNumber(d), clock);
    DateOfIsTheOnlyDate(d);
  }

  /** What is due keeps the local clock and falls on a valid date, 89 to 92 whole days
      after the deletion. */
  lemma DueInWholeDays(deletedAt: Instant)
    requires SoftDeleteDueAt(deletedAt).Ok?
    ensures var due := SoftDeleteDueAt(deletedAt).value;
            && deletedAt < due <= LAST_INSTANT
            && LocalDate(due) == ThreeMonthsLater(LocalDate(deletedAt)) && Valid(LocalDate(due))
            && LocalClock(due) == LocalClock(deletedAt)
            && var days := DayNumber(LocalDate(due)) - DayNumber(LocalDate(deletedAt));
               89 <= days <= 92 && due == deletedAt + Days(days)
  {
    var from := LocalDate(deletedAt);
    var to := ThreeMonthsLater(from);
    ThreeMonthsAreDays(from);
    LocalSplits(deletedAt);
    assert SoftDeleteDueAt(deletedAt).value == Days(DayNumber(to)) + LocalClock(deletedAt) - CHINA_OFFSET;
    YearEnds(to);
    ClockOnDate(to, LocalClock(deletedAt));
  }

  /** It fails exactly from 1 October 9999, local time, on. */
  lemma DueFailsExactlyWhen(deletedAt: Instant)
    ensures SoftDeleteDueAt(deletedAt).Err? <==> deletedAt + CHINA_OFFSET >= Days(DayNumber(Date(12 * 9998 + 9, 1)))
  {
    YearStarts(9999);
    TwelveMonths(9999);
    Quarter(12 * 9998 + 9);
    var october := Date(12 * 9998 + 9, 1);
    if deletedAt + CHINA_OFFSET <= LAST_INSTANT {
      DatesAreOrdered(october, LocalDate(deletedAt));
    }
  }

  /** Local dates keep their order. */
  lemma DueDatesKeepOrder(a: Instant, b: Instant)
    requires SoftDeleteDueAt(a).Ok? && SoftDeleteDueAt(b).Ok? && NotAfter(LocalDate(a), LocalDate(b))
    ensures NotAfter(LocalDate(SoftDeleteDueAt(a).value), LocalDate(SoftDeleteDueAt(b).value))
  {
    DueInWholeDays(a);
    DueInWholeDays(b);
    ThreeMonthsKeepOrder(LocalDate(a), LocalDate(b));
  }

  lemma SameDueDateExactlyWhen(a: Date, b: Date)
    requires Valid(a) && Valid(b)
    ensures ThreeMonthsLater(a) == ThreeMonthsLater(b)
       <==> a.index == b.index && (a.day == b.day || (a.day >= Length(a.index + 3) && b.day >= Length(a.index + 3)))
  {
  }

  /** Instants do not: of two deletions the later is due earlier exactly when both fall in
      one month, on days that its third successor does not have or has as its last, and
      the later one at an earlier clock. */
  lemma DueOrderIsLostExactlyWhen(a: Instant, b: Instant)
    requires SoftDeleteDueAt(a).Ok? && SoftDeleteDueAt(b).Ok? && a <= b
    ensures SoftDeleteDueAt(b).value < SoftDeleteDueAt(a).value
       <==> && LocalDate(a).index == LocalDate(b).index
            && LocalDate(a).day >= Length(LocalDate(a).index + 3) && LocalDate(b).day >= Length(LocalDate(a).index + 3)
            && LocalClock(b) < LocalClock(a)
  {
    var dueA, dueB := SoftDeleteDueAt(a).value, SoftDeleteDueAt(b).value;
    DueInWholeDays(a);
    DueInWholeDays(b);
    LocalSplits(a);
    LocalSplits(b);
    DatesAreOrdered(LocalDate(a), LocalDate(b));
    DueDatesKeepOrder(a, b);
    DatesAreOrdered(LocalDate(dueA), LocalDate(dueB));
    DatesAreOrdered(LocalDate(dueB), LocalDate(dueA));
    SameDueDateExactlyWhen(LocalDate(a), LocalDate(b));
  }

  /** Two deletions on the last days of a November before a common year show it. */
  lemma EndOfNovemberLosesOrder(a: Instant, b: Instant)
    requires LocalDate(b).index == LocalDate(a).index && Month(LocalDate(a).index) == 11
    requires Year(LocalDate(a).index) < 9999 && !Leap(Year(LocalDate(a).index) + 1)
    requires LocalDate(a).day == 29 && LocalDate(b).day == 30 && LocalClock(b) < LocalClock(a)
    ensures a < b && SoftDeleteDueAt(a).Ok? && SoftDeleteDueAt(b).Ok?
    ensures SoftDeleteDueAt(b).value < SoftDeleteDueAt(a).value
  {
    var i := LocalDate(a).index;
    LengthAfter(i, 3);
    assert ThreeMonthsLater(LocalDate(a)) == ThreeMonthsLater(LocalDate(b)) == Date(i + 3, 28);
    YearEnds(LocalDate(a));
    YearEnds(LocalDate(b));
    LocalSplits(a);
    LocalSplits(b);
    DueOrderIsLostExactlyWhen(a, b);
  }

  /** The months alternate between 31 and 30 days from January to July and from August to
      December, but for February. */
  lemma MonthsAlternate(index: nat)
    ensures var month, year := index % 12 + 1, index / 12 + 1;
            Length(index) == if month != 2 then 30 + (month + month / 8) % 2
                             else if year % 400 == 0 || (year % 4 == 0 && year % 100 != 0) then 29 else 28
  {
  }
}
