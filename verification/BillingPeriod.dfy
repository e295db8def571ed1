/** Billing periods in the Gregorian calendar. */
module BillingPeriod {

  predicate IsLeap(year: int) {
    year % 4 == 0 && (year % 100 != 0 || year % 400 == 0)
  }

  function DaysIn(year: int, month: int): (days: int)
    ensures 28 <= days <= 31
  {
    if month == 2 then (if IsLeap(year) then 29 else 28)
    else if month in {4, 6, 9, 11} then 30
    else 31
  }

  const FIRST_YEAR := 1

  datatype Date = Date(year: int, month: int, day: int) {
    predicate Valid() {
      year >= FIRST_YEAR && 1 <= month <= 12 && 1 <= day <= DaysIn(year, month)
    }

    predicate Before(other: Date) {
      year < other.year || (year == other.year && (month < other.month || (month == other.month && day < other.day)))
    }

    predicate NotAfter(other: Date) {
      this == other || Before(other)
    }

    function Tomorrow(): Date {
      if day < DaysIn(year, month) then Date(year, month, day + 1)
      else if month < 12 then Date(year, month + 1, 1)
      else Date(year + 1, 1, 1)
    }
  }

  /** A billing day a month does not have falls on its last day. */
  function DayInMonth(day: int, year: int, month: int): int {
    if day < DaysIn(year, month) then day else DaysIn(year, month)
  }

  /** The plain counter has no period; the calendar has no year zero. */
  datatype Start = NoPeriod | Begins(date: Date) | OutOfRange

  function PeriodStart(day: int, today: Date): Start {
    if day <= 0 then NoPeriod
    else if today.day >= DayInMonth(day, today.year, today.month) then
      Begins(Date(today.year, today.month, DayInMonth(day, today.year, today.month)))
    else
      var year := if today.month == 1 then today.year - 1 else today.year;
      var month := if today.month == 1 then 12 else today.month - 1;
      if year < FIRST_YEAR then OutOfRange
      else Begins(Date(year, month, DayInMonth(day, year, month)))
  }

  // --- The promises --------------------------------------------------------

  /** A day on which a period can begin. */
  predicate IsBillingDate(day: int, date: Date) {
    date.Valid() && date.day == DayInMonth(day, date.year, date.month)
  }

  /** The billing date of the month after this one. */
  function NextStart(day: int, start: Date): Date {
    var year := if start.month == 12 then start.year + 1 else start.year;
    var month := if start.month == 12 then 1 else start.month + 1;
    Date(year, month, DayInMonth(day, year, month))
  }

  /** The periods tile the calendar: a date belongs to exactly the period that begins on
      or before it and whose successor begins after it. */
  lemma PeriodsTile(day: int, today: Date, start: Date)
    requires day >= 1 && today.Valid() && IsBillingDate(day, start)
    ensures PeriodStart(day, today) == Begins(start) <==> start.NotAfter(today) && today.Before(NextStart(day, start))
  {
  }

  /** Every date has its period, but for the days before the first billing date there is. */
  lemma EveryDateHasAPeriod(day: int, today: Date)
    requires day >= 1 && today.Valid()
    ensures var start := PeriodStart(day, today);
            if today.year == FIRST_YEAR && today.month == 1 && today.day < DayInMonth(day, today.year, today.month) then start == OutOfRange
            else start.Begins? && IsBillingDate(day, start.date) && start.date.NotAfter(today)
                 && today.Before(NextStart(day, start.date)) && IsBillingDate(day, NextStart(day, start.date))
  {
  }

  /** A later date never has an earlier start. */
  lemma StartIsMonotone(day: int, earlier: Date, later: Date)
    requires day >= 1 && earlier.Valid() && later.Valid() && earlier.NotAfter(later)
    requires PeriodStart(day, earlier).Begins?
    ensures PeriodStart(day, later).Begins?
    ensures PeriodStart(day, earlier).date.NotAfter(PeriodStart(day, later).date)
  {
    EveryDateHasAPeriod(day, earlier);
    EveryDateHasAPeriod(day, later);
  }

  lemma TomorrowIsNext(today: Date)
    requires today.Valid()
    ensures today.Tomorrow().Valid() && today.Before(today.Tomorrow())
    ensures forall date: Date :: date.Valid() && today.Before(date) ==> today.Tomorrow().NotAfter(date)
  {
  }

  // --- The calendar --------------------------------------------------------

  /** The first `months` months of a year. */
  function DaysOf(year: int, months: nat): nat {
    if months == 0 then 0 else DaysOf(year, months - 1) + DaysIn(year, months)
  }

  function DaysOfYears(from: int, years: nat): nat {
    if years == 0 then 0 else DaysOfYears(from, years - 1) + DaysOf(from + years - 1, 12)
  }

  lemma CenturyIsFourth(year: int)
    ensures year % 100 == 0 ==> year % 4 == 0
    ensures year % 400 == 0 ==> year % 100 == 0 && year % 4 == 0
  {
    if year % 400 == 0 {
      var q := year / 400;
      assert year == 100 * (4 * q) && year == 4 * (100 * q);
    }
    if year % 100 == 0 {
      assert year == 4 * (25 * (year / 100));
    }
  }

  /** The lengths of the months, and of the year: one day more where 4 divides it, but not
      where 100 does, but again where 400 does. */
  lemma MonthLengths(year: int)
    ensures forall month | month in {1, 3, 5, 7, 8, 10, 12} :: DaysIn(year, month) == 31
    ensures forall month | month in {4, 6, 9, 11} :: DaysIn(year, month) == 30
    ensures year % 4 != 0 ==> DaysIn(year, 2) == 28
    ensures year % 4 == 0 && year % 100 != 0 ==> DaysIn(year, 2) == 29
    ensures year % 100 == 0 && year % 400 != 0 ==> DaysIn(year, 2) == 28
    ensures year % 400 == 0 ==> DaysIn(year, 2) == 29
    ensures DaysOf(year, 12) == 337 + DaysIn(year, 2)
  {
    hide DaysOf;
    CenturyIsFourth(year);
    MonthsAdd(year);
  }

  lemma MonthsAdd(year: int)
    ensures DaysOf(year, 12) == DaysIn(year, 1) + DaysIn(year, 2) + DaysIn(year, 3) + DaysIn(year, 4)
      + DaysIn(year, 5) + DaysIn(year, 6) + DaysIn(year, 7) + DaysIn(year, 8)
      + DaysIn(year, 9) + DaysIn(year, 10) + DaysIn(year, 11) + DaysIn(year, 12)
  {
    hide DaysIn;
    assert DaysOf(year, 1) == DaysIn(year, 1);
    assert DaysOf(year, 2) == DaysOf(year, 1) + DaysIn(year, 2);
    assert DaysOf(year, 3) == DaysOf(year, 2) + DaysIn(year, 3);
    assert DaysOf(year, 4) == DaysOf(year, 3) + DaysIn(year, 4);
    assert DaysOf(year, 5) == DaysOf(year, 4) + DaysIn(year, 5);
    assert DaysOf(year, 6) == DaysOf(year, 5) + DaysIn(year, 6);
    assert DaysOf(year, 7) == DaysOf(year, 6) + DaysIn(year, 7);
    assert DaysOf(year, 8) == DaysOf(year, 7) + DaysIn(year, 8);
    assert DaysOf(year, 9) == DaysOf(year, 8) + DaysIn(year, 9);
    assert DaysOf(year, 10) == DaysOf(year, 9) + DaysIn(year, 10);
    assert DaysOf(year, 11) == DaysOf(year, 10) + DaysIn(year, 11);
    assert DaysOf(year, 12) == DaysOf(year, 11) + DaysIn(year, 12);
  }

  lemma {:induction false} DaysOfYearsAdd(from: int, years: nat, more: nat)
    ensures DaysOfYears(from, years + more) == DaysOfYears(from, years) + DaysOfYears(from + years, more)
  {
    if more > 0 {
      DaysOfYearsAdd(from, years, more - 1);
      assert from + years + more - 1 == from + (years + more) - 1;
    }
  }

  /** A century from a year that 100 divides. */
  lemma {:induction false} YearsFrom(from: int, years: nat)
    requires from % 100 == 0 && years <= 100
    ensures DaysOfYears(from, years)
            == 365 * years + (years + 3) / 4 - (if years > 0 && from % 400 != 0 then 1 else 0)
  {
    if years > 0 {
      YearsFrom(from, years - 1);
      MonthLengths(from + years - 1);
      InCentury(from, years - 1);
      hide DaysIn;
    }
  }

  lemma InCentury(from: int, k: int)
    requires from % 100 == 0 && 0 <= k < 100
    ensures (from + k) % 100 == k && (from + k) % 4 == k % 4
    ensures (k + 4) / 4 == (k + 3) / 4 + (if k % 4 == 0 then 1 else 0)
  {
    var q := from / 100;
    Multiple(q, k, 100);
    Multiple(25 * q, k, 4);
    assert 4 * (25 * q) == from;
  }

  lemma Multiple(q: int, k: int, n: int)
    requires n in {4, 100, 400} && k >= 0
    ensures (n * q + k) % n == k % n
  {
    if n == 4 {
      assert (4 * q + k) % 4 == k % 4;
    } else if n == 100 {
      assert (100 * q + k) % 100 == k % 100;
    } else {
      assert (400 * q + k) % 400 == k % 400;
    }
  }

  /** Four centuries have 146097 days, wherever they begin. */
  lemma FourCenturies(from: int)
    requires from % 400 == 0
    ensures DaysOfYears(from, 400) == 146097
  {
    hide DaysOfYears, DaysIn;
    var q := from / 400;
    assert from == 400 * q && from == 100 * (4 * q);
    Multiple(q, 100, 400);
    Multiple(q, 200, 400);
    Multiple(q, 300, 400);
    Multiple(4 * q, 100, 100);
    Multiple(4 * q, 200, 100);
    Multiple(4 * q, 300, 100);
    YearsFrom(from, 100);
    YearsFrom(from + 100, 100);
    YearsFrom(from + 200, 100);
    YearsFrom(from + 300, 100);
    DaysOfYearsAdd(from, 100, 100);
    DaysOfYearsAdd(from, 200, 100);
    DaysOfYearsAdd(from, 300, 100);
  }

  // --- The latest billing date ---------------------------------------------

  /** The billing day itself, where its month has it, and the last of the month elsewhere. */
  predicate FallsDue(day: int, date: Date) {
    && date.Valid()
    && if Date(date.year, date.month, day).Valid() then date.day == day else date.Tomorrow().day == 1
  }

  /** A period begins on the latest day, today included, on which one falls due. */
  lemma StartIsTheLatest(day: int, today: Date, start: Date)
    requires day >= 1 && today.Valid()
    ensures PeriodStart(day, today) == Begins(start)
            <==> FallsDue(day, start) && start.NotAfter(today)
                 && forall date: Date :: FallsDue(day, date) && date.NotAfter(today) ==> date.NotAfter(start)
  {
    var found := PeriodStart(day, today);
    EveryDateHasAPeriod(day, today);
    if found.Begins? {
      DueIsBilling(day, found.date);
      forall date: Date | FallsDue(day, date) && date.NotAfter(today) ensures date.NotAfter(found.date) {
        DueIsBilling(day, date);
        NoneBetween(day, found.date, date);
      }
    } else {
      forall date: Date | FallsDue(day, date) ensures !date.NotAfter(today) {
        DueIsBilling(day, date);
      }
    }
  }

  lemma DueIsBilling(day: int, date: Date)
    requires day >= 1
    ensures FallsDue(day, date) <==> IsBillingDate(day, date)
  {
  }

  lemma NoneBetween(day: int, start: Date, date: Date)
    requires day >= 1 && IsBillingDate(day, start) && IsBillingDate(day, date)
    ensures date.NotAfter(start) || NextStart(day, start).NotAfter(date)
  {
  }

  /** The plain counter alone has no period. */
  lemma NoPeriodExactly(day: int, today: Date)
    ensures PeriodStart(day, today) == NoPeriod <==> day <= 0
  {
  }

  /** Billing day 31 on two days of January 2024. */
  lemma ThirtyFirst()
    ensures PeriodStart(31, Date(2024, 1, 29)) == Begins(Date(2023, 12, 31))
    ensures PeriodStart(31, Date(2024, 1, 31)) == Begins(Date(2024, 1, 31))
    ensures PeriodStart(31, Date(2024, 2, 29)) == Begins(Date(2024, 2, 29))
  {
  }

  /** The start changes overnight exactly where the new day is its month's billing day,
      and so exactly once in every month, short months and leap years included. */
  lemma ChangesOncePerMonth(day: int, today: Date)
    requires day >= 1 && today.Valid()
    ensures var tomorrow := today.Tomorrow();
            PeriodStart(day, tomorrow) != PeriodStart(day, today)
            <==> tomorrow.day == DayInMonth(day, tomorrow.year, tomorrow.month)
    ensures PeriodStart(day, today.Tomorrow()) != PeriodStart(day, today)
            ==> PeriodStart(day, today.Tomorrow()) == Begins(today.Tomorrow())
  {
    TomorrowIsNext(today);
  }

  function DaysLater(today: Date, days: nat): Date {
    if days == 0 then today else DaysLater(today, days - 1).Tomorrow()
  }

  /** How often the start changes over that many days. */
  function Changes(day: int, today: Date, days: nat): nat {
    if days == 0 then 0
    else
      var yesterday := DaysLater(today, days - 1);
      Changes(day, today, days - 1) + if PeriodStart(day, yesterday.Tomorrow()) != PeriodStart(day, yesterday) then 1 else 0
  }

  function MonthIndex(date: Date): int {
    12 * date.year + date.month
  }

  lemma Overnight(day: int, today: Date)
    requires day >= 1 && today.Valid() && PeriodStart(day, today).Begins?
    ensures PeriodStart(day, today.Tomorrow()).Begins?
    ensures MonthIndex(PeriodStart(day, today.Tomorrow()).date)
            == MonthIndex(PeriodStart(day, today).date) + if PeriodStart(day, today.Tomorrow()) != PeriodStart(day, today) then 1 else 0
  {
    TomorrowIsNext(today);
  }

  /** Over any number of days the start changes as often as months lie between the first
      start and the last: no month is skipped and none begins twice. */
  lemma {:induction false} OneChangePerMonth(day: int, today: Date, days: nat)
    requires day >= 1 && today.Valid() && PeriodStart(day, today).Begins?
    ensures var last := DaysLater(today, days);
            && last.Valid() && today.NotAfter(last)
            && PeriodStart(day, last).Begins?
            && Changes(day, today, days) == MonthIndex(PeriodStart(day, last).date) - MonthIndex(PeriodStart(day, today).date)
  {
    hide PeriodStart, MonthIndex;
    if days > 0 {
      var yesterday := DaysLater(today, days - 1);
      OneChangePerMonth(day, today, days - 1);
      TomorrowIsNext(yesterday);
      Overnight(day, yesterday);
    }
  }
}
