/** The proleptic Gregorian calendar: counting days one by one, and the closed form. */
module Calendar {

  datatype Date = Date(year: int, month: int, day: int)

  predicate IsLeap(year: int) { year % 4 == 0 && (year % 100 != 0 || year % 400 == 0) }

  function DaysInMonth(year: int, month: int): int {
    if month == 2 then (if IsLeap(year) then 29 else 28)
    else if month == 4 || month == 6 || month == 9 || month == 11 then 30
    else 31
  }

  predicate Valid(d: Date) { 1 <= d.month <= 12 && 1 <= d.day <= DaysInMonth(d.year, d.month) }

  function NextMonth(d: Date): Date {
    if d.month == 12 then Date(d.year + 1, 1, 1) else Date(d.year, d.month + 1, 1)
  }

  function Next(d: Date): (n: Date)
    requires Valid(d)
    ensures Valid(n)
  {
    if d.day < DaysInMonth(d.year, d.month) then d.(day := d.day + 1) else NextMonth(d)
  }

  function Previous(d: Date): (p: Date)
    requires Valid(d)
    ensures Valid(p) && Next(p) == d
  {
    if d.day > 1 then d.(day := d.day - 1)
    else if d.month == 1 then Date(d.year - 1, 12, 31)
    else Date(d.year, d.month - 1, DaysInMonth(d.year, d.month - 1))
  }

  const EPOCH := Date(1970, 1, 1)

  /** The date a number of days after the epoch, or before it, counted day by day. */
  function CivilOf(n: int): (d: Date)
    ensures Valid(d)
    decreases if n < 0 then -n else n
  {
    if n == 0 then EPOCH else if n > 0 then Next(CivilOf(n - 1)) else Previous(CivilOf(n + 1))
  }

  // ---------------------------------------------------------------- the closed form

  /** How many multiples of `q` there are from year 0 up to, but without, this year; negative before year 0. */
  function Multiples(year: int, q: int): int
    requires q > 0
  {
    (year + q - 1) / q
  }

  /** Days from the start of year 0. */
  function DaysBeforeYear(year: int): int {
    365 * year + Multiples(year, 4) - Multiples(year, 100) + Multiples(year, 400)
  }

  function DaysBeforeMonth(year: int, month: int): int {
    var common := [0, 31, 59, 90, 120, 151, 181, 212, 243, 273, 304, 334];
    if 1 <= month <= 12 then common[month - 1] + (if month > 2 && IsLeap(year) then 1 else 0) else 0
  }

  function DayNumber(d: Date): int {
    DaysBeforeYear(d.year) + DaysBeforeMonth(d.year, d.month) + d.day - 1 - 719528
  }

  lemma QuotientIs(n: int, q: int, k: int)
    requires q > 0 && q * k <= n < q * k + q
    ensures n / q == k
  {
    var d := n / q - k;
    assert q * d == q * (n / q) - q * k;
    assert d >= 1 ==> q * d >= q;
    assert d <= -1 ==> q * d <= -q;
  }

  lemma MultiplesStep(year: int, q: int)
    requires q > 0
    ensures Multiples(year + 1, q) == Multiples(year, q) + if year % q == 0 then 1 else 0
  {
    var k, r := year / q, year % q;
    assert year == q * k + r;
    assert q * (k + 1) == q * k + q;
    QuotientIs(year + q, q, k + 1);
    QuotientIs(year + q - 1, q, if r == 0 then k else k + 1);
  }

  lemma MultiplesShift(year: int, q: int, k: int)
    requires q > 0
    ensures Multiples(year + q * k, q) == Multiples(year, q) + k
  {
    var n := year + q - 1;
    assert n == q * (n / q) + n % q;
    assert q * (n / q + k) == q * (n / q) + q * k;
    QuotientIs(n + q * k, q, n / q + k);
  }

  lemma NestedMultiples(year: int)
    ensures year % 400 == 0 ==> year % 100 == 0
    ensures year % 100 == 0 ==> year % 4 == 0
  {}

  lemma YearLength(year: int)
    ensures DaysBeforeYear(year + 1) == DaysBeforeYear(year) + if IsLeap(year) then 366 else 365
  {
    hide Multiples;
    MultiplesStep(year, 4);
    MultiplesStep(year, 100);
    MultiplesStep(year, 400);
    NestedMultiples(year);
  }

  lemma MonthLength(year: int, month: int)
    requires 1 <= month <= 11
    ensures DaysBeforeMonth(year, month + 1) == DaysBeforeMonth(year, month) + DaysInMonth(year, month)
  {}

  lemma NextNumber(d: Date)
    requires Valid(d)
    ensures DayNumber(Next(d)) == DayNumber(d) + 1
  {
    hide DaysBeforeYear;
    if d.month == 12 {
      YearLength(d.year);
    } else {
      MonthLength(d.year, d.month);
    }
  }

  lemma {:induction false} YearsGrow(a: int, b: int)
    requires a <= b
    ensures DaysBeforeYear(b) - DaysBeforeYear(a) >= 365 * (b - a)
    decreases b - a
  {
    hide DaysBeforeYear;
    if b <= a {
    } else {
      YearsGrow(a, b - 1);
      YearLength(b - 1);
    }
  }

  lemma WithinYear(d: Date)
    requires Valid(d)
    ensures DaysBeforeYear(d.year) <= DayNumber(d) + 719528 < DaysBeforeYear(d.year + 1)
  {
    hide DaysBeforeYear;
    YearLength(d.year);
    if d.month < 12 {
      MonthLength(d.year, d.month);
    }
  }

  predicate Earlier(a: Date, b: Date) {
    a.year < b.year || (a.year == b.year && (a.month < b.month || (a.month == b.month && a.day < b.day)))
  }

  lemma MonthsGrow(year: int, a: int, b: int)
    requires 1 <= a < b <= 12
    ensures DaysBeforeMonth(year, a) + DaysInMonth(year, a) <= DaysBeforeMonth(year, b)
  {}

  /** The closed form keeps the order of dates. */
  lemma NumberKeepsOrder(a: Date, b: Date)
    requires Valid(a) && Valid(b) && Earlier(a, b)
    ensures DayNumber(a) < DayNumber(b)
  {
    hide DaysBeforeYear;
    if a.year < b.year {
      WithinYear(a);
      WithinYear(b);
      YearsGrow(a.year + 1, b.year);
    } else if a.month < b.month {
      MonthsGrow(a.year, a.month, b.month);
    }
  }

  lemma EpochNumber()
    ensures DayNumber(EPOCH) == 0
  {}

  /** Counting days one by one and the closed form agree. */
  lemma {:induction false} CivilNumber(n: int)
    ensures DayNumber(CivilOf(n)) == n
    decreases if n < 0 then -n else n
  {
    hide DayNumber;
    if n == 0 {
      EpochNumber();
    } else if n > 0 {
      CivilNumber(n - 1);
      NextNumber(CivilOf(n - 1));
    } else {
      CivilNumber(n + 1);
      NextNumber(CivilOf(n));
    }
  }

  lemma NumberCivil(d: Date)
    requires Valid(d)
    ensures CivilOf(DayNumber(d)) == d
  {
    var e := CivilOf(DayNumber(d));
    CivilNumber(DayNumber(d));
    if Earlier(d, e) {
      NumberKeepsOrder(d, e);
    } else if Earlier(e, d) {
      NumberKeepsOrder(e, d);
    }
  }

  lemma RemainderShift(year: int, q: int, k: int)
    requires q > 0
    ensures (year + q * k) % q == year % q
  {
    assert year == q * (year / q) + year % q;
    assert q * (year / q + k) == q * (year / q) + q * k;
    QuotientIs(year + q * k, q, year / q + k);
  }

  /** Four hundred years are a whole number of weeks, and repeat the leap years. */
  lemma FourCenturies(year: int, k: int)
    ensures IsLeap(year + 400 * k) == IsLeap(year)
    ensures DaysBeforeYear(year + 400 * k) == DaysBeforeYear(year) + 7 * 20871 * k
  {
    hide Multiples;
    FourCenturiesLeap(year, k);
    assert 400 * k == 4 * (100 * k) == 100 * (4 * k);
    MultiplesShift(year, 4, 100 * k);
    MultiplesShift(year, 100, 4 * k);
    MultiplesShift(year, 400, k);
  }

  lemma FourCenturiesLeap(year: int, k: int)
    ensures IsLeap(year + 400 * k) == IsLeap(year)
  {
    assert 400 * k == 4 * (100 * k) == 100 * (4 * k);
    RemainderShift(year, 4, 100 * k);
    RemainderShift(year, 100, 4 * k);
    RemainderShift(year, 400, k);
  }

  /** Days since the epoch within three hundred million keep the year within six digits. */
  lemma YearBound(n: int)
    requires -300_000_000 <= n <= 300_000_000
    ensures -999_999 <= CivilOf(n).year <= 999_999
  {
    var d := CivilOf(n);
    CivilNumber(n);
    WithinYear(d);
    if d.year > 999_999 {
      YearsGrow(999_999, d.year);
    } else if d.year < -999_999 {
      YearsGrow(d.year + 1, -999_999);
    }
  }
}
