/** The proleptic Gregorian calendar (section 3.2.1 of ISO 8601:2004): dates, day numbers and
    their correspondence. Day 1 is 0001-01-01, as in the library the source calls. */
module Calendar {

  datatype Date = Date(year: int, month: int, day: int)

  predicate IsLeap(y: int) {
    y % 4 == 0 && (y % 100 != 0 || y % 400 == 0)
  }

  function YearLength(y: int): int {
    if IsLeap(y) then 366 else 365
  }

  function MonthLength(y: int, m: int): (n: int)
    requires 1 <= m <= 12
    ensures 28 <= n <= 31
  {
    if m == 2 then (if IsLeap(y) then 29 else 28)
    else if m == 4 || m == 6 || m == 9 || m == 11 then 30
    else 31
  }

  /** Thirty days hath September. */
  lemma MonthLengths(y: int)
    ensures forall m :: m in {1, 3, 5, 7, 8, 10, 12} ==> MonthLength(y, m) == 31
    ensures forall m :: m in {4, 6, 9, 11} ==> MonthLength(y, m) == 30
    ensures MonthLength(y, 2) == if y % 400 == 0 || (y % 4 == 0 && y % 100 != 0) then 29 else 28
  {
    LeapDivisors(y);
  }

  predicate Valid(d: Date) {
    1 <= d.month <= 12 && 1 <= d.day <= MonthLength(d.year, d.month)
  }

  /** Days before January 1 of year `y`, negative for years before year 1. */
  function DaysBeforeYear(y: int): int
    decreases if y >= 1 then y else 2 - y
  {
    if y == 1 then 0
    else if y > 1 then DaysBeforeYear(y - 1) + YearLength(y - 1)
    else DaysBeforeYear(y + 1) - YearLength(y)
  }

  function DaysBeforeMonth(y: int, m: int): int
    requires 1 <= m <= 13
    decreases m, y
  {
    if m == 1 then 0 else DaysBeforeMonth(y, m - 1) + MonthLength(y, m - 1)
  }

  function Ordinal(d: Date): int
    requires Valid(d)
  {
    DaysBeforeYear(d.year) + DaysBeforeMonth(d.year, d.month) + d.day
  }

  lemma YearStep(y: int)
    ensures DaysBeforeYear(y + 1) == DaysBeforeYear(y) + YearLength(y)
  {
  }

  lemma By4(y: int)
    ensures y / 4 == (y - 1) / 4 + if y % 4 == 0 then 1 else 0
  {
  }

  lemma By100(y: int)
    ensures y / 100 == (y - 1) / 100 + if y % 100 == 0 then 1 else 0
  {
  }

  lemma By400(y: int)
    ensures y / 400 == (y - 1) / 400 + if y % 400 == 0 then 1 else 0
  {
  }

  lemma DivisibleBy100(y: int, q: int)
    requires y == 100 * q
    ensures y % 100 == 0
  {
  }

  lemma DivisibleBy4(y: int, q: int)
    requires y == 4 * q
    ensures y % 4 == 0
  {
  }

  lemma LeapDivisors(y: int)
    ensures y % 400 == 0 ==> y % 100 == 0
    ensures y % 100 == 0 ==> y % 4 == 0
  {
    if y % 400 == 0 { DivisibleBy100(y, 4 * (y / 400)); }
    if y % 100 == 0 { DivisibleBy4(y, 25 * (y / 100)); }
  }

  lemma LeapDays(y: int)
    ensures y / 4 - y / 100 + y / 400 == (y - 1) / 4 - (y - 1) / 100 + (y - 1) / 400 + if IsLeap(y) then 1 else 0
  {
    By4(y);
    By100(y);
    By400(y);
    LeapDivisors(y);
  }

  /** The closed form of the date library counts the length of every year. */
  lemma {:induction false} ClosedForm(y: int)
    ensures DaysBeforeYear(y) == (y - 1) * 365 + (y - 1) / 4 - (y - 1) / 100 + (y - 1) / 400
    decreases if y >= 1 then y else 2 - y
  {
    if y > 1 {
      ClosedForm(y - 1);
      LeapDays(y - 1);
    } else if y < 1 {
      ClosedForm(y + 1);
      LeapDays(y);
    }
  }

  /** Three months at a time. */
  lemma MonthStep(y: int, m: int)
    requires 1 <= m <= 10
    ensures DaysBeforeMonth(y, m + 3) ==
      DaysBeforeMonth(y, m) + MonthLength(y, m) + MonthLength(y, m + 1) + MonthLength(y, m + 2)
  {
    assert DaysBeforeMonth(y, m + 1) == DaysBeforeMonth(y, m) + MonthLength(y, m);
    assert DaysBeforeMonth(y, m + 2) == DaysBeforeMonth(y, m + 1) + MonthLength(y, m + 1);
  }

  lemma YearIsItsMonths(y: int)
    ensures DaysBeforeMonth(y, 13) == YearLength(y)
  {
    MonthStep(y, 1);
    MonthStep(y, 4);
    MonthStep(y, 7);
    MonthStep(y, 10);
  }

  function YearUp(n: int, y: int): int
    requires DaysBeforeYear(y) < n
    decreases n - DaysBeforeYear(y)
  {
    YearStep(y);
    if n <= DaysBeforeYear(y + 1) then y else YearUp(n, y + 1)
  }

  function YearDown(n: int, y: int): int
    requires n <= DaysBeforeYear(y)
    decreases DaysBeforeYear(y) - n
  {
    YearStep(y - 1);
    if DaysBeforeYear(y - 1) < n then y - 1 else YearDown(n, y - 1)
  }

  function YearOf(n: int): int {
    if DaysBeforeYear(1) < n then YearUp(n, 1) else YearDown(n, 1)
  }

  function MonthUp(y: int, n: int, m: int): int
    requires 1 <= m <= 12
    decreases 12 - m, y, n
  {
    if m == 12 || n <= DaysBeforeMonth(y, m + 1) then m else MonthUp(y, n, m + 1)
  }

  /** The date with a given day number. */
  function FromOrdinal(n: int): Date {
    var y := YearOf(n);
    var inYear := n - DaysBeforeYear(y);
    var m := MonthUp(y, inYear, 1);
    MonthInRange(y, inYear, 1);
    Date(y, m, inYear - DaysBeforeMonth(y, m))
  }

  lemma {:induction false} MonthInRange(y: int, n: int, m: int)
    requires 1 <= m <= 12
    ensures m <= MonthUp(y, n, m) <= 12
    decreases 12 - m
  {
    if m < 12 && n > DaysBeforeMonth(y, m + 1) {
      MonthInRange(y, n, m + 1);
    }
  }

  lemma {:induction false} YearUpIs(n: int, y: int)
    requires DaysBeforeYear(y) < n
    ensures DaysBeforeYear(YearUp(n, y)) < n <= DaysBeforeYear(YearUp(n, y) + 1)
    decreases n - DaysBeforeYear(y)
  {
    YearStep(y);
    if n > DaysBeforeYear(y + 1) {
      YearUpIs(n, y + 1);
    }
  }

  lemma {:induction false} YearDownIs(n: int, y: int)
    requires n <= DaysBeforeYear(y)
    ensures DaysBeforeYear(YearDown(n, y)) < n <= DaysBeforeYear(YearDown(n, y) + 1)
    decreases DaysBeforeYear(y) - n
  {
    YearStep(y - 1);
    if DaysBeforeYear(y - 1) >= n {
      YearDownIs(n, y - 1);
    }
  }

  lemma YearOfIs(n: int)
    ensures DaysBeforeYear(YearOf(n)) < n <= DaysBeforeYear(YearOf(n) + 1)
  {
    if DaysBeforeYear(1) < n { YearUpIs(n, 1); } else { YearDownIs(n, 1); }
  }

  lemma {:induction false} MonthUpIs(y: int, n: int, m: int)
    requires 1 <= m <= 12 && DaysBeforeMonth(y, m) < n <= YearLength(y)
    ensures var k := MonthUp(y, n, m);
      m <= k <= 12 && DaysBeforeMonth(y, k) < n <= DaysBeforeMonth(y, k + 1)
    decreases 12 - m
  {
    YearIsItsMonths(y);
    if m < 12 && n > DaysBeforeMonth(y, m + 1) {
      MonthUpIs(y, n, m + 1);
    }
  }

  /** Every day number is the number of a valid date. */
  lemma FromOrdinalIs(n: int)
    ensures Valid(FromOrdinal(n)) && Ordinal(FromOrdinal(n)) == n
  {
    YearOfIs(n);
    var y := YearOf(n);
    YearStep(y);
    MonthUpIs(y, n - DaysBeforeYear(y), 1);
  }

  /** Earlier dates have smaller day numbers. */
  predicate Before(a: Date, b: Date) {
    a.year < b.year || (a.year == b.year && (a.month < b.month || (a.month == b.month && a.day < b.day)))
  }

  lemma {:induction false} YearsGrow(a: int, b: int)
    requires a < b
    ensures DaysBeforeYear(a) + YearLength(a) <= DaysBeforeYear(b)
    decreases b - a
  {
    YearStep(a);
    if a + 1 < b {
      YearsGrow(a + 1, b);
    }
  }

  lemma {:induction false} MonthsGrow(y: int, a: int, b: int)
    requires 1 <= a < b <= 13
    ensures DaysBeforeMonth(y, a) + MonthLength(y, a) <= DaysBeforeMonth(y, b)
    decreases b - a
  {
    if a + 1 < b {
      MonthsGrow(y, a, b - 1);
    }
  }

  lemma OrdinalInYear(d: Date)
    requires Valid(d)
    ensures DaysBeforeYear(d.year) < Ordinal(d) <= DaysBeforeYear(d.year) + YearLength(d.year)
  {
    YearIsItsMonths(d.year);
    if d.month > 1 { MonthsGrow(d.year, 1, d.month); }
    MonthsGrow(d.year, d.month, 13);
  }

  lemma OrdinalMonotone(a: Date, b: Date)
    requires Valid(a) && Valid(b)
    ensures Before(a, b) <==> Ordinal(a) < Ordinal(b)
    ensures a == b <==> Ordinal(a) == Ordinal(b)
  {
    OrdinalInYear(a);
    OrdinalInYear(b);
    if a.year < b.year { YearsGrow(a.year, b.year); }
    else if b.year < a.year { YearsGrow(b.year, a.year); }
    else if a.month < b.month { MonthsGrow(a.year, a.month, b.month); }
    else if b.month < a.month { MonthsGrow(a.year, b.month, a.month); }
  }

  /** Dates and day numbers correspond one to one. */
  lemma OrdinalBijection(d: Date, n: int)
    requires Valid(d)
    ensures FromOrdinal(Ordinal(d)) == d
    ensures Valid(FromOrdinal(n)) && Ordinal(FromOrdinal(n)) == n
  {
    FromOrdinalIs(n);
    FromOrdinalIs(Ordinal(d));
    OrdinalMonotone(FromOrdinal(Ordinal(d)), d);
  }

  function AddDays(d: Date, k: int): Date
    requires Valid(d)
  {
    FromOrdinal(Ordinal(d) + k)
  }

  /** Monday is 0. */
  function Weekday(d: Date): (w: int)
    requires Valid(d)
    ensures 0 <= w <= 6
  {
    (Ordinal(d) + 6) % 7
  }

  lemma AddDaysIs(d: Date, k: int)
    requires Valid(d)
    ensures Valid(AddDays(d, k)) && Ordinal(AddDays(d, k)) == Ordinal(d) + k
  {
    FromOrdinalIs(Ordinal(d) + k);
  }
}
