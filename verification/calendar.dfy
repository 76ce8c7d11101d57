/**
 Calendar arithmetic (user_worker/src/siwe.rs, the end of `parse_rfc3339_epoch`).

 The closed-form day count of the code is proved against the plain definition of the
 proleptic Gregorian calendar: start at 1970-01-01 and go to the next day, over and over.
 */
module Calendar {
  datatype Date = Date(year: int, month: int, day: int)

  predicate Leap(y: int) {
    y % 4 == 0 && (y % 100 != 0 || y % 400 == 0)
  }

  function MonthLength(y: int, m: int): int {
    if m == 2 then (if Leap(y) then 29 else 28)
    else if m in {4, 6, 9, 11} then 30
    else 31
  }

  predicate ValidDate(d: Date) {
    1 <= d.month <= 12 && 1 <= d.day <= MonthLength(d.year, d.month)
  }

  const EPOCH := Date(1970, 1, 1)

  function NextDay(d: Date): Date {
    if d.day < MonthLength(d.year, d.month) then d.(day := d.day + 1)
    else if d.month < 12 then Date(d.year, d.month + 1, 1)
    else Date(d.year + 1, 1, 1)
  }

  function PreviousDay(d: Date): Date {
    if 1 < d.day then d.(day := d.day - 1)
    else if 1 < d.month then Date(d.year, d.month - 1, MonthLength(d.year, d.month - 1))
    else Date(d.year - 1, 12, 31)
  }

  /** The date `n` days after 1970-01-01. */
  function NthDay(n: nat): Date {
    if n == 0 then EPOCH else NextDay(NthDay(n - 1))
  }

  /** Days from 1970-01-01, as the code computes them; Dafny's `/` on a positive divisor is `div_euclid`. */
  function DaysFromCivil(year: int, m: int, d: int): int {
    var y := if m <= 2 then year - 1 else year;
    var era := y / 400;
    var yoe := y - era * 400;
    var doy := (153 * (if m > 2 then m - 3 else m + 9) + 2) / 5 + d - 1;
    var doe := yoe * 365 + yoe / 4 - yoe / 100 + doy;
    era * 146097 + doe - 719468
  }

  function DayCount(d: Date): int {
    DaysFromCivil(d.year, d.month, d.day)
  }

  /** Days in the years before March of year `y`. */
  function YearDays(y: int): int {
    365 * y + y / 4 - y / 100 + y / 400
  }

  lemma EraForm(y: int)
    ensures var era := y / 400; var yoe := y - era * 400;
            era * 146097 + yoe * 365 + yoe / 4 - yoe / 100 == YearDays(y)
  {
    var era := y / 400;
    var yoe := y - era * 400;
    assert y == 400 * era + yoe && 0 <= yoe < 400;
    assert y / 4 == 100 * era + yoe / 4;
    assert y / 100 == 4 * era + yoe / 100;
  }

  lemma DivStep4(y: int)
    ensures y / 4 - (y - 1) / 4 == if y % 4 == 0 then 1 else 0
  {
    assert y == 4 * (y / 4) + y % 4;
  }

  lemma DivStep100(y: int)
    ensures y / 100 - (y - 1) / 100 == if y % 100 == 0 then 1 else 0
  {
    assert y == 100 * (y / 100) + y % 100;
  }

  lemma DivStep400(y: int)
    ensures y / 400 - (y - 1) / 400 == if y % 400 == 0 then 1 else 0
  {
    assert y == 400 * (y / 400) + y % 400;
  }

  lemma CenturyMod4(y: int)
    ensures y % 100 == 0 ==> y % 4 == 0
  {
    var c := y / 100;
    assert y == 100 * c + y % 100;
    assert y % 100 == 0 ==> y == 4 * (25 * c);
  }

  lemma EraMod100(y: int)
    ensures y % 400 == 0 ==> y % 100 == 0
  {
    var e := y / 400;
    assert y == 400 * e + y % 400;
    assert y % 400 == 0 ==> y == 100 * (4 * e);
  }

  lemma YearStep(y: int)
    ensures YearDays(y) - YearDays(y - 1) == if Leap(y) then 366 else 365
  {
    DivStep4(y);
    DivStep100(y);
    DivStep400(y);
    CenturyMod4(y);
    EraMod100(y);
  }

  /** Days before month `m` in a year that starts in March. */
  function MonthDays(m: int): int {
    (153 * (if m > 2 then m - 3 else m + 9) + 2) / 5
  }

  lemma CountForm(y: int, m: int, d: int)
    ensures DaysFromCivil(y, m, d) == YearDays(if m <= 2 then y - 1 else y) + MonthDays(m) + d - 1 - 719468
  {
    EraForm(if m <= 2 then y - 1 else y);
  }

  lemma MonthStep(y: int, m: int)
    requires 1 <= m < 12
    ensures m != 2 ==> MonthDays(m + 1) - MonthDays(m) == MonthLength(y, m)
    ensures MonthDays(3) == 0 && MonthDays(2) == 337 && MonthDays(1) == 306 && MonthDays(12) == 275
  {
  }

  /** The next day counts one more, over month ends, leap days, centuries and eras. */
  lemma NextDayCounts(d: Date)
    requires ValidDate(d)
    ensures ValidDate(NextDay(d)) && DayCount(NextDay(d)) == DayCount(d) + 1
  {
    var n := NextDay(d);
    CountForm(d.year, d.month, d.day);
    CountForm(n.year, n.month, n.day);
    if d.month < 12 {
      MonthStep(d.year, d.month);
    } else {
      MonthStep(d.year, 1);
    }
    if d.month == 2 {
      YearStep(d.year);
    }
  }

  lemma {:induction false} ClosedFormCounts(n: nat)
    ensures ValidDate(NthDay(n)) && DayCount(NthDay(n)) == n
  {
    if n > 0 {
      ClosedFormCounts(n - 1);
      NextDayCounts(NthDay(n - 1));
    }
  }

  lemma PreviousThenNext(d: Date)
    requires ValidDate(d)
    ensures ValidDate(PreviousDay(d)) && NextDay(PreviousDay(d)) == d
  {
  }

  /** Whatever starts at zero and grows by one a day is the number of days counted one by one. */
  lemma {:induction false} CounterIsDays(count: Date -> int, d: Date)
    requires count(EPOCH) == 0
    requires forall x | ValidDate(x) :: count(NextDay(x)) == count(x) + 1
    requires ValidDate(d) && d.year >= 1970
    ensures count(d) >= 0 && NthDay(count(d)) == d
    decreases d.year, d.month, d.day
  {
    if d != EPOCH {
      PreviousThenNext(d);
      CounterIsDays(count, PreviousDay(d));
    }
  }

  /** For every valid date from 1970 on, the closed form is the number of days counted one by one. */
  lemma CountsEveryDate(d: Date)
    requires ValidDate(d) && d.year >= 1970
    ensures DayCount(d) >= 0 && NthDay(DayCount(d)) == d
  {
    forall x | ValidDate(x) ensures DayCount(NextDay(x)) == DayCount(x) + 1 {
      NextDayCounts(x);
    }
    CounterIsDays(DayCount, d);
  }

  /** A day past the end of its month counts as that many days into the next one. */
  lemma OverflowRollsOver(y: int, m: int, d: int)
    requires 1 <= m <= 12
    ensures var next := NextDay(Date(y, m, MonthLength(y, m)));
            DaysFromCivil(y, m, d) == DaysFromCivil(next.year, next.month, d - MonthLength(y, m))
  {
    var last := Date(y, m, MonthLength(y, m));
    NextDayCounts(last);
  }

  const LAST_DAY := 2932896 // 9999-12-31

  lemma AfterLastDay(d: Date)
    requires ValidDate(d) && d.year >= 10000
    ensures DayCount(d) > LAST_DAY
  {
    var y := if d.month <= 2 then d.year - 1 else d.year;
    CountForm(d.year, d.month, d.day);
    YearDaysMonotone(if d.month <= 2 then 9999 else 10000, y);
    assert YearDays(9999) == 3652059 && YearDays(10000) == 3652425;
  }

  lemma YearsBelowTenThousand(n: nat)
    requires n <= LAST_DAY
    ensures 1970 <= NthDay(n).year <= 9999
  {
    ClosedFormCounts(n);
    NotBefore1970(n);
    if NthDay(n).year >= 10000 {
      AfterLastDay(NthDay(n));
    }
  }

  lemma YearDaysMonotone(x: int, y: int)
    requires x <= y
    ensures YearDays(x) <= YearDays(y)
    decreases y - x
  {
    if x < y {
      YearDaysMonotone(x, y - 1);
      YearStep(y);
    }
  }

  lemma {:induction false} NotBefore1970(n: nat)
    ensures NthDay(n).year >= 1970
  {
    if n > 0 {
      NotBefore1970(n - 1);
    }
  }
}
