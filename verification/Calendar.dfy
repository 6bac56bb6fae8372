/** libhv's date arithmetic, against the day count of the Gregorian calendar in closed form. */
module Calendar {
  predicate IsLeapYear(year: int) {
    (year % 4 == 0 && year % 100 != 0) || year % 400 == 0
  }

  const MONTH_DAYS: seq<int> := [31, 28, 31, 30, 31, 30, 31, 31, 30, 31, 30, 31]

  function DaysOfMonth(month: int, year: int): int {
    if month < 1 || month > 12 then 0
    else if month == 2 && IsLeapYear(year) then MONTH_DAYS[month - 1] + 1
    else MONTH_DAYS[month - 1]
  }

  datatype Date = Date(year: int, month: int, day: int) {
    predicate Valid() {
      1 <= month <= 12 && 1 <= day <= DaysOfMonth(month, year)
    }

    predicate Before(d: Date) {
      year < d.year || (year == d.year && (month < d.month || (month == d.month && day < d.day)))
    }
  }

  // ---------- The day count ----------

  /** Days before a year: one leap day every fourth, but not every hundredth, but every four hundredth. */
  function YearStart(year: int): int {
    var y := year - 1;
    365 * y + y / 4 - y / 100 + y / 400
  }

  /** Days before a month, without a table: months average 367/12 days, but for February. */
  function MonthStart(month: int, year: int): int {
    (367 * month - 362) / 12 - if month <= 2 then 0 else if IsLeapYear(year) then 1 else 2
  }

  function DayNumber(d: Date): int {
    YearStart(d.year) + MonthStart(d.month, d.year) + d.day
  }

  lemma Quotient(x: int, n: int, q: int, r: int)
    requires n > 0 && x == n * q + r && 0 <= r < n
    ensures x / n == q && x % n == r
  {
    var d := x / n - q;
    assert n * d == r - x % n;
    assert d > 0 ==> n * d >= n;
    assert d < 0 ==> n * d <= -n;
  }

  /** A year's end passes a multiple of `n` when the year is one. */
  lemma Passing(y: int, n: int)
    requires n > 0
    ensures y / n - (y - 1) / n == if y % n == 0 then 1 else 0
  {
    var q, r := y / n, y % n;
    if r == 0 {
      assert n * (q - 1) == n * q - n;
      Quotient(y - 1, n, q - 1, n - 1);
    } else {
      Quotient(y - 1, n, q, r - 1);
    }
  }

  lemma Multiples(y: int)
    ensures y % 400 == 0 ==> y % 100 == 0
    ensures y % 100 == 0 ==> y % 4 == 0
  {
    if y % 100 == 0 {
      Quotient(y, 4, 25 * (y / 100), 0);
    }
    if y % 400 == 0 {
      Quotient(y, 100, 4 * (y / 400), 0);
    }
  }

  lemma YearLength(year: int)
    ensures YearStart(year + 1) - YearStart(year) == if IsLeapYear(year) then 366 else 365
  {
    Passing(year, 4);
    Passing(year, 100);
    Passing(year, 400);
    Multiples(year);
  }

  lemma MonthLength(month: int, year: int)
    ensures month < 1 || month > 12 <==> DaysOfMonth(month, year) == 0
    ensures 1 <= month < 12 ==> MonthStart(month + 1, year) - MonthStart(month, year) == DaysOfMonth(month, year)
    ensures month == 12 ==> MonthStart(month, year) + DaysOfMonth(month, year) == if IsLeapYear(year) then 366 else 365
    ensures MonthStart(1, year) == 0
  {
  }

  /** The first of the month after. */
  function MonthAfter(d: Date): Date {
    if d.month == 12 then Date(d.year + 1, 1, 1) else Date(d.year, d.month + 1, 1)
  }

  lemma NextMonth(d: Date)
    requires 1 <= d.month <= 12
    ensures DayNumber(MonthAfter(d)) == DayNumber(d.(day := 1)) + DaysOfMonth(d.month, d.year)
  {
    MonthLength(d.month, d.year);
    YearLength(d.year);
    MonthLength(1, d.year + 1);
  }

  /** Later dates have larger numbers, so the number determines the date. */
  lemma {:induction false} Increasing(d: Date, e: Date)
    requires d.Valid() && e.Valid() && d.Before(e)
    ensures DayNumber(d) < DayNumber(e)
    decreases e.year - d.year, 12 - d.month
  {
    if d.year != e.year || d.month != e.month {
      NextMonth(d);
      var n := MonthAfter(d);
      if n.Before(e) {
        Increasing(n, e);
      }
    }
  }

  lemma NumberIsUnique(d: Date, e: Date)
    requires d.Valid() && e.Valid() && DayNumber(d) == DayNumber(e)
    ensures d == e
  {
    if d.Before(e) {
      Increasing(d, e);
    } else if e.Before(d) {
      Increasing(e, d);
    }
  }

  // ---------- Moving a date ----------

  class DateTime {
    var year: int
    var month: int
    var day: int

    function Value(): Date
      reads this
    {
      Date(year, month, day)
    }

    /** `datetime_past` */
    method Past(days: nat)
      requires Value().Valid()
      modifies this
      ensures Value().Valid() && DayNumber(Value()) == DayNumber(old(Value())) - days
    {
      var sub := days;
      while sub != 0
        invariant sub >= 0 && Value().Valid() && DayNumber(Value()) - sub == DayNumber(old(Value())) - days
        decreases sub
      {
        if day > sub {
          day := day - sub;
          break;
        }
        sub := sub - day;
        month := month - 1;
        if month == 0 {
          month := 12;
          year := year - 1;
        }
        day := DaysOfMonth(month, year);
        NextMonth(Value());
      }
    }

    /** On to the first of the next month. */
    method TurnMonth()
      requires Value().Valid()
      modifies this
      ensures Value().Valid() && DayNumber(Value()) == DayNumber(old(Value())) + DaysOfMonth(old(month), old(year)) - old(day) + 1
    {
      NextMonth(Value());
      month := month + 1;
      if month > 12 {
        month := 1;
        year := year + 1;
      }
      day := 1;
    }

    /** `datetime_future` */
    method Future(days: nat)
      requires Value().Valid()
      modifies this
      ensures Value().Valid() && DayNumber(Value()) == DayNumber(old(Value())) + days
    {
      var sub := days;
      while sub != 0
        invariant sub >= 0 && Value().Valid() && DayNumber(Value()) + sub == DayNumber(old(Value())) + days
        decreases sub
      {
        var mdays := DaysOfMonth(month, year);
        if day + sub <= mdays {
          day := day + sub;
          break;
        }
        sub := sub - (mdays - day + 1);
        TurnMonth();
      }
    }

    /** Days added and taken away again. */
    method ForthAndBack(days: nat) returns (far: Date)
      requires Value().Valid()
      modifies this
      ensures far.Valid() && DayNumber(far) == DayNumber(old(Value())) + days && Value() == old(Value())
    {
      Future(days);
      far := Value();
      Past(days);
      NumberIsUnique(Value(), old(Value()));
    }

    /** Days taken away and added again. */
    method BackAndForth(days: nat) returns (far: Date)
      requires Value().Valid()
      modifies this
      ensures far.Valid() && DayNumber(far) == DayNumber(old(Value())) - days && Value() == old(Value())
    {
      Past(days);
      far := Value();
      Future(days);
      NumberIsUnique(Value(), old(Value()));
    }
  }
}
