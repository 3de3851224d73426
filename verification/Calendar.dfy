// Month bounds of usage.service.ts over the proleptic Gregorian calendar of ECMA-262
// (section 21.4.1): times are milliseconds since 1970-01-01T00:00:00Z.
module Calendar {

  // DayFromYear: the day number of January 1.
  function DayFromYear(y: int): int {
    365 * (y - 1970) + (y - 1969) / 4 - (y - 1901) / 100 + (y - 1601) / 400
  }

  predicate Leap(y: int) {
    y % 4 == 0 && (y % 100 != 0 || y % 400 == 0)
  }

  function DaysInYear(y: int): int {
    if Leap(y) then 366 else 365
  }

  function DaysInMonth(y: int, m: nat): nat
    requires m < 12
  {
    if m == 1 then (if Leap(y) then 29 else 28)
    else if m == 3 || m == 5 || m == 8 || m == 10 then 30
    else 31
  }

  // Days of the year before month m (MonthFromTime's table); m == 12 is the whole year.
  function DaysBeforeMonth(y: int, m: nat): nat
    requires m <= 12
  {
    if m == 0 then 0 else DaysBeforeMonth(y, m - 1) + DaysInMonth(y, m - 1)
  }

  function Day(t: int): int { t / 86_400_000 }

  // YearFromTime: the last year starting no later than the day, searched upwards from y.
  function YearOfDay(d: int, y: int): (year: int)
    requires DayFromYear(y) <= d
    ensures year >= y && DayFromYear(year) <= d < DayFromYear(year + 1)
    decreases d - DayFromYear(y)
  {
    YearLength(y);
    if d < DayFromYear(y + 1) then y else YearOfDay(d, y + 1)
  }

  function Year(t: nat): (year: int)
    ensures year >= 1970 && DayFromYear(year) <= Day(t) < DayFromYear(year + 1)
  {
    YearOfDay(Day(t), 1970)
  }

  function MonthOfDay(y: int, dayInYear: nat, m: nat): (month: nat)
    requires m < 12 && DaysBeforeMonth(y, m) <= dayInYear < DaysBeforeMonth(y, 12)
    ensures month < 12 && DaysBeforeMonth(y, month) <= dayInYear < DaysBeforeMonth(y, month + 1)
    decreases 12 - m
  {
    if dayInYear < DaysBeforeMonth(y, m + 1) then m else MonthOfDay(y, dayInYear, m + 1)
  }

  function Month(t: nat): (month: nat)
    ensures month < 12
    ensures DaysBeforeMonth(Year(t), month) <= Day(t) - DayFromYear(Year(t)) < DaysBeforeMonth(Year(t), month + 1)
  {
    YearLength(Year(t));
    TwelveMonths(Year(t));
    MonthOfDay(Year(t), Day(t) - DayFromYear(Year(t)), 0)
  }

  // MakeDay(y, m, 1) carries a month index of 12 into the next year.
  function MakeDay(y: int, m: nat): int {
    DayFromYear(y + m / 12) + DaysBeforeMonth(y + m / 12, m % 12)
  }

  // Date.UTC(y, m, 1)
  function DateUtc(y: int, m: nat): int { MakeDay(y, m) * 86_400_000 }

  function MonthStart(now: nat): int { DateUtc(Year(now), Month(now)) }

  function NextMonthStart(now: nat): int { DateUtc(Year(now), Month(now) + 1) }

  // ---------- the tiling ----------

  lemma Carry4(y: int)
    ensures (y - 1968) / 4 - (y - 1969) / 4 == if y % 4 == 0 then 1 else 0
  {
  }

  lemma Carry100(y: int)
    ensures (y - 1900) / 100 - (y - 1901) / 100 == if y % 100 == 0 then 1 else 0
  {
  }

  lemma Carry400(y: int)
    ensures (y - 1600) / 400 - (y - 1601) / 400 == if y % 400 == 0 then 1 else 0
  {
  }

  lemma LeapRules(y: int)
    ensures (y % 400 == 0 ==> y % 100 == 0) && (y % 100 == 0 ==> y % 4 == 0)
  {
  }

  lemma YearLength(y: int)
    ensures DayFromYear(y + 1) == DayFromYear(y) + DaysInYear(y)
  {
    Carry4(y);
    Carry100(y);
    Carry400(y);
    LeapRules(y);
  }

  lemma TwelveMonths(y: int)
    ensures DaysBeforeMonth(y, 12) == DaysInYear(y)
  {
    assert DaysBeforeMonth(y, 1) == 31;
    assert DaysBeforeMonth(y, 2) == DaysInMonth(y, 1) + 31;
    assert DaysBeforeMonth(y, 4) == DaysBeforeMonth(y, 2) + 61;
    assert DaysBeforeMonth(y, 6) == DaysBeforeMonth(y, 4) + 61;
    assert DaysBeforeMonth(y, 8) == DaysBeforeMonth(y, 6) + 62;
    assert DaysBeforeMonth(y, 10) == DaysBeforeMonth(y, 8) + 61;
    assert DaysBeforeMonth(y, 12) == DaysBeforeMonth(y, 10) + 61;
  }

  // The calendar month m (0..11) of year y.
  datatype YearMonth = YearMonth(y: int, m: nat) {
    predicate Valid() { m < 12 }

    function Next(): YearMonth {
      if m == 11 then YearMonth(y + 1, 0) else YearMonth(y, m + 1)
    }

    predicate Before(that: YearMonth) {
      y < that.y || (y == that.y && m < that.m)
    }
  }

  function FirstDay(a: YearMonth): int
    requires a.Valid()
  {
    DayFromYear(a.y) + DaysBeforeMonth(a.y, a.m)
  }

  function MonthOf(t: nat): (a: YearMonth)
    ensures a.Valid()
  {
    YearMonth(Year(t), Month(t))
  }

  lemma MonthHasDays(a: YearMonth)
    requires a.Valid()
    ensures FirstDay(a.Next()) == FirstDay(a) + DaysInMonth(a.y, a.m)
  {
    if a.m == 11 {
      YearEnds(a.y);
    }
  }

  lemma YearEnds(y: int)
    ensures DayFromYear(y + 1) == DayFromYear(y) + DaysBeforeMonth(y, 11) + 31
  {
    TwelveMonths(y);
    YearLength(y);
    assert DaysBeforeMonth(y, 12) == DaysBeforeMonth(y, 11) + 31;
  }

  lemma {:induction false} LaterMonthsStartLater(a: YearMonth, b: YearMonth)
    requires a.Valid() && b.Valid() && a.Before(b)
    ensures FirstDay(a) < FirstDay(a.Next()) <= FirstDay(b)
    decreases 12 * (b.y - a.y) + b.m - a.m
  {
    MonthHasDays(a);
    if a.Next() != b {
      LaterMonthsStartLater(a.Next(), b);
    }
  }

  // MakeDay turns month index 12 into January of the next year.
  lemma MakeDayCarries(a: YearMonth)
    requires a.Valid()
    ensures MakeDay(a.y, a.m) == FirstDay(a)
    ensures MakeDay(a.y, a.m + 1) == FirstDay(a.Next())
  {
    if a.m == 11 {
      assert 12 / 12 == 1 && 12 % 12 == 0;
    } else {
      assert (a.m + 1) / 12 == 0 && (a.m + 1) % 12 == a.m + 1;
    }
  }

  lemma DayInMonth(t: nat)
    ensures FirstDay(MonthOf(t)) <= Day(t) < FirstDay(MonthOf(t).Next())
  {
    MonthHasDays(MonthOf(t));
  }

  // An instant lies in the month of another exactly when that is its own month.
  lemma MonthIsUnique(t: nat, u: nat)
    ensures FirstDay(MonthOf(t)) <= Day(u) < FirstDay(MonthOf(t).Next()) <==> MonthOf(u) == MonthOf(t)
    ensures Day(u) >= FirstDay(MonthOf(t).Next()) <==> MonthOf(t).Before(MonthOf(u))
  {
    DayInMonth(u);
    SeparateMonths(MonthOf(t), MonthOf(u));
  }

  lemma SeparateMonths(a: YearMonth, b: YearMonth)
    requires a.Valid() && b.Valid()
    ensures a.Before(b) ==> FirstDay(a) < FirstDay(a.Next()) <= FirstDay(b)
    ensures b.Before(a) ==> FirstDay(b) < FirstDay(b.Next()) <= FirstDay(a) < FirstDay(a.Next())
    ensures a == b || a.Before(b) || b.Before(a)
  {
    if a.Before(b) {
      LaterMonthsStartLater(a, b);
    } else if b.Before(a) {
      LaterMonthsStartLater(b, a);
      MonthHasDays(a);
    }
  }

  lemma DateOfDay(y: int, m: nat, day: int)
    requires MakeDay(y, m) == day
    ensures DateUtc(y, m) == day * 86_400_000
  {
  }

  lemma BoundsOfMonth(t: nat, a: YearMonth)
    requires a == MonthOf(t)
    ensures MonthStart(t) == DateUtc(a.y, a.m) && NextMonthStart(t) == DateUtc(a.y, a.m + 1)
  {
  }

  // The bounds in whole days.
  lemma Bounds(t: nat, lo: int, hi: int)
    requires lo == FirstDay(MonthOf(t)) && hi == FirstDay(MonthOf(t).Next())
    ensures MonthStart(t) == lo * 86_400_000 && NextMonthStart(t) == hi * 86_400_000
  {
    var a := MonthOf(t);
    MakeDayCarries(a);
    DateOfDay(a.y, a.m, lo);
    DateOfDay(a.y, a.m + 1, hi);
    BoundsOfMonth(t, a);
  }

  lemma WholeDays(t: nat, lo: int, hi: int)
    ensures lo <= Day(t) <==> lo * 86_400_000 <= t
    ensures Day(t) < hi <==> t < hi * 86_400_000
  {
  }

  // Two instants with the days of their months, and what the bounds then are.
  lemma TwoInstants(t: nat, u: nat)
    ensures MonthStart(t) <= t < NextMonthStart(t)
    ensures MonthStart(t) <= u < NextMonthStart(t) <==> MonthOf(u) == MonthOf(t)
    ensures u >= NextMonthStart(t) <==> MonthOf(t).Before(MonthOf(u))
  {
    var lo, hi := FirstDay(MonthOf(t)), FirstDay(MonthOf(t).Next());
    Bounds(t, lo, hi);
    DayInMonth(t);
    MonthIsUnique(t, u);
    WholeDays(t, lo, hi);
    WholeDays(u, lo, hi);
  }

  lemma BoundsInOrder(t: nat, u: nat)
    ensures MonthOf(t).Before(MonthOf(u)) ==> MonthStart(u) >= NextMonthStart(t)
  {
    var a, b := MonthOf(t), MonthOf(u);
    SeparateMonths(a, b);
    var lo, hi, lo', hi' := FirstDay(a), FirstDay(a.Next()), FirstDay(b), FirstDay(b.Next());
    Bounds(t, lo, hi);
    Bounds(u, lo', hi');
  }

  lemma NextOpensItself(t: nat)
    ensures NextMonthStart(t) >= 0 && MonthStart(NextMonthStart(t)) == NextMonthStart(t)
  {
    TwoInstants(t, t);
    var a := MonthOf(t).Next();
    Bounds(t, FirstDay(MonthOf(t)), FirstDay(a));
    FirstInstantOpens(a, NextMonthStart(t));
  }

  // The first instant of a month starts that month.
  lemma FirstInstantOpens(a: YearMonth, t: nat)
    requires a.Valid() && t == FirstDay(a) * 86_400_000
    ensures MonthStart(t) == t
  {
    var d := FirstDay(a);
    assert Day(t) == d;
    DayInMonth(t);
    OnlyMonthOf(a, MonthOf(t), d);
    Bounds(t, d, FirstDay(MonthOf(t).Next()));
  }

  lemma OnlyMonthOf(a: YearMonth, b: YearMonth, d: int)
    requires a.Valid() && b.Valid() && d == FirstDay(a) && FirstDay(b) <= d < FirstDay(b.Next())
    ensures a == b
  {
    SeparateMonths(a, b);
  }

  lemma SameBounds(t: nat, u: nat)
    ensures MonthOf(u) == MonthOf(t) <==> MonthStart(u) == MonthStart(t) && NextMonthStart(u) == NextMonthStart(t)
  {
    var a, b := MonthOf(t), MonthOf(u);
    SeparateMonths(a, b);
    var lo, hi, lo', hi' := FirstDay(a), FirstDay(a.Next()), FirstDay(b), FirstDay(b.Next());
    Bounds(t, lo, hi);
    Bounds(u, lo', hi');
  }

  // Main result 1: the tiles are the months of the UTC calendar. The first is January 1970, each
  // has the length that month has in the Gregorian calendar, and every instant of a month, and
  // no other, gets that month's bounds.
  lemma TilesAreMonths(y: int, m: nat, t: nat)
    requires y >= 1970 && m < 12
    ensures FirstDay(YearMonth(1970, 0)) == 0
    ensures YearMonth(y, m).Next() == if m == 11 then YearMonth(y + 1, 0) else YearMonth(y, m + 1)
    ensures FirstDay(YearMonth(y, m).Next()) - FirstDay(YearMonth(y, m))
            == [31, if y % 4 == 0 && (y % 100 != 0 || y % 400 == 0) then 29 else 28, 31, 30, 31, 30, 31, 31, 30, 31, 30, 31][m]
    ensures FirstDay(YearMonth(y, m)) * 86_400_000 <= t < FirstDay(YearMonth(y, m).Next()) * 86_400_000 <==>
            && MonthStart(t) == FirstDay(YearMonth(y, m)) * 86_400_000
            && NextMonthStart(t) == FirstDay(YearMonth(y, m).Next()) * 86_400_000
  {
    var a := YearMonth(y, m);
    MonthHasDays(a);
    LengthsOfMonths(y, m);
    InstantsOfMonth(a, t);
    JanuaryOpens1970();
  }

  lemma LengthsOfMonths(y: int, m: nat)
    requires m < 12
    ensures DaysInMonth(y, m)
            == [31, if y % 4 == 0 && (y % 100 != 0 || y % 400 == 0) then 29 else 28, 31, 30, 31, 30, 31, 31, 30, 31, 30, 31][m]
  {
  }

  lemma JanuaryOpens1970()
    ensures FirstDay(YearMonth(1970, 0)) == 0
  {
  }

  lemma InstantsOfMonth(a: YearMonth, t: nat)
    requires a.Valid()
    ensures FirstDay(a) * 86_400_000 <= t < FirstDay(a.Next()) * 86_400_000 <==>
            MonthStart(t) == FirstDay(a) * 86_400_000 && NextMonthStart(t) == FirstDay(a.Next()) * 86_400_000
  {
    var b := MonthOf(t);
    var lo, hi := FirstDay(b), FirstDay(b.Next());
    Bounds(t, lo, hi);
    DayInMonth(t);
    WholeDays(t, FirstDay(a), FirstDay(a.Next()));
    SeparateMonths(a, b);
    WholeDays(t, lo, hi);
  }

  // Main result 2: the months of all instants tile time. Every instant lies in its own month,
  // two instants share their bounds exactly when one lies within the other's, a later month
  // starts no earlier than the end of this one, and the next month's start opens the next
  // month, in December too.
  lemma MonthsTile(t: nat, u: nat)
    ensures MonthStart(t) <= t < NextMonthStart(t)
    ensures MonthStart(t) <= u < NextMonthStart(t) <==>
            MonthStart(u) == MonthStart(t) && NextMonthStart(u) == NextMonthStart(t)
    ensures u >= NextMonthStart(t) ==> MonthStart(u) >= NextMonthStart(t)
    ensures NextMonthStart(t) >= 0 && MonthStart(NextMonthStart(t)) == NextMonthStart(t)
  {
    TwoInstants(t, u);
    SameBounds(t, u);
    BoundsInOrder(t, u);
    NextOpensItself(t);
  }
}
