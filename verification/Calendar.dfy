/**
  gmtime and mktime of lib/time.c: the loops that peel off years and months against the closed formula for leap days,
  and both against the calendar ("Seconds Since the Epoch", section 4.16 of POSIX.1-2017 Base Definitions).

  Years count from 1900, months and week days from 0, as in struct tm.
 */
module Calendar {

  const YEAR_MIN: int := -147
  const YEAR_MAX: int := 8099

  // ----- C's division -----

  /** Division that truncates towards zero; `b` is positive. */
  function Quot(a: int, b: nat): int
    requires b > 0
  {
    if a >= 0 then a / b else -((-a) / b)
  }

  function Rem(a: int, b: nat): int
    requires b > 0
  {
    if a >= 0 then a % b else -((-a) % b)
  }

  // ----- the calendar -----

  /** The Gregorian rule. */
  predicate Leap(y: int) {
    (1900 + y) % 4 == 0 && ((1900 + y) % 100 != 0 || (1900 + y) % 400 == 0)
  }

  function YearDays(y: int): nat {
    if Leap(y) then 366 else 365
  }

  function MonthDays(y: int, m: nat): (d: nat)
    requires m < 12
    ensures 28 <= d <= 31
  {
    if m == 1 then (if Leap(y) then 29 else 28)
    else if m in {3, 5, 8, 10} then 30
    else 31
  }

  /** Days from the Epoch to the first day of year `y`. */
  function YearStart(y: int): int
    decreases if y >= 70 then y - 70 else 70 - y
  {
    if y == 70 then 0
    else if y > 70 then YearStart(y - 1) + YearDays(y - 1)
    else YearStart(y + 1) - YearDays(y)
  }

  /** Days from the first day of a year to the first day of its month `m`. */
  function MonthStart(y: int, m: nat): nat
    requires m <= 12
  {
    if m == 0 then 0 else MonthStart(y, m - 1) + MonthDays(y, m - 1)
  }

  datatype Tm = Tm(year: int, mon: int, mday: int, hour: int, min: int, sec: int)

  /** A date and time that exists. */
  predicate Exists(t: Tm) {
    && 0 <= t.mon < 12 && 1 <= t.mday <= MonthDays(t.year, t.mon)
    && 0 <= t.hour < 24 && 0 <= t.min < 60 && 0 <= t.sec < 60
  }

  /** The first day of the month, in days since the Epoch. */
  function MonthDay(y: int, m: nat): int
    requires m < 12
  {
    YearStart(y) + MonthStart(y, m)
  }

  /** Seconds since the Epoch. */
  function Seconds(t: Tm): int
    requires 0 <= t.mon < 12
  {
    (MonthDay(t.year, t.mon) + t.mday - 1) * 86400 + t.hour * 3600 + t.min * 60 + t.sec
  }

  lemma YearStartNext(y: int)
    ensures YearStart(y + 1) == YearStart(y) + YearDays(y)
  {}

  /** The twelve months make a year. */
  lemma MonthsMakeYear(y: int)
    ensures MonthStart(y, 12) == YearDays(y)
  {
    assert MonthStart(y, 1) == 31;
    assert MonthStart(y, 3) == MonthStart(y, 2) + 31;
    assert MonthStart(y, 5) == MonthStart(y, 3) + 61;
    assert MonthStart(y, 7) == MonthStart(y, 5) + 61;
    assert MonthStart(y, 9) == MonthStart(y, 7) + 61;
    assert MonthStart(y, 11) == MonthStart(y, 9) + 61;
  }

  // ----- mktime -----

  /** divrd: division rounding down. */
  function Divrd(a: int, b: nat): (r: int)
    requires b > 0
    ensures r == a / b
  {
    if a < 0 then
      DivideDown(a, b);
      Quot(a - b + 1, b)
    else
      Quot(a, b)
  }

  lemma DivideDown(a: int, b: nat)
    requires a < 0 < b
    ensures Quot(a - b + 1, b) == a / b
  {
    var q, r := a / b, a % b;
    var x := -(a - b + 1);
    assert x == b * (-q) + (b - 1 - r);
    DivUnique(x, b, -q, b - 1 - r);
  }

  lemma DivUnique(x: int, b: int, q: int, r: int)
    requires 0 <= r < b && x == b * q + r
    ensures x / b == q && x % b == r
  {
    var q', r' := x / b, x % b;
    assert x == b * q' + r';
    AtLeastOnce(b, q - q');
    AtLeastOnce(b, q' - q);
    Difference(b, q, q');
  }

  lemma AtLeastOnce(b: int, k: int)
    requires b > 0
    ensures k >= 1 ==> b * k >= b
  {}

  lemma Difference(b: int, q: int, q': int)
    ensures b * (q - q') == b * q - b * q' && b * (q' - q) == b * q' - b * q
  {}

  function MonthAcc(): seq<nat> {
    [0, 31, 59, 90, 120, 151, 181, 212, 243, 273, 304, 334]
  }

  /** Leap days from 1970 up to the start of year `ly`. */
  function LeapDays(ly: int): int {
    Divrd(ly - 69, 4) - Divrd(ly - 1, 100) + Divrd(ly + 299, 400)
  }

  lemma LeapDaysNext(y: int)
    ensures LeapDays(y + 1) == LeapDays(y) + if Leap(y) then 1 else 0
  {
    NextMultiple(y - 68, 4);
    NextMultiple(y, 100);
    NextMultiple(y + 300, 400);
  }

  lemma NextMultiple(x: int, b: nat)
    requires b == 4 || b == 100 || b == 400
    ensures x / b == (x - 1) / b + if x % b == 0 then 1 else 0
  {}

  /** The closed formula counts the same days as the years one by one, in both directions from 1970. */
  lemma {:induction false} ClosedFormula(y: int)
    ensures YearStart(y) == 365 * (y - 70) + LeapDays(y)
    decreases if y >= 70 then y - 70 else 70 - y
  {
    hide LeapDays, Leap;
    if y == 70 {
      LeapDaysAtEpoch();
    } else if y > 70 {
      ClosedFormula(y - 1);
      LeapDaysNext(y - 1);
    } else {
      ClosedFormula(y + 1);
      LeapDaysNext(y);
    }
  }

  lemma LeapDaysAtEpoch()
    ensures LeapDays(70) == 0
  {}

  /** A leap day counts from March on. */
  lemma AccumulatedDays(y: int, m: nat)
    requires m < 12
    ensures MonthStart(y, m) == MonthAcc()[m] + if m > 1 && Leap(y) then 1 else 0
  {
    hide Leap;
    if m > 0 {
      AccumulatedDays(y, m - 1);
    }
  }

  /** What mktime takes: no year before the first one, and no negative field. */
  predicate Accepted(t: Tm) {
    t.year >= YEAR_MIN && t.mon >= 0 && t.mday >= 0 && t.hour >= 0 && t.min >= 0 && t.sec >= 0
  }

  /** mktime: for every date with non-negative fields, normal or not, the seconds it denotes. */
  method Mktime(time: Tm) returns (t: int)
    ensures !Accepted(time) ==> t == -1
    ensures Accepted(time) ==> t == Seconds(time.(year := time.year + time.mon / 12, mon := time.mon % 12))
  {
    hide LeapDays, Leap, MonthStart, YearStart;
    if !Accepted(time) {
      return -1;
    }
    var tm := time.(year := time.year + time.mon / 12, mon := time.mon % 12);
    t := (tm.mday - 1) * 86400;
    t := t + tm.hour * 3600;
    t := t + tm.min * 60;
    t := t + tm.sec;
    t := t + MonthAcc()[tm.mon] * 86400;
    var ly := tm.year + if tm.mon > 1 then 1 else 0;
    t := t + 86400 * 365 * (tm.year - 70);
    ghost var before := t;
    t := t + 86400 * Divrd(ly - 69, 4);
    t := t - 86400 * Divrd(ly - 1, 100);
    t := t + 86400 * Divrd(ly + 299, 400);
    LeapDaysIs(ly);
    assert t == before + 86400 * LeapDays(ly);
    ClosedFormula(tm.year);
    LeapDaysNext(tm.year);
    AccumulatedDays(tm.year, tm.mon);
  }

  /** An int of the original. */
  predicate Int(x: int) {
    -0x8000_0000 <= x < 0x8000_0000
  }

  /** The products of mktime are ints: they do not overflow exactly up to these fields, and never for existing dates. */
  lemma ProductsFit(tm: Tm)
    requires tm.mday >= 0 && tm.hour >= 0 && tm.min >= 0
    ensures Int((tm.mday - 1) * 86400) && Int(tm.hour * 3600) && Int(tm.min * 60) <==>
      tm.mday <= 24856 && tm.hour <= 596523 && tm.min <= 35791394
    ensures Exists(tm) ==> Int((tm.mday - 1) * 86400) && Int(tm.hour * 3600) && Int(tm.min * 60)
  {}

  lemma LeapDaysIs(ly: int)
    ensures LeapDays(ly) == Divrd(ly - 69, 4) - Divrd(ly - 1, 100) + Divrd(ly + 299, 400)
  {}

  // ----- gmtime -----

  /** The macro isleap, on years from 1900 and with C's remainder. */
  predicate IsLeap(y: int)
    ensures IsLeap(y) == Leap(y)
  {
    LeapRule(y);
    Rem(y, 4) == 0 && (Rem(y, 100) != 0 || Rem(y + 300, 400) == 0)
  }

  lemma LeapRule(y: int)
    ensures (Rem(y, 4) == 0 && (Rem(y, 100) != 0 || Rem(y + 300, 400) == 0)) == Leap(y)
  {
    RemZero(y, 4);
    RemZero(y, 100);
    RemZero(y + 300, 400);
  }

  lemma RemZero(a: int, b: nat)
    requires b == 4 || b == 100 || b == 400
    ensures Rem(a, b) == 0 <==> a % b == 0
  {}

  function YearSecs(y: int): (r: int)
    ensures r == YearDays(y) * 86400
  {
    (365 + if IsLeap(y) then 1 else 0) * 86400
  }

  function MonthLen(): seq<nat> {
    [31, 28, 31, 30, 31, 30, 31, 31, 30, 31, 30, 31]
  }

  function MonthSecs(y: int, m: nat): (r: int)
    requires m < 12
    ensures r == MonthDays(y, m) * 86400
  {
    (if IsLeap(y) && m == 1 then MonthLen()[m] + 1 else MonthLen()[m]) * 86400
  }

  datatype Broken = Null | Broken(tm: Tm, wday: int, yday: int)

  /** The year loops: `t0` seconds from the Epoch are `t` seconds from the start of `year`, if that year is in range. */
  method FindYear(t0: int) returns (ok: bool, year: int, t: int)
    ensures ok <==> YearStart(YEAR_MIN) * 86400 <= t0 < YearStart(YEAR_MAX + 1) * 86400
    ensures ok ==> YEAR_MIN <= year <= YEAR_MAX && t0 == YearStart(year) * 86400 + t && 0 <= t < YearDays(year) * 86400
  {
    hide Leap, YearStart;
    Origin();
    YearsOrdered(YEAR_MIN, 70);
    YearsOrdered(70, YEAR_MAX + 1);
    t, year := t0, 70;
    while t < 0
      invariant YEAR_MIN <= year <= 70 && t0 == YearStart(year) * 86400 + t
      invariant year < 70 ==> t < YearDays(year) * 86400
      decreases year - YEAR_MIN
    {
      YearStartNext(year - 1);
      t := t + YearSecs(year - 1);
      year := year - 1;
      if year < YEAR_MIN {
        return false, year, t;
      }
    }
    YearsOrdered(YEAR_MIN, year);
    while t >= YearSecs(year)
      invariant YEAR_MIN <= year <= YEAR_MAX && t0 == YearStart(year) * 86400 + t && 0 <= t
      invariant YearStart(YEAR_MIN) <= YearStart(year)
      decreases YEAR_MAX - year
    {
      YearStartNext(year);
      t := t - YearSecs(year);
      year := year + 1;
      if year > YEAR_MAX {
        return false, year, t;
      }
    }
    YearStartNext(year);
    YearsOrdered(year + 1, YEAR_MAX + 1);
    ok := true;
  }

  lemma Origin()
    ensures YearStart(70) == 0
  {}

  lemma {:induction false} YearsOrdered(y: int, z: int)
    requires y <= z
    ensures YearStart(y) <= YearStart(z) && (y < z ==> YearStart(y) + YearDays(y) <= YearStart(z))
    decreases z - y
  {
    hide Leap, YearStart;
    if y < z {
      YearStartNext(y);
      YearsOrdered(y + 1, z);
    }
  }

  /** The month loop. */
  method FindMonth(year: int, t0: int) returns (mon: nat, t: int)
    requires 0 <= t0 < YearDays(year) * 86400
    ensures mon < 12 && t0 == MonthStart(year, mon) * 86400 + t && 0 <= t < MonthDays(year, mon) * 86400
  {
    hide Leap;
    t, mon := t0, 0;
    MonthsMakeYear(year);
    while t >= MonthSecs(year, mon)
      invariant mon < 12 && 0 <= t && t0 == MonthStart(year, mon) * 86400 + t
      decreases 12 - mon
    {
      assert MonthStart(year, mon + 1) == MonthStart(year, mon) + MonthDays(year, mon);
      t := t - MonthSecs(year, mon);
      mon := mon + 1;
    }
  }

  /** Counting from the start of the week instead of from the Epoch does not change the time of day or the day. */
  lemma DayTime(t: int, t7: int, day: int, rest: int)
    requires t7 == t % 604800 && t == day * 86400 + rest && 0 <= rest < 86400
    ensures t7 % 60 == rest % 60 && (t7 / 60) % 60 == rest / 60 % 60 && (t7 / 3600) % 24 == rest / 3600
    ensures (t7 / 86400 + 4) % 7 == (day + 4) % 7 && day == t / 86400
  {
    var week := t / 604800;
    var d := day - 7 * week;
    assert t7 == d * 86400 + rest;
    assert 0 <= d < 7 && t7 / 86400 == d;
    TimeOfDay(d, rest);
  }

  lemma TimeOfDay(d: nat, rest: nat)
    requires rest < 86400
    ensures var t7 := d * 86400 + rest;
      t7 % 60 == rest % 60 && (t7 / 60) % 60 == rest / 60 % 60 && (t7 / 3600) % 24 == rest / 3600
  {
    var t7, m, h := d * 86400 + rest, rest / 60, rest / 3600;
    DivUnique(t7, 60, 1440 * d + m, rest % 60);
    DivUnique(1440 * d + m, 60, 24 * d + m / 60, m % 60);
    DivUnique(t7, 3600, 24 * d + h, rest % 3600);
    DivUnique(24 * d + h, 24, d, h);
  }

  /** Hours, minutes and seconds make up the time of day. */
  lemma Assembled(rest: nat)
    requires rest < 86400
    ensures rest == rest / 3600 * 3600 + (rest / 60 % 60) * 60 + rest % 60
    ensures rest / 3600 < 24
  {
    var m := rest / 60;
    assert rest == m * 60 + rest % 60 && rest / 3600 == m / 60;
  }

  /** The parts found by the loops are a date, and it denotes the seconds it was found from. */
  lemma Decomposed(time: int, year: int, inYear: int, mon: nat, t: int, t7: int)
    requires mon < 12 && t7 == time % 604800 && time == YearStart(year) * 86400 + inYear
    requires inYear == MonthStart(year, mon) * 86400 + t && 0 <= t < MonthDays(year, mon) * 86400
    ensures var tm := Tm(year, mon, t / 86400 + 1, (t7 / 3600) % 24, (t7 / 60) % 60, t7 % 60);
      Exists(tm) && Seconds(tm) == time && inYear / 86400 == MonthStart(year, mon) + tm.mday - 1
    ensures (t7 / 86400 + 4) % 7 == (time / 86400 + 4) % 7
  {
    hide YearStart, MonthStart, MonthDays;
    var mday, rest := t / 86400 + 1, t % 86400;
    var day := MonthDay(year, mon) + mday - 1;
    assert time == day * 86400 + rest;
    DayTime(time, t7, day, rest);
    Assembled(rest);
  }

  /** gmtime: null outside the years it knows, and otherwise the one date that denotes `t`. */
  method Gmtime(time: int) returns (r: Broken)
    ensures r.Null? <==> !(YearStart(YEAR_MIN) * 86400 <= time < YearStart(YEAR_MAX + 1) * 86400)
    ensures r.Broken? ==> Exists(r.tm) && YEAR_MIN <= r.tm.year <= YEAR_MAX && Seconds(r.tm) == time
    ensures r.Broken? ==> r.yday == MonthStart(r.tm.year, r.tm.mon) + r.tm.mday - 1
    ensures r.Broken? ==> r.wday == (time / 86400 + 4) % 7
  {
    hide YearStart, Leap, MonthStart, MonthDays, Seconds, Exists, Rem;
    var t7 := Rem(time, 86400 * 7);
    if t7 < 0 {
      t7 := t7 + 86400 * 7;
    }
    assert t7 == time % 604800 by { WeekRemainder(time); }
    var wday := (t7 / 86400 + 4) % 7;
    var sec, min, hour := t7 % 60, (t7 / 60) % 60, (t7 / 3600) % 24;
    var ok, year, t := FindYear(time);
    if !ok {
      return Null;
    }
    var yday := t / 86400;
    var mon, inMonth := FindMonth(year, t);
    var mday := inMonth / 86400 + 1;
    Decomposed(time, year, t, mon, inMonth, t7);
    r := Broken(Tm(year, mon, mday, hour, min, sec), wday, yday);
  }

  lemma WeekRemainder(t: int)
    ensures (if Rem(t, 604800) < 0 then Rem(t, 604800) + 604800 else Rem(t, 604800)) == t % 604800
  {}

  // ----- round trips -----

  /** mktime undoes gmtime. */
  method MktimeOfGmtime(time: int) returns (r: Broken, t: int)
    ensures r.Null? <==> !(YearStart(YEAR_MIN) * 86400 <= time < YearStart(YEAR_MAX + 1) * 86400)
    ensures r.Broken? ==> t == time
  {
    hide YearStart, Leap, MonthStart;
    r := Gmtime(time);
    t := 0;
    if r.Broken? {
      t := Mktime(r.tm);
      assert r.tm.(year := r.tm.year + r.tm.mon / 12, mon := r.tm.mon % 12) == r.tm;
    }
  }

  /** gmtime undoes mktime, on every date that exists in the years it knows. */
  method GmtimeOfMktime(tm: Tm) returns (r: Broken)
    requires Exists(tm) && YEAR_MIN <= tm.year <= YEAR_MAX
    ensures r.Broken? && r.tm == tm
  {
    hide YearStart, Leap, MonthStart;
    var t := Mktime(tm);
    assert tm.(year := tm.year + tm.mon / 12, mon := tm.mon % 12) == tm;
    InRange(tm);
    r := Gmtime(t);
    Unique(tm, r.tm);
  }

  /** A day of a month lies within its year. */
  lemma DayOfYear(tm: Tm)
    requires Exists(tm)
    ensures 0 <= MonthStart(tm.year, tm.mon) + tm.mday - 1 < YearDays(tm.year)
  {
    hide Leap;
    MonthsMakeYear(tm.year);
    MonthsOrdered(tm.year, tm.mon, 12);
  }

  lemma {:induction false} MonthsOrdered(y: int, m: nat, n: nat)
    requires m < n <= 12
    ensures MonthStart(y, m) + MonthDays(y, m) <= MonthStart(y, n)
  {
    hide Leap;
    if m < n - 1 {
      MonthsOrdered(y, m, n - 1);
    }
  }

  lemma InRange(tm: Tm)
    requires Exists(tm) && YEAR_MIN <= tm.year <= YEAR_MAX
    ensures YearStart(YEAR_MIN) * 86400 <= Seconds(tm) < YearStart(YEAR_MAX + 1) * 86400
  {
    hide YearStart, Leap, MonthStart;
    DayOfYear(tm);
    YearsOrdered(YEAR_MIN, tm.year);
    YearsOrdered(tm.year, YEAR_MAX + 1);
    Whole(MonthDay(tm.year, tm.mon) + tm.mday - 1, tm);
  }

  lemma Whole(day: int, tm: Tm)
    requires 0 <= tm.hour < 24 && 0 <= tm.min < 60 && 0 <= tm.sec < 60
    ensures day * 86400 <= day * 86400 + tm.hour * 3600 + tm.min * 60 + tm.sec < (day + 1) * 86400
  {}

  /** Different dates denote different seconds. */
  lemma Unique(a: Tm, b: Tm)
    requires Exists(a) && Exists(b) && Seconds(a) == Seconds(b)
    ensures a == b
  {
    hide YearStart, Leap, MonthStart;
    var d, e := MonthDay(a.year, a.mon) + a.mday - 1, MonthDay(b.year, b.mon) + b.mday - 1;
    Whole(d, a);
    Whole(e, b);
    assert d == e;
    DayOfYear(a);
    DayOfYear(b);
    SameYear(a, b);
    SameMonth(a, b);
  }

  lemma SameYear(a: Tm, b: Tm)
    requires Exists(a) && Exists(b) && MonthDay(a.year, a.mon) + a.mday == MonthDay(b.year, b.mon) + b.mday
    ensures a.year == b.year
  {
    hide YearStart, Leap, MonthStart;
    DayOfYear(a);
    DayOfYear(b);
    if a.year < b.year {
      YearsOrdered(a.year, b.year);
    } else if b.year < a.year {
      YearsOrdered(b.year, a.year);
    }
  }

  lemma SameMonth(a: Tm, b: Tm)
    requires Exists(a) && Exists(b) && a.year == b.year
    requires MonthStart(a.year, a.mon) + a.mday == MonthStart(b.year, b.mon) + b.mday
    ensures a.mon == b.mon && a.mday == b.mday
  {
    hide Leap, MonthStart;
    if a.mon < b.mon {
      MonthsOrdered(a.year, a.mon, b.mon);
    } else if b.mon < a.mon {
      MonthsOrdered(a.year, b.mon, a.mon);
    }
  }
}
