/**
 The proleptic Gregorian day counts of the pairing controller and of the action
 channel, measured against the calendar's own successor function.
 */
module CivilDate {
  import opened Wrappers


  /** Reduction of a value to a 32-bit unsigned integer. */
  function Wrap32(x: int): nat {
    if 0 <= x < 0x1_0000_0000 then x else x % 0x1_0000_0000
  }

  /** Both day counts shift the year so that it starts in March; this is the part they share. */
  function EpochDays(shiftedYear: int, shiftedMonth: nat, day: nat): int {
    var era := TruncDiv(if shiftedYear >= 0 then shiftedYear else shiftedYear - 399, 400);
    var yearOfEra := Wrap32(shiftedYear - era * 400);
    var dayOfYear := Wrap32(Wrap32(153 * shiftedMonth + 2) / 5 + day - 1);
    var dayOfEra := Wrap32(yearOfEra * 365 + yearOfEra / 4 - yearOfEra / 100 + dayOfYear);
    era * 146097 + dayOfEra - 719468
  }

  /** The pairing controller's count. */
  function DaysFromCivil(year: int, month: nat, day: nat): int {
    var shiftedYear := if month <= 2 then year - 1 else year;
    var shiftedMonth := Wrap32(month + (if month > 2 then -3 else 9));
    EpochDays(shiftedYear, shiftedMonth, day)
  }

  /** The action channel's count. */
  function ChannelDays(year: int, month: nat, day: nat): int {
    var adjustedYear := if month <= 2 then year - 1 else year;
    var adjustedMonth := if month <= 2 then month + 12 else month;
    EpochDays(adjustedYear, Wrap32(adjustedMonth - 3), day)
  }

  // ----- The calendar, defined independently of either count

  datatype Date = Date(year: int, month: int, day: int)

  predicate IsLeap(year: int) {
    year % 4 == 0 && (year % 100 != 0 || year % 400 == 0)
  }

  function DaysInMonth(year: int, month: int): int {
    if month == 2 then (if IsLeap(year) then 29 else 28)
    else if month in {4, 6, 9, 11} then 30
    else 31
  }

  predicate Valid(d: Date) {
    1 <= d.month <= 12 && 1 <= d.day <= DaysInMonth(d.year, d.month)
  }

  function NextDate(d: Date): (r: Date)
    requires Valid(d)
    ensures Valid(r)
  {
    if d.day < DaysInMonth(d.year, d.month) then d.(day := d.day + 1)
    else if d.month < 12 then Date(d.year, d.month + 1, 1)
    else Date(d.year + 1, 1, 1)
  }

  /** Calendar order. */
  predicate Before(a: Date, b: Date) {
    a.year < b.year || (a.year == b.year && (a.month < b.month || (a.month == b.month && a.day < b.day)))
  }

  function Days(d: Date): int
    requires Valid(d)
  {
    DaysFromCivil(d.year, d.month, d.day)
  }

  // ----- Properties

  /** On every input, valid date or not, the two counts are the same. */
  lemma DayCountsAgree(year: int, month: nat, day: nat)
    ensures ChannelDays(year, month, day) == DaysFromCivil(year, month, day)
  {
    if month <= 2 {
      assert month + 12 - 3 == month + 9;
    }
  }

  lemma EraOf(y: int)
    ensures TruncDiv(if y >= 0 then y else y - 399, 400) == y / 400
  {
    if y < 0 {
      var q, r := y / 400, y % 400;
      assert y == 400 * q + r;
      assert -(y - 399) == 400 * (-q) + (399 - r);
    }
  }

  /** Days before year `r` of the 400-year era `e`, in March-based years. */
  function EraYearStart(e: int, r: int): int {
    e * 146097 + r * 365 + r / 4 - r / 100
  }

  /** Days before the March-based year `y`. */
  function YearStart(y: int): int {
    EraYearStart(y / 400, y % 400)
  }

  /** Days before month `m` of a March-based year. */
  function MonthStart(m: int): int {
    (153 * m + 2) / 5
  }

  function ShiftedYear(d: Date): int {
    if d.month <= 2 then d.year - 1 else d.year
  }

  function ShiftedMonth(d: Date): int {
    if d.month <= 2 then d.month + 9 else d.month - 3
  }

  /** The month table: every month but the last is followed after its own length. */
  lemma MonthStarts(m: int)
    requires 0 <= m < 12
    ensures MonthStart(m) == [0, 31, 61, 92, 122, 153, 184, 214, 245, 275, 306, 337][m]
  {
  }

  /** The count as plain integer arithmetic. */
  function Count(d: Date): int {
    YearStart(ShiftedYear(d)) + MonthStart(ShiftedMonth(d)) + d.day - 1 - 719468
  }

  /** On valid dates no unsigned operation wraps. */
  lemma DaysUnfolded(d: Date)
    requires Valid(d)
    ensures Days(d) == Count(d)
  {
    hide EpochDays;
    hide YearStart;
    EpochDaysUnfolded(ShiftedYear(d), ShiftedMonth(d), d.day);
  }

  lemma EpochDaysUnfolded(y: int, m: nat, day: nat)
    requires m < 12 && 1 <= day <= 31
    ensures EpochDays(y, m, day) == YearStart(y) + MonthStart(m) + day - 1 - 719468
  {
    EraOf(y);
    MonthStarts(m);
    var e, r := y / 400, y % 400;
    assert y - e * 400 == r;
    assert 0 <= r / 4 < 100 && 0 <= r / 100 < 4;
  }

  /** A March-based year has 365 days, and one more when the February ending it is in a leap year. */
  lemma YearLength(y: int)
    ensures YearStart(y + 1) - YearStart(y) == if IsLeap(y + 1) then 366 else 365
  {
    var e, r := y / 400, y % 400;
    SplitEra(y + 1, if r == 399 then e + 1 else e, if r == 399 then 0 else r + 1);
    if r != 399 {
      LeapSteps(r);
    }
  }

  lemma SplitEra(y: int, e: int, r: int)
    requires 0 <= r < 400 && y == 400 * e + r
    ensures y / 400 == e && y % 400 == r
    ensures IsLeap(y) == IsLeap(r)
  {
    assert y / 400 == e && y % 400 == r && r % 400 == r;
    Mod4(100 * e, r);
    Mod100(4 * e, r);
  }

  lemma Mod4(k: int, r: int)
    ensures (4 * k + r) % 4 == r % 4
  {
  }

  lemma Mod100(k: int, r: int)
    ensures (100 * k + r) % 100 == r % 100
  {
  }

  lemma LeapSteps(r: int)
    requires 0 <= r < 399
    ensures (r + 1) / 4 - r / 4 == if (r + 1) % 4 == 0 then 1 else 0
    ensures (r + 1) / 100 - r / 100 == if (r + 1) % 100 == 0 then 1 else 0
  {
  }

  /** The count is 0 on 1970-01-01 and grows by exactly one from each date to the next. */
  lemma NextDayAddsOne(d: Date)
    requires Valid(d)
    ensures DaysFromCivil(1970, 1, 1) == 0
    ensures Days(NextDate(d)) == Days(d) + 1
  {
    assert DaysFromCivil(1970, 1, 1) == 0;
    hide DaysFromCivil;
    hide Count;
    DaysUnfolded(d);
    DaysUnfolded(NextDate(d));
    NextCount(d);
  }

  lemma NextCount(d: Date)
    requires Valid(d)
    ensures Count(NextDate(d)) == Count(d) + 1
  {
    hide YearStart;
    var n := NextDate(d);
    if n.month != d.month {
      MonthStarts(ShiftedMonth(d));
      MonthStarts(ShiftedMonth(n));
      if d.month == 2 {
        YearLength(d.year - 1);
      }
    }
  }

  /** The date reached after `n` days from 1970-01-01. */
  function DateAfter(n: nat): (d: Date)
    ensures Valid(d)
  {
    if n == 0 then Date(1970, 1, 1) else NextDate(DateAfter(n - 1))
  }

  lemma {:induction false} DaysCountsSteps(n: nat)
    ensures Days(DateAfter(n)) == n
  {
    hide DaysFromCivil;
    if n == 0 {
      NextDayAddsOne(Date(1970, 1, 1));
    } else {
      DaysCountsSteps(n - 1);
      NextDayAddsOne(DateAfter(n - 1));
    }
  }

  lemma YearStartGrows(y: int, z: int)
    requires y <= z
    ensures YearStart(y) + 365 * (z - y) <= YearStart(z)
    decreases z - y
  {
    if y < z {
      YearStartGrows(y, z - 1);
      YearLength(z - 1);
    }
  }

  /** The count orders dates exactly as the calendar does; in particular it is injective. */
  lemma DaysOrderDates(a: Date, b: Date)
    requires Valid(a) && Valid(b)
    ensures Before(a, b) <==> Days(a) < Days(b)
    ensures a == b <==> Days(a) == Days(b)
  {
    if Before(a, b) {
      DaysGrow(a, b);
    } else if a != b {
      DaysGrow(b, a);
    }
  }

  lemma DaysGrow(a: Date, b: Date)
    requires Valid(a) && Valid(b) && Before(a, b)
    ensures Days(a) < Days(b)
  {
    DaysUnfolded(a);
    DaysUnfolded(b);
    CountGrows(a, b);
  }

  lemma CountGrows(a: Date, b: Date)
    requires Valid(a) && Valid(b) && Before(a, b)
    ensures Count(a) < Count(b)
  {
    hide YearStart;
    var y, z := ShiftedYear(a), ShiftedYear(b);
    if y < z {
      InsideYear(a);
      InsideYear(b);
      YearStartGrows(y + 1, z);
    } else {
      MonthStarts(ShiftedMonth(a));
      MonthStarts(ShiftedMonth(b));
    }
  }

  lemma InsideYear(d: Date)
    requires Valid(d)
    ensures YearStart(ShiftedYear(d)) <= Count(d) + 719468 < YearStart(ShiftedYear(d) + 1)
  {
    MonthStarts(ShiftedMonth(d));
    YearLength(ShiftedYear(d));
  }
}
