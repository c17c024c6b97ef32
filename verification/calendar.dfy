/** datetime_init_from_timeval of syslog.c: seconds since 1970-01-01T00:00:00
    to year, month (0-based), day of month (0-based), hour, minute and
    second, by four-year cycles counted from 1600 and a walk over a table of
    month lengths. `FromEpoch` is the conversion as the source writes it;
    `FromEpochCorrected` differs only in the year of December 31, which the
    source reports one too high. Both are compared with a Gregorian
    reference calendar. */
module Calendar {

  datatype DateTime = DateTime(year: int, mon: int, mday: int, hour: int, min: int, sec: int)

  /** 2100-01-01T00:00:00. The century correction of the source is zero for
      every instant from the epoch up to here, and the conversion is only
      considered on this range. */
  const EPOCH_LIMIT: int := 4102444800
  const SECONDS_PER_DAY: int := 86400

  /** The constants of the source: month lengths of a common year, anchor
      year, days of a common year, days of a four-year cycle, the day offset
      of 1970-01-01 from 1600-01-01 modulo the skipped century days, and the
      number of four-year cycles from 1600 to 2000. */
  const DOM_TBL: seq<int> := [31, 28, 31, 30, 31, 30, 31, 31, 30, 31, 30, 31]
  const EY: int := 1600
  const DOY: int := 365
  const QYD: int := 365 * 4 + 1
  const RO: int := 92 * (365 * 4 + 1) + 366 + 365
  const DNCQY: int := (2000 - 1600) / 4

  function MonthLength(m: int, leap: bool): int
    requires 0 <= m < 12
  {
    DOM_TBL[m] + (if leap && m == 1 then 1 else 0)
  }

  function YearLength(leap: bool): int
  {
    if leap then 366 else 365
  }

  /** Days of the year before month m. */
  function DaysBefore(m: int, leap: bool): int
    requires 0 <= m <= 12
  {
    if m == 0 then 0 else DaysBefore(m - 1, leap) + MonthLength(m - 1, leap)
  }

  lemma DaysBeforeValues(leap: bool)
    ensures DaysBefore(11, leap) == 334 + (if leap then 1 else 0)
    ensures DaysBefore(12, leap) == YearLength(leap)
  {
    var x := if leap then 1 else 0;
    assert DaysBefore(1, leap) == 31;
    assert DaysBefore(2, leap) == 59 + x;
    assert DaysBefore(3, leap) == 90 + x;
    assert DaysBefore(4, leap) == 120 + x;
    assert DaysBefore(5, leap) == 151 + x;
    assert DaysBefore(6, leap) == 181 + x;
    assert DaysBefore(7, leap) == 212 + x;
    assert DaysBefore(8, leap) == 243 + x;
    assert DaysBefore(9, leap) == 273 + x;
    assert DaysBefore(10, leap) == 304 + x;
    assert DaysBefore(11, leap) == 334 + x;
    assert DaysBefore(12, leap) == 365 + x;
  }

  lemma {:induction false} DaysBeforeMonotone(a: int, b: int, leap: bool)
    requires 0 <= a <= b <= 12
    ensures DaysBefore(a, leap) <= DaysBefore(b, leap)
    decreases b - a
  {
    if a < b {
      DaysBeforeMonotone(a, b - 1, leap);
    }
  }

  /** The month walk of lines 173-183 and 186-195: starting at month m with
      q days left, subtract whole months while q stays non-negative. The
      result is the month and day-of-month of day q after the start of m. */
  function MonthWalk(q: int, m: int, leap: bool): (r: (int, int))
    requires 0 <= m < 12 && 0 <= q < YearLength(leap) - DaysBefore(m, leap)
    ensures m <= r.0 < 12 && 0 <= r.1 < MonthLength(r.0, leap)
    ensures DaysBefore(r.0, leap) + r.1 == DaysBefore(m, leap) + q
    decreases 12 - m
  {
    DaysBeforeValues(leap);
    if q > 0 then
      var dom := MonthLength(m, leap);
      if q - dom < 0 then (m, q)
      else MonthWalk(q - dom, m + 1, leap)
    else (m, q)
  }

  /** Lines 161-170: the time of day, the four-year cycle qy counted from
      1600 and the day q within that cycle. */
  datatype CycleDay = CycleDay(qy: int, q: int, hour: int, min: int, sec: int)

  function SplitEpoch(t: int): (s: CycleDay)
    requires 0 <= t < EPOCH_LIMIT
    ensures s.sec == t % 60 && s.min == (t / 60) % 60 && s.hour == (t / 3600) % 24
    ensures 92 <= s.qy <= 124 && 0 <= s.q < QYD
    ensures s.qy * QYD + s.q == t / SECONDS_PER_DAY + RO
  {
    var sec := t % 60;
    var q1 := t / 60;
    var min := q1 % 60;
    var q2 := q1 / 60;
    var hour := q2 % 24;
    var q3 := q2 / 24;
    DivSteps(t);
    var q4 := q3 + RO;
    var qy := q4 / QYD;
    var q5 := q4 % QYD;
    CycleBounds(q4);
    CorrectionVanishes(qy);
    var q6 := q5 + (qy - DNCQY + 100) / 100 - (qy - DNCQY + 25) / 25;
    if q6 >= QYD then CycleDay(qy + 1, q6 - QYD, hour, min, sec)
    else CycleDay(qy, q6, hour, min, sec)
  }

  /** Days from 1600-01-01 up to 2100-01-01 fall in cycles 92 to 124. */
  lemma CycleBounds(q4: int)
    requires RO <= q4 < RO + EPOCH_LIMIT / SECONDS_PER_DAY
    ensures 92 <= q4 / QYD <= 124 && 0 <= q4 % QYD < QYD
    ensures (q4 / QYD) * QYD + q4 % QYD == q4
  {
  }

  /** Within those cycles the century correction of line 166 adds and
      subtracts the same day, so it is zero. */
  lemma CorrectionVanishes(qy: int)
    requires 92 <= qy <= 124
    ensures (qy - DNCQY + 100) / 100 - (qy - DNCQY + 25) / 25 == 0
  {
  }

  lemma DivSteps(t: int)
    requires 0 <= t
    ensures (t / 60) / 60 == t / 3600
    ensures ((t / 60) / 60) / 24 == t / SECONDS_PER_DAY
  {
    var a := t / 60;
    var b := a / 60;
    var c := b / 24;
    assert t == 3600 * b + 60 * (a % 60) + t % 60;
    assert t == SECONDS_PER_DAY * c + 3600 * (b % 24) + 60 * (a % 60) + t % 60;
  }

  /** Years of the four-year cycle completed before day q, read correctly:
      the first year of a cycle has 366 days, the other three 365. */
  function CycleYear(q: int): (i: int)
    requires 0 <= q < QYD
    ensures 0 <= i < 4
  {
    if q >= DOY + 1 then 1 + (q - (DOY + 1)) / DOY else 0
  }

  /** Days of the cycle before its year i. */
  function CycleOffset(i: int): int
  {
    if i == 0 then 0 else DOY + 1 + DOY * (i - 1)
  }

  /** Lines 172-198: the leap branch for the first year of the cycle, the
      common branch otherwise. */
  function MonthDay(q: int): (r: (int, int))
    requires 0 <= q < QYD
    ensures 0 <= r.0 < 12 && 0 <= r.1 < MonthLength(r.0, q < DOY + 1)
    ensures DaysBefore(r.0, q < DOY + 1) + r.1 == q - CycleOffset(CycleYear(q))
  {
    if q >= DOY + 1 then MonthWalk((q - (DOY + 1)) % DOY, 0, false)
    else MonthWalk(q, 0, true)
  }

  /** datetime_init_from_timeval as written: the year is `qy * 4 + q / 365`
      plus 1600 (line 171). */
  function FromEpoch(t: int): (d: DateTime)
    requires 0 <= t < EPOCH_LIMIT
    ensures d.sec == t % 60 && d.min == (t / 60) % 60 && d.hour == (t / 3600) % 24
    ensures 0 <= d.mon < 12 && 0 <= d.mday < MonthLength(d.mon, true)
    ensures 1970 <= d.year <= 2100
  {
    var s := SplitEpoch(t);
    var md := MonthDay(s.q);
    DateTime(s.qy * 4 + s.q / DOY + EY, md.0, md.1, s.hour, s.min, s.sec)
  }

  /** The same conversion with the year taken from the cycle year the month
      walk uses. */
  function FromEpochCorrected(t: int): (d: DateTime)
    requires 0 <= t < EPOCH_LIMIT
    ensures d.sec == t % 60 && d.min == (t / 60) % 60 && d.hour == (t / 3600) % 24
    ensures 0 <= d.mon < 12 && 0 <= d.mday < MonthLength(d.mon, true)
    ensures 1970 <= d.year <= 2099
  {
    var s := SplitEpoch(t);
    var md := MonthDay(s.q);
    DateTime(s.qy * 4 + CycleYear(s.q) + EY, md.0, md.1, s.hour, s.min, s.sec)
  }

  // ---------------------------------------------------------------------
  // Gregorian reference calendar.

  predicate IsLeapYear(y: int)
  {
    y % 4 == 0 && (y % 100 != 0 || y % 400 == 0)
  }

  /** Days from 1970-01-01 to January 1 of year y. */
  function DaysToYear(y: int): int
    requires y >= 1970
    decreases y - 1970
  {
    if y == 1970 then 0 else DaysToYear(y - 1) + YearLength(IsLeapYear(y - 1))
  }

  /** Day number `days` since 1970-01-01 is day `mday` (0-based) of month
      `mon` (0-based) of `year` in the Gregorian calendar. */
  ghost predicate IsCivilDay(days: int, year: int, mon: int, mday: int)
  {
    && year >= 1970
    && 0 <= mon < 12
    && 0 <= mday < MonthLength(mon, IsLeapYear(year))
    && days == DaysToYear(year) + DaysBefore(mon, IsLeapYear(year)) + mday
  }

  lemma {:induction false} DaysToYearMonotone(a: int, b: int)
    requires 1970 <= a <= b
    ensures DaysToYear(a) <= DaysToYear(b)
    decreases b - a
  {
    if a < b {
      DaysToYearMonotone(a, b - 1);
    }
  }

  /** A civil day lies within its year. */
  lemma CivilDayInYear(days: int, year: int, mon: int, mday: int)
    requires IsCivilDay(days, year, mon, mday)
    ensures DaysToYear(year) <= days < DaysToYear(year + 1)
  {
    var leap := IsLeapYear(year);
    DaysBeforeMonotone(0, mon, leap);
    DaysBeforeMonotone(mon + 1, 12, leap);
    DaysBeforeValues(leap);
    assert DaysToYear(year + 1) == DaysToYear(year) + YearLength(leap);
    assert DaysBefore(mon + 1, leap) == DaysBefore(mon, leap) + MonthLength(mon, leap);
  }

  /** Each day number has at most one Gregorian reading. */
  lemma CivilDayUnique(days: int, y1: int, m1: int, d1: int, y2: int, m2: int, d2: int)
    requires IsCivilDay(days, y1, m1, d1) && IsCivilDay(days, y2, m2, d2)
    ensures y1 == y2 && m1 == m2 && d1 == d2
  {
    CivilDayInYear(days, y1, m1, d1);
    CivilDayInYear(days, y2, m2, d2);
    if y1 < y2 {
      DaysToYearMonotone(y1 + 1, y2);
    } else if y2 < y1 {
      DaysToYearMonotone(y2 + 1, y1);
    }
    var leap := IsLeapYear(y1);
    if m1 < m2 {
      DaysBeforeMonotone(m1 + 1, m2, leap);
    } else if m2 < m1 {
      DaysBeforeMonotone(m2 + 1, m1, leap);
    }
  }

  /** Between 1970 and 2099 a year is leap exactly when it is divisible by 4. */
  lemma LeapInRange(y: int)
    requires 1968 <= y <= 2099
    ensures IsLeapYear(y) <==> y % 4 == 0
  {
  }

  /** January 1 of the first year of cycle k (year 1968 + 4k). */
  lemma {:induction false} CycleStart(k: int)
    requires 1 <= k <= 33
    ensures DaysToYear(1968 + 4 * k) == QYD * k - 731
    decreases k
  {
    if k > 1 {
      CycleStart(k - 1);
      var y := 1968 + 4 * (k - 1);
      LeapInRange(y);
      LeapInRange(y + 1);
      LeapInRange(y + 2);
      LeapInRange(y + 3);
      assert DaysToYear(y + 1) == DaysToYear(y) + 366;
      assert DaysToYear(y + 2) == DaysToYear(y + 1) + 365;
      assert DaysToYear(y + 3) == DaysToYear(y + 2) + 365;
      assert DaysToYear(y + 4) == DaysToYear(y + 3) + 365;
    } else {
      assert DaysToYear(1971) == 365;
    }
  }

  /** January 1 of year i of cycle k. */
  lemma YearStart(k: int, i: int)
    requires 0 <= k <= 32 && 0 <= i < 4 && 1968 + 4 * k + i >= 1970
    ensures DaysToYear(1968 + 4 * k + i) == QYD * k - 731 + CycleOffset(i)
  {
    var y := 1968 + 4 * k;
    if k == 0 {
      assert DaysToYear(1971) == 365;
    } else {
      CycleStart(k);
      LeapInRange(y);
      LeapInRange(y + 1);
      LeapInRange(y + 2);
      if i >= 1 {
        assert DaysToYear(y + 1) == DaysToYear(y) + 366;
      }
      if i >= 2 {
        assert DaysToYear(y + 2) == DaysToYear(y + 1) + 365;
      }
      if i >= 3 {
        assert DaysToYear(y + 3) == DaysToYear(y + 2) + 365;
      }
    }
  }

  /** Day q of cycle qy, read with the cycle year the month walk uses, is
      the Gregorian reading of its day number. */
  lemma CycleDayIsCivil(qy: int, q: int)
    requires 92 <= qy <= 124 && 0 <= q < QYD && qy * QYD + q >= RO
    ensures var md := MonthDay(q);
            IsCivilDay(qy * QYD + q - RO, qy * 4 + CycleYear(q) + EY, md.0, md.1)
  {
    var k := qy - 92;
    var i := CycleYear(q);
    var year := 1968 + 4 * k + i;
    assert year == qy * 4 + i + EY;
    assert k == 0 ==> i >= 2;
    YearStart(k, i);
    LeapInRange(year);
    var leap := q < DOY + 1;
    assert IsLeapYear(year) == leap;
    var md := MonthDay(q);
    assert DaysBefore(md.0, leap) + md.1 == q - CycleOffset(i);
    assert DaysToYear(year) == QYD * k - 731 + CycleOffset(i);
    assert qy * QYD + q - RO == QYD * k - 731 + q;
  }

  /** The corrected conversion gives the Gregorian reading of the day. */
  lemma CorrectedIsCivil(t: int)
    requires 0 <= t < EPOCH_LIMIT
    ensures var d := FromEpochCorrected(t);
            IsCivilDay(t / SECONDS_PER_DAY, d.year, d.mon, d.mday)
  {
    var s := SplitEpoch(t);
    CycleDayIsCivil(s.qy, s.q);
  }

  /** The corrected conversion and the Gregorian reference agree in both
      directions: a date is what the conversion returns exactly when it is
      the Gregorian reading of the day. */
  lemma CorrectedMatchesCivil(t: int, year: int, mon: int, mday: int)
    requires 0 <= t < EPOCH_LIMIT
    ensures var d := FromEpochCorrected(t);
            (d.year == year && d.mon == mon && d.mday == mday)
            <==> IsCivilDay(t / SECONDS_PER_DAY, year, mon, mday)
  {
    var d := FromEpochCorrected(t);
    CorrectedIsCivil(t);
    if IsCivilDay(t / SECONDS_PER_DAY, year, mon, mday) {
      CivilDayUnique(t / SECONDS_PER_DAY, d.year, d.mon, d.mday, year, mon, mday);
    }
  }

  /** Within a year, the last day is December 31 and no other. */
  lemma LastDayOfYear(mon: int, mday: int, leap: bool)
    requires 0 <= mon < 12 && 0 <= mday < MonthLength(mon, leap)
    ensures DaysBefore(mon, leap) + mday == YearLength(leap) - 1 <==> mon == 11 && mday == 30
  {
    DaysBeforeValues(leap);
    if mon < 11 {
      DaysBeforeMonotone(mon + 1, 11, leap);
    }
  }

  /** The source's year `qy * 4 + q / 365` exceeds the cycle year by one on
      the last day of each year of the cycle, and only there. */
  lemma CycleYearSkew(q: int)
    requires 0 <= q < QYD
    ensures q / DOY == CycleYear(q)
              + (if q - CycleOffset(CycleYear(q)) == YearLength(q < DOY + 1) - 1 then 1 else 0)
  {
  }

  /** The conversion as written agrees with the corrected one in every field
      but the year, and the year differs, by one, exactly on December 31. */
  lemma AsWrittenSkew(t: int)
    requires 0 <= t < EPOCH_LIMIT
    ensures var c := FromEpochCorrected(t);
            FromEpoch(t) == c.(year := c.year + (if c.mon == 11 && c.mday == 30 then 1 else 0))
  {
    var s := SplitEpoch(t);
    var md := MonthDay(s.q);
    CycleYearSkew(s.q);
    LastDayOfYear(md.0, md.1, s.q < DOY + 1);
  }

  /** The epoch itself. */
  lemma EpochStart()
    ensures FromEpoch(0) == DateTime(1970, 0, 0, 0, 0, 0)
  {
    assert SplitEpoch(0) == CycleDay(92, 731, 0, 0, 0);
    assert MonthDay(731) == MonthWalk(0, 0, false) == (0, 0);
  }

  /** 2000-02-29, a leap day in a century year. */
  lemma LeapDay2000()
    ensures FromEpoch(951782400) == DateTime(2000, 1, 28, 0, 0, 0)
  {
    assert SplitEpoch(951782400) == CycleDay(100, 59, 0, 0, 0);
    assert MonthWalk(28, 1, true) == (1, 28);
    assert MonthDay(59) == MonthWalk(59, 0, true) == (1, 28);
  }

  /** 2024-01-02T03:04:05. */
  lemma Instant20240102()
    ensures FromEpoch(1704164645) == DateTime(2024, 0, 1, 3, 4, 5)
  {
    assert SplitEpoch(1704164645) == CycleDay(106, 1, 3, 4, 5);
    assert MonthWalk(0, 1, true) == (1, 0);
    assert MonthDay(1) == MonthWalk(1, 0, true) == (0, 1);
  }

  /** Day 1095 of a cycle is the last day of its third year. */
  lemma LastDayOfThirdYear()
    ensures MonthDay(1095) == (11, 30)
  {
    var r := MonthDay(1095);
    assert CycleYear(1095) == 2 && CycleOffset(2) == 731;
    LastDayOfYear(r.0, r.1, false);
  }

  lemma SplitDecember31Of1970()
    ensures SplitEpoch(31449600) == CycleDay(92, 1095, 0, 0, 0)
  {
  }

  /** 1970-12-31: the source reports year 1971; the corrected conversion 1970. */
  lemma December31Of1970()
    ensures FromEpoch(31449600) == DateTime(1971, 11, 30, 0, 0, 0)
    ensures FromEpochCorrected(31449600) == DateTime(1970, 11, 30, 0, 0, 0)
  {
    SplitDecember31Of1970();
    LastDayOfThirdYear();
    assert CycleYear(1095) == 2;
  }
}
