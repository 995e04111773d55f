/** A zone-free proleptic Gregorian calendar on day numbers (days since
    1970-01-01), with the month arithmetic of JavaScript's Date: a month or
    day outside its range rolls over into the neighbouring months, as
    `setMonth`, `setDate` and `new Date(y, m, d)` do. */
module Calendar {
  import opened Base

  /** Milliseconds in a day: the time value of day z at midnight is z * MsPerDay. */
  const MsPerDay: int := 86400000

  /** The month index (year * 12 + zero-based month) of January 1970. */
  const EpochMonth: int := 1970 * 12

  predicate IsLeapYear(y: int) {
    y % 4 == 0 && (y % 100 != 0 || y % 400 == 0)
  }

  /** Days in zero-based month m0 of year y. */
  function DaysInMonth(y: int, m0: int): (n: int)
    requires 0 <= m0 < 12
    ensures 28 <= n <= 31
  {
    if m0 == 1 then (if IsLeapYear(y) then 29 else 28)
    else if m0 == 3 || m0 == 5 || m0 == 8 || m0 == 10 then 30
    else 31
  }

  /** Days from 1 January of year y to the first of zero-based month m0. */
  function DaysBeforeMonth(y: int, m0: int): int
    requires 0 <= m0 < 12
  {
    var before := [0, 31, 59, 90, 120, 151, 181, 212, 243, 273, 304, 334];
    before[m0] + (if m0 >= 2 && IsLeapYear(y) then 1 else 0)
  }

  /** Leap years among the years before y, counted from year 0. */
  function LeapYearsBefore(y: int): int {
    (y - 1) / 4 - (y - 1) / 100 + (y - 1) / 400
  }

  /** Day number of 1 January of year y. */
  function YearStart(y: int): int {
    365 * (y - 1970) + LeapYearsBefore(y) - LeapYearsBefore(1970)
  }

  /** Day number of the first day of month index k (year k / 12, month k % 12). */
  function MonthStart(k: int): int {
    YearStart(k / 12) + DaysBeforeMonth(k / 12, k % 12)
  }

  function MonthLength(k: int): int {
    DaysInMonth(k / 12, k % 12)
  }

  /** A year adds 365 days, and one more when it is a leap year. */
  lemma YearStartStep(y: int)
    ensures YearStart(y + 1) == YearStart(y) + (if IsLeapYear(y) then 366 else 365)
  {
    StepOver(y, 4);
    StepOver(y, 100);
    StepOver(y, 400);
    Multiples(y);
  }

  /** Moving from y - 1 to y passes one more multiple of n exactly when y is one. */
  lemma StepOver(y: int, n: int)
    requires n == 4 || n == 100 || n == 400
    ensures y / n - (y - 1) / n == if y % n == 0 then 1 else 0
  {
    hide *;
    var q := (y - 1) / n;
    var r := (y - 1) % n;
    assert y == q * n + r + 1;
    if r == n - 1 {
      assert y == (q + 1) * n;
    } else {
      assert y == q * n + (r + 1) && 0 <= r + 1 < n;
    }
  }

  /** A multiple of 400 is one of 100, and a multiple of 100 is one of 4. */
  lemma Multiples(y: int)
    ensures y % 400 == 0 ==> y % 100 == 0
    ensures y % 100 == 0 ==> y % 4 == 0
  {
    if y % 400 == 0 {
      MultipleOf(y, 400, 100);
    }
    if y % 100 == 0 {
      MultipleOf(y, 100, 4);
    }
  }

  /** A multiple of n is a multiple of each divisor m of n. */
  lemma MultipleOf(y: int, n: int, m: int)
    requires (n == 400 && m == 100) || (n == 100 && m == 4)
    requires y % n == 0
    ensures y % m == 0
  {
    hide *;
    var d := y / n;
    assert y == n * d;
    var q := y / m;
    var r := y % m;
    assert y == m * q + r && 0 <= r < m;
    var k := if n == 400 then 4 * d else 25 * d;
    assert y == m * k;
    assert m * (k - q) == r;
    assert k - q == 0;
  }

  /** Consecutive months are adjacent: each one starts where the last ends. */
  lemma MonthStartStep(k: int)
    ensures MonthStart(k + 1) == MonthStart(k) + MonthLength(k)
  {
    var y := k / 12;
    if k % 12 == 11 {
      assert (k + 1) / 12 == y + 1 && (k + 1) % 12 == 0;
      YearStartStep(y);
    } else {
      assert (k + 1) / 12 == y && (k + 1) % 12 == k % 12 + 1;
    }
  }

  /** Months are laid out in order: a later month starts after an earlier one ends. */
  lemma {:induction false} MonthStartOrder(j: int, k: int)
    requires j < k
    ensures MonthStart(j) + MonthLength(j) <= MonthStart(k)
    decreases k - j
  {
    MonthStartStep(j);
    hide MonthStart;
    if j + 1 < k {
      MonthStartOrder(j + 1, k);
    }
  }

  function FindMonthUp(z: int, k: int): (r: int)
    requires MonthStart(k) <= z
    ensures MonthStart(r) <= z < MonthStart(r) + MonthLength(r)
    decreases z - MonthStart(k)
  {
    MonthStartStep(k);
    hide MonthStart;
    if z < MonthStart(k) + MonthLength(k) then k else FindMonthUp(z, k + 1)
  }

  function FindMonthDown(z: int, k: int): (r: int)
    requires z < MonthStart(k)
    ensures MonthStart(r) <= z < MonthStart(r) + MonthLength(r)
    decreases MonthStart(k) - z
  {
    MonthStartStep(k - 1);
    hide MonthStart;
    if MonthStart(k - 1) <= z then k - 1 else FindMonthDown(z, k - 1)
  }

  /** The month index of day z, searched from a close estimate. */
  function MonthOf(z: int): (k: int)
    ensures MonthStart(k) <= z < MonthStart(k) + MonthLength(k)
  {
    var estimate := EpochMonth + (z * 4800) / 146097;
    if MonthStart(estimate) <= z then FindMonthUp(z, estimate) else FindMonthDown(z, estimate)
  }

  /** Each day belongs to exactly one month. */
  lemma MonthOfUnique(z: int, k: int)
    requires MonthStart(k) <= z < MonthStart(k) + MonthLength(k)
    ensures MonthOf(z) == k
  {
    var j := MonthOf(z);
    if j < k {
      MonthStartOrder(j, k);
    } else if k < j {
      MonthStartOrder(k, j);
    }
  }

  /** A calendar date: year, month 1-12, day of the month. */
  datatype Civil = Civil(year: int, month: int, day: int)

  predicate ValidCivil(c: Civil) {
    1 <= c.month <= 12 && 1 <= c.day <= DaysInMonth(c.year, c.month - 1)
  }

  /** JavaScript's MakeDay: the day number of day d of zero-based month m0 of
      year y, where a month outside 0-11 moves the year and a day outside the
      month moves into the neighbouring months. */
  function MakeDay(y: int, m0: int, d: int): int {
    MonthStart(y * 12 + m0) + d - 1
  }

  /** The calendar date of day z (getFullYear, getMonth + 1, getDate). */
  function ToCivil(z: int): (c: Civil)
    ensures ValidCivil(c)
    ensures MakeDay(c.year, c.month - 1, c.day) == z
  {
    var k := MonthOf(z);
    MakeDayOfIndex(k, z - MonthStart(k) + 1);
    Civil(k / 12, k % 12 + 1, z - MonthStart(k) + 1)
  }

  /** The calendar date of day z names the month MonthOf finds for it, and
      the day's offset in that month. */
  lemma CivilIndex(z: int)
    ensures ToCivil(z).year * 12 + (ToCivil(z).month - 1) == MonthOf(z)
    ensures ToCivil(z).day == z - MonthStart(MonthOf(z)) + 1
  {
    var k := MonthOf(z);
    hide MonthStart, MonthOf;
    assert (k / 12) * 12 + k % 12 == k;
  }

  /** Day d of month index k, by year and month. */
  lemma MakeDayOfIndex(k: int, d: int)
    ensures MakeDay(k / 12, k % 12, d) == MonthStart(k) + d - 1
    ensures 0 <= k % 12 < 12 && DaysInMonth(k / 12, k % 12) == MonthLength(k)
  {
    hide MonthStart;
    assert (k / 12) * 12 + k % 12 == k;
  }

  /** Day numbers and valid calendar dates correspond one to one. */
  lemma ToCivilMakeDay(c: Civil)
    requires ValidCivil(c)
    ensures ToCivil(MakeDay(c.year, c.month - 1, c.day)) == c
  {
    var k := c.year * 12 + (c.month - 1);
    hide MonthStart;
    assert k / 12 == c.year && k % 12 == c.month - 1;
    MonthOfUnique(MakeDay(c.year, c.month - 1, c.day), k);
  }

  /** The day of the week of day z, 0 = Sunday (getDay); 1970-01-01 was a Thursday. */
  function Weekday(z: int): (w: int)
    ensures 0 <= w < 7
  {
    (z + 4) % 7
  }

  /** Moving n days ahead moves the weekday n places round the week. */
  lemma WeekdayShift(z: int, n: int)
    ensures Weekday(z + n) == (Weekday(z) + n) % 7
  {
  }

  /** `new Date(y, m0 + 1, 0).getDate()`: day 0 of the next month is the last
      day of this one. */
  function LastDayOfMonth(y: int, m0: int): (n: int)
    requires 0 <= m0 < 12
    ensures n == DaysInMonth(y, m0)
  {
    LastDayOfMonthIs(y, m0);
    ToCivil(MakeDay(y, m0 + 1, 0)).day
  }

  /** Day 0 of the month after month m0 is the last day of month m0. */
  lemma LastDayOfMonthIs(y: int, m0: int)
    requires 0 <= m0 < 12
    ensures ToCivil(MakeDay(y, m0 + 1, 0)) == Civil(y, m0 + 1, DaysInMonth(y, m0))
  {
    hide MonthStart;
    var k := y * 12 + m0;
    MonthStartStep(k);
    assert k / 12 == y && k % 12 == m0;
    var z := MakeDay(y, m0 + 1, 0);
    assert z == MonthStart(k) + MonthLength(k) - 1;
    MonthOfUnique(z, k);
  }

  /** `s` left-padded with '0' to `width` characters (padStart). */
  function PadStart(s: string, width: nat): (r: string)
    ensures |r| == if |s| >= width then |s| else width
    decreases width - |s|
  {
    if |s| >= width then s else PadStart("0" + s, width)
  }

  /** Leading zeros do not change the value of a digit string. */
  lemma {:induction false} LeadingZeroValue(s: string)
    requires AllDigits(s)
    ensures AllDigits("0" + s) && DigitsValue("0" + s) == DigitsValue(s)
    decreases |s|
  {
    var t := "0" + s;
    if s != [] {
      assert t[..|t| - 1] == "0" + s[..|s| - 1];
      LeadingZeroValue(s[..|s| - 1]);
    } else {
      assert t[..0] == [];
    }
  }

  lemma {:induction false} PadStartValue(s: string, width: nat)
    requires AllDigits(s)
    ensures AllDigits(PadStart(s, width)) && DigitsValue(PadStart(s, width)) == DigitsValue(s)
    decreases width - |s|
  {
    if |s| < width {
      LeadingZeroValue(s);
      PadStartValue("0" + s, width);
    }
  }

  /** A digit string, padded to its own length after rendering its value,
      is itself. */
  lemma {:induction false} PadStartDigits(d: string)
    requires AllDigits(d) && d != []
    ensures PadStart(NatToString(DigitsValue(d)), |d|) == d
    decreases |d|
  {
    var v := DigitsValue(d);
    if |d| > 1 {
      var front := d[..|d| - 1];
      var x := d[|d| - 1];
      assert d == front + [x];
      PadStartDigits(front);
      var v' := DigitsValue(front);
      assert v == 10 * v' + DigitValue(x);
      if v >= 10 {
        assert NatToString(v) == NatToString(v / 10) + [DigitChar(v % 10)];
        assert v / 10 == v' && DigitChar(v % 10) == x;
        PadStartAppend(NatToString(v'), [x], |front|);
      } else {
        assert v' == 0;
        assert NatToString(v) == [x];
        PadZeroes(front);
        PadStartAppend("0", [x], |front|);
      }
    }
  }

  /** Padding a string and then appending is appending and then padding one wider. */
  lemma {:induction false} PadStartAppend(s: string, tail: string, width: nat)
    ensures PadStart(s + tail, width + |tail|) == PadStart(s, width) + tail
    decreases width - |s|
  {
    if |s| < width {
      assert "0" + (s + tail) == ("0" + s) + tail;
      PadStartAppend("0" + s, tail, width);
    }
  }

  /** Digits of value 0 are all zeros, which is "0" padded to their length. */
  lemma PadZeroes(front: string)
    requires AllDigits(front) && front != [] && DigitsValue(front) == 0
    ensures PadStart("0", |front|) == front
  {
    AllZero(front);
    ZeroesPad(|front|);
  }

  lemma {:induction false} AllZero(s: string)
    requires AllDigits(s) && DigitsValue(s) == 0
    ensures forall i :: 0 <= i < |s| ==> s[i] == '0'
    decreases |s|
  {
    if s != [] {
      AllZero(s[..|s| - 1]);
      assert forall i :: 0 <= i < |s| - 1 ==> s[i] == s[..|s| - 1][i];
    }
  }

  lemma ZeroesPad(n: nat)
    requires n >= 1
    ensures forall s: string :: |s| == n && (forall i :: 0 <= i < n ==> s[i] == '0') ==> PadStart("0", n) == s
  {
    ZeroesPadShape(n);
  }

  lemma {:induction false} ZeroesPadShape(n: nat)
    requires n >= 1
    ensures |PadStart("0", n)| == n && forall i :: 0 <= i < n ==> PadStart("0", n)[i] == '0'
    decreases n
  {
    ZeroesPadFrom("0", n);
  }

  lemma {:induction false} ZeroesPadFrom(s: string, n: nat)
    requires s != [] && forall i :: 0 <= i < |s| ==> s[i] == '0'
    ensures forall i :: 0 <= i < |PadStart(s, n)| ==> PadStart(s, n)[i] == '0'
    decreases n - |s|
  {
    if |s| < n {
      ZeroesPadFrom("0" + s, n);
    }
  }

  /** The year as toISOString writes it: four digits, or a sign and six. */
  function YearText(y: int): string {
    if 0 <= y <= 9999 then PadStart(NatToString(y), 4)
    else if y > 9999 then "+" + PadStart(NatToString(y), 6)
    else "-" + PadStart(NatToString(-y), 6)
  }

  /** A date written out as "YYYY-MM-DD" (with the year as YearText writes it). */
  function CivilText(c: Civil): string
    requires c.month >= 0 && c.day >= 0
  {
    YearText(c.year) + "-" + PadStart2(c.month) + "-" + PadStart2(c.day)
  }

  /** `toISOString().split('T')[0]` of the midnight of day z. */
  function FormatIsoDate(z: int): string {
    CivilText(ToCivil(z))
  }

  /** The shape of an ISO date "YYYY-MM-DD", as a date input produces it. */
  predicate IsoShape(s: string) {
    |s| == 10 && s[4] == '-' && s[7] == '-'
    && AllDigits(s[..4]) && AllDigits(s[5..7]) && AllDigits(s[8..])
  }

  /** `new Date(s)` for a date-only string: the day it names, or None for an
      Invalid Date. */
  function ParseIsoDate(s: string): (r: Option<int>)
    ensures r.Some? ==> IsoShape(s)
  {
    if !IsoShape(s) then None
    else
      var y := DigitsValue(s[..4]);
      var m := DigitsValue(s[5..7]);
      var d := DigitsValue(s[8..]);
      if 1 <= m <= 12 && 1 <= d <= DaysInMonth(y, m - 1) then Some(MakeDay(y, m - 1, d)) else None
  }

  /** A date written by toISOString (years 0-9999) is read back as the same day. */
  lemma ParseFormat(z: int)
    requires 0 <= ToCivil(z).year <= 9999
    ensures ParseIsoDate(FormatIsoDate(z)) == Some(z)
  {
    ParseCivilText(ToCivil(z));
  }

  lemma ParseCivilText(c: Civil)
    requires ValidCivil(c) && 0 <= c.year <= 9999
    ensures ParseIsoDate(CivilText(c)) == Some(MakeDay(c.year, c.month - 1, c.day))
  {
    hide MonthStart;
    var yt := PadStart(NatToString(c.year), 4);
    var mt := PadStart2(c.month);
    var dt := PadStart2(c.day);
    assert |NatToString(c.year)| <= 4 by { NatToStringLength(c.year, 4); }
    IsoParts(yt, mt, dt);
    PadStartValue(NatToString(c.year), 4);
    NatToStringValue(c.year);
    PadStart2Value(c.month);
    PadStart2Value(c.day);
  }

  /** The three fields of "YYYY-MM-DD" are where IsoShape looks for them. */
  lemma IsoParts(yt: string, mt: string, dt: string)
    requires |yt| == 4 && |mt| == 2 && |dt| == 2
    ensures var s := yt + "-" + mt + "-" + dt;
      |s| == 10 && s[4] == '-' && s[7] == '-' && s[..4] == yt && s[5..7] == mt && s[8..] == dt
  {
  }

  /** A number below 10^n has at most n digits. */
  lemma {:induction false} NatToStringLength(n: nat, width: nat)
    requires width >= 1 && n < Power10(width)
    ensures |NatToString(n)| <= width
    decreases width
  {
    if n >= 10 {
      assert width > 1;
      NatToStringLength(n / 10, width - 1);
    }
  }

  function Power10(n: nat): nat {
    if n == 0 then 1 else 10 * Power10(n - 1)
  }

  /** A string that parses as a date is the one toISOString writes for that day. */
  lemma FormatParse(s: string)
    requires ParseIsoDate(s).Some?
    ensures FormatIsoDate(ParseIsoDate(s).value) == s
  {
    var c := Civil(DigitsValue(s[..4]), DigitsValue(s[5..7]), DigitsValue(s[8..]));
    assert ParseIsoDate(s).value == MakeDay(c.year, c.month - 1, c.day);
    ToCivilMakeDay(c);
    CivilTextOfIso(s);
  }

  /** Reading the three fields of an ISO date and writing them out again gives it back. */
  lemma CivilTextOfIso(s: string)
    requires IsoShape(s)
    ensures CivilText(Civil(DigitsValue(s[..4]), DigitsValue(s[5..7]), DigitsValue(s[8..]))) == s
  {
    hide MonthStart;
    assert DigitsValue(s[..4]) < 10000 by { DigitsBound(s[..4]); }
    PadStartDigits(s[..4]);
    PadDigitsTwo(s[5..7]);
    PadDigitsTwo(s[8..]);
    assert s == s[..4] + "-" + s[5..7] + "-" + s[8..];
  }

  lemma {:induction false} DigitsBound(s: string)
    requires AllDigits(s)
    ensures DigitsValue(s) < Power10(|s|)
    decreases |s|
  {
    if s != [] {
      DigitsBound(s[..|s| - 1]);
    }
  }
}
