/** Calendar arithmetic behind the day keys and week numbers of all
    variants: day numbers, the proleptic Gregorian civil calendar that
    JavaScript's Date uses, the "YYYY-MM-DD" day keys produced by
    toISOString().slice(0, 10), and the ISO 8601 week number computed by
    `weekNumber` (app.v7.js:13-18, app.v6.js:14-19, app.v3.js:12-17).
    Week dates follow section 4.1.4 of ISO 8601:2004: weeks start on Monday
    and week 1 of a year is the week holding its first Thursday. */
module Dates {
  import opened Values

  /** A calendar day, counted from 1970-01-01 (a Thursday). */
  type Day = int

  // ---------------------------------------------------------------------
  // Years

  predicate IsLeap(y: int) {
    y % 4 == 0 && (y % 100 != 0 || y % 400 == 0)
  }

  function YearLength(y: int): int {
    if IsLeap(y) then 366 else 365
  }

  /** The number of leap years among 1..n (counted with floor division, so
      the formula also holds below year 1). */
  function Leaps(n: int): int {
    n / 4 - n / 100 + n / 400
  }

  /** The day of January 1 of year `y`. */
  function YearStart(y: int): Day {
    365 * (y - 1970) + Leaps(y - 1) - Leaps(1969)
  }

  lemma LeapsStep(y: int)
    ensures Leaps(y) - Leaps(y - 1) == if IsLeap(y) then 1 else 0
  {
    assert y / 4 - (y - 1) / 4 == if y % 4 == 0 then 1 else 0;
    assert y / 100 - (y - 1) / 100 == if y % 100 == 0 then 1 else 0;
    assert y / 400 - (y - 1) / 400 == if y % 400 == 0 then 1 else 0;
    if y % 100 == 0 {
      assert y == 100 * (y / 100);
    }
    if y % 400 == 0 {
      assert y == 400 * (y / 400);
    }
  }

  /** Consecutive New Year's days lie a year's length apart. */
  lemma YearStartStep(y: int)
    ensures YearStart(y + 1) == YearStart(y) + YearLength(y)
  {
    LeapsStep(y);
  }

  lemma {:induction false} YearStartMonotone(a: int, b: int)
    requires a <= b
    ensures YearStart(a) + 365 * (b - a) <= YearStart(b)
    decreases b - a
  {
    if a < b {
      YearStartMonotone(a, b - 1);
      YearStartStep(b - 1);
    }
  }

  function YearUp(z: Day, y: int): (r: int)
    requires YearStart(y) <= z
    ensures YearStart(r) <= z < YearStart(r + 1)
    decreases z - YearStart(y)
  {
    YearStartStep(y);
    if z < YearStart(y + 1) then y else YearUp(z, y + 1)
  }

  function YearDown(z: Day, y: int): (r: int)
    requires z < YearStart(y + 1)
    ensures YearStart(r) <= z < YearStart(r + 1)
    decreases YearStart(y + 1) - z
  {
    YearStartStep(y);
    if YearStart(y) <= z then y else YearDown(z, y - 1)
  }

  /** The calendar year of a day (getFullYear / getUTCFullYear). */
  function YearOf(z: Day): (y: int)
    ensures YearStart(y) <= z < YearStart(y + 1)
  {
    if z >= 0 then YearUp(z, 1970) else YearDown(z, 1969)
  }

  /** The year of a day is the only year whose span holds it. */
  lemma YearOfUnique(z: Day, y: int)
    requires YearStart(y) <= z < YearStart(y + 1)
    ensures YearOf(z) == y
  {
    var r := YearOf(z);
    if r < y {
      YearStartMonotone(r + 1, y);
    } else if r > y {
      YearStartMonotone(y + 1, r);
    }
  }

  // ---------------------------------------------------------------------
  // Months and civil dates

  /** Days of year `y` before the first of month `m` (13 stands for the
      end of the year). */
  function DaysBeforeMonth(y: int, m: int): int
    requires 1 <= m <= 13
  {
    [0, 31, 59, 90, 120, 151, 181, 212, 243, 273, 304, 334, 365][m - 1]
    + (if IsLeap(y) && m > 2 then 1 else 0)
  }

  function MonthLength(y: int, m: int): int
    requires 1 <= m <= 12
  {
    DaysBeforeMonth(y, m + 1) - DaysBeforeMonth(y, m)
  }

  lemma MonthLengthBounds(y: int, m: int)
    requires 1 <= m <= 12
    ensures 28 <= MonthLength(y, m) <= 31
    ensures DaysBeforeMonth(y, 13) == YearLength(y)
  {
  }

  lemma DaysBeforeMonthMonotone(y: int, a: int, b: int)
    requires 1 <= a <= b <= 13
    ensures DaysBeforeMonth(y, a) <= DaysBeforeMonth(y, b)
  {
  }

  function MonthSearch(y: int, doy: int, m: int): (r: int)
    requires 1 <= m <= 12 && 0 <= doy < DaysBeforeMonth(y, m + 1)
    ensures 1 <= r <= m && DaysBeforeMonth(y, r) <= doy < DaysBeforeMonth(y, r + 1)
    decreases m
  {
    if DaysBeforeMonth(y, m) <= doy then m else MonthSearch(y, doy, m - 1)
  }

  lemma MonthUnique(y: int, doy: int, m1: int, m2: int)
    requires 1 <= m1 <= 12 && 1 <= m2 <= 12
    requires DaysBeforeMonth(y, m1) <= doy < DaysBeforeMonth(y, m1 + 1)
    requires DaysBeforeMonth(y, m2) <= doy < DaysBeforeMonth(y, m2 + 1)
    ensures m1 == m2
  {
    if m1 < m2 {
      DaysBeforeMonthMonotone(y, m1 + 1, m2);
    } else if m2 < m1 {
      DaysBeforeMonthMonotone(y, m2 + 1, m1);
    }
  }

  datatype Civil = Civil(year: int, month: int, day: int)

  predicate ValidCivil(c: Civil) {
    1 <= c.month <= 12 && 1 <= c.day <= MonthLength(c.year, c.month)
  }

  /** Year, month and day of month of a day number. */
  function ToCivil(z: Day): (c: Civil)
    ensures ValidCivil(c) && c.year == YearOf(z)
  {
    var y := YearOf(z);
    YearStartStep(y);
    var doy := z - YearStart(y);
    var m := MonthSearch(y, doy, 12);
    Civil(y, m, doy - DaysBeforeMonth(y, m) + 1)
  }

  /** The day number of a civil date. */
  function FromCivil(c: Civil): Day
    requires ValidCivil(c)
  {
    YearStart(c.year) + DaysBeforeMonth(c.year, c.month) + c.day - 1
  }

  /** The two conversions are inverse to each other. */
  lemma CivilRoundTrip(z: Day, c: Civil)
    requires ValidCivil(c)
    ensures FromCivil(ToCivil(z)) == z
    ensures ToCivil(FromCivil(c)) == c
  {
    var z' := FromCivil(c);
    YearStartStep(c.year);
    MonthLengthBounds(c.year, c.month);
    DaysBeforeMonthMonotone(c.year, c.month + 1, 13);
    YearOfUnique(z', c.year);
    var doy := z' - YearStart(c.year);
    MonthUnique(c.year, doy, MonthSearch(c.year, doy, 12), c.month);
  }

  /** Lexicographic order of (year, month, day). */
  predicate CivilLess(a: Civil, b: Civil) {
    a.year < b.year
    || (a.year == b.year && a.month < b.month)
    || (a.year == b.year && a.month == b.month && a.day < b.day)
  }

  lemma FromCivilOrder(a: Civil, b: Civil)
    requires ValidCivil(a) && ValidCivil(b) && CivilLess(a, b)
    ensures FromCivil(a) < FromCivil(b)
  {
    if a.year < b.year {
      YearStartMonotone(a.year + 1, b.year);
      YearStartStep(a.year);
      DaysBeforeMonthMonotone(a.year, a.month + 1, 13);
      MonthLengthBounds(a.year, a.month);
    } else if a.month < b.month {
      DaysBeforeMonthMonotone(a.year, a.month + 1, b.month);
    }
  }

  /** Day order is civil-date order. */
  lemma DayOrderIsCivilOrder(z1: Day, z2: Day)
    ensures z1 < z2 <==> CivilLess(ToCivil(z1), ToCivil(z2))
  {
    var c1, c2 := ToCivil(z1), ToCivil(z2);
    CivilRoundTrip(z1, c1);
    CivilRoundTrip(z2, c2);
    if CivilLess(c1, c2) {
      FromCivilOrder(c1, c2);
    } else if CivilLess(c2, c1) {
      FromCivilOrder(c2, c1);
    }
  }

  // ---------------------------------------------------------------------
  // Day keys: toISOString().slice(0, 10)

  function Pow10(w: nat): nat {
    if w == 0 then 1 else 10 * Pow10(w - 1)
  }

  /** The last `width` decimal digits of `n`, zero-padded. */
  function Digits(n: nat, width: nat): (s: string)
    ensures |s| == width
  {
    if width == 0 then [] else Digits(n / 10, width - 1) + [DigitChar(n % 10)]
  }

  /** Keys exist for four-digit years; other years are written in an
      extended form this model does not cover. */
  predicate InKeyRange(z: Day) {
    0 <= YearOf(z) <= 9999
  }

  /** The "YYYY-MM-DD" text of a civil date. */
  function CivilKey(c: Civil): (k: string)
    requires 0 <= c.year && 0 <= c.month && 0 <= c.day
    ensures |k| == 10
  {
    Digits(c.year, 4) + ("-" + (Digits(c.month, 2) + ("-" + Digits(c.day, 2))))
  }

  /** The "YYYY-MM-DD" key of a day. */
  function Key(z: Day): (k: string)
    requires InKeyRange(z)
    ensures |k| == 10
  {
    CivilKey(ToCivil(z))
  }

  /** JavaScript's `<` on strings: lexicographic on code units. */
  predicate StrLess(a: string, b: string)
    decreases |a|
  {
    if a == [] then b != []
    else if b == [] then false
    else if a[0] != b[0] then a[0] < b[0]
    else StrLess(a[1..], b[1..])
  }

  lemma {:induction false} StrLessIrreflexive(a: string)
    ensures !StrLess(a, a)
    decreases |a|
  {
    if a != [] {
      StrLessIrreflexive(a[1..]);
    }
  }

  /** Comparing two strings whose first parts have the same length: the
      first parts decide unless they are equal. */
  lemma {:induction false} StrLessConcat(p: string, q: string, x: string, y: string)
    requires |p| == |q|
    ensures StrLess(p + x, q + y) == if p == q then StrLess(x, y) else StrLess(p, q)
    decreases |p|
  {
    if p != [] {
      assert (p + x)[0] == p[0] && (q + y)[0] == q[0];
      assert (p + x)[1..] == p[1..] + x;
      assert (q + y)[1..] == q[1..] + y;
      StrLessConcat(p[1..], q[1..], x, y);
      if p[0] == q[0] {
        assert p == q <==> p[1..] == q[1..] by {
          assert p == [p[0]] + p[1..];
          assert q == [q[0]] + q[1..];
        }
      }
    } else {
      assert p + x == x && q + y == y;
    }
  }

  /** Zero-padded decimal strings of one width order like their numbers. */
  lemma {:induction false} DigitsOrder(a: nat, b: nat, w: nat)
    requires a < Pow10(w) && b < Pow10(w)
    ensures StrLess(Digits(a, w), Digits(b, w)) <==> a < b
    ensures Digits(a, w) == Digits(b, w) <==> a == b
    decreases w
  {
    if w > 0 {
      DigitsOrder(a / 10, b / 10, w - 1);
      var da, db := DigitChar(a % 10), DigitChar(b % 10);
      StrLessConcat(Digits(a / 10, w - 1), Digits(b / 10, w - 1), [da], [db]);
      assert StrLess([da], [db]) <==> a % 10 < b % 10 by {
        assert [da][1..] == [] && [db][1..] == [];
      }
      var pa, pb := Digits(a / 10, w - 1), Digits(b / 10, w - 1);
      assert Digits(a, w) == pa + [da] && Digits(b, w) == pb + [db];
      if Digits(a, w) == Digits(b, w) {
        assert pa == Digits(a, w)[..w - 1] == Digits(b, w)[..w - 1] == pb;
        assert da == Digits(a, w)[w - 1] == Digits(b, w)[w - 1] == db;
      }
    }
  }

  /** Keys of valid dates with four-digit years compare as strings exactly
      as the dates compare. */
  lemma CivilKeyOrder(c1: Civil, c2: Civil)
    requires ValidCivil(c1) && ValidCivil(c2)
    requires 0 <= c1.year <= 9999 && 0 <= c2.year <= 9999
    ensures StrLess(CivilKey(c1), CivilKey(c2)) <==> CivilLess(c1, c2)
    ensures CivilKey(c1) == CivilKey(c2) <==> c1 == c2
  {
    MonthLengthBounds(c1.year, c1.month);
    MonthLengthBounds(c2.year, c2.month);
    assert Pow10(2) == 100 && Pow10(4) == 10000;
    DigitsOrder(c1.year, c2.year, 4);
    DigitsOrder(c1.month, c2.month, 2);
    DigitsOrder(c1.day, c2.day, 2);
    var y1, y2 := Digits(c1.year, 4), Digits(c2.year, 4);
    var m1, m2 := Digits(c1.month, 2), Digits(c2.month, 2);
    var d1, d2 := Digits(c1.day, 2), Digits(c2.day, 2);
    var t1, t2 := "-" + d1, "-" + d2;
    var r1, r2 := "-" + (m1 + t1), "-" + (m2 + t2);
    StrLessConcat("-", "-", d1, d2);
    StrLessConcat(m1, m2, t1, t2);
    StrLessConcat("-", "-", m1 + t1, m2 + t2);
    StrLessConcat(y1, y2, r1, r2);
    assert CivilKey(c1) == y1 + r1 && CivilKey(c2) == y2 + r2;
    if CivilKey(c1) == CivilKey(c2) {
      assert y1 == CivilKey(c1)[..4] == CivilKey(c2)[..4] == y2;
      assert m1 == CivilKey(c1)[5..7] == CivilKey(c2)[5..7] == m2;
      assert d1 == CivilKey(c1)[8..] == CivilKey(c2)[8..] == d2;
    }
  }

  /** Day keys compare as strings exactly as their days compare as numbers,
      so `due <= today` on keys means "on or before today". */
  lemma KeyOrder(z1: Day, z2: Day)
    requires InKeyRange(z1) && InKeyRange(z2)
    ensures StrLess(Key(z1), Key(z2)) <==> z1 < z2
    ensures Key(z1) == Key(z2) <==> z1 == z2
  {
    var c1, c2 := ToCivil(z1), ToCivil(z2);
    CivilKeyOrder(c1, c2);
    DayOrderIsCivilOrder(z1, z2);
    CivilRoundTrip(z1, c1);
    CivilRoundTrip(z2, c2);
  }

  // ---------------------------------------------------------------------
  // Weekdays and ISO weeks

  /** getUTCDay: 0 for Sunday up to 6 for Saturday. */
  function UtcDay(z: Day): int {
    (z + 4) % 7
  }

  /** `getUTCDay() || 7`: 1 for Monday up to 7 for Sunday. */
  function IsoWeekday(z: Day): (w: int)
    ensures 1 <= w <= 7
  {
    if UtcDay(z) == 0 then 7 else UtcDay(z)
  }

  /** The Thursday of the day's Monday-to-Sunday week
      (`setUTCDate(getUTCDate() + 4 - day)`). */
  function WeekThursday(z: Day): Day {
    z + 4 - IsoWeekday(z)
  }

  /** The Monday that starts the day's week. */
  function Monday(z: Day): Day {
    z + 1 - IsoWeekday(z)
  }

  /** Math.ceil(a / b) for integers. */
  function CeilDiv(a: int, b: int): int
    requires b > 0
  {
    (a + b - 1) / b
  }

  /** `weekNumber`: the week's Thursday, counted in weeks from January 1
      of the Thursday's year. */
  function WeekNumber(z: Day): int {
    var t := WeekThursday(z);
    CeilDiv(t - YearStart(YearOf(t)) + 1, 7)
  }

  /** The ISO week-numbering year: the year of the week's Thursday. */
  function WeekYear(z: Day): int {
    YearOf(WeekThursday(z))
  }

  /** Week numbers run from 1 to 53. */
  lemma WeekNumberRange(z: Day)
    ensures 1 <= WeekNumber(z) <= 53
  {
    var t := WeekThursday(z);
    YearStartStep(YearOf(t));
  }

  /** All seven days from a Monday through the following Sunday share the
      week's Thursday, hence its week number and week-numbering year. */
  lemma WeekOfMonday(m: Day, i: int)
    requires IsoWeekday(m) == 1 && 0 <= i < 7
    ensures WeekThursday(m + i) == m + 3
    ensures WeekNumber(m + i) == WeekNumber(m) && WeekYear(m + i) == WeekYear(m)
  {
    assert (m + 4) % 7 == 1;
    assert (m + i + 4) % 7 == (i + 1) % 7;
  }

  /** Week 1 of a year holds the year's first Thursday. */
  lemma FirstThursdayInWeekOne(y: int, z: Day)
    requires YearStart(y) <= z < YearStart(y) + 7 && IsoWeekday(z) == 4
    ensures WeekNumber(z) == 1 && WeekYear(z) == y
  {
    YearStartStep(y);
    YearOfUnique(z, y);
  }

  lemma ThursdayMultipleOfSeven(z: Day)
    ensures WeekThursday(z) % 7 == 0
    ensures WeekThursday(z) == Monday(z) + 3
  {
  }

  /** The Monday of a day's week is the one day that is a Monday (day
      numbers 4 apart from a multiple of 7) among the day and the six days
      before it. */
  lemma MondayOfSpan(z: Day, m: Day)
    ensures Monday(z) % 7 == 4 && Monday(z) <= z < Monday(z) + 7
    ensures Monday(z) == m <==> m % 7 == 4 && m <= z < m + 7
  {
    ThursdayMultipleOfSeven(z);
    if m % 7 == 4 && m <= z < m + 7 {
      assert (Monday(z) - m) % 7 == 0;
    }
  }

  lemma SameWeekBlock(x: int, y: int)
    requires x % 7 == 0 && y % 7 == 0 && x / 7 == y / 7
    ensures x == y
  {
  }

  /** Two days have the same week number and week-numbering year exactly
      when they fall in the same Monday-to-Sunday week. */
  lemma IsoWeekIdentity(a: Day, b: Day)
    ensures (WeekNumber(a) == WeekNumber(b) && WeekYear(a) == WeekYear(b)) <==> Monday(a) == Monday(b)
  {
    ThursdayMultipleOfSeven(a);
    ThursdayMultipleOfSeven(b);
    var ta, tb := WeekThursday(a), WeekThursday(b);
    if WeekNumber(a) == WeekNumber(b) && WeekYear(a) == WeekYear(b) {
      var s := YearStart(YearOf(ta));
      assert (ta - s + 7) / 7 == (tb - s + 7) / 7;
      assert (ta - s) / 7 == (tb - s) / 7;
      assert ta - s == 7 * (ta / 7) - s && tb - s == 7 * (tb / 7) - s;
      assert ta / 7 == tb / 7;
      SameWeekBlock(ta, tb);
    }
  }
}
