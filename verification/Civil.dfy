/**
 Civil dates as integers: the day arithmetic behind `Date.UTC` and the UTC
 getters (section 21.4.1 of ECMA-262), which is all `addDays` relies on.
 Day 0 is 1970-01-01.
 */
module Civil {
  datatype Date = Date(year: int, month: int, day: int) {
    /** A date that the proleptic Gregorian calendar has. */
    predicate Valid() {
      1 <= month <= 12 && 1 <= day <= MonthLength(month, IsLeap(year))
    }
  }

  datatype DayKey = Mon | Tue | Wed | Thu | Fri | Sat | Sun

  predicate IsLeap(y: int) {
    (y % 4 == 0 && y % 100 != 0) || y % 400 == 0
  }

  /** The day number of January 1st of year `y`. */
  function DayFromYear(y: int): int {
    365 * (y - 1970) + (y - 1969) / 4 - (y - 1901) / 100 + (y - 1601) / 400
  }

  lemma By4(y: int)
    ensures (y - 1968) / 4 - (y - 1969) / 4 == if y % 4 == 0 then 1 else 0
  {
  }

  lemma By100(y: int)
    ensures (y - 1900) / 100 - (y - 1901) / 100 == if y % 100 == 0 then 1 else 0
  {
  }

  lemma By400(y: int)
    ensures (y - 1600) / 400 - (y - 1601) / 400 == if y % 400 == 0 then 1 else 0
    ensures y % 400 == 0 ==> y % 100 == 0 && y % 4 == 0
    ensures y % 100 == 0 ==> y % 4 == 0
  {
    assert y == 400 * (y / 400) + y % 400;
    assert y == 100 * (y / 100) + y % 100;
  }

  /** Consecutive new years are a leap or a common year apart. */
  lemma YearLength(y: int)
    ensures DayFromYear(y + 1) - DayFromYear(y) == if IsLeap(y) then 366 else 365
  {
    By4(y);
    By100(y);
    By400(y);
  }

  lemma {:induction false} YearsAreOrdered(y: int, y': int)
    requires y < y'
    ensures DayFromYear(y) + 365 * (y' - y) <= DayFromYear(y')
    decreases y' - y
  {
    YearLength(y);
    if y + 1 < y' {
      YearsAreOrdered(y + 1, y');
    }
  }

  function MonthLength(m: int, leap: bool): int {
    if m == 2 then (if leap then 29 else 28) else if m == 4 || m == 6 || m == 9 || m == 11 then 30 else 31
  }

  /** How many days of the year precede month `m` (13 stands for the year's end). */
  function MonthStart(m: int, leap: bool): int
    requires 1 <= m <= 13
  {
    if m == 1 then 0 else MonthStart(m - 1, leap) + MonthLength(m - 1, leap)
  }

  lemma MonthsFillTheYear(leap: bool)
    ensures MonthStart(13, leap) == if leap then 366 else 365
  {
    assert MonthStart(2, leap) == 31;
    assert MonthStart(3, leap) == if leap then 60 else 59;
    assert MonthStart(5, leap) == if leap then 121 else 120;
    assert MonthStart(7, leap) == if leap then 182 else 181;
    assert MonthStart(9, leap) == if leap then 244 else 243;
    assert MonthStart(11, leap) == if leap then 305 else 304;
  }

  /** MakeDay: the day number of a date; the day of the month may lie outside the month. */
  function DayFromCivil(c: Date): int
    requires 1 <= c.month <= 12
  {
    DayFromYear(c.year) + MonthStart(c.month, IsLeap(c.year)) + c.day - 1
  }

  /** The year of day `n`, found by walking from the guess `y`. */
  function YearFrom(n: int, y: int): (r: int)
    ensures DayFromYear(r) <= n < DayFromYear(r + 1)
    decreases
      if n < DayFromYear(y) then DayFromYear(y) - n
      else if DayFromYear(y + 1) <= n then n - DayFromYear(y)
      else 0
  {
    hide DayFromYear;
    YearLength(y);
    YearLength(y - 1);
    if n < DayFromYear(y) then YearFrom(n, y - 1)
    else if DayFromYear(y + 1) <= n then YearFrom(n, y + 1)
    else y
  }

  /** The month that day `k` of a year (counted from 0) falls in, searching from month `m`. */
  function MonthFrom(k: int, leap: bool, m: int): (r: int)
    requires 1 <= m <= 12 && MonthStart(m, leap) <= k < MonthStart(13, leap)
    ensures 1 <= r <= 12 && MonthStart(r, leap) <= k < MonthStart(r + 1, leap)
    decreases 12 - m
  {
    if k < MonthStart(m + 1, leap) then m else MonthFrom(k, leap, m + 1)
  }

  /** The date of day `k` of year `y`. */
  function DateInYear(y: int, k: int): (c: Date)
    requires 0 <= k < MonthStart(13, IsLeap(y))
    ensures c.Valid() && DayFromCivil(c) == DayFromYear(y) + k
  {
    hide DayFromYear, MonthLength, IsLeap;
    var m := MonthFrom(k, IsLeap(y), 1);
    Date(y, m, k - MonthStart(m, IsLeap(y)) + 1)
  }

  /** The date of day `n`: the UTC getters of `new Date(n * 86400000)`. */
  function CivilFromDay(n: int): (c: Date)
    ensures c.Valid()
    ensures DayFromCivil(c) == n
  {
    hide DayFromYear, MonthStart;
    var y := YearFrom(n, 1970 + n / 366);
    YearLength(y);
    MonthsFillTheYear(IsLeap(y));
    DateInYear(y, n - DayFromYear(y))
  }

  /** Only one year contains a given day. */
  lemma YearIsUnique(n: int, y: int, y': int)
    requires DayFromYear(y) <= n < DayFromYear(y + 1)
    requires DayFromYear(y') <= n < DayFromYear(y' + 1)
    ensures y == y'
  {
    if y + 1 < y' {
      YearsAreOrdered(y + 1, y');
    } else if y' + 1 < y {
      YearsAreOrdered(y' + 1, y);
    }
  }

  /** Only one month of a year contains a given day of the year. */
  lemma MonthIsUnique(k: int, leap: bool, m: int, m': int)
    requires 1 <= m <= 12 && MonthStart(m, leap) <= k < MonthStart(m + 1, leap)
    requires 1 <= m' <= 12 && MonthStart(m', leap) <= k < MonthStart(m' + 1, leap)
    ensures m == m'
  {
    MonthsAreOrdered(leap, m + 1, m');
    MonthsAreOrdered(leap, m' + 1, m);
  }

  lemma {:induction false} MonthsAreOrdered(leap: bool, m: int, m': int)
    requires 1 <= m <= 13 && 1 <= m' <= 13
    ensures m <= m' ==> MonthStart(m, leap) <= MonthStart(m', leap)
    decreases m' - m
  {
    if m < m' {
      MonthsAreOrdered(leap, m + 1, m');
    }
  }

  lemma InItsYear(c: Date)
    requires c.Valid()
    ensures DayFromYear(c.year) <= DayFromCivil(c) < DayFromYear(c.year + 1)
    ensures 1 <= c.day <= 31
    ensures var k := DayFromCivil(c) - DayFromYear(c.year);
            MonthStart(c.month, IsLeap(c.year)) <= k < MonthStart(c.month + 1, IsLeap(c.year))
  {
    hide DayFromYear;
    var leap := IsLeap(c.year);
    YearLength(c.year);
    MonthsFillTheYear(leap);
    MonthsAreOrdered(leap, 1, c.month);
    MonthsAreOrdered(leap, c.month + 1, 13);
  }

  /** Valid dates with the same day number are the same date. */
  lemma DayNumberIsInjective(c: Date, c': Date)
    requires c.Valid() && c'.Valid() && DayFromCivil(c) == DayFromCivil(c')
    ensures c == c'
  {
    hide DayFromYear, MonthStart, MonthLength, IsLeap;
    InItsYear(c);
    InItsYear(c');
    YearIsUnique(DayFromCivil(c), c.year, c'.year);
    MonthIsUnique(DayFromCivil(c) - DayFromYear(c.year), IsLeap(c.year), c.month, c'.month);
  }

  /** A valid date is the date of its own day number, so dates and days are in bijection. */
  lemma CivilRoundTrip(c: Date)
    requires c.Valid()
    ensures CivilFromDay(DayFromCivil(c)) == c
  {
    DayNumberIsInjective(CivilFromDay(DayFromCivil(c)), c);
  }

  /** `addDays`: shift a civil date by `delta` days, without any time zone. */
  function AddDays(c: Date, delta: int): (r: Date)
    requires c.Valid()
    ensures r.Valid() && DayFromCivil(r) == DayFromCivil(c) + delta
  {
    CivilFromDay(DayFromCivil(c.(day := c.day + delta)))
  }

  /** The weekday of a day, Monday first: `DAY_KEYS[(getUTCDay() + 6) % 7]`. */
  function WeekdayOf(n: int): DayKey {
    var sundayFirst := (n + 4) % 7;
    [Mon, Tue, Wed, Thu, Fri, Sat, Sun][(sundayFirst + 6) % 7]
  }

  /** The day after, in the order of the week. */
  function Following(k: DayKey): DayKey {
    match k
    case Mon => Tue
    case Tue => Wed
    case Wed => Thu
    case Thu => Fri
    case Fri => Sat
    case Sat => Sun
    case Sun => Mon
  }

  lemma NextIndex(d: int)
    ensures (d + 5) % 7 == if (d + 4) % 7 == 6 then 0 else (d + 4) % 7 + 1
  {
  }

  lemma NamesFollow(i: int)
    requires 0 <= i < 7
    ensures var (names, next) := ([Mon, Tue, Wed, Thu, Fri, Sat, Sun], if i == 6 then 0 else i + 1);
            names[(next + 6) % 7] == Following(names[(i + 6) % 7])
  {
  }

  /** Weekdays follow one another. */
  lemma WeekdaysInOrder(d: int)
    ensures WeekdayOf(d + 1) == Following(WeekdayOf(d))
  {
    hide Following;
    NextIndex(d);
    NamesFollow((d + 4) % 7);
  }

  /** Day 0 is 1970-01-01, a Thursday. */
  lemma EpochIsThursday()
    ensures CivilFromDay(0) == Date(1970, 1, 1) && WeekdayOf(0) == Thu
  {
    EpochIsDayZero();
    hide DayFromCivil, CivilFromDay;
    CivilRoundTrip(Date(1970, 1, 1));
  }

  lemma EpochIsDayZero()
    ensures DayFromCivil(Date(1970, 1, 1)) == 0 && Date(1970, 1, 1).Valid()
  {
  }

  /** The days of the year on which the months begin. */
  lemma MonthsBegin(leap: bool)
    ensures var l := if leap then 1 else 0;
            && MonthStart(1, leap) == 0 && MonthStart(2, leap) == 31 && MonthStart(3, leap) == 59 + l
            && MonthStart(4, leap) == 90 + l && MonthStart(5, leap) == 120 + l && MonthStart(6, leap) == 151 + l
            && MonthStart(7, leap) == 181 + l && MonthStart(8, leap) == 212 + l && MonthStart(9, leap) == 243 + l
            && MonthStart(10, leap) == 273 + l && MonthStart(11, leap) == 304 + l && MonthStart(12, leap) == 334 + l
  {
    assert MonthStart(2, leap) == 31;
    assert MonthStart(3, leap) == if leap then 60 else 59;
    assert MonthStart(5, leap) == if leap then 121 else 120;
    assert MonthStart(7, leap) == if leap then 182 else 181;
    assert MonthStart(9, leap) == if leap then 244 else 243;
    assert MonthStart(11, leap) == if leap then 305 else 304;
  }

  /** Shifting is an action of the integers on dates. */
  lemma AddDaysComposes(c: Date, i: int, j: int)
    requires c.Valid()
    ensures AddDays(AddDays(c, i), j) == AddDays(c, i + j)
    ensures AddDays(c, 0) == c
  {
    DayNumberIsInjective(AddDays(AddDays(c, i), j), AddDays(c, i + j));
    DayNumberIsInjective(AddDays(c, 0), c);
  }

  /* The exceptions of a schedule are keyed by `YYYY-MM-DD`. */

  function Digits(n: nat): (s: string)
    ensures |s| > 0
  {
    if n < 10 then [('0' as int + n) as char] else Digits(n / 10) + [('0' as int + n % 10) as char]
  }

  /** The number a decimal string denotes. */
  function NumberOf(s: string): int {
    if s == [] then 0 else 10 * NumberOf(s[..|s| - 1]) + (s[|s| - 1] as int - '0' as int)
  }

  function PadStart(s: string, width: nat): string
    decreases width - |s|
  {
    if |s| >= width then s else PadStart("0" + s, width)
  }

  /** Zero padding keeps the number, so it can be read back. */
  lemma {:induction false} DigitsDenote(n: nat)
    ensures NumberOf(Digits(n)) == n
    ensures forall i :: 0 <= i < |Digits(n)| ==> '0' <= Digits(n)[i] <= '9'
  {
    if n >= 10 {
      DigitsDenote(n / 10);
      assert Digits(n)[..|Digits(n)| - 1] == Digits(n / 10);
    }
  }

  lemma {:induction false} LeadingZero(s: string)
    ensures NumberOf("0" + s) == NumberOf(s)
  {
    if s == [] {
      assert ("0" + s)[..|"0" + s| - 1] == [];
    } else {
      LeadingZero(s[..|s| - 1]);
      assert ("0" + s)[..|"0" + s| - 1] == "0" + s[..|s| - 1];
    }
  }

  lemma {:induction false} PaddingDenotes(s: string, width: nat)
    requires forall i :: 0 <= i < |s| ==> '0' <= s[i] <= '9'
    ensures NumberOf(PadStart(s, width)) == NumberOf(s)
    ensures forall i :: 0 <= i < |PadStart(s, width)| ==> '0' <= PadStart(s, width)[i] <= '9'
    ensures |PadStart(s, width)| == if |s| >= width then |s| else width
    decreases width - |s|
  {
    if |s| < width {
      LeadingZero(s);
      PaddingDenotes("0" + s, width);
    }
  }

  /** `String(n)`. */
  function JsString(n: int): string {
    if n < 0 then "-" + Digits(-n) else Digits(n)
  }

  /** The exceptions-map key of a date. */
  function DateKey(c: Date): string
  {
    PadStart(JsString(c.year), 4) + "-" + PadStart(JsString(c.month), 2) + "-" + PadStart(JsString(c.day), 2)
  }

  lemma PaddedNumber(n: nat, width: nat)
    ensures NumberOf(PadStart(JsString(n), width)) == n
    ensures n < 100 && width == 2 ==> |PadStart(JsString(n), width)| == 2
  {
    DigitsDenote(n);
    PaddingDenotes(Digits(n), width);
  }

  /** The number a padded decimal string denotes; a sign may follow the padding. */
  function SignedNumberOf(s: string): int {
    if s == [] then 0
    else if s[0] == '-' then -NumberOf(s[1..])
    else if s[0] == '0' then SignedNumberOf(s[1..])
    else NumberOf(s)
  }

  lemma {:induction false} FirstDigit(n: nat)
    ensures '0' <= Digits(n)[0] <= '9'
    ensures n > 0 ==> Digits(n)[0] != '0'
  {
    if n >= 10 {
      FirstDigit(n / 10);
    }
  }

  lemma {:induction false} PaddedYear(s: string, width: nat)
    ensures SignedNumberOf(PadStart(s, width)) == SignedNumberOf(s)
    decreases width - |s|
  {
    if |s| < width {
      PaddedYear("0" + s, width);
      assert ("0" + s)[1..] == s;
    }
  }

  lemma YearReadsBack(y: int, width: nat)
    ensures SignedNumberOf(PadStart(JsString(y), width)) == y
  {
    PaddedYear(JsString(y), width);
    if y < 0 {
      DigitsDenote(-y);
      assert JsString(y)[1..] == Digits(-y);
    } else {
      DigitsDenote(y);
      FirstDigit(y);
    }
  }

  lemma YearIsPadded(y: int)
    ensures |PadStart(JsString(y), 4)| >= 4 && (0 <= y <= 9999 ==> |PadStart(JsString(y), 4)| == 4)
  {
    PadLength(JsString(y), 4);
    if 0 <= y <= 9999 {
      FewDigits(y);
    }
  }

  lemma FewDigits(n: nat)
    requires n < 10000
    ensures |Digits(n)| <= 4
  {
    assert |Digits(n / 10 / 10 / 10)| == 1;
    assert |Digits(n / 10 / 10)| <= 2;
    assert |Digits(n / 10)| <= 3;
  }

  lemma {:induction false} PadLength(s: string, width: nat)
    ensures |PadStart(s, width)| == if |s| >= width then |s| else width
    decreases width - |s|
  {
    if |s| < width {
      PadLength("0" + s, width);
    }
  }

  /** No two dates share a key: an exception governs one civil day. */
  lemma DateKeyIsInjective(c: Date, c': Date)
    requires c.Valid() && c'.Valid() && DateKey(c) == DateKey(c')
    ensures c == c'
  {
    hide DateKey, NumberOf, SignedNumberOf, MonthLength, IsLeap, MonthStart;
    InItsYear(c);
    InItsYear(c');
    KeyParts(c);
    KeyParts(c');
  }

  /** The key reads YYYY-MM-DD: the three numbers can be read back, and hyphens stand around the month. */
  lemma KeyParts(c: Date)
    requires 0 <= c.month < 100 && 0 <= c.day < 100
    ensures var (k, n) := (DateKey(c), |DateKey(c)|);
            && n >= 10 && (0 <= c.year <= 9999 ==> n == 10) && k[n - 6] == k[n - 3] == '-'
            && SignedNumberOf(k[..n - 6]) == c.year
            && NumberOf(k[n - 5..n - 3]) == c.month && NumberOf(k[n - 2..]) == c.day
  {
    YearReadsBack(c.year, 4);
    YearIsPadded(c.year);
    PaddedNumber(c.month, 2);
    PaddedNumber(c.day, 2);
    hide PadStart, JsString, NumberOf, SignedNumberOf;
    var y, m, d := PadStart(JsString(c.year), 4), PadStart(JsString(c.month), 2), PadStart(JsString(c.day), 2);
    var k, n := DateKey(c), |DateKey(c)|;
    assert k == y + "-" + m + "-" + d;
    assert k[..n - 6] == y;
    assert k[n - 5..n - 3] == m;
    assert k[n - 2..] == d;
  }

  /** Different days have different keys. */
  lemma DayKeysDiffer(d: int, d': int)
    requires d != d'
    ensures DateKey(CivilFromDay(d)) != DateKey(CivilFromDay(d'))
  {
    hide DateKey, DayFromCivil;
    if DateKey(CivilFromDay(d)) == DateKey(CivilFromDay(d')) {
      DateKeyIsInjective(CivilFromDay(d), CivilFromDay(d'));
    }
  }
}
