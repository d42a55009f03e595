/** Proleptic Gregorian calendar dates as Python's `datetime` represents them:
    years 1..9999, ordered lexicographically, numbered by `toordinal()`
    (0001-01-01 is day 1), advanced by `timedelta(days=1)`, and printed by
    `strftime` with `%Y`, `%m` and `%d`. */
module Calendar {
  import opened Wrappers
  import opened Text

  datatype CivilDate = CivilDate(year: int, month: int, day: int)

  const MinYear := 1
  const MaxYear := 9999

  predicate IsLeapYear(y: int) {
    y % 4 == 0 && (y % 100 != 0 || y % 400 == 0)
  }

  function DaysInMonth(y: int, m: int): (n: int)
    requires 1 <= m <= 12
    ensures 28 <= n <= 31
  {
    if m == 2 then (if IsLeapYear(y) then 29 else 28)
    else if m == 4 || m == 6 || m == 9 || m == 11 then 30
    else 31
  }

  function DaysInYear(y: int): int {
    if IsLeapYear(y) then 366 else 365
  }

  predicate IsValidDate(d: CivilDate) {
    && MinYear <= d.year <= MaxYear
    && 1 <= d.month <= 12
    && 1 <= d.day <= DaysInMonth(d.year, d.month)
  }

  /** A value Python's `datetime.date` can hold. */
  type Date = d: CivilDate | IsValidDate(d) witness CivilDate(2016, 1, 1)

  /** `datetime.max.date()`: the last representable day. */
  const MaxDate: Date := CivilDate(MaxYear, 12, 31)

  /** The days a pandas `datetime64[ns]` value holds at midnight:
      `Timestamp.min` is 1677-09-21 00:12:43 and `Timestamp.max` is
      2262-04-11 23:47:16, so `pd.to_datetime` raises `OutOfBoundsDatetime`
      for a date text outside these two days. */
  const FirstStampDay: Date := CivilDate(1677, 9, 22)
  const LastStampDay: Date := CivilDate(2262, 4, 11)

  predicate InStampRange(d: CivilDate) {
    Le(FirstStampDay, d) && Le(d, LastStampDay)
  }

  /** Python's comparison `a <= b` on dates. */
  predicate Le(a: CivilDate, b: CivilDate) {
    || a.year < b.year
    || (a.year == b.year && a.month < b.month)
    || (a.year == b.year && a.month == b.month && a.day <= b.day)
  }

  lemma LeTotal(a: CivilDate, b: CivilDate)
    ensures Le(a, b) || Le(b, a)
    ensures Le(a, b) && Le(b, a) ==> a == b
  {
  }

  lemma LeTransitive(a: CivilDate, b: CivilDate, c: CivilDate)
    requires Le(a, b) && Le(b, c)
    ensures Le(a, c)
  {
  }

  /** Days in the years before `y`, so that 0001-01-01 has ordinal 1. */
  function DaysBeforeYear(y: int): int {
    (y - 1) * 365 + (y - 1) / 4 - (y - 1) / 100 + (y - 1) / 400
  }

  function DaysBeforeMonth(y: int, m: int): int
    requires 1 <= m <= 12
  {
    var common :=
      if m == 1 then 0 else if m == 2 then 31 else if m == 3 then 59
      else if m == 4 then 90 else if m == 5 then 120 else if m == 6 then 151
      else if m == 7 then 181 else if m == 8 then 212 else if m == 9 then 243
      else if m == 10 then 273 else if m == 11 then 304 else 334;
    common + (if m > 2 && IsLeapYear(y) then 1 else 0)
  }

  /** Python's `date.toordinal()`. */
  function Ordinal(d: Date): int {
    DaysBeforeYear(d.year) + DaysBeforeMonth(d.year, d.month) + d.day
  }

  /** Ordinal of January 1st of year `y`. */
  function NewYear(y: int): int {
    DaysBeforeYear(y) + 1
  }

  lemma DivStep4(x: int)
    ensures (x + 1) / 4 - x / 4 == (if (x + 1) % 4 == 0 then 1 else 0)
  {
    var q, r := x / 4, x % 4;
    if r == 3 {
      assert x + 1 == 4 * (q + 1);
    } else {
      assert x + 1 == 4 * q + (r + 1);
    }
  }

  lemma DivStep100(x: int)
    ensures (x + 1) / 100 - x / 100 == (if (x + 1) % 100 == 0 then 1 else 0)
  {
    var q, r := x / 100, x % 100;
    if r == 99 {
      assert x + 1 == 100 * (q + 1);
    } else {
      assert x + 1 == 100 * q + (r + 1);
    }
  }

  lemma DivStep400(x: int)
    ensures (x + 1) / 400 - x / 400 == (if (x + 1) % 400 == 0 then 1 else 0)
  {
    var q, r := x / 400, x % 400;
    if r == 399 {
      assert x + 1 == 400 * (q + 1);
    } else {
      assert x + 1 == 400 * q + (r + 1);
    }
  }

  lemma YearStep(y: int)
    ensures DaysBeforeYear(y + 1) == DaysBeforeYear(y) + DaysInYear(y)
  {
    DivStep4(y - 1);
    DivStep100(y - 1);
    DivStep400(y - 1);
    LeapDivisors(y);
  }

  /** A multiple of 400 is one of 100, and a multiple of 100 one of 4. */
  lemma LeapDivisors(y: int)
    ensures y % 400 == 0 ==> y % 100 == 0
    ensures y % 100 == 0 ==> y % 4 == 0
  {
    var q4, q100, q400 := y / 4, y / 100, y / 400;
    assert y == 4 * q4 + y % 4;
    assert y == 100 * q100 + y % 100;
    assert y == 400 * q400 + y % 400;
    if y % 400 == 0 {
      assert y - 100 * (4 * q400) == 0;
      assert q100 == 4 * q400;
    }
    if y % 100 == 0 {
      assert y - 4 * (25 * q100) == 0;
      assert q4 == 25 * q100;
    }
  }

  lemma MonthStep(y: int, m: int)
    requires 1 <= m <= 12
    ensures m < 12 ==> DaysBeforeMonth(y, m + 1) == DaysBeforeMonth(y, m) + DaysInMonth(y, m)
    ensures m == 12 ==> DaysBeforeMonth(y, m) + DaysInMonth(y, m) == DaysInYear(y)
  {
  }

  lemma {:induction false} MonthsMonotone(y: int, m1: int, m2: int)
    requires 1 <= m1 < m2 <= 12
    ensures DaysBeforeMonth(y, m1) + DaysInMonth(y, m1) <= DaysBeforeMonth(y, m2)
    decreases m2 - m1
  {
    MonthStep(y, m1);
    if m1 + 1 < m2 {
      MonthsMonotone(y, m1 + 1, m2);
    }
  }

  lemma {:induction false} YearsMonotone(y1: int, y2: int)
    requires y1 <= y2
    ensures DaysBeforeYear(y2) - DaysBeforeYear(y1) >= 365 * (y2 - y1)
    decreases y2 - y1
  {
    if y1 < y2 {
      YearStep(y1);
      YearsMonotone(y1 + 1, y2);
    }
  }

  /** Every day of year `y` has an ordinal in [NewYear(y), NewYear(y + 1)). */
  lemma OrdinalInYear(d: Date)
    ensures NewYear(d.year) <= Ordinal(d) < NewYear(d.year + 1)
  {
    YearStep(d.year);
    MonthStep(d.year, d.month);
    if d.month < 12 {
      MonthsMonotone(d.year, d.month, 12);
      MonthStep(d.year, 12);
    }
  }

  lemma OrdinalStrict(a: Date, b: Date)
    requires Le(a, b) && a != b
    ensures Ordinal(a) < Ordinal(b)
  {
    if a.year < b.year {
      OrdinalInYear(a);
      YearsMonotone(a.year + 1, b.year);
      OrdinalInYear(b);
    } else if a.month < b.month {
      MonthsMonotone(a.year, a.month, b.month);
    }
  }

  /** Python's date order and the ordinal order agree; the ordinal is injective. */
  lemma OrdinalOrder(a: Date, b: Date)
    ensures Le(a, b) <==> Ordinal(a) <= Ordinal(b)
    ensures Ordinal(a) == Ordinal(b) ==> a == b
  {
    LeTotal(a, b);
    if a != b {
      if Le(a, b) {
        OrdinalStrict(a, b);
      } else {
        OrdinalStrict(b, a);
      }
    }
  }

  /** `d + timedelta(days=1)`; `None` is the `OverflowError` past `MaxDate`. */
  function NextDay(d: Date): (r: Option<Date>)
    ensures r.None? <==> d == MaxDate
    ensures r.Some? ==> Ordinal(r.value) == Ordinal(d) + 1
  {
    if d.day < DaysInMonth(d.year, d.month) then
      Some(CivilDate(d.year, d.month, d.day + 1))
    else if d.month < 12 then
      MonthStep(d.year, d.month);
      Some(CivilDate(d.year, d.month + 1, 1))
    else if d.year < MaxYear then
      MonthStep(d.year, 12);
      YearStep(d.year);
      Some(CivilDate(d.year + 1, 1, 1))
    else
      None
  }

  /** `strftime("%Y%m%d")`. */
  function Ymd(d: Date): (s: string)
    ensures |s| == 8 && AllDigits(s)
    ensures ParseYmd(s) == d
  {
    var s := Pad4(d.year) + Pad2(d.month) + Pad2(d.day);
    assert s[..4] == Pad4(d.year) && s[4..6] == Pad2(d.month) && s[6..8] == Pad2(d.day);
    s
  }

  /** Reads back an eight-digit `YYYYMMDD` text. */
  function ParseYmd(s: string): CivilDate
    requires |s| == 8
  {
    CivilDate(Decode4(s[..4]), Decode2(s[4..6]), Decode2(s[6..8]))
  }

  lemma YmdInjective(a: Date, b: Date)
    requires Ymd(a) == Ymd(b)
    ensures a == b
  {
    assert ParseYmd(Ymd(a)) == a;
  }

  /** `strftime("%Y/%m/%d")`, the archive's path format. */
  function Slashed(d: Date): string {
    Pad4(d.year) + "/" + Pad2(d.month) + "/" + Pad2(d.day)
  }

  /** `strftime("%Y-%m-%d")`, the CSV date format. */
  function Dashed(d: Date): string {
    Pad4(d.year) + "-" + Pad2(d.month) + "-" + Pad2(d.day)
  }

  /** `pd.to_datetime` restricted to `YYYY-MM-DD` texts; `None` is a parse error. */
  function ParseDashed(s: string): (r: Option<Date>)
    ensures r.Some? ==> Dashed(r.value) == s
  {
    if |s| == 10 && s[4] == '-' && s[7] == '-'
       && AllDigits(s[..4]) && AllDigits(s[5..7]) && AllDigits(s[8..])
    then
      var c := CivilDate(Decode4(s[..4]), Decode2(s[5..7]), Decode2(s[8..]));
      if IsValidDate(c) then
        DashedDecodes(s, c);
        Some(c)
      else None
    else None
  }

  lemma Pad2Decodes(t: string)
    requires |t| == 2 && AllDigits(t)
    ensures 0 <= Decode2(t) < 100 && Pad2(Decode2(t)) == t
  {
    assert IsDigit(t[0]) && IsDigit(t[1]);
  }

  lemma Pad4Decodes(t: string)
    requires |t| == 4 && AllDigits(t)
    ensures 0 <= Decode4(t) < 10000 && Pad4(Decode4(t)) == t
  {
    assert IsDigit(t[0]) && IsDigit(t[1]) && IsDigit(t[2]) && IsDigit(t[3]);
    var n := Decode4(t);
    assert n / 100 == Decode2(t[..2]);
    assert n % 100 == Decode2(t[2..]);
    Pad2Decodes(t[..2]);
    Pad2Decodes(t[2..]);
    assert t == t[..2] + t[2..];
  }

  lemma DashedDecodes(s: string, c: Date)
    requires |s| == 10 && s[4] == '-' && s[7] == '-'
    requires AllDigits(s[..4]) && AllDigits(s[5..7]) && AllDigits(s[8..])
    requires c == CivilDate(Decode4(s[..4]), Decode2(s[5..7]), Decode2(s[8..]))
    ensures Dashed(c) == s
  {
    Pad4Decodes(s[..4]);
    Pad2Decodes(s[5..7]);
    Pad2Decodes(s[8..]);
    assert s == s[..4] + "-" + s[5..7] + "-" + s[8..];
  }

  /** `pd.to_datetime` on one `YYYY-MM-DD` text: the day, when the text
      parses and the day lies in the range of `datetime64[ns]`. */
  function ParseStamp(text: string): (r: Option<Date>)
    ensures r.Some? <==> ParseDashed(text).Some? && InStampRange(ParseDashed(text).value)
    ensures r.Some? ==> r == ParseDashed(text) && Dashed(r.value) == text
  {
    match ParseDashed(text)
    case None => None
    case Some(d) => if InStampRange(d) then Some(d) else None
  }

  /** The dashed text of a date parses back to that date. */
  lemma DashedRoundTrip(d: Date)
    ensures ParseDashed(Dashed(d)) == Some(d)
  {
    var s := Dashed(d);
    assert s[..4] == Pad4(d.year);
    assert s[5..7] == Pad2(d.month);
    assert s[8..] == Pad2(d.day);
  }
}
