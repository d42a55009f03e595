/** The ISO 8601 week date of a calendar day (section 4.1.4 of ISO 8601:2004), as
    pandas' `Series.dt.isocalendar()` reports it: weeks run Monday to Sunday, and
    a week belongs to the year in which its Thursday falls; week 1 is the week
    holding that year's first Thursday. */
module IsoWeek {
  import opened Calendar
  import opened Text

  /** `date.isoweekday()`: Monday is 1 and Sunday is 7 (0001-01-01 was a Monday). */
  function IsoWeekday(d: Date): (w: int)
    ensures 1 <= w <= 7
  {
    (Ordinal(d) + 6) % 7 + 1
  }

  /** Ordinal of the Thursday of the Monday-to-Sunday week holding `d`. */
  function ThursdayOf(d: Date): int {
    ThursdayOfOrdinal(Ordinal(d))
  }

  function ThursdayOfOrdinal(o: int): int {
    o - ((o + 6) % 7 + 1) + 4
  }

  lemma ThursdayOfOrdinalMonotone(o1: int, o2: int)
    requires o1 <= o2
    ensures ThursdayOfOrdinal(o1) <= ThursdayOfOrdinal(o2)
  {
    assert (o1 + 6) / 7 <= (o2 + 6) / 7;
  }

  /** The ISO week-numbering year: the calendar year of the week's Thursday. */
  function IsoYear(d: Date): (y: int)
    ensures d.year - 1 <= y <= d.year + 1
  {
    var t := ThursdayOf(d);
    if t < NewYear(d.year) then d.year - 1
    else if t >= NewYear(d.year + 1) then d.year + 1
    else d.year
  }

  /** The ISO week number: which Thursday of its ISO year the week's Thursday is. */
  function IsoWeekNumber(d: Date): (w: int)
    ensures 1 <= w <= 53
  {
    IsoYearBrackets(d);
    YearStep(IsoYear(d));
    (ThursdayOf(d) - NewYear(IsoYear(d))) / 7 + 1
  }

  /** A single integer standing for the pair (ISO year, ISO week); it orders weeks
      as the `"YYYY-WW"` text keys order them for four-digit years. */
  function IsoKey(d: Date): int {
    IsoYear(d) * 100 + IsoWeekNumber(d)
  }

  /** pandas' group key `isocalendar().year.astype(str) + "-" +
      isocalendar().week.astype(str).str.zfill(2)`. */
  function WeekKeyText(d: Date): string {
    NatToString(IsoYear(d)) + "-" + Pad2(IsoWeekNumber(d))
  }

  lemma ThursdayForm(d: Date)
    ensures ThursdayOf(d) == 7 * ((Ordinal(d) + 6) / 7) - 3
    ensures Ordinal(d) - 3 <= ThursdayOf(d) <= Ordinal(d) + 3
  {
  }

  /** The Thursday of `d`'s week lies in the ISO year of `d`. */
  lemma IsoYearBrackets(d: Date)
    ensures NewYear(IsoYear(d)) <= ThursdayOf(d) < NewYear(IsoYear(d) + 1)
  {
    OrdinalInYear(d);
    ThursdayForm(d);
    YearStep(d.year - 1);
    YearStep(d.year);
    YearStep(d.year + 1);
  }

  lemma {:induction false} YearOfOrdinalUnique(y1: int, y2: int, t: int)
    requires NewYear(y1) <= t < NewYear(y1 + 1)
    requires NewYear(y2) <= t < NewYear(y2 + 1)
    ensures y1 == y2
  {
    if y1 < y2 {
      YearsMonotone(y1 + 1, y2);
    } else if y2 < y1 {
      YearsMonotone(y2 + 1, y1);
    }
  }

  lemma ThursdayMonotone(a: Date, b: Date)
    requires Le(a, b)
    ensures ThursdayOf(a) <= ThursdayOf(b)
  {
    OrdinalOrder(a, b);
    ThursdayOfOrdinalMonotone(Ordinal(a), Ordinal(b));
  }

  /** Later days never fall in an earlier ISO week. */
  lemma IsoKeyMonotone(a: Date, b: Date)
    requires Le(a, b)
    ensures IsoKey(a) <= IsoKey(b)
  {
    ThursdayMonotone(a, b);
    IsoYearBrackets(a);
    IsoYearBrackets(b);
    WeekOrder(ThursdayOf(a), ThursdayOf(b), IsoYear(a), IsoYear(b), IsoWeekNumber(a), IsoWeekNumber(b));
  }

  /** The ordering argument over the Thursdays' ordinals `ta <= tb`, their
      ISO years and week numbers. */
  lemma WeekOrder(ta: int, tb: int, ya: int, yb: int, wa: int, wb: int)
    requires ta <= tb
    requires NewYear(ya) <= ta < NewYear(ya + 1) && NewYear(yb) <= tb < NewYear(yb + 1)
    requires wa == (ta - NewYear(ya)) / 7 + 1 && wb == (tb - NewYear(yb)) / 7 + 1
    requires 1 <= wa <= 53 && 1 <= wb <= 53
    ensures ya * 100 + wa <= yb * 100 + wb
  {
    if yb < ya {
      YearsMonotone(yb + 1, ya);
      assert false;
    } else if ya == yb {
      ShiftedWeekOrder(ta, tb, NewYear(ya));
    } else {
      KeyOrder(ya, wa, yb, wb);
    }
  }

  lemma ShiftedWeekOrder(ta: int, tb: int, n: int)
    requires ta <= tb
    ensures (ta - n) / 7 <= (tb - n) / 7
  {
  }

  lemma KeyOrder(ya: int, wa: int, yb: int, wb: int)
    requires ya < yb && 1 <= wa <= 53 && 1 <= wb <= 53
    ensures ya * 100 + wa < yb * 100 + wb
  {
  }

  lemma KeyParts(ya: int, wa: int, yb: int, wb: int)
    requires 1 <= wa <= 53 && 1 <= wb <= 53
    requires ya * 100 + wa == yb * 100 + wb
    ensures ya == yb && wa == wb
  {
  }

  lemma ThursdayResidue(o: int)
    ensures ThursdayOfOrdinal(o) % 7 == 4
  {
  }

  lemma SameBlock(ta: int, tb: int, n: int)
    requires ta % 7 == 4 && tb % 7 == 4
    requires (ta - n) / 7 == (tb - n) / 7
    ensures ta == tb
  {
  }

  /** Two days share an ISO (year, week) exactly when they share a
      Monday-to-Sunday week. */
  lemma SameWeekIffSameKey(a: Date, b: Date)
    ensures ThursdayOf(a) == ThursdayOf(b) <==> IsoKey(a) == IsoKey(b)
  {
    IsoYearBrackets(a);
    IsoYearBrackets(b);
    ThursdayResidue(Ordinal(a));
    ThursdayResidue(Ordinal(b));
    SameWeekKey(ThursdayOf(a), ThursdayOf(b), IsoYear(a), IsoYear(b), IsoWeekNumber(a), IsoWeekNumber(b));
  }

  /** The same-week argument over the Thursdays' ordinals, their ISO years
      and week numbers. */
  lemma SameWeekKey(ta: int, tb: int, ya: int, yb: int, wa: int, wb: int)
    requires ta % 7 == 4 && tb % 7 == 4
    requires NewYear(ya) <= ta < NewYear(ya + 1) && NewYear(yb) <= tb < NewYear(yb + 1)
    requires wa == (ta - NewYear(ya)) / 7 + 1 && wb == (tb - NewYear(yb)) / 7 + 1
    requires 1 <= wa <= 53 && 1 <= wb <= 53
    ensures ta == tb <==> ya * 100 + wa == yb * 100 + wb
  {
    if ta == tb {
      YearOfOrdinalUnique(ya, yb, ta);
    }
    if ya * 100 + wa == yb * 100 + wb {
      KeyParts(ya, wa, yb, wb);
      SameBlock(ta, tb, NewYear(ya));
    }
  }

  /** The pandas text key and the integer key identify the same ISO weeks, so
      grouping by either yields the same partition. */
  lemma WeekKeyTextFaithful(a: Date, b: Date)
    ensures WeekKeyText(a) == WeekKeyText(b) <==> IsoKey(a) == IsoKey(b)
  {
    var ya, yb := IsoYear(a), IsoYear(b);
    var wa, wb := IsoWeekNumber(a), IsoWeekNumber(b);
    if WeekKeyText(a) == WeekKeyText(b) {
      DashKeyInjective(ya, wa, yb, wb);
    }
    if IsoKey(a) == IsoKey(b) {
      KeyParts(ya, wa, yb, wb);
    }
  }

  /** New Year 2020 was a Wednesday in week 2020-W01. */
  lemma IsoExampleNewYear2020()
    ensures IsoWeekday(CivilDate(2020, 1, 1)) == 3
    ensures IsoYear(CivilDate(2020, 1, 1)) == 2020 && IsoWeekNumber(CivilDate(2020, 1, 1)) == 1
  {
    assert Ordinal(CivilDate(2020, 1, 1)) == 737425;
    assert NewYear(2020) == 737425 && NewYear(2021) == 737791;
  }

  /** Week 2020-W01 began on Monday 2019-12-30. */
  lemma IsoExampleYearStraddle()
    ensures IsoYear(CivilDate(2019, 12, 30)) == 2020 && IsoWeekNumber(CivilDate(2019, 12, 30)) == 1
  {
    assert Ordinal(CivilDate(2019, 12, 30)) == 737423;
    assert NewYear(2020) == 737425 && NewYear(2021) == 737791;
  }

  /** 2016-01-01, a Friday, still belonged to week 2015-W53. */
  lemma IsoExampleWeek53()
    ensures IsoYear(CivilDate(2016, 1, 1)) == 2015 && IsoWeekNumber(CivilDate(2016, 1, 1)) == 53
  {
    assert Ordinal(CivilDate(2016, 1, 1)) == 735964;
    assert NewYear(2015) == 735599 && NewYear(2016) == 735964;
  }
}
