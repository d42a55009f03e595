/** `data_analysis.DataAnalyzer`: a working copy of the loaded dataset with
    normalised column names, on which the analyses run. The analyzer's `df`
    is an `Option<Frame>` (`None` when nothing was loaded); the operations
    that change it return the new value, the others return their result. */
module Analyzer {
  import opened Wrappers
  import opened Text
  import opened Calendar
  import opened Records
  import opened Grouping
  import opened Statistics

  // ---------------------------------------------------------------------
  // Column names
  // ---------------------------------------------------------------------

  /** `str.lower` on one character, for the ASCII letters. */
  function LowerChar(c: char): char {
    if 'A' <= c <= 'Z' then (c as int + 32) as char else c
  }

  /** `col.lower().replace(" ", "_")`. */
  function NormalizeName(s: string): (r: string)
    ensures |r| == |s|
  {
    if s == [] then [] else [if s[0] == ' ' then '_' else LowerChar(s[0])] + NormalizeName(s[1..])
  }

  /** A name with no space and no capital letter. */
  predicate Normalized(s: string) {
    forall i :: 0 <= i < |s| ==> s[i] != ' ' && !('A' <= s[i] <= 'Z')
  }

  lemma {:induction false} NormalizeNameAt(s: string, i: int)
    requires 0 <= i < |s|
    ensures NormalizeName(s)[i] == if s[i] == ' ' then '_' else LowerChar(s[i])
  {
    if i > 0 {
      NormalizeNameAt(s[1..], i - 1);
    }
  }

  /** Every name comes out normalised; a name is left as it is exactly when
      it was normalised already, so renaming twice is renaming once. */
  lemma NormalizeNameSpec(s: string)
    ensures Normalized(NormalizeName(s))
    ensures NormalizeName(s) == s <==> Normalized(s)
    ensures NormalizeName(NormalizeName(s)) == NormalizeName(s)
  {
    var r := NormalizeName(s);
    forall i | 0 <= i < |s|
      ensures r[i] == if s[i] == ' ' then '_' else LowerChar(s[i])
    {
      NormalizeNameAt(s, i);
    }
    if !Normalized(s) {
      var i :| 0 <= i < |s| && (s[i] == ' ' || 'A' <= s[i] <= 'Z');
      assert r[i] != s[i];
    }
    assert Normalized(r);
    if r != s {
      var i :| 0 <= i < |s| && r[i] != s[i];
    }
    var rr := NormalizeName(r);
    forall i | 0 <= i < |r|
      ensures rr[i] == r[i]
    {
      NormalizeNameAt(r, i);
    }
  }

  /** The two columns every dataset carries. */
  lemma StandardColumnNames()
    ensures NormalizeName("Date") == "date"
    ensures NormalizeName("INR_Rate") == "inr_rate"
  {
  }

  function NormalizeColumns(cols: seq<string>): (r: seq<string>)
    ensures |r| == |cols|
    ensures forall i :: 0 <= i < |cols| ==> r[i] == NormalizeName(cols[i])
  {
    if cols == [] then [] else [NormalizeName(cols[0])] + NormalizeColumns(cols[1..])
  }

  lemma NormalizeColumnsAppend(a: seq<string>, b: seq<string>)
    ensures NormalizeColumns(a + b) == NormalizeColumns(a) + NormalizeColumns(b)
  {
  }

  // ---------------------------------------------------------------------
  // The working frame
  // ---------------------------------------------------------------------

  const DateColumn: string := "date"
  const RateColumn: string := "inr_rate"
  const FromMedianColumn: string := "deviation_from_median"
  const FromMeanColumn: string := "deviation_from_mean"
  const AbsFromMedianColumn: string := "abs_deviation_from_median"
  const AbsFromMeanColumn: string := "abs_deviation_from_mean"
  const YearMonthColumn: string := "year_month"

  /** The four columns `add_deviation_columns` writes, in writing order. */
  const DeviationColumns: seq<string> := [FromMedianColumn, FromMeanColumn, AbsFromMedianColumn, AbsFromMeanColumn]

  /** A row's four deviation cells, once they have been computed. */
  datatype Deviations = Deviations(fromMedian: Rate, fromMean: Rate, absFromMedian: Rate, absFromMean: Rate)

  /** A row of the working frame: the dataset's cells and, after
      `add_deviation_columns`, the deviation cells. */
  datatype Row = Row(date: Date, rate: Rate, extra: seq<string>, dev: Option<Deviations>)

  datatype Frame = Frame(columns: seq<string>, rows: seq<Row>)

  /** `pd.DataFrame()`. */
  const EmptyFrame: Frame := Frame([], [])

  function ToRows(rs: seq<Record>): (rows: seq<Row>)
    ensures |rows| == |rs|
    ensures forall i :: 0 <= i < |rs| ==> rows[i] == Row(rs[i].date, rs[i].rate, rs[i].extra, None)
  {
    if rs == [] then [] else [Row(rs[0].date, rs[0].rate, rs[0].extra, None)] + ToRows(rs[1..])
  }

  /** `_load_and_prepare_data`: a copy of the processor's dataset, whose
      header is `Date`, `INR_Rate` and then `otherHeaders`, with every column
      name normalised; `None` when the processor holds no dataset. */
  function Prepare(dataset: Option<seq<Record>>, otherHeaders: seq<string>): (df: Option<Frame>)
    ensures df.None? <==> dataset.None?
    ensures df.Some? ==>
              && df.value.columns == [DateColumn, RateColumn] + NormalizeColumns(otherHeaders)
              && |df.value.rows| == |dataset.value|
              && forall i :: 0 <= i < |df.value.rows| ==>
                   && df.value.rows[i].date == dataset.value[i].date
                   && df.value.rows[i].rate == dataset.value[i].rate
                   && df.value.rows[i].dev.None?
  {
    match dataset
    case None => None
    case Some(rs) =>
      var cols := NormalizeColumns(["Date", "INR_Rate"] + otherHeaders);
      NormalizeColumnsAppend(["Date", "INR_Rate"], otherHeaders);
      StandardColumnNames();
      assert NormalizeColumns(["Date", "INR_Rate"]) == [DateColumn, RateColumn];
      Some(Frame(cols, ToRows(rs)))
  }

  /** The `inr_rate` column. */
  function RateValues(rows: seq<Row>): (vs: seq<Rate>)
    ensures |vs| == |rows|
    ensures forall i :: 0 <= i < |rows| ==> vs[i] == rows[i].rate
  {
    if rows == [] then [] else [rows[0].rate] + RateValues(rows[1..])
  }

  datatype DevKind = FromMedian | FromMean | AbsFromMedian | AbsFromMean

  function DevColumnName(k: DevKind): string {
    match k
    case FromMedian => FromMedianColumn
    case FromMean => FromMeanColumn
    case AbsFromMedian => AbsFromMedianColumn
    case AbsFromMean => AbsFromMeanColumn
  }

  /** A row's cell in a deviation column, `NaN` before the column exists. */
  function DevValue(r: Row, k: DevKind): Rate {
    match r.dev
    case None => NaN
    case Some(d) =>
      match k
      case FromMedian => d.fromMedian
      case FromMean => d.fromMean
      case AbsFromMedian => d.absFromMedian
      case AbsFromMean => d.absFromMean
  }

  function DevValues(rows: seq<Row>, k: DevKind): (vs: seq<Rate>)
    ensures |vs| == |rows|
    ensures forall i :: 0 <= i < |rows| ==> vs[i] == DevValue(rows[i], k)
  {
    if rows == [] then [] else [DevValue(rows[0], k)] + DevValues(rows[1..], k)
  }

  /** The values of a column that can hold `NaN`: `inr_rate` and the
      deviation columns. The date column and the text columns have none. */
  function NumericColumn(fr: Frame, c: string): Option<seq<Rate>> {
    if c == RateColumn then Some(RateValues(fr.rows))
    else if c == FromMedianColumn then Some(DevValues(fr.rows, FromMedian))
    else if c == FromMeanColumn then Some(DevValues(fr.rows, FromMean))
    else if c == AbsFromMedianColumn then Some(DevValues(fr.rows, AbsFromMedian))
    else if c == AbsFromMeanColumn then Some(DevValues(fr.rows, AbsFromMean))
    else None
  }

  // ---------------------------------------------------------------------
  // check_missing_values
  // ---------------------------------------------------------------------

  /** One row of the statistics table: `missing_count` and
      `missing_percentage` of a column. */
  datatype MissingStat = MissingStat(column: string, count: nat, percentage: Rate)

  /** `isnull().mean() * 100`: `NaN` over no rows. */
  function Percent(count: nat, total: nat): (p: Rate)
    ensures p.NaN? <==> total == 0
    ensures p.Amount? && count <= total ==> 0.0 <= p.value <= 100.0
    ensures p.Amount? && count == 0 ==> p.value == 0.0
    ensures p.Amount? && count == total ==> p.value == 100.0
  {
    if total == 0 then NaN
    else
      var t := total as real;
      assert 0.0 <= count as real <= t ==> 0.0 <= 100.0 * count as real <= 100.0 * t;
      CancelQuotient(100.0, t);
      Amount(100.0 * count as real / t)
  }

  /** Dividing a multiple of `t` by `t`. */
  lemma CancelQuotient(a: real, t: real)
    requires t != 0.0
    ensures a * t / t == a
  {
    assert t / t == 1.0;
    assert a * t / t == a * (t / t);
  }

  function NullCount(fr: Frame, c: string): nat {
    match NumericColumn(fr, c)
    case None => 0
    case Some(vs) => NaNCount(vs)
  }

  /** The statistics row of column `c`. */
  function StatOf(fr: Frame, c: string): MissingStat {
    MissingStat(c, NullCount(fr, c), Percent(NullCount(fr, c), |fr.rows|))
  }

  function MissingStatsOf(fr: Frame, cols: seq<string>): (stats: seq<MissingStat>)
    ensures |stats| == |cols|
    ensures forall i :: 0 <= i < |cols| ==> stats[i] == StatOf(fr, cols[i])
  {
    if cols == [] then [] else [StatOf(fr, cols[0])] + MissingStatsOf(fr, cols[1..])
  }

  /** Every missing `inr_rate` replaced by `v`. */
  function FillRates(rows: seq<Row>, v: Rate): (r: seq<Row>)
    ensures |r| == |rows|
    ensures forall i :: 0 <= i < |rows| ==> r[i] == rows[i].(rate := if rows[i].rate.NaN? then v else rows[i].rate)
  {
    if rows == [] then []
    else [rows[0].(rate := if rows[0].rate.NaN? then v else rows[0].rate)] + FillRates(rows[1..], v)
  }

  /** `check_missing_values`: the per-column statistics, taken before the
      fill, and the frame with every missing `inr_rate` replaced by the
      median of the present ones. No frame: an empty table. */
  function CheckMissingValues(df: Option<Frame>): (Option<Frame>, seq<MissingStat>) {
    match df
    case None => (None, [])
    case Some(fr) =>
      var stats := MissingStatsOf(fr, fr.columns);
      var rates := RateValues(fr.rows);
      if NaN in rates then (Some(fr.(rows := FillRates(fr.rows, Median(rates)))), stats)
      else (df, stats)
  }

  /** The statistics table has one row per column, in column order; a count
      never exceeds the number of rows; the percentage is `NaN` over no rows
      and within [0, 100] otherwise; for `inr_rate` the count is the number
      of rows lacking a rate. */
  lemma MissingStatsSpec(fr: Frame)
    ensures var stats := CheckMissingValues(Some(fr)).1;
      && |stats| == |fr.columns|
      && forall i :: 0 <= i < |stats| ==>
           && stats[i].column == fr.columns[i]
           && stats[i].count <= |fr.rows|
           && (stats[i].percentage.NaN? <==> |fr.rows| == 0)
           && (stats[i].percentage.Amount? ==> 0.0 <= stats[i].percentage.value <= 100.0)
           && (fr.columns[i] == RateColumn ==>
                 stats[i].count == |fr.rows| - |Present(RateValues(fr.rows))|)
  {
    var stats := CheckMissingValues(Some(fr)).1;
    forall i | 0 <= i < |stats|
      ensures stats[i].count <= |fr.rows|
    {
      var c := fr.columns[i];
      match NumericColumn(fr, c)
      case None =>
      case Some(vs) =>
        assert |vs| == |fr.rows|;
    }
  }

  /** With no missing value anywhere, every count and percentage is zero
      (the percentage is `NaN` only for a frame without rows). */
  lemma CompleteDataHasNoMissing(fr: Frame)
    requires forall c :: NumericColumn(fr, c).Some? ==> NaN !in NumericColumn(fr, c).value
    ensures forall s :: s in CheckMissingValues(Some(fr)).1 ==>
              s.count == 0 && (s.percentage.NaN? || s.percentage.value == 0.0)
  {
  }

  /** After the fill: the same rows with the same dates and other cells,
      every present rate unchanged and every missing one replaced by the
      median of the present ones. */
  lemma FillSpec(fr: Frame)
    ensures var fr' := CheckMissingValues(Some(fr)).0.value;
      && fr'.columns == fr.columns
      && |fr'.rows| == |fr.rows|
      && forall i :: 0 <= i < |fr.rows| ==>
           && fr'.rows[i].date == fr.rows[i].date
           && fr'.rows[i].extra == fr.rows[i].extra
           && fr'.rows[i].dev == fr.rows[i].dev
           && (fr.rows[i].rate.Amount? ==> fr'.rows[i].rate == fr.rows[i].rate)
           && (fr.rows[i].rate.NaN? ==> fr'.rows[i].rate == Median(RateValues(fr.rows)))
  {
  }

  /** After the fill no rate is missing, unless every rate was. */
  lemma FillLeavesNoneMissing(fr: Frame)
    ensures var rates := RateValues(fr.rows);
      NaN in RateValues(CheckMissingValues(Some(fr)).0.value.rows) <==> NaN in rates && |Present(rates)| == 0
  {
    var rates := RateValues(fr.rows);
    var fr' := CheckMissingValues(Some(fr)).0.value;
    var rates' := RateValues(fr'.rows);
    if NaN in rates {
      assert fr'.rows == FillRates(fr.rows, Median(rates));
      if |Present(rates)| > 0 {
        assert Median(rates).Amount?;
        forall i | 0 <= i < |rates'|
          ensures rates'[i] != NaN
        {
        }
      } else {
        var i :| 0 <= i < |rates| && rates[i] == NaN;
        assert rates'[i] == NaN;
      }
    }
  }

  /** A second `check_missing_values` leaves the frame as the first left it. */
  lemma FillIdempotent(df: Option<Frame>)
    ensures CheckMissingValues(CheckMissingValues(df).0).0 == CheckMissingValues(df).0
  {
    if df.Some? {
      var fr := df.value;
      var rates := RateValues(fr.rows);
      if NaN in rates {
        FillLeavesNoneMissing(fr);
        var fr' := CheckMissingValues(df).0.value;
        if NaN in RateValues(fr'.rows) {
          assert |Present(rates)| == 0;
          assert Median(rates) == NaN;
          assert fr'.rows == fr.rows;
        }
      }
    }
  }

  // ---------------------------------------------------------------------
  // add_deviation_columns
  // ---------------------------------------------------------------------

  function Deviate(rate: Rate, median: Rate, mean: Rate): Deviations {
    var fromMedian := Minus(rate, median);
    var fromMean := Minus(rate, mean);
    Deviations(fromMedian, fromMean, AbsRate(fromMedian), AbsRate(fromMean))
  }

  function WithDeviations(rows: seq<Row>, median: Rate, mean: Rate): (r: seq<Row>)
    ensures |r| == |rows|
    ensures forall i :: 0 <= i < |rows| ==> r[i] == rows[i].(dev := Some(Deviate(rows[i].rate, median, mean)))
  {
    if rows == [] then []
    else [rows[0].(dev := Some(Deviate(rows[0].rate, median, mean)))] + WithDeviations(rows[1..], median, mean)
  }

  /** `df[c] = ...`: assigning an existing column keeps its place, a new
      one is appended. */
  function AddColumns(cols: seq<string>, names: seq<string>): (r: seq<string>)
    ensures forall c :: c in r <==> c in cols || c in names
    ensures |cols| <= |r| && r[..|cols|] == cols
    ensures (forall c :: c in names ==> c in cols) ==> r == cols
    decreases |names|
  {
    if names == [] then cols
    else
      var cols' := if names[0] in cols then cols else cols + [names[0]];
      var r := AddColumns(cols', names[1..]);
      assert r[..|cols|] == r[..|cols'|][..|cols|];
      assert forall c :: c in names ==> c == names[0] || c in names[1..];
      r
  }

  predicate NoDuplicates(cols: seq<string>) {
    forall i, j :: 0 <= i < j < |cols| ==> cols[i] != cols[j]
  }

  lemma {:induction false} AddColumnsNoDuplicates(cols: seq<string>, names: seq<string>)
    requires NoDuplicates(cols)
    ensures NoDuplicates(AddColumns(cols, names))
    decreases |names|
  {
    if names != [] {
      var cols' := if names[0] in cols then cols else cols + [names[0]];
      if names[0] !in cols {
        forall i, j | 0 <= i < j < |cols'|
          ensures cols'[i] != cols'[j]
        {
          if j == |cols| {
            assert cols'[i] == cols[i] && cols[i] in cols;
          }
        }
      }
      AddColumnsNoDuplicates(cols', names[1..]);
    }
  }

  /** `add_deviation_columns`: the median and the mean of `inr_rate`, once,
      then the four deviation columns for every row. No frame: nothing. */
  function AddDeviationColumns(df: Option<Frame>): Option<Frame> {
    match df
    case None => None
    case Some(fr) =>
      var rates := RateValues(fr.rows);
      Some(Frame(AddColumns(fr.columns, DeviationColumns),
                 WithDeviations(fr.rows, Median(rates), Mean(rates))))
  }

  /** Each row keeps its date, rate and other cells and gains
      `rate - median`, `rate - mean` and their absolute values: `NaN` where
      the rate or the statistic is missing, never negative otherwise. */
  lemma DeviationSpec(fr: Frame, i: int)
    requires 0 <= i < |fr.rows|
    ensures var fr' := AddDeviationColumns(Some(fr)).value;
      var rates := RateValues(fr.rows);
      var (median, mean) := (Median(rates), Mean(rates));
      var x := fr.rows[i].rate;
      var d := fr'.rows[i].dev.value;
      && |fr'.rows| == |fr.rows|
      && fr'.rows[i].date == fr.rows[i].date && fr'.rows[i].rate == x && fr'.rows[i].extra == fr.rows[i].extra
      && fr'.rows[i].dev.Some?
      && (d.fromMedian.NaN? <==> x.NaN? || median.NaN?)
      && (d.fromMean.NaN? <==> x.NaN? || mean.NaN?)
      && (d.fromMedian.Amount? ==> d.fromMedian.value == x.value - median.value)
      && (d.fromMean.Amount? ==> d.fromMean.value == x.value - mean.value)
      && (d.absFromMedian.NaN? <==> d.fromMedian.NaN?)
      && (d.absFromMean.NaN? <==> d.fromMean.NaN?)
      && (d.absFromMedian.Amount? ==> d.absFromMedian.value >= 0.0)
      && (d.absFromMedian.Amount? ==> d.absFromMedian.value == d.fromMedian.value || d.absFromMedian.value == -d.fromMedian.value)
      && (d.absFromMean.Amount? ==> d.absFromMean.value >= 0.0)
      && (d.absFromMean.Amount? ==> d.absFromMean.value == d.fromMean.value || d.absFromMean.value == -d.fromMean.value)
  {
  }

  /** The frame keeps its columns in place and gains the four deviation
      columns, without repeating a name. */
  lemma DeviationColumnsSpec(fr: Frame)
    ensures var cols := AddDeviationColumns(Some(fr)).value.columns;
      && cols[..|fr.columns|] == fr.columns
      && (forall c :: c in DeviationColumns ==> c in cols)
      && (forall c :: c in cols ==> c in fr.columns || c in DeviationColumns)
      && (NoDuplicates(fr.columns) ==> NoDuplicates(cols))
  {
    if NoDuplicates(fr.columns) {
      AddColumnsNoDuplicates(fr.columns, DeviationColumns);
    }
  }

  lemma {:induction false} WithDeviationsRates(rows: seq<Row>, median: Rate, mean: Rate)
    ensures RateValues(WithDeviations(rows, median, mean)) == RateValues(rows)
  {
    var r := WithDeviations(rows, median, mean);
    assert forall i :: 0 <= i < |rows| ==> RateValues(r)[i] == RateValues(rows)[i];
  }

  /** Computing the deviations a second time changes nothing: the rates they
      are computed from are left as they were. */
  lemma AddDeviationColumnsIdempotent(df: Option<Frame>)
    ensures AddDeviationColumns(AddDeviationColumns(df)) == AddDeviationColumns(df)
  {
    if df.Some? {
      var fr := df.value;
      var rates := RateValues(fr.rows);
      var fr' := AddDeviationColumns(df).value;
      WithDeviationsRates(fr.rows, Median(rates), Mean(rates));
      var fr'' := AddDeviationColumns(Some(fr')).value;
      assert fr''.rows == fr'.rows;
    }
  }

  lemma PresentFromMean(rows: seq<Row>, median: Rate, m: real)
    ensures Present(DevValues(WithDeviations(rows, median, Amount(m)), FromMean)) == Shift(Present(RateValues(rows)), m)
  {
    var devs, rates := DevValues(WithDeviations(rows, median, Amount(m)), FromMean), RateValues(rows);
    assert forall i :: 0 <= i < |rates| ==> devs[i] == Minus(rates[i], Amount(m));
    PresentMinus(rates, devs, m);
  }

  /** The present values of `deviation_from_mean` sum to zero. */
  lemma DeviationsFromMeanCancel(fr: Frame)
    requires Mean(RateValues(fr.rows)).Amount?
    ensures Sum(Present(DevValues(AddDeviationColumns(Some(fr)).value.rows, FromMean))) == 0.0
  {
    var rates := RateValues(fr.rows);
    var m := Mean(rates).value;
    PresentFromMean(fr.rows, Median(rates), m);
    DeviationsFromMeanSumToZero(rates, m);
  }

  // ---------------------------------------------------------------------
  // filter_by_deviation
  // ---------------------------------------------------------------------

  /** The exceptions the analyses let escape: a `KeyError` for a column the
      frame lacks, and the `ZeroDivisionError` of a percentage over no rows. */
  datatype AnalysisError = MissingColumn(name: string) | ZeroDivision

  /** `df["abs_deviation_from_mean"] >= t` for one row; `NaN` compares false. */
  predicate DeviatesBy(r: Row, t: real) {
    DevValue(r, AbsFromMean).Amount? && DevValue(r, AbsFromMean).value >= t
  }

  /** The rows deviating by at least `t`, in their original order. */
  function KeepDeviating(rows: seq<Row>, t: real): (r: seq<Row>)
    ensures |r| <= |rows|
    ensures forall x :: x in r <==> x in rows && DeviatesBy(x, t)
  {
    if rows == [] then []
    else
      assert rows == [rows[0]] + rows[1..];
      (if DeviatesBy(rows[0], t) then [rows[0]] else []) + KeepDeviating(rows[1..], t)
  }

  /** Filtering commutes with concatenation, so the kept rows come in their
      original order. */
  lemma {:induction false} KeepDeviatingAppend(a: seq<Row>, b: seq<Row>, t: real)
    ensures KeepDeviating(a + b, t) == KeepDeviating(a, t) + KeepDeviating(b, t)
  {
    if a == [] {
      assert a + b == b;
    } else {
      assert (a + b)[0] == a[0] && (a + b)[1..] == a[1..] + b;
      KeepDeviatingAppend(a[1..], b, t);
    }
  }

  /** `filter_by_deviation(t)` as written: the kept rows, but the
      percentage it prints divides by the number of rows, which raises on a
      frame without rows. */
  function FilterByDeviationAsWritten(df: Option<Frame>, t: real): Result<Frame, AnalysisError> {
    match df
    case None => Success(EmptyFrame)
    case Some(fr) =>
      if AbsFromMeanColumn !in fr.columns then Failure(MissingColumn(AbsFromMeanColumn))
      else if |fr.rows| == 0 then Failure(ZeroDivision)
      else Success(Frame(fr.columns, KeepDeviating(fr.rows, t)))
  }

  /** `filter_by_deviation(t)` with the percentage guarded: the kept rows,
      whatever their number. */
  function FilterByDeviation(df: Option<Frame>, t: real): Result<Frame, AnalysisError> {
    match df
    case None => Success(EmptyFrame)
    case Some(fr) =>
      if AbsFromMeanColumn !in fr.columns then Failure(MissingColumn(AbsFromMeanColumn))
      else Success(Frame(fr.columns, KeepDeviating(fr.rows, t)))
  }

  /** No frame gives an empty frame; a frame without the absolute deviation
      column raises; otherwise the result has the same columns and exactly
      the rows whose absolute deviation from the mean is at least `t`. */
  lemma FilterByDeviationSpec(df: Option<Frame>, t: real)
    ensures var r := FilterByDeviation(df, t);
      && (df.None? ==> r == Success(EmptyFrame))
      && (df.Some? ==> (r.Failure? <==> AbsFromMeanColumn !in df.value.columns))
      && (df.Some? && r.Success? ==>
            && r.value.columns == df.value.columns
            && |r.value.rows| <= |df.value.rows|
            && forall x :: x in r.value.rows <==> x in df.value.rows && DeviatesBy(x, t))
  {
  }

  /** As written, a frame with its deviation columns but no rows makes the
      filter raise instead of returning the empty selection. */
  lemma AsWrittenDividesByZero(fr: Frame, t: real)
    requires AbsFromMeanColumn in fr.columns && fr.rows == []
    ensures FilterByDeviationAsWritten(Some(fr), t) == Failure(ZeroDivision)
    ensures FilterByDeviation(Some(fr), t) == Success(Frame(fr.columns, []))
  {
  }

  /** The case arises from a dataset file holding only its header: loaded,
      given its deviation columns, then filtered. */
  lemma AsWrittenFailsOnHeaderOnlyDataset(t: real)
    ensures var df := AddDeviationColumns(Prepare(Some([]), []));
      FilterByDeviationAsWritten(df, t) == Failure(ZeroDivision)
  {
    var df := AddDeviationColumns(Prepare(Some([]), []));
    assert AbsFromMeanColumn in DeviationColumns;
    DeviationColumnsSpec(Prepare(Some([]), []).value);
  }

  /** Elsewhere the two agree. */
  lemma FilterByDeviationAgrees(df: Option<Frame>, t: real)
    requires df.None? || |df.value.rows| > 0 || AbsFromMeanColumn !in df.value.columns
    ensures FilterByDeviationAsWritten(df, t) == FilterByDeviation(df, t)
  {
  }

  // ---------------------------------------------------------------------
  // filter_by_date_range
  // ---------------------------------------------------------------------

  /** A row dated from `lo` to `hi`, both included:
      `(df["date"] >= start) & (df["date"] <= end)` for one row. */
  predicate InRange(x: Row, lo: Date, hi: Date) {
    Le(lo, x.date) && Le(x.date, hi)
  }

  /** What the mask keeps of one row. */
  function Kept(x: Row, lo: Date, hi: Date): seq<Row> {
    if InRange(x, lo, hi) then [x] else []
  }

  function KeepBetween(rows: seq<Row>, lo: Date, hi: Date): (r: seq<Row>)
    ensures |r| <= |rows|
    ensures forall x :: x in r <==> x in rows && InRange(x, lo, hi)
  {
    if rows == [] then []
    else
      assert rows == [rows[0]] + rows[1..];
      Kept(rows[0], lo, hi) + KeepBetween(rows[1..], lo, hi)
  }

  lemma {:induction false} KeepBetweenAppend(a: seq<Row>, b: seq<Row>, lo: Date, hi: Date)
    ensures KeepBetween(a + b, lo, hi) == KeepBetween(a, lo, hi) + KeepBetween(b, lo, hi)
  {
    if a == [] {
      assert a + b == b;
    } else {
      assert a + b != [] && (a + b)[0] == a[0] && (a + b)[1..] == a[1..] + b;
      KeepBetweenAppend(a[1..], b, lo, hi);
      var h := Kept(a[0], lo, hi);
      calc {
        KeepBetween(a + b, lo, hi);
        h + KeepBetween(a[1..] + b, lo, hi);
        h + (KeepBetween(a[1..], lo, hi) + KeepBetween(b, lo, hi));
        (h + KeepBetween(a[1..], lo, hi)) + KeepBetween(b, lo, hi);
        KeepBetween(a, lo, hi) + KeepBetween(b, lo, hi);
      }
    }
  }

  /** `filter_by_date_range(start, end)`: both bounds converted by
      `pd.to_datetime`, then the rows dated within them, both ends included; a
      bound that does not parse, or parses to a day outside the range of
      `datetime64[ns]`, raises, is caught and gives an empty frame, as does a
      missing frame. */
  function FilterByDateRange(df: Option<Frame>, startText: string, endText: string): Frame {
    match df
    case None => EmptyFrame
    case Some(fr) =>
      match (ParseStamp(startText), ParseStamp(endText))
      case (Some(lo), Some(hi)) => Frame(fr.columns, KeepBetween(fr.rows, lo, hi))
      case _ => EmptyFrame
  }

  /** Bounds written as dates in the range of `datetime64[ns]` select exactly
      the rows between them, both ends included, with the frame's columns; a
      bound outside that range gives the empty frame. */
  lemma FilterByDateRangeSpec(fr: Frame, lo: Date, hi: Date)
    ensures var r := FilterByDateRange(Some(fr), Dashed(lo), Dashed(hi));
      && (InStampRange(lo) && InStampRange(hi) ==>
            && r.columns == fr.columns
            && |r.rows| <= |fr.rows|
            && forall x :: x in r.rows <==> x in fr.rows && Le(lo, x.date) && Le(x.date, hi))
      && (!InStampRange(lo) || !InStampRange(hi) ==> r == EmptyFrame)
  {
    DashedRoundTrip(lo);
    DashedRoundTrip(hi);
  }

  lemma {:induction false} KeepBetweenNone(rows: seq<Row>, lo: Date, hi: Date)
    requires forall k :: 0 <= k < |rows| ==> !InRange(rows[k], lo, hi)
    ensures KeepBetween(rows, lo, hi) == []
  {
    if rows != [] {
      var t := rows[1..];
      forall k | 0 <= k < |t|
        ensures !InRange(t[k], lo, hi)
      {
        assert t[k] == rows[k + 1];
      }
      KeepBetweenNone(t, lo, hi);
      calc {
        KeepBetween(rows, lo, hi);
        Kept(rows[0], lo, hi) + KeepBetween(t, lo, hi);
        [] + [];
      }
    }
  }

  lemma {:induction false} KeepBetweenAll(rows: seq<Row>, lo: Date, hi: Date)
    requires forall k :: 0 <= k < |rows| ==> InRange(rows[k], lo, hi)
    ensures KeepBetween(rows, lo, hi) == rows
  {
    if rows != [] {
      var t := rows[1..];
      forall k | 0 <= k < |t|
        ensures InRange(t[k], lo, hi)
      {
        assert t[k] == rows[k + 1];
      }
      KeepBetweenAll(t, lo, hi);
      calc {
        KeepBetween(rows, lo, hi);
        Kept(rows[0], lo, hi) + KeepBetween(t, lo, hi);
        [rows[0]] + t;
        rows;
      }
    }
  }

  lemma TenDaysBoundsParse()
    ensures ParseStamp("2020-01-02") == Some(CivilDate(2020, 1, 2))
    ensures ParseStamp("2020-01-05") == Some(CivilDate(2020, 1, 5))
  {
    var lo: Date := CivilDate(2020, 1, 2);
    var hi: Date := CivilDate(2020, 1, 5);
    assert Dashed(lo) == "2020-01-02";
    assert Dashed(hi) == "2020-01-05";
    DashedRoundTrip(lo);
    DashedRoundTrip(hi);
  }

  /** When the rows before `i` and from `j` on fall outside the range and
      those in between inside it, the selection is the slice `i..j`. */
  lemma KeepBetweenSlice(rs: seq<Row>, i: int, j: int, lo: Date, hi: Date)
    requires 0 <= i <= j <= |rs|
    requires forall k :: 0 <= k < |rs| ==> (InRange(rs[k], lo, hi) <==> i <= k < j)
    ensures KeepBetween(rs, lo, hi) == rs[i..j]
  {
    var a, b, c := rs[..i], rs[i..j], rs[j..];
    assert rs == a + b + c;
    forall k | 0 <= k < |c|
      ensures !InRange(c[k], lo, hi)
    {
      assert c[k] == rs[j + k];
    }
    KeepBetweenNone(c, lo, hi);
    forall k | 0 <= k < |b|
      ensures InRange(b[k], lo, hi)
    {
      assert b[k] == rs[i + k];
    }
    KeepBetweenAll(b, lo, hi);
    forall k | 0 <= k < |a|
      ensures !InRange(a[k], lo, hi)
    {
      assert a[k] == rs[k];
    }
    KeepBetweenNone(a, lo, hi);
    KeepBetweenAppend(a + b, c, lo, hi);
    KeepBetweenAppend(a, b, lo, hi);
    calc {
      KeepBetween(rs, lo, hi);
      KeepBetween(a + b, lo, hi) + KeepBetween(c, lo, hi);
      KeepBetween(a, lo, hi) + KeepBetween(b, lo, hi) + [];
      [] + b + [];
      b;
    }
  }

  lemma TenDaysKeep(rs: seq<Row>, lo: Date, hi: Date)
    requires |rs| == 10
    requires forall k :: 0 <= k < 10 ==> rs[k].date == CivilDate(2020, 1, k + 1)
    requires lo == CivilDate(2020, 1, 2) && hi == CivilDate(2020, 1, 5)
    ensures KeepBetween(rs, lo, hi) == rs[1..5]
  {
    KeepBetweenSlice(rs, 1, 5, lo, hi);
  }

  /** Ten consecutive days from 2020-01-01: the range 2020-01-02 to
      2020-01-05 selects the second to fifth rows, four in all. */
  lemma FilterByDateRangeTenDays(fr: Frame)
    requires |fr.rows| == 10
    requires forall k :: 0 <= k < 10 ==> fr.rows[k].date == CivilDate(2020, 1, k + 1)
    ensures var r := FilterByDateRange(Some(fr), "2020-01-02", "2020-01-05");
      r == Frame(fr.columns, fr.rows[1..5]) && |r.rows| == 4
  {
    TenDaysBoundsParse();
    TenDaysKeep(fr.rows, CivilDate(2020, 1, 2), CivilDate(2020, 1, 5));
  }

  /** A bound `pd.to_datetime` rejects gives the empty frame: one that does
      not parse, or one outside the range of `datetime64[ns]`. */
  lemma FilterByDateRangeInvalid(df: Option<Frame>, startText: string, endText: string)
    requires ParseStamp(startText).None? || ParseStamp(endText).None?
    ensures FilterByDateRange(df, startText, endText) == EmptyFrame
  {
  }

  /** A well-formed bound before 1677-09-22 is rejected too: a frame with a
      row dated 2000-01-01, filtered from `1500-01-01` to `2020-01-01`, gives
      the empty frame. */
  lemma EarlyBoundGivesEmpty(fr: Frame)
    requires |fr.rows| == 1 && fr.rows[0].date == CivilDate(2000, 1, 1)
    ensures FilterByDateRange(Some(fr), "1500-01-01", "2020-01-01") == EmptyFrame
  {
    var d: Date := CivilDate(1500, 1, 1);
    assert Dashed(d) == "1500-01-01";
    DashedRoundTrip(d);
  }

  lemma InvalidDateDoesNotParse()
    ensures ParseDashed("invalid-date").None?
  {
  }

  // ---------------------------------------------------------------------
  // group_by_month
  // ---------------------------------------------------------------------

  /** `dt.to_period("M")`. */
  datatype Period = Period(year: int, month: int)

  function PeriodOfDate(d: Date): Period {
    Period(d.year, d.month)
  }

  /** Months numbered consecutively, the order of periods. */
  function PeriodKey(p: Period): int {
    p.year * 12 + (p.month - 1)
  }

  function MonthKey(r: Row): int {
    PeriodKey(PeriodOfDate(r.date))
  }

  function PeriodOfKey(k: int): (p: Period)
    ensures 1 <= p.month <= 12 && PeriodKey(p) == k
  {
    Period(k / 12, k % 12 + 1)
  }

  lemma PeriodKeyInjective(a: Period, b: Period)
    requires 1 <= a.month <= 12 && 1 <= b.month <= 12
    requires PeriodKey(a) == PeriodKey(b)
    ensures a == b
  {
  }

  /** `astype(str)` of a period: `YYYY-MM`. */
  function PeriodText(p: Period): string
    requires 0 <= p.year < 10000 && 1 <= p.month <= 12
  {
    Pad4(p.year) + "-" + Pad2(p.month)
  }

  /** Different months print differently. */
  lemma PeriodTextInjective(a: Period, b: Period)
    requires 0 <= a.year < 10000 && 1 <= a.month <= 12
    requires 0 <= b.year < 10000 && 1 <= b.month <= 12
    requires PeriodText(a) == PeriodText(b)
    ensures a == b
  {
    var s := PeriodText(a);
    assert s[..4] == Pad4(a.year) && s[5..] == Pad2(a.month);
    assert s[..4] == Pad4(b.year) && s[5..] == Pad2(b.month);
  }

  /** One row of the monthly table: the period and the aggregates of
      `inr_rate` and of the two mean-deviation columns over its rows
      (`std` and the rounding to four places are not modelled). */
  datatype MonthRow = MonthRow(period: Period, rateMean: Rate, rateMedian: Rate, rateMin: Rate, rateMax: Rate,
                               fromMeanMean: Rate, absFromMeanMean: Rate)

  function Summarize(p: Period, g: seq<Row>): MonthRow {
    var rates := RateValues(g);
    MonthRow(p, Mean(rates), Median(rates), MinRate(rates), MaxRate(rates),
             Mean(DevValues(g, FromMean)), Mean(DevValues(g, AbsFromMean)))
  }

  /** The rows of month `p`, in their original order. */
  function MonthRows(rows: seq<Row>, p: Period): seq<Row> {
    Select(rows, MonthKey, PeriodKey(p))
  }

  function Summaries(gs: seq<Group<Row>>): (out: seq<MonthRow>)
    ensures |out| == |gs|
    ensures forall i :: 0 <= i < |gs| ==> out[i] == Summarize(PeriodOfKey(gs[i].key), gs[i].members)
  {
    if gs == [] then [] else [Summarize(PeriodOfKey(gs[0].key), gs[0].members)] + Summaries(gs[1..])
  }

  /** `group_by_month`: the `year_month` column is added to the frame, then
      the rows are grouped by month and aggregated; the aggregation raises
      when a deviation column it reads is missing. No frame: an empty table. */
  function GroupByMonth(df: Option<Frame>): (Option<Frame>, Result<seq<MonthRow>, AnalysisError>) {
    match df
    case None => (None, Success([]))
    case Some(fr) =>
      var fr' := fr.(columns := AddColumns(fr.columns, [YearMonthColumn]));
      if FromMeanColumn !in fr.columns then (Some(fr'), Failure(MissingColumn(FromMeanColumn)))
      else if AbsFromMeanColumn !in fr.columns then (Some(fr'), Failure(MissingColumn(AbsFromMeanColumn)))
      else (Some(fr'), Success(Summaries(GroupBy(fr.rows, MonthKey))))
  }

  /** The frame gains `year_month` and keeps its rows; the table is refused
      exactly when a deviation column is missing. */
  lemma GroupByMonthFrame(fr: Frame)
    ensures var (df', r) := GroupByMonth(Some(fr));
      && df'.Some? && df'.value.rows == fr.rows
      && YearMonthColumn in df'.value.columns
      && df'.value.columns[..|fr.columns|] == fr.columns
      && (r.Failure? <==> FromMeanColumn !in fr.columns || AbsFromMeanColumn !in fr.columns)
  {
  }

  /** Every month with a row has its row in the table. */
  lemma GroupByMonthCovers(fr: Frame, x: Row)
    requires FromMeanColumn in fr.columns && AbsFromMeanColumn in fr.columns
    requires x in fr.rows
    ensures var out := GroupByMonth(Some(fr)).1.value;
      exists i :: 0 <= i < |out| && out[i].period == PeriodOfDate(x.date)
  {
    var gs := GroupBy(fr.rows, MonthKey);
    GroupByCovers(fr.rows, MonthKey, x);
    var i :| 0 <= i < |gs| && gs[i].key == MonthKey(x);
    var out := MonthTable(fr);
    var p := PeriodOfKey(gs[i].key);
    assert out[i].period == p;
    PeriodKeyInjective(p, PeriodOfDate(x.date));
    assert 0 <= i < |out| && out[i].period == PeriodOfDate(x.date);
  }

  /** The table of a frame with both deviation columns. */
  lemma MonthTable(fr: Frame) returns (out: seq<MonthRow>)
    requires FromMeanColumn in fr.columns && AbsFromMeanColumn in fr.columns
    ensures out == Summaries(GroupBy(fr.rows, MonthKey))
    ensures GroupByMonth(Some(fr)).1 == Success(out)
  {
    out := Summaries(GroupBy(fr.rows, MonthKey));
  }

  /** Each table row aggregates exactly the rows of its month, of which
      there is at least one. */
  lemma GroupByMonthRow(fr: Frame, i: int)
    requires FromMeanColumn in fr.columns && AbsFromMeanColumn in fr.columns
    requires 0 <= i < |GroupByMonth(Some(fr)).1.value|
    ensures var m := GroupByMonth(Some(fr)).1.value[i];
      && 1 <= m.period.month <= 12
      && |MonthRows(fr.rows, m.period)| > 0
      && m == Summarize(m.period, MonthRows(fr.rows, m.period))
  {
    var gs := GroupBy(fr.rows, MonthKey);
    GroupBySpec(fr.rows, MonthKey);
    assert gs[i].members == Select(fr.rows, MonthKey, gs[i].key);
  }

  /** The table is in strictly ascending month order, so no month appears
      twice. */
  lemma GroupByMonthAscending(fr: Frame, i: int, j: int)
    requires FromMeanColumn in fr.columns && AbsFromMeanColumn in fr.columns
    requires 0 <= i < j < |GroupByMonth(Some(fr)).1.value|
    ensures var out := GroupByMonth(Some(fr)).1.value;
      PeriodKey(out[i].period) < PeriodKey(out[j].period)
  {
    var gs := GroupBy(fr.rows, MonthKey);
    GroupBySpec(fr.rows, MonthKey);
    assert gs[i].key < gs[j].key;
  }

  /** Within each month the mean and the median lie between the month's
      minimum and maximum. */
  lemma MonthRowBounds(fr: Frame, i: int)
    requires FromMeanColumn in fr.columns && AbsFromMeanColumn in fr.columns
    requires 0 <= i < |GroupByMonth(Some(fr)).1.value|
    ensures var m := GroupByMonth(Some(fr)).1.value[i];
      && (m.rateMean.Amount? <==> m.rateMin.Amount?)
      && (m.rateMean.Amount? ==> m.rateMin.value <= m.rateMean.value <= m.rateMax.value)
      && (m.rateMedian.Amount? ==> m.rateMin.value <= m.rateMedian.value <= m.rateMax.value)
  {
    var m := GroupByMonth(Some(fr)).1.value[i];
    GroupByMonthRow(fr, i);
    var rates := RateValues(MonthRows(fr.rows, m.period));
    if m.rateMean.Amount? {
      MeanBounds(rates, MinRate(rates).value, MaxRate(rates).value);
    }
    if m.rateMedian.Amount? {
      MedianBounds(rates);
    }
  }

  // ---------------------------------------------------------------------
  // Without a loaded dataset
  // ---------------------------------------------------------------------

  /** With no dataset every analysis returns an empty result and the
      deviation step does nothing. */
  lemma NoDatasetGivesEmptyResults(otherHeaders: seq<string>, t: real, startText: string, endText: string)
    ensures var df := Prepare(None, otherHeaders);
      && df.None?
      && CheckMissingValues(df) == (None, [])
      && AddDeviationColumns(df) == None
      && FilterByDeviation(df, t) == Success(EmptyFrame)
      && FilterByDateRange(df, startText, endText) == EmptyFrame
      && GroupByMonth(df) == (None, Success([]))
  {
  }
}
