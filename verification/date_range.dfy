/** `_generate_date_range` / `generate_date_range` and the download driver
    `DataProcessor.download_new_data`: every day of a span, printed as the
    archive's `YYYY/MM/DD` path, fetched, and written as `YYYY-MM-DD` rows. */
module DateRange {
  import opened Wrappers
  import opened Text
  import opened Calendar
  import opened Records

  /** The `OverflowError` of stepping past 9999-12-31. */
  datatype RangeError = Overflow

  /** Every date lies on or before the last representable day. */
  lemma LeMaxDate(d: Date)
    ensures Le(d, MaxDate)
  {
  }

  /** `_generate_date_range` / `generate_date_range`: `while current_date <=
      end_date`, print the day as `%Y/%m/%d` and step one day; stepping past the
      last representable day raises, losing the list. Written as the
      recursion on the first day that the loop unrolls to. */
  function GenerateDateRange(start: Date, end: Date): Result<seq<string>, RangeError>
    decreases Ordinal(end) - Ordinal(start)
  {
    if !Le(start, end) then Success([])
    else
      OrdinalOrder(start, end);
      match NextDay(start)
      case None => Failure(Overflow)
      case Some(next) =>
        match GenerateDateRange(next, end)
        case Failure(e) => Failure(e)
        case Success(rest) => Success([Slashed(start)] + rest)
  }

  /** The range fails exactly when a non-empty span ends on the last
      representable day; otherwise it holds one text per day of the span. */
  lemma {:induction false} GenerateDateRangeLength(start: Date, end: Date)
    ensures GenerateDateRange(start, end).Failure? <==> Le(start, end) && end == MaxDate
    ensures GenerateDateRange(start, end).Success? ==>
              |GenerateDateRange(start, end).value| == (if Le(start, end) then Ordinal(end) - Ordinal(start) + 1 else 0)
    decreases Ordinal(end) - Ordinal(start)
  {
    OrdinalOrder(start, end);
    if Le(start, end) {
      match NextDay(start) {
        case None =>
          LeMaxDate(end);
          LeTotal(end, MaxDate);
        case Some(next) =>
          GenerateDateRangeLength(next, end);
          OrdinalOrder(next, end);
          if end == MaxDate {
            LeMaxDate(next);
          }
      }
    }
  }

  /** Position `i` of the range holds the day `d` that lies `i` days after
      `start`, and `d` lies in the span. */
  lemma {:induction false} GenerateDateRangeAt(start: Date, end: Date, i: int) returns (d: Date)
    requires GenerateDateRange(start, end).Success? && 0 <= i < |GenerateDateRange(start, end).value|
    ensures Le(start, d) && Le(d, end) && Ordinal(d) == Ordinal(start) + i
    ensures GenerateDateRange(start, end).value[i] == Slashed(d)
    decreases i
  {
    var next := RangeCons(start, end);
    if i == 0 {
      d := start;
    } else {
      d := GenerateDateRangeAt(next, end, i - 1);
      OrdinalOrder(start, d);
    }
  }

  /** A non-empty range starts with `start` and goes on with the range from
      the next day. */
  lemma RangeCons(start: Date, end: Date) returns (next: Date)
    requires GenerateDateRange(start, end).Success? && |GenerateDateRange(start, end).value| > 0
    ensures Le(start, end) && NextDay(start) == Some(next) && Ordinal(next) == Ordinal(start) + 1
    ensures GenerateDateRange(next, end).Success?
    ensures GenerateDateRange(start, end).value == [Slashed(start)] + GenerateDateRange(next, end).value
  {
    next := NextDay(start).value;
  }

  /** Every day of the span is printed, at its offset from `start`. */
  lemma GenerateDateRangeCovers(start: Date, end: Date, d: Date)
    requires GenerateDateRange(start, end).Success? && Le(start, d) && Le(d, end)
    ensures var k := Ordinal(d) - Ordinal(start);
      0 <= k < |GenerateDateRange(start, end).value| && GenerateDateRange(start, end).value[k] == Slashed(d)
  {
    GenerateDateRangeLength(start, end);
    LeTransitive(start, d, end);
    OrdinalOrder(start, d);
    OrdinalOrder(d, end);
    var d' := GenerateDateRangeAt(start, end, Ordinal(d) - Ordinal(start));
    OrdinalOrder(d', d);
  }

  /** `datetime(2016, 1, 1)`, the default first day. */
  const DefaultStart: Date := CivilDate(2016, 1, 1)

  /** Why `download_new_data` gives up. */
  datatype DownloadError =
    | NoFolder       // no dataset folder chosen
    | BadRange       // start later than end
    | Failed         // an exception inside the `try`: the overflow, or mixed bound types

  /** One written row of `dataset.csv`: the date text and the rate. */
  datatype CsvRow = CsvRow(date: string, rate: real)

  /** The loop over the printed days: ask `fetch` (the archive request, `None`
      for a failed one) for each and keep a row `replace("/", "-")`, rate for
      the days that answered. */
  function FetchRows(dates: seq<string>, fetch: string -> Option<real>): (rows: seq<CsvRow>)
    ensures |rows| <= |dates|
  {
    if dates == [] then []
    else
      (match fetch(dates[0])
       case Some(v) => [CsvRow(ReplaceChar(dates[0], '/', '-'), v)]
       case None => [])
      + FetchRows(dates[1..], fetch)
  }

  /** The bounds of `download_new_data` mix types: a given bound is a
      `datetime.date`, as the window passes (`QDate.toPython()`), while each
      default is a `datetime`, and comparing a `date` with a `datetime` raises
      `TypeError`. */
  predicate MixedBounds(start: Option<Date>, end: Option<Date>) {
    start.Some? != end.Some?
  }

  /** `download_new_data`: needs a folder; the span defaults to 2016-01-01
      through `today`; one given bound against one default fails the
      comparison; a start after the end is refused before any date is
      generated; the rows are the fetched days in date order. */
  function DownloadNewData(hasFolder: bool, start: Option<Date>, end: Option<Date>, today: Date,
                           fetch: string -> Option<real>): Result<seq<CsvRow>, DownloadError>
  {
    if !hasFolder then Failure(NoFolder)
    else if MixedBounds(start, end) then Failure(Failed)
    else
      var s, e := start.GetOr(DefaultStart), end.GetOr(today);
      if !Le(s, e) then Failure(BadRange)
      else
        match GenerateDateRange(s, e)
        case Failure(_) => Failure(Failed)
        case Success(dates) => Success(FetchRows(dates, fetch))
  }

  /** The refusals of `download_new_data`, each exactly in its case. */
  lemma DownloadErrors(hasFolder: bool, start: Option<Date>, end: Option<Date>, today: Date,
                       fetch: string -> Option<real>)
    ensures var r, s, e := DownloadNewData(hasFolder, start, end, today, fetch), start.GetOr(DefaultStart), end.GetOr(today);
      && (r == Failure(NoFolder) <==> !hasFolder)
      && (r == Failure(BadRange) <==> hasFolder && !MixedBounds(start, end) && !Le(s, e))
      && (r == Failure(Failed) <==> hasFolder && (MixedBounds(start, end) || (Le(s, e) && e == MaxDate)))
  {
    GenerateDateRangeLength(start.GetOr(DefaultStart), end.GetOr(today));
  }

  /** Each fetched row comes from a printed day `dates[j]` whose request
      answered. */
  lemma {:induction false} FetchRowsSound(dates: seq<string>, fetch: string -> Option<real>, k: int) returns (j: int)
    requires 0 <= k < |FetchRows(dates, fetch)|
    ensures 0 <= j < |dates| && fetch(dates[j]).Some?
    ensures FetchRows(dates, fetch)[k] == CsvRow(ReplaceChar(dates[j], '/', '-'), fetch(dates[j]).value)
  {
    var head: seq<CsvRow> := match fetch(dates[0]) case Some(v) => [CsvRow(ReplaceChar(dates[0], '/', '-'), v)] case None => [];
    var rest := FetchRows(dates[1..], fetch);
    assert FetchRows(dates, fetch) == head + rest;
    if k < |head| {
      j := 0;
    } else {
      var j' := FetchRowsSound(dates[1..], fetch, k - |head|);
      j := j' + 1;
    }
  }

  /** Rows keep the order of their days. */
  lemma {:induction false} FetchRowsOrdered(dates: seq<string>, fetch: string -> Option<real>, k1: int, k2: int)
    returns (j1: int, j2: int)
    requires 0 <= k1 < k2 < |FetchRows(dates, fetch)|
    ensures 0 <= j1 < j2 < |dates|
    ensures FetchRows(dates, fetch)[k1].date == ReplaceChar(dates[j1], '/', '-')
    ensures FetchRows(dates, fetch)[k2].date == ReplaceChar(dates[j2], '/', '-')
  {
    var head: seq<CsvRow> := match fetch(dates[0]) case Some(v) => [CsvRow(ReplaceChar(dates[0], '/', '-'), v)] case None => [];
    var rest := FetchRows(dates[1..], fetch);
    assert FetchRows(dates, fetch) == head + rest;
    if k1 < |head| {
      var j' := FetchRowsSound(dates[1..], fetch, k2 - 1);
      j1, j2 := 0, j' + 1;
    } else {
      var i1, i2 := FetchRowsOrdered(dates[1..], fetch, k1 - |head|, k2 - |head|);
      j1, j2 := i1 + 1, i2 + 1;
    }
  }

  /** Every day whose request answered has its row. */
  lemma {:induction false} FetchRowsComplete(dates: seq<string>, fetch: string -> Option<real>, j: int)
    requires 0 <= j < |dates| && fetch(dates[j]).Some?
    ensures exists k :: 0 <= k < |FetchRows(dates, fetch)|
              && FetchRows(dates, fetch)[k] == CsvRow(ReplaceChar(dates[j], '/', '-'), fetch(dates[j]).value)
  {
    var head: seq<CsvRow> := match fetch(dates[0]) case Some(v) => [CsvRow(ReplaceChar(dates[0], '/', '-'), v)] case None => [];
    var rest := FetchRows(dates[1..], fetch);
    assert FetchRows(dates, fetch) == head + rest;
    if j == 0 {
      assert FetchRows(dates, fetch)[0] == head[0];
    } else {
      FetchRowsComplete(dates[1..], fetch, j - 1);
      assert dates[1..][j - 1] == dates[j];
      var k :| 0 <= k < |rest| && rest[k] == CsvRow(ReplaceChar(dates[j], '/', '-'), fetch(dates[j]).value);
      assert FetchRows(dates, fetch)[|head| + k] == rest[k];
    }
  }

  /** A downloaded row is the dashed date of a day of the span with its
      fetched rate. */
  lemma DownloadRowSound(hasFolder: bool, start: Option<Date>, end: Option<Date>, today: Date,
                         fetch: string -> Option<real>, k: int)
    requires DownloadNewData(hasFolder, start, end, today, fetch).Success?
    requires 0 <= k < |DownloadNewData(hasFolder, start, end, today, fetch).value|
    ensures var s, e := start.GetOr(DefaultStart), end.GetOr(today);
      exists d: Date :: Le(s, d) && Le(d, e) && fetch(Slashed(d)).Some?
        && DownloadNewData(hasFolder, start, end, today, fetch).value[k] == CsvRow(Dashed(d), fetch(Slashed(d)).value)
  {
    var s, e := start.GetOr(DefaultStart), end.GetOr(today);
    assert hasFolder && Le(s, e) && GenerateDateRange(s, e).Success?;
    var dates := GenerateDateRange(s, e).value;
    assert DownloadNewData(hasFolder, start, end, today, fetch).value == FetchRows(dates, fetch);
    var j := FetchRowsSound(dates, fetch, k);
    var d := GenerateDateRangeAt(s, e, j);
    SlashedToDashed(d);
  }

  /** Every day of the span whose request answered is downloaded. */
  lemma DownloadRowComplete(hasFolder: bool, start: Option<Date>, end: Option<Date>, today: Date,
                            fetch: string -> Option<real>, d: Date)
    requires DownloadNewData(hasFolder, start, end, today, fetch).Success?
    requires Le(start.GetOr(DefaultStart), d) && Le(d, end.GetOr(today)) && fetch(Slashed(d)).Some?
    ensures exists k :: 0 <= k < |DownloadNewData(hasFolder, start, end, today, fetch).value|
              && DownloadNewData(hasFolder, start, end, today, fetch).value[k] == CsvRow(Dashed(d), fetch(Slashed(d)).value)
  {
    var s, e := start.GetOr(DefaultStart), end.GetOr(today);
    assert hasFolder && Le(s, e) && GenerateDateRange(s, e).Success?;
    assert DownloadNewData(hasFolder, start, end, today, fetch).value == FetchRows(GenerateDateRange(s, e).value, fetch);
    SpanRowComplete(s, e, fetch, d);
  }

  /** The rows fetched for a span hold every answered day of it. */
  lemma SpanRowComplete(s: Date, e: Date, fetch: string -> Option<real>, d: Date)
    requires GenerateDateRange(s, e).Success?
    requires Le(s, d) && Le(d, e) && fetch(Slashed(d)).Some?
    ensures var rows := FetchRows(GenerateDateRange(s, e).value, fetch);
      exists k :: 0 <= k < |rows| && rows[k] == CsvRow(Dashed(d), fetch(Slashed(d)).value)
  {
    var dates := GenerateDateRange(s, e).value;
    GenerateDateRangeCovers(s, e, d);
    var j := Ordinal(d) - Ordinal(s);
    FetchRowsComplete(dates, fetch, j);
    SlashedToDashed(d);
  }

  /** Reading back the downloaded file: it loads exactly when every
      downloaded day lies in the range of `datetime64[ns]` (so always for a
      span inside that range), and the loaded frame is in strictly increasing
      date order, so `set_dataset_path` gets distinct dates. */
  lemma DownloadLoadsAscending(hasFolder: bool, start: Option<Date>, end: Option<Date>, today: Date,
                               fetch: string -> Option<real>)
    requires DownloadNewData(hasFolder, start, end, today, fetch).Success?
    ensures var rows := DownloadNewData(hasFolder, start, end, today, fetch).value;
      && (LoadRows(rows).Some? <==> forall k :: 0 <= k < |rows| ==> StampRow(rows[k]))
      && (InStampRange(start.GetOr(DefaultStart)) && InStampRange(end.GetOr(today)) ==> LoadRows(rows).Some?)
      && (LoadRows(rows).Some? ==> Ascending(LoadRows(rows).value) && DistinctDates(LoadRows(rows).value))
  {
    var s, e := start.GetOr(DefaultStart), end.GetOr(today);
    assert hasFolder && Le(s, e) && GenerateDateRange(s, e).Success?;
    assert DownloadNewData(hasFolder, start, end, today, fetch).value == FetchRows(GenerateDateRange(s, e).value, fetch);
    SpanLoads(s, e, fetch);
  }

  /** The download of the span from `s` to `e`, read back. */
  lemma SpanLoads(s: Date, e: Date, fetch: string -> Option<real>)
    requires GenerateDateRange(s, e).Success?
    ensures var rows := FetchRows(GenerateDateRange(s, e).value, fetch);
      && (LoadRows(rows).Some? <==> forall k :: 0 <= k < |rows| ==> StampRow(rows[k]))
      && (InStampRange(s) && InStampRange(e) ==> LoadRows(rows).Some?)
      && (LoadRows(rows).Some? ==> Ascending(LoadRows(rows).value) && DistinctDates(LoadRows(rows).value))
  {
    var rows := FetchRows(GenerateDateRange(s, e).value, fetch);
    LoadRowsParses(rows);
    if InStampRange(s) && InStampRange(e) {
      SpanRowsStamp(s, e, fetch);
    }
    if LoadRows(rows).Some? {
      SpanRowsAscending(s, e, fetch);
    }
  }

  /** Row `k` of a span's download is the dashed form of a day `d` of the
      span, `j` days after its start, with `j` growing with `k`. */
  lemma SpanRowDay(s: Date, e: Date, fetch: string -> Option<real>, k: int) returns (d: Date)
    requires GenerateDateRange(s, e).Success?
    requires 0 <= k < |FetchRows(GenerateDateRange(s, e).value, fetch)|
    ensures Le(s, d) && Le(d, e)
    ensures FetchRows(GenerateDateRange(s, e).value, fetch)[k].date == Dashed(d)
  {
    var dates := GenerateDateRange(s, e).value;
    var j := FetchRowsSound(dates, fetch, k);
    d := GenerateDateRangeAt(s, e, j);
    SlashedToDashed(d);
  }

  /** The download of a span inside the range of `datetime64[ns]` holds only
      rows `pd.to_datetime` accepts. */
  lemma SpanRowsStamp(s: Date, e: Date, fetch: string -> Option<real>)
    requires GenerateDateRange(s, e).Success? && InStampRange(s) && InStampRange(e)
    ensures var rows := FetchRows(GenerateDateRange(s, e).value, fetch);
      forall k :: 0 <= k < |rows| ==> StampRow(rows[k])
  {
    var rows := FetchRows(GenerateDateRange(s, e).value, fetch);
    forall k | 0 <= k < |rows|
      ensures StampRow(rows[k])
    {
      var d := SpanRowDay(s, e, fetch, k);
      StampRowDay(rows[k], d);
      LeTransitive(FirstStampDay, s, d);
      LeTransitive(d, e, LastStampDay);
    }
  }

  /** A span's download loads in strictly increasing date order, hence with
      distinct dates. */
  lemma SpanRowsAscending(s: Date, e: Date, fetch: string -> Option<real>)
    requires GenerateDateRange(s, e).Success?
    requires LoadRows(FetchRows(GenerateDateRange(s, e).value, fetch)).Some?
    ensures var loaded := LoadRows(FetchRows(GenerateDateRange(s, e).value, fetch)).value;
      Ascending(loaded) && DistinctDates(loaded)
  {
    var dates := GenerateDateRange(s, e).value;
    var rows := FetchRows(dates, fetch);
    var loaded := LoadRows(rows).value;
    forall a, b | 0 <= a < b < |loaded|
      ensures Le(loaded[a].date, loaded[b].date) && loaded[a].date != loaded[b].date
    {
      var j1, j2 := FetchRowsOrdered(dates, fetch, a, b);
      var d1 := GenerateDateRangeAt(s, e, j1);
      var d2 := GenerateDateRangeAt(s, e, j2);
      SlashedToDashed(d1);
      SlashedToDashed(d2);
      LoadedDay(rows, a, d1);
      LoadedDay(rows, b, d2);
      OrdinalOrder(d1, d2);
    }
    AscendingDistinct(loaded);
  }

  /** A loaded row written as the dashed form of `d` holds `d`. */
  /** A frame that loads holds only dates in the range of `datetime64[ns]`. */
  lemma LoadedStampDates(rows: seq<CsvRow>)
    requires LoadRows(rows).Some?
    ensures StampDates(LoadRows(rows).value)
  {
  }

  lemma LoadedDay(rows: seq<CsvRow>, k: int, d: Date)
    requires LoadRows(rows).Some? && 0 <= k < |rows| && rows[k].date == Dashed(d)
    ensures LoadRows(rows).value[k].date == d
  {
    DashedRoundTrip(d);
  }

  /** The row's date text is one `pd.to_datetime` accepts. */
  predicate StampRow(row: CsvRow) {
    ParseStamp(row.date).Some?
  }

  lemma StampRowDay(row: CsvRow, d: Date)
    requires row.date == Dashed(d)
    ensures ParseDashed(row.date) == Some(d)
    ensures StampRow(row) <==> InStampRange(d)
  {
    DashedRoundTrip(d);
  }

  /** Loading succeeds exactly when every date text parses to a day in the
      range of `datetime64[ns]`. */
  lemma {:induction false} LoadRowsParses(rows: seq<CsvRow>)
    ensures LoadRows(rows).Some? <==> forall k :: 0 <= k < |rows| ==> StampRow(rows[k])
  {
    if rows != [] {
      var tail := rows[1..];
      LoadRowsParses(tail);
      assert LoadRows(rows).Some? <==> StampRow(rows[0]) && LoadRows(tail).Some?;
      if StampRow(rows[0]) && LoadRows(tail).None? {
        var k :| 0 <= k < |tail| && !StampRow(tail[k]);
        assert rows[k + 1] == tail[k];
      }
    }
  }

  /** A day before 1677-09-22 does not load: `pd.to_datetime` raises on
      `1500-01-01`. */
  lemma EarlyDayFailsToLoad()
    ensures LoadRows([CsvRow(Dashed(CivilDate(1500, 1, 1)), 1.0)]).None?
  {
    DashedRoundTrip(CivilDate(1500, 1, 1));
  }

  /** `date_str.replace("/", "-")` turns the archive path into the CSV date. */
  lemma SlashedToDashed(d: Date)
    ensures ReplaceChar(Slashed(d), '/', '-') == Dashed(d)
  {
    var s, t := ReplaceChar(Slashed(d), '/', '-'), Dashed(d);
    assert |s| == |t|;
    forall i | 0 <= i < |s|
      ensures s[i] == t[i]
    {
      assert Slashed(d)[i] == (if i == 4 || i == 7 then '/' else t[i]);
    }
  }

  /** `pd.read_csv` followed by `pd.to_datetime` on the written rows; `None`
      when some date text does not parse or names a day outside the range of
      `datetime64[ns]`. */
  function LoadRows(rows: seq<CsvRow>): (r: Option<seq<Record>>)
    ensures r.Some? ==> |r.value| == |rows|
    ensures r.Some? ==> forall k :: 0 <= k < |rows| ==>
              ParseStamp(rows[k].date) == Some(r.value[k].date) && r.value[k].rate == Amount(rows[k].rate)
  {
    if rows == [] then Some([])
    else
      match ParseStamp(rows[0].date)
      case None => None
      case Some(d) =>
        match LoadRows(rows[1..])
        case None => None
        case Some(rest) => Some([Record(d, Amount(rows[0].rate), [])] + rest)
  }

  /** Rows in strictly increasing date order, hence with distinct dates. */
  predicate Ascending(rs: seq<Record>) {
    forall a, b :: 0 <= a < b < |rs| ==> Le(rs[a].date, rs[b].date) && rs[a].date != rs[b].date
  }

  lemma AscendingDistinct(rs: seq<Record>)
    requires Ascending(rs)
    ensures DistinctDates(rs)
  {
  }
}
