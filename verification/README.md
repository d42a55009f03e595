# INR exchange-rate lab: a Dafny model

This project models the core of a small desktop application that keeps a
daily series of Indian rupee to Russian rouble rates as `dataset.csv`. The
series holds one `(Date, INR_Rate)` row per day. The application:

- re-exports that series in three layouts: `X.csv` + `Y.csv`, one file per
  calendar year, and one file per ISO week. Each partition file is named
  `YYYYMMDD_YYYYMMDD.csv` after its first and last day;
- answers "what was the rate on day `q`?" in four ways: from the loaded
  frame, from `X.csv`/`Y.csv`, by globbing year files, and by globbing week
  files;
- lists the files of a layout in an annotation;
- downloads a date span from the central bank archive, one day at a time;
- walks a file's rows with a cursor (`DataIterator`);
- analyses the loaded frame: it normalises column names, counts missing
  values and fills them with the median, adds deviation columns, filters by
  deviation and by date range, and groups the rows by month.

The model is built from immutable values:

- A directory is a `map` from file name to what `pd.read_csv` finds in the
  file.
- Every operation is a pure function from the old state to the result and
  the new state.
- Any listing order (`os.listdir`, `glob`) is a parameter, and every theorem
  holds for every order.
- The network request, today's date and the directory listing are
  parameters.

Modules:

- `Wrappers`, `Text`, `Calendar` (proleptic Gregorian dates as Python's
  `datetime` has them, years 1..9999, with `toordinal`), `IsoWeek` (the
  Thursday rule of ISO 8601), `Records` and `Grouping` (the `groupby` of
  pandas on an integer key): the vocabulary.
- `Folder`, `Exporter`, `Annotation`, `PointQuery`, `DateRange`:
  `data_processor.py`, the lookups of `lab2_main.py` and those of
  `main_window.py`.
- `Iteration`: `DataIterator` in `lab2_main.py`.
- `Statistics` and `Analyzer`: `data_analysis.py`.
- `Agreement`: the theorem that ties the layouts to the lookups. Take any
  sequence of exports, in any order, starting from a folder holding the
  dataset. Then every lookup version whose layout was exported returns
  exactly what the loaded frame returns, for every day, under every listing
  order, when the day is compared as a `Timestamp`. The window's versions 1
  to 3 compare a bare `datetime.date` instead and find nothing (see
  "## Findings").
- Dates read through pandas lie in the range of `datetime64[ns]`
  (1677-09-22 to 2262-04-11 as whole days); a file with a date outside it
  does not load.

## Model

| member | source | states |
|---|---|---|
| `Calendar.NextDay` | data_processor.py:278 | `+= timedelta(days=1)`: the next day's ordinal is one more; it fails exactly on 9999-12-31 (Python's `OverflowError`) |
| `Calendar.OrdinalOrder` | data_processor.py:276 | comparing dates is comparing their ordinals, and equal ordinals mean equal dates |
| `Calendar.LeTotal` | data_processor.py:218 | date comparison is total and antisymmetric |
| `Calendar.LeTransitive` | data_processor.py:218 | date comparison is transitive |
| `Calendar.DaysInMonth` | data_processor.py:278 | every month has 28 to 31 days |
| `Calendar.YearStep` | data_processor.py:278 | day counts before consecutive years differ by that year's length (leap rule of 4, 100 and 400) |
| `Calendar.OrdinalInYear` | data_processor.py:86 | a date's ordinal lies between its own New Year and the next one |
| `Calendar.Ymd` | data_processor.py:88 | `strftime("%Y%m%d")` is 8 digits that parse back to the date |
| `Calendar.YmdInjective` | data_processor.py:88-89 | different dates print different `%Y%m%d` texts |
| `Calendar.DashedRoundTrip` | data_analysis.py:156-157 | parsing the `YYYY-MM-DD` text of a date gives the date back |
| `Calendar.ParseDashed` | data_analysis.py:156 | whatever parses prints back to the same text |
| `IsoWeek.IsoWeekday` | data_processor.py:116 | the ISO weekday is 1..7 |
| `IsoWeek.IsoYear` | data_processor.py:116 | the ISO year is the calendar year or one of its neighbours |
| `IsoWeek.IsoWeekNumber` | data_processor.py:118 | the ISO week is 1..53 |
| `IsoWeek.IsoYearBrackets` | data_processor.py:116 | the week's Thursday falls inside its ISO year |
| `IsoWeek.IsoKeyMonotone` | data_processor.py:115-119 | the (ISO year, week) key never decreases as the date grows |
| `IsoWeek.SameWeekIffSameKey` | data_processor.py:115-119 | two days share a key exactly when they share a Thursday, i.e. the same Monday-to-Sunday week |
| `IsoWeek.WeekKeyTextFaithful` | data_processor.py:115-119 | the `YYYY-WW` text key of two days is equal exactly when their (ISO year, week) pairs are |
| `IsoWeek.IsoExampleNewYear2020` | data_processor.py:116-118 | 2020-01-01 is a Wednesday in week 1 of 2020 |
| `IsoWeek.IsoExampleYearStraddle` | data_processor.py:116-118 | 2019-12-30 belongs to week 1 of ISO year 2020 |
| `IsoWeek.IsoExampleWeek53` | data_processor.py:116-118 | 2016-01-01 belongs to week 53 of ISO year 2015 |
| `Text.Pad2` | data_processor.py:118 | `zfill(2)`: two digits that decode to the number |
| `Text.NatToString` | data_processor.py:116 | `astype(str)` of a natural: digits without a leading zero that decode to the number |
| `Text.ReplaceChar` | data_processor.py:227 | `str.replace` of one character: the same length, that character replaced everywhere, the rest unchanged |
| `Text.DashKeyInjective` | data_processor.py:115-119 | the `year-week` text determines the year and the week |
| `Records.FirstRate` | data_processor.py:41-47 | the rate of the first row dated `q`, and nothing exactly when no row has that date |
| `Records.FirstIndex` | lab2_main.py:193-194 | `mask.idxmax()` under `mask.any()`: the first position holding the value, none when it is absent |
| `Records.FirstMatch` | main_window.py:380-384 | `df["Date"] == date` then `idxmax()`: the first position whose cell equals the comparison value, none exactly when no cell does; a bare date equals no cell |
| `Records.FirstRateAt` | lab2_main.py:218-222 | the rate of the first row whose date equals the comparison value, none exactly when no row's does |
| `Records.FirstRateByIndex` | lab2_main.py:192-195 | reading `Y` at the first matching position of `X` is the same as the first matching row |
| `Records.SoundLookup` | lab2_main.py:208-211 | a file cut from a series with distinct dates answers a found day as the series does |
| `Records.SoundMiss` | lab2_main.py:208-211 | a file cut from the series has no day the series lacks |
| `Records.Earliest` | data_processor.py:88 | `group["Date"].min()` is a member's date, no later than any member's |
| `Records.Latest` | data_processor.py:89 | `group["Date"].max()` is a member's date, no earlier than any member's |
| `Records.Window` | data_processor.py:86-93 | the rows dated from `lo` to `hi`, both included |
| `Records.YearOfMonotone` | data_processor.py:86 | the calendar-year key never decreases with the date |
| `Records.WeekOfMonotone` | data_processor.py:115-121 | the ISO-week key never decreases with the date |
| `Records.GroupIsWindow` | data_processor.py:86-90 | a group of a date-monotone key is exactly the rows between its first and last day |
| `Records.Project` | data_processor.py:128 | `group[["Date", "INR_Rate"]]`: the same rows, other columns dropped |
| `Records.ProjectIdempotent` | data_processor.py:128 | dropping the other columns twice is dropping them once |
| `Records.FirstRateProject` | data_processor.py:128 | dropping the other columns changes no lookup |
| `Grouping.Select` | data_processor.py:86 | one group: exactly the rows whose key is `k`, never more than the rows |
| `Grouping.SelectCount` | data_processor.py:86 | a group keeps every copy of its rows |
| `Grouping.GroupBySpec` | data_processor.py:86 | `groupby`: one non-empty group per key present, each exactly the rows of its key, keys strictly ascending |
| `Grouping.GroupByCovers` | data_processor.py:86 | every row's key has a group |
| `Grouping.GroupOfMember` | data_processor.py:86 | a row belongs to a group exactly when it has the group's key |
| `Grouping.GroupByPermutation` | data_processor.py:86 | the groups put together are a permutation of the rows |
| `Grouping.MinKey` | data_processor.py:86 | the least key present |
| `Grouping.MaxKey` | data_processor.py:86 | the greatest key present |
| `Folder.GlobYear` | lab2_main.py:213 | `glob(f"{year}*.csv")`: exactly the listed names that match |
| `Folder.GlobWeek` | lab2_main.py:230 | `glob("*_*.csv")`: exactly the listed names that match |
| `Folder.ReservedExcluded` | main_window.py:395-398 | every exclusion test passes over `X.csv`, `Y.csv` and `dataset.csv` |
| `Folder.ProbeFile` | lab2_main.py:217-222 | reading one file and filtering it by the comparison value: a hit is the file's first row whose date equals it; a miss is a readable file with no such row; a table never fails |
| `Folder.Scan` | lab2_main.py:214-223 | a hit of the scan is the hit of some unexcluded listed file, for the same comparison value |
| `Folder.WriteAllSpec` | data_processor.py:91-94 | writing under pairwise different names leaves each content under its name and every other name as it was |
| `Folder.JoinClear` | main_window.py:393 | a joined path mentions a reserved name only if the directory does or the name could |
| `Exporter.PartitionNameShape` | data_processor.py:88-90 | a partition name is 21 characters, `_` at index 8, ends in `.csv`, and its two halves parse back to the span |
| `Exporter.PartitionNameInjective` | data_processor.py:88-90 | equal partition names mean equal spans |
| `Exporter.PartitionNamesDiffer` | data_processor.py:123-125 | different spans get different names |
| `Exporter.PartitionNameClear` | main_window.py:395-398 | no partition name is or contains a reserved name, nor does its joined path |
| `Exporter.GroupNamesDistinct` | data_processor.py:86-94 | the groups of a date-monotone key get pairwise different file names, so no write overwrites another |
| `Exporter.SplitToXY` | data_processor.py:52-73 | refuses when nothing is loaded, otherwise reports `X.csv` and `Y.csv` |
| `Exporter.SplitToXYAligned` | data_processor.py:60-65 | `X.csv` holds the dates and `Y.csv` the rates, row by row, and no other file changes |
| `Exporter.SplitByYears` | data_processor.py:75-102 | refuses exactly when nothing is loaded |
| `Exporter.SplitByWeeks` | data_processor.py:104-137 | refuses exactly when nothing is loaded |
| `Exporter.Partition` | data_processor.py:86-94 | reports one file per group |
| `Exporter.PartitionFileAt` | data_processor.py:86-94 | file `i` is group `i`, written under its span name with the group's content |
| `Exporter.PartitionFilesAreGroups` | data_processor.py:86-94 | every reported file is the content of one non-empty group under that group's name |
| `Exporter.PartitionFileIsGroup` | data_processor.py:121-129 | file `i` holds the non-empty group of some key value |
| `Exporter.PartitionFilesDistinct` | data_processor.py:94 | the reported names are pairwise different |
| `Exporter.PartitionOthersUnchanged` | data_processor.py:91-93 | the split touches no file besides those it reports |
| `Exporter.PartitionRowsOnce` | data_processor.py:86-94 | every row of the dataset lands in exactly one written file |
| `Exporter.PartitionRowHeld` | data_processor.py:86-94 | every row of the dataset is held by some written file |
| `Exporter.PartitionRowUnique` | data_processor.py:86-94 | no row is held by two written files |
| `Exporter.WeeksExport` | data_processor.py:115-129 | the week split of a loaded series writes the week groups under their span names |
| `Exporter.WriteWeeks` | lab2_main.py:88-99 | the loop counts one file per week group and leaves the folder the week split leaves |
| `Folder.WriteEach` | lab2_main.py:88-99 | writing the files one at a time counts every file and leaves the folder that writing them all leaves |
| `Exporter.Lab2SplitByWeeks` | lab2_main.py:68-106 | succeeds exactly when `dataset.csv` reads with both columns, or with only `Date` and no rows; then writes what the week split writes and counts its files, and with no rows writes nothing |
| `Annotation.AnnotationCases` | data_processor.py:144-201 | refuses without a dataset folder, and otherwise exactly when `pd.read_csv` raises on a chosen file present, whatever the columns of the files it reads; on success lists exactly the chosen files: for `original` and `xy` the reserved files present, for another type nothing |
| `Annotation.AnnotationPartitionCases` | data_processor.py:159-174 | `years` and `weeks` choose exactly the listed `.csv` names of the required length other than the reserved ones |
| `Annotation.FilterListing` | data_processor.py:160-166 | the comprehension keeps exactly the listed names that pass the filter |
| `Annotation.AsWrittenMissesPartitions` | data_processor.py:165 | as written (`len(f) == 16`), no partition name is ever chosen |
| `Annotation.AsWrittenEmptyAfterSplit` | data_processor.py:159-166 | as written, after a year split of any non-empty dataset the annotation lists none of the files written |
| `Annotation.AnnotationListsPartitionName` | data_processor.py:167-201 | with the length corrected to 21, every listed partition name is chosen, and the annotation succeeds, listing it, exactly when `pd.read_csv` reads every chosen file |
| `Annotation.AnnotationListsPartitions` | data_processor.py:159-201 | with the length corrected, every file a year or week split writes is chosen, whatever the listing order, and is a readable table; the annotation succeeds, listing them, exactly when `pd.read_csv` reads every chosen file |
| `Annotation.UnreadableDatasetFails` | data_processor.py:185-201 | an `original` annotation of a folder whose `dataset.csv` makes `pd.read_csv` raise is refused |
| `Annotation.UnusableFileIsAnnotated` | data_processor.py:159-201 | a 16-character `.csv` that `pd.read_csv` reads but that has neither column is listed by the `years` annotation as written |
| `PointQuery.GetDataByDate` | data_processor.py:35-50 | nothing when no frame is loaded or no row has the day; otherwise the rate of the first such row |
| `PointQuery.SingleFile` | lab2_main.py:176-184 | a rate exactly when the file reads with both columns and has the day, and then the first such row's rate |
| `PointQuery.DatesOf` | lab2_main.py:189-191 | the `Date` column of a file, when it has one |
| `PointQuery.RatesOf` | lab2_main.py:190-195 | the `INR_Rate` column of a file, when it has one |
| `PointQuery.XYLookup` | main_window.py:375-387 | a hit is `Y` at the first position of `X` whose cell equals the comparison value; a value no cell of `X` equals gives nothing |
| `PointQuery.NominalYearNameShape` | lab2_main.py:204 | `{year}0101_{year}1231.csv` matches the year's glob and mentions no reserved name |
| `PointQuery.ScanHit` | lab2_main.py:214-222 | a hit names a listed, unexcluded file that answers with it |
| `PointQuery.Lab2YearLookup` | lab2_main.py:201-225 | a hit comes from the nominal year file or a listed `{year}*.csv` that mentions no reserved name |
| `PointQuery.MainYearLookup` | main_window.py:389-407 | a hit comes from a listed `{year}*.csv` whose joined path mentions no reserved name |
| `PointQuery.Lab2WeekLookup` | lab2_main.py:228-242 | a hit comes from a listed `*_*.csv` that is not a reserved name |
| `PointQuery.MainWeekLookup` | main_window.py:409-426 | a hit comes from a listed `*_*.csv` whose joined path mentions no reserved name |
| `PointQuery.SearchData` | main_window.py:452-476 | a warning exactly when nothing is loaded; otherwise the version index picks the lookup, version 0 converting the day to a `Timestamp`, and an unknown index finds nothing |
| `PointQuery.BareDateFindsNothing` | main_window.py:458-470 | as written, versions 1 to 3, given the bare date from the date widget, find nothing for any day and any folder |
| `PointQuery.BareDateMissesLoadedDay` | main_window.py:375-387 | a one-row dataset exported to `X`/`Y`: the frame and version 1 with a `Timestamp` find the day, version 1 with the bare date does not |
| `Agreement.PromiseAllFlags` | data_processor.py:52-137 | after a sequence of exports each layout is promised exactly when it was exported at least once |
| `Agreement.ContentProject` | data_processor.py:128 | a partition file, whole rows or `Date` and `INR_Rate` only, shows the same (date, rate) rows as its group |
| `Agreement.GroupSpan` | data_processor.py:86-90 | a row's group is the window between the group's first and last day, and contains the row's day |
| `Agreement.PartitionCovers` | data_processor.py:86-94 | after a split, every row's day lies in the span of a written file that holds exactly that span |
| `Agreement.PartitionKeepsWindow` | data_processor.py:91-93 | a later split never breaks a span file an earlier split wrote |
| `Agreement.PartitionRewritesWindow` | data_processor.py:91-93 | a span file rewritten under the same name holds the same window again |
| `Agreement.SoundIgnoresOtherFiles` | lab2_main.py:213 | a file whose name does not end in `.csv` may hold anything without breaking soundness, since no lookup globs it |
| `Agreement.AnnotationTextIsFree` | main_window.py:501-505 | a folder holding the dataset and an unreadable `annotation.txt` is still sound |
| `Agreement.PartitionFileSound` | data_processor.py:93 | every written file is a readable table of rows of the dataset, under a non-reserved name |
| `Agreement.PartitionKeepsSound` | data_processor.py:86-94 | a split keeps every non-reserved file a sub-series of the dataset and writes no reserved name |
| `Agreement.WritesKeepSound` | data_processor.py:91-93 | writes of sound files that touch nothing else keep the folder sound |
| `Agreement.PartitionKeepsReserved` | data_processor.py:91-93 | a split leaves `dataset.csv`, `X.csv` and `Y.csv` answering as before |
| `Agreement.PartitionKeepsYears` | data_processor.py:86-94 | a later split keeps every day covered by a year file of its year |
| `Agreement.PartitionKeepsCovered` | data_processor.py:121-129 | a later split keeps a day's covering file |
| `Agreement.PartitionMakesSpans` | data_processor.py:121-129 | after a split, every day of the dataset lies in a written span file |
| `Agreement.PartitionKeepsCoherent` | data_processor.py:75-137 | a split keeps every layout promise and adds the span-file promise |
| `Agreement.YearExportFolder` | data_processor.py:75-102 | the year export's folder is the year partition with whole rows |
| `Agreement.WeekExportFolder` | data_processor.py:104-137 | the week export's folder is the week partition with `Date` and `INR_Rate` only |
| `Agreement.YearsExportCoherent` | data_processor.py:75-102 | a year export keeps the folder coherent and promises year files |
| `Agreement.WeeksExportCoherent` | data_processor.py:104-137 | a week export keeps the folder coherent and promises span files |
| `Agreement.XYExportCoherent` | data_processor.py:52-73 | an `X`/`Y` export keeps the folder coherent and promises `X`/`Y` lookups |
| `Agreement.ExportsKeepCoherent` | data_processor.py:52-137 | any sequence of exports keeps the folder coherent with every promise it made |
| `Agreement.SingleFileAgrees` | lab2_main.py:176-184 | with `dataset.csv` intact, the single-file lookup is the frame's |
| `Agreement.XYAgrees` | lab2_main.py:187-198 | after an `X`/`Y` export the `X`/`Y` lookup is the frame's, for every day |
| `Agreement.ScanAgrees` | lab2_main.py:213-223 | over `.csv` files cut from a series with distinct dates, a scan misses the days the series lacks and otherwise answers as the series |
| `Agreement.SpanFileMatchesYear` | lab2_main.py:213 | a span file starting in year `y` (four digits) matches `{y}*.csv` |
| `Agreement.SpanFileMatchesWeek` | lab2_main.py:230 | every span file matches `*_*.csv` |
| `Agreement.SpanFileHolds` | lab2_main.py:234-239 | a span file finds every day of the dataset in its span |
| `Agreement.GlobScanAgrees` | main_window.py:412-424 | once a listed span file holds the day, the scan's answer is the frame's |
| `Agreement.CoveringYearFile` | main_window.py:393-404 | after a year export of a loaded dataset (dates in the `datetime64[ns]` range), every found day has a file matching its year's glob that holds it |
| `Agreement.YearScanAgrees` | main_window.py:393-405 | after a year export of a loaded dataset, the year scan answers every day as the frame for either exclusion test |
| `Agreement.YearLookupsAgree` | lab2_main.py:201-225 | after a year export of a loaded dataset, both year lookups answer every day as the frame |
| `Agreement.WeekLookupsAgree` | lab2_main.py:228-242 | after a year or week export, both week lookups answer as the frame |
| `Agreement.WeekSpanFound` | lab2_main.py:230-239 | after a split, a found day lies in a globbed span file that holds it |
| `Agreement.AllLookupsAgree` | main_window.py:452-476 | after any sequence of exports of a loaded dataset, every search version whose layout was exported, given the day as a `Timestamp`, answers every day as the loaded frame does |
| `DateRange.GenerateDateRangeLength` | data_processor.py:272-279 | the range has one entry per day from `start` to `end`, none when `start` is later; it overflows exactly when a non-empty span ends on 9999-12-31 |
| `DateRange.GenerateDateRangeAt` | data_processor.py:276-277 | entry `i` is the `%Y/%m/%d` text of the day `i` days after `start`, inside the span |
| `DateRange.RangeCons` | lab2_main.py:297-299 | a non-empty range is `start` followed by the range from the next day |
| `DateRange.GenerateDateRangeCovers` | lab2_main.py:291-300 | every day of the span appears, at its offset from `start` |
| `DateRange.FetchRows` | data_processor.py:224-228 | at most one row per day |
| `DateRange.DownloadErrors` | data_processor.py:206-219 | refuses without a folder; fails when exactly one bound is given (a `date` compared with a `datetime` default) or on overflow; refuses when `start` is later than `end` (defaults 2016-01-01 and today); each exactly in its case |
| `DateRange.FetchRowsSound` | data_processor.py:224-228 | each row comes from a day whose request answered, with its date dashed |
| `DateRange.FetchRowsOrdered` | data_processor.py:224-228 | rows keep the order of their days |
| `DateRange.FetchRowsComplete` | data_processor.py:224-228 | every day whose request answered has its row |
| `DateRange.SlashedToDashed` | data_processor.py:227 | replacing `/` by `-` turns the archive path of a day into its `YYYY-MM-DD` text |
| `DateRange.DownloadRowSound` | data_processor.py:221-238 | a downloaded row is the dashed date of a day of the span with the answered rate |
| `DateRange.DownloadRowComplete` | data_processor.py:221-238 | every day of the span whose request answered is downloaded |
| `DateRange.SpanRowComplete` | data_processor.py:224-228 | the rows fetched for a span hold every answered day of it |
| `DateRange.LoadRows` | data_processor.py:21-24 | reading the rows back keeps their count, their rates, and their dates, each a parsed day in the range of `datetime64[ns]` |
| `Calendar.ParseStamp` | data_processor.py:22-24 | a date text converts exactly when it parses to a day from 1677-09-22 to 2262-04-11, and then prints back |
| `DateRange.LoadedStampDates` | data_processor.py:22-24 | every frame that loads has its dates in the `datetime64[ns]` range |
| `DateRange.LoadRowsParses` | data_processor.py:22-24 | the rows load exactly when every date text converts |
| `DateRange.EarlyDayFailsToLoad` | data_processor.py:22-24 | a row dated 1500-01-01 does not load |
| `DateRange.DownloadLoadsAscending` | data_processor.py:233-240 | reloading the downloaded file succeeds exactly when every downloaded date converts, always when both bounds lie in the `datetime64[ns]` range, and then has strictly ascending and so distinct dates |
| `DateRange.SpanLoads` | data_processor.py:224-240 | the rows fetched for a span load exactly when each converts, always when the span's ends lie in the range, and then ascend strictly |
| `DateRange.SpanRowsAscending` | data_processor.py:224-228 | the rows fetched for a span, loaded, have strictly ascending and distinct dates |
| `DateRange.SpanRowsStamp` | data_processor.py:224-228 | when a span's ends lie in the `datetime64[ns]` range, every fetched row's date converts |
| `DateRange.AscendingDistinct` | data_processor.py:240 | a strictly ascending series has distinct dates |
| `Iteration.Insert` | lab2_main.py:115 | inserting a row adds exactly that row |
| `Iteration.InsertSorted` | lab2_main.py:115 | inserting into a date-sorted sequence keeps it sorted |
| `Iteration.SortByDate` | lab2_main.py:115 | `sort_values("Date")`: sorted by date and a permutation of the rows |
| `Iteration.Init` | lab2_main.py:109-121 | position 0; the file's rows sorted by date, or an empty frame when reading fails |
| `Iteration.NextStep` | lab2_main.py:123-136 | `next` keeps the frame, hands out the row at the position and advances by one, or hands out nothing and stays exactly at the end |
| `Iteration.RunSpec` | lab2_main.py:123-136 | `n` calls from position `p` hand out rows `p, p+1, ...` while they last and then nothing; the position moves by the number of rows handed out |
| `Iteration.RunAscending` | lab2_main.py:123-136 | over a sorted frame the handed-out rows come in date order |
| `Iteration.ExhaustedStays` | lab2_main.py:125-126 | at the end, every call returns nothing and the cursor stays put |
| `Iteration.ResetReplays` | lab2_main.py:138-141 | after `reset` the first row comes again and `n` calls replay `min(n, rows)` rows |
| `Iteration.IteratorWalksSorted` | lab2_main.py:109-145 | a fresh iterator hands out the sorted rows of its file in order, each once, then nothing |
| `Statistics.Present` | data_analysis.py:73-74 | the non-missing values, exactly those present in the column |
| `Statistics.NaNCount` | data_analysis.py:44 | `isnull().sum()`: missing and present values add up to the column; zero exactly when none is missing |
| `Statistics.SumAppend` | data_analysis.py:74 | the sum of a concatenation is the sum of the sums |
| `Statistics.MeanOf` | data_analysis.py:74 | the mean times the count is the sum |
| `Statistics.Mean` | data_analysis.py:74 | `mean()` skips missing values and is missing exactly when no value is present |
| `Statistics.MeanBounds` | data_analysis.py:74 | the mean lies within any bounds of the present values |
| `Statistics.SumShift` | data_analysis.py:81 | subtracting `c` from each value subtracts `count * c` from the sum |
| `Statistics.DeviationsFromMeanSumToZero` | data_analysis.py:81 | the deviations from the mean sum to zero |
| `Statistics.Minus` | data_analysis.py:80-81 | a difference is missing exactly when an operand is |
| `Statistics.AbsRate` | data_analysis.py:82-83 | `abs`: missing exactly when the input is; otherwise non-negative and the value or its negation |
| `Statistics.PresentMinus` | data_analysis.py:81 | the present deviations are the present values shifted by the mean |
| `Statistics.MinRate` | data_analysis.py:187 | `min()`: a present value no greater than any present value, missing exactly when none is present |
| `Statistics.MaxRate` | data_analysis.py:187 | `max()`: a present value no smaller than any present value, missing exactly when none is present |
| `Statistics.InsertReal` | data_analysis.py:56 | inserting a value adds exactly that value |
| `Statistics.InsertRealSorted` | data_analysis.py:56 | inserting into a sorted sequence keeps it sorted |
| `Statistics.SortReals` | data_analysis.py:56 | sorting gives a sorted permutation |
| `Statistics.SortedUnique` | data_analysis.py:56 | two sorted permutations of the same values are equal |
| `Statistics.Median` | data_analysis.py:56 | `median()` is missing exactly when no value is present |
| `Statistics.MedianPermutation` | data_analysis.py:73 | the median depends only on the multiset of present values, not their order |
| `Statistics.MedianBounds` | data_analysis.py:187 | the median lies between the minimum and the maximum |
| `Statistics.CountPermutation` | data_analysis.py:73 | counting values with a property does not depend on their order |
| `Statistics.MedianSplitsInHalf` | data_analysis.py:73 | at least half the present values are at most the median and at least half are at least it |
| `Analyzer.NormalizeNameAt` | data_analysis.py:25 | each character is lowered, and a space becomes `_` |
| `Analyzer.NormalizeName` | data_analysis.py:25 | normalising keeps the length |
| `Analyzer.NormalizeNameSpec` | data_analysis.py:25 | every result is normalised; a name is unchanged exactly when already normalised; normalising is idempotent |
| `Analyzer.StandardColumnNames` | data_analysis.py:25 | `Date` becomes `date` and `INR_Rate` becomes `inr_rate` |
| `Analyzer.NormalizeColumns` | data_analysis.py:25 | each column name is normalised in place |
| `Analyzer.NormalizeColumnsAppend` | data_analysis.py:25 | normalising commutes with concatenation |
| `Analyzer.ToRows` | data_analysis.py:22 | the copy keeps each row's date, rate and other cells, without deviations |
| `Analyzer.Prepare` | data_analysis.py:19-31 | no frame without a dataset; otherwise the normalised columns and the dataset's rows, in order |
| `Analyzer.RateValues` | data_analysis.py:55 | the `inr_rate` column, row by row |
| `Analyzer.DevValues` | data_analysis.py:188-189 | a deviation column, row by row |
| `Analyzer.Percent` | data_analysis.py:45 | `isnull().mean() * 100`: missing over no rows, otherwise from 0 to 100, 0 for no missing and 100 for all missing |
| `Analyzer.MissingStatsOf` | data_analysis.py:42-47 | one statistics row per column, in column order |
| `Analyzer.FillRates` | data_analysis.py:57 | each missing rate becomes the given value, every other row is unchanged |
| `Analyzer.MissingStatsSpec` | data_analysis.py:42-47 | per column: its name, a count no larger than the rows (for `inr_rate` the number of missing rates), a percentage missing over no rows and otherwise from 0 to 100 |
| `Analyzer.CompleteDataHasNoMissing` | data_analysis.py:42-47 | with no missing value every count is 0 and every percentage 0 (or undefined over no rows) |
| `Analyzer.FillSpec` | data_analysis.py:54-57 | the fill keeps columns, rows, dates and other cells, keeps present rates and replaces missing ones by the median |
| `Analyzer.FillLeavesNoneMissing` | data_analysis.py:55-57 | after the fill a rate is missing exactly when one was and none was present |
| `Analyzer.FillIdempotent` | data_analysis.py:33-62 | a second check leaves the frame as the first left it |
| `Analyzer.WithDeviations` | data_analysis.py:80-83 | each row gains its four deviation cells and keeps the rest |
| `Analyzer.AddColumns` | data_analysis.py:80-83 | assigning columns keeps the old ones in place and appends the new ones; reassigning changes no column list |
| `Analyzer.AddColumnsNoDuplicates` | data_analysis.py:80-83 | assigning columns never duplicates a name |
| `Analyzer.DeviationSpec` | data_analysis.py:64-91 | each row keeps its cells and gains the deviations from the median and the mean and their absolute values, each missing exactly when the rate or the statistic is |
| `Analyzer.DeviationColumnsSpec` | data_analysis.py:80-83 | the four deviation columns are added after the old ones, nothing else is added and no name is duplicated |
| `Analyzer.WithDeviationsRates` | data_analysis.py:80-83 | adding deviations keeps the rates |
| `Analyzer.AddDeviationColumnsIdempotent` | data_analysis.py:64-91 | computing the deviations twice is computing them once |
| `Analyzer.DeviationsFromMeanCancel` | data_analysis.py:81 | the present values of `deviation_from_mean` sum to zero |
| `Analyzer.KeepDeviating` | data_analysis.py:130-132 | the rows whose absolute deviation from the mean is at least the threshold, a missing cell comparing false |
| `Analyzer.KeepDeviatingAppend` | data_analysis.py:130-132 | filtering keeps the original row order |
| `Analyzer.FilterByDeviationSpec` | data_analysis.py:116-138 | no frame gives an empty frame; a missing `abs_deviation_from_mean` column raises; otherwise exactly the deviating rows under the same columns |
| `Analyzer.AsWrittenDividesByZero` | data_analysis.py:136 | as written, a frame with the deviation columns but no rows raises `ZeroDivisionError`; the guarded version returns the empty frame |
| `Analyzer.AsWrittenFailsOnHeaderOnlyDataset` | data_analysis.py:136 | a dataset file holding only its header reaches that division |
| `Analyzer.FilterByDeviationAgrees` | data_analysis.py:130-138 | everywhere else the written and the guarded filter agree |
| `Analyzer.KeepBetween` | data_analysis.py:159-160 | exactly the rows dated from `start` to `end`, both included |
| `Analyzer.KeepBetweenAppend` | data_analysis.py:159-160 | the kept rows keep their order |
| `Analyzer.FilterByDateRangeSpec` | data_analysis.py:140-169 | bounds written as dates in the `datetime64[ns]` range keep the columns and exactly the rows between them; a bound outside it gives the empty frame |
| `Analyzer.KeepBetweenSlice` | data_analysis.py:159-160 | when the rows in range are exactly a slice, the filter returns that slice |
| `Analyzer.TenDaysBoundsParse` | data_analysis.py:156-157 | `2020-01-02` and `2020-01-05` convert to their dates |
| `Analyzer.TenDaysKeep` | data_analysis.py:159-160 | over ten consecutive days from 2020-01-01, the range 2020-01-02 to 2020-01-05 keeps the rows of those four days |
| `Analyzer.FilterByDateRangeTenDays` | data_analysis.py:140-165 | over ten consecutive days from 2020-01-01, filtering from 2020-01-02 to 2020-01-05 returns those four rows |
| `Analyzer.FilterByDateRangeInvalid` | data_analysis.py:167-169 | a bound `pd.to_datetime` rejects, unparsable or outside the `datetime64[ns]` range, gives the empty frame |
| `Analyzer.EarlyBoundGivesEmpty` | data_analysis.py:156-169 | a frame with a row dated 2000-01-01, filtered from `1500-01-01` to `2020-01-01`, gives the empty frame |
| `Analyzer.InvalidDateDoesNotParse` | data_analysis.py:156 | `invalid-date` does not parse |
| `Analyzer.PeriodOfKey` | data_analysis.py:180 | a month number gives back a valid month with that number |
| `Analyzer.PeriodKeyInjective` | data_analysis.py:180 | different months get different numbers |
| `Analyzer.PeriodTextInjective` | data_analysis.py:200 | different months print different `YYYY-MM` texts |
| `Analyzer.Summaries` | data_analysis.py:183-193 | one summary per month group, in group order |
| `Analyzer.GroupByMonthFrame` | data_analysis.py:171-206 | the frame gains `year_month` and keeps its rows and columns; the table fails exactly when a deviation column it aggregates is missing |
| `Analyzer.GroupByMonthCovers` | data_analysis.py:183-199 | every month with a row has its row in the table |
| `Analyzer.MonthTable` | data_analysis.py:183-199 | the table is the summaries of the month groups |
| `Analyzer.GroupByMonthRow` | data_analysis.py:183-193 | each table row is a valid month with rows, aggregating exactly that month's rows |
| `Analyzer.GroupByMonthAscending` | data_analysis.py:184 | the table is in strictly ascending month order, so no month appears twice |
| `Analyzer.MonthRowBounds` | data_analysis.py:187 | per month, the mean and the median lie between the minimum and the maximum, and the mean is present exactly when the minimum is |
| `Analyzer.NoDatasetGivesEmptyResults` | data_analysis.py:35-37 | with no dataset every analysis returns an empty result and changes nothing |

## Left out

- Printing, logging, message boxes and the text of success and error
  dictionaries are left out; a refusal is a constructor of an error type.
- The annotation file's text, the per-file row counts it writes and its
  timestamp are left out. The file list and the refusal are modelled.
- The network is left out. `_get_inr_rate` is a parameter `fetch` from the
  archive path to an optional rate, so the `Nominal` division and the HTTP
  status handling sit behind it.
- `datetime.today()` is a parameter, and the time of day is dropped: every
  date is a calendar day.
- CSV text is left out: a file is what a reader finds in it (both columns,
  only `Date`, only `INR_Rate`, read but with no column a lookup can use, or
  a file on which `pd.read_csv` raises). Download writes and
  then reloads `dataset.csv`; the model keeps the written rows and their
  reload.
- Only `YYYY-MM-DD` bounds are parsed for `filter_by_date_range`.
  `pd.to_datetime` accepts many more formats; any other text counts as
  unparsable.
- Calendar.ParseDashed: states only that a parsed text prints back, not
  every text pandas would parse.
- A comparison value is a `Timestamp` or a bare `datetime.date`. A
  `Timestamp` equals the cells of its calendar day; a bare date equals no
  cell of a parsed `Date` column. Times of day are not modelled.
- After a reload that fails in `set_dataset_path`, the source keeps the
  unconverted frame (text dates) in `current_dataset`; the model keeps no
  frame then, because its rows hold only parsed days.
- The year lookups are proved for datasets whose dates lie in the
  `datetime64[ns]` range (`StampDates`), as every loaded frame's do; years
  below 1000, where `strftime("%Y")` and `f"{year}"` differ in width, do not
  occur in such a dataset.
- A single bound passed to `download_new_data` as a `datetime` would compare
  with the other bound's default; no caller does this, and the model takes a
  given bound to be the `datetime.date` the window passes.
- Glob metacharacters inside the data folder's path are not modelled. The
  folder may not mention a reserved name (`!MentionsReserved(dir)`), because
  the substring exclusion of `main_window.py` would then skip every file.
- Datasets without `Date` or `INR_Rate` columns, and extra columns whose
  normalised names clash with computed ones, are left out of the analysis.
- Exporter.SplitToXY: a loaded dataset always has both columns. A
  `dataset.csv` with only `Date` loads in the source, and then `split_to_xy`
  writes `X.csv` before failing on `INR_Rate`, and the year and week splits
  write `Date`-only files; a loaded dataset of the model cannot lack a column.
- Analyzer.MissingStatsSpec: counts missing values of the numeric columns
  only. `isnull()` also counts empty cells of extra text columns and
  unparsed dates, which the model's rows cannot hold.
- Writing the annotation file itself (`open(annotation_path, "w")`) is I/O
  and cannot fail in the model.
- `calculate_statistics`, `std`, `round(4)`, `describe`, the plots,
  `kurs`, `demonstrate_iterator` and `demonstrate_all_versions` are left
  out: floating point, plotting and demonstration code.
- Rates are exact reals, not floating point.
- Analyzer.NormalizeName: lowers ASCII letters only. Python's `str.lower`
  also folds other alphabets.
- The order of rows with equal dates after `sort_values` is not stated
  (pandas' default sort is not stable). `Iteration.SortByDate` states
  sortedness and permutation only.
- The iterator over a file with only a `Date` column (which raises on
  `next`) is not modelled: such a file reads as a failure at construction.
- The mutable `DataIterator` and `DataAnalyzer` objects are values passed
  from call to call. The in-place `fillna` is modelled as updating the
  working frame.
- The split methods' `output_path` argument is a parameter folder; file
  system errors during writing are not modelled.

## Findings

| source | as written | input that shows it | evidently intended | confidence | as-written member | corrected member |
|---|---|---|---|---|---|---|
| data_processor.py:165 | the `years` and `weeks` annotations keep only names with `len(f) == 16`, but every partition name `YYYYMMDD_YYYYMMDD.csv` has 21 characters | any non-empty dataset, e.g. one row dated 2020-01-01: the year split writes `20200101_20200101.csv` and the annotation lists no file | test for the partition names' length, 21, so that every written partition is listed | not executed | `Annotation.AsWrittenEmptyAfterSplit` | `Annotation.AnnotationListsPartitions` |
| main_window.py:458 | versions 1 to 3 of `search_data` compare the date widget's `QDate.toPython()`, a bare `datetime.date`, with a parsed `datetime64` column (main_window.py:381, 401, 420); pandas treats that comparison as unequal for every cell, so these versions find no day | a loaded one-row dataset dated 2020-03-02 with `X.csv`/`Y.csv` exported, search version 1 for 2020-03-02: the frame holds the day, the search shows nothing | convert the day with `pd.Timestamp` as version 0 does (data_processor.py:40), so that each version answers as the loaded frame | not executed | `PointQuery.BareDateFindsNothing` | `Agreement.AllLookupsAgree` |
| data_analysis.py:136 | the percentage line divides by `len(self.df)`, which raises `ZeroDivisionError` when the loaded frame has no rows | a `dataset.csv` holding only its header, after `add_deviation_columns`, with any threshold | report the (empty) filtered frame, with the percentage guarded | not executed | `Analyzer.AsWrittenFailsOnHeaderOnlyDataset` | `Analyzer.FilterByDeviationSpec` |
