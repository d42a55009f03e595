/** The four "search by date" versions: the loaded frame or a single CSV
    (version 0), the `X.csv`/`Y.csv` pair (version 1), the year files (version
    2) and the week files (version 3), in both the console (`lab2_main.py`)
    and the GUI (`main_window.py`) spellings, and the GUI's dispatch. */
module PointQuery {
  import opened Wrappers
  import opened Text
  import opened Calendar
  import opened Records
  import opened Folder
  import opened Exporter

  /** `DataProcessor.get_data_by_date`: the first loaded row dated `q`. */
  function GetDataByDate(current: Option<seq<Record>>, q: Date): (r: Option<Rate>)
    ensures r.None? <==> current.None? || forall i :: 0 <= i < |current.value| ==> current.value[i].date != q
    ensures r.Some? ==> exists i :: 0 <= i < |current.value| && current.value[i].date == q
                                    && current.value[i].rate == r.value
                                    && forall j :: 0 <= j < i ==> current.value[j].date != q
  {
    match current
    case None => None
    case Some(rs) => FirstRate(rs, q)
  }

  /** `get_data_single_file`: the first row dated `q` of one CSV, `None` when
      the file is missing, unreadable, or lacks a needed column. */
  function SingleFile(f: Folder, name: string, q: Date): (r: Option<Rate>)
    ensures r.Some? <==> name in f && f[name].Table? && FirstRate(f[name].records, q).Some?
    ensures r.Some? ==> r == FirstRate(f[name].records, q)
  {
    match ProbeFile(f, name, Stamp(q))
    case Hit(v) => Some(v)
    case Miss => None
    case Fail => None
  }

  /** The `Date` column of a file, when it has one. */
  function DatesOf(c: CsvFile): (r: Option<seq<Date>>)
    ensures c.Table? ==> r == Some(Dates(c.records))
    ensures c.DateColumn? ==> r == Some(c.dates)
    ensures (c.RateColumn? || c.Unusable? || c.Unreadable?) ==> r.None?
  {
    match c
    case Table(rs) => Some(Dates(rs))
    case DateColumn(ds) => Some(ds)
    case RateColumn(_) => None
    case Unusable => None
    case Unreadable => None
  }

  /** The `INR_Rate` column of a file, when it has one. */
  function RatesOf(c: CsvFile): (r: Option<seq<Rate>>)
    ensures c.Table? ==> r == Some(Rates(c.records))
    ensures c.RateColumn? ==> r == Some(c.rates)
    ensures (c.DateColumn? || c.Unusable? || c.Unreadable?) ==> r.None?
  {
    match c
    case Table(rs) => Some(Rates(rs))
    case DateColumn(_) => None
    case RateColumn(vs) => Some(vs)
    case Unusable => None
    case Unreadable => None
  }

  /** `get_data_xy_files` / `_get_data_xy_files`: both files are read first; the
      first position of `X.csv`'s dates whose cell equals `v` indexes `Y.csv`'s
      rates. A missing or unreadable file, a missing column, or a position past
      the end of `Y.csv` raises and gives `None`. */
  function XYLookup(f: Folder, v: DayValue): (r: Option<Rate>)
    ensures r.Some? ==> (
      && XName in f && YName in f && DatesOf(f[XName]).Some? && RatesOf(f[YName]).Some?
      && exists i :: 0 <= i < |DatesOf(f[XName]).value| && i < |RatesOf(f[YName]).value|
                     && CellEquals(DatesOf(f[XName]).value[i], v)
                     && (forall j :: 0 <= j < i ==> !CellEquals(DatesOf(f[XName]).value[j], v))
                     && RatesOf(f[YName]).value[i] == r.value)
    ensures XName in f && DatesOf(f[XName]).Some?
            && (forall i :: 0 <= i < |DatesOf(f[XName]).value| ==> !CellEquals(DatesOf(f[XName]).value[i], v))
            ==> r.None?
  {
    if XName !in f || YName !in f || f[YName].Unreadable? then None
    else match DatesOf(f[XName])
      case None => None
      case Some(ds) =>
        match FirstMatch(ds, v)
        case None => None
        case Some(i) =>
          match RatesOf(f[YName])
          case None => None
          case Some(vs) => if i < |vs| then Some(vs[i]) else None
  }

  /** `f"{year}0101_{year}1231.csv"`, the name a full calendar year's file
      would get. */
  function NominalYearName(year: nat): string {
    NatToString(year) + "0101_" + NatToString(year) + "1231.csv"
  }

  /** The nominal name is picked up by the year's glob and mentions no reserved
      name. */
  lemma NominalYearNameShape(year: nat)
    ensures MatchesYearGlob(NominalYearName(year), year)
    ensures !MentionsReserved(NominalYearName(year))
  {
    var p := NatToString(year);
    var n := NominalYearName(year);
    assert n[..|p|] == p;
    assert n[|n| - 4..] == ".csv";
    assert forall k :: 0 <= k < |n| ==> n[k] != 'X' && n[k] != 'Y' && n[k] != 'd' by {
      forall k | 0 <= k < |n|
        ensures n[k] != 'X' && n[k] != 'Y' && n[k] != 'd'
      {
        if k < |p| {
          assert n[k] == p[k];
        } else if k < |p| + 5 {
          assert n[k] == "0101_"[k - |p|];
        } else if k < 2 * |p| + 5 {
          assert n[k] == p[k - |p| - 5];
        } else {
          assert n[k] == "1231.csv"[k - 2 * |p| - 5];
        }
      }
    }
    AbsentFirstChar(n, XName);
    AbsentFirstChar(n, YName);
    AbsentFirstChar(n, DatasetName);
  }

  /** Some file `n` the lookup may read (listed, or the nominal year file)
      answered `r` for the value `v`. */
  ghost predicate AnsweredBy(f: Folder, n: string, v: DayValue, r: Option<Rate>) {
    n in f && f[n].Table? && r.Some? && FirstRateAt(f[n].records, v) == r
  }

  /** A hit of a scan names a listed file that passed the glob and the
      exclusion. */
  lemma ScanHit(f: Folder, listing: seq<string>, names: seq<string>, ex: Exclusion, v: DayValue)
    requires forall n :: n in names ==> n in listing
    ensures Scan(f, names, ex, v).Some? ==>
      exists n :: n in names && n in listing && !Excluded(ex, n) && AnsweredBy(f, n, v, Scan(f, names, ex, v))
  {
    var r := Scan(f, names, ex, v);
    if r.Some? {
      var k :| 0 <= k < |names| && !Excluded(ex, names[k]) && ProbeFile(f, names[k], v) == Hit(r.value);
      assert names[k] in names;
    }
  }

  /** `get_data_year_files`: the nominal year file first, if it exists (a
      match answers, a read or column error gives `None`, no match falls
      through), then every listed `{year}*.csv` whose name mentions no reserved
      name. */
  function Lab2YearLookup(f: Folder, listing: seq<string>, q: Date): (r: Option<Rate>)
    ensures r.Some? ==> exists n :: MatchesYearGlob(n, q.year) && !MentionsReserved(n)
                                    && (n in listing || n == NominalYearName(q.year)) && AnsweredBy(f, n, Stamp(q), r)
  {
    var nominal := NominalYearName(q.year);
    var first := if nominal in f then ProbeFile(f, nominal, Stamp(q)) else Miss;
    match first
    case Hit(v) =>
      NominalYearNameShape(q.year);
      assert AnsweredBy(f, nominal, Stamp(q), Some(v));
      Some(v)
    case Fail => None
    case Miss =>
      var names := GlobYear(listing, q.year);
      var r := Scan(f, names, NameSubstring, Stamp(q));
      ScanHit(f, listing, names, NameSubstring, Stamp(q));
      r
  }

  /** `_get_data_year_files`: every listed `{year}*.csv` whose joined path
      mentions no reserved name. */
  function MainYearLookup(f: Folder, dir: string, listing: seq<string>, v: DayValue): (r: Option<Rate>)
    ensures r.Some? ==> exists n :: n in listing && MatchesYearGlob(n, v.day.year) && !MentionsReserved(Join(dir, n))
                                    && AnsweredBy(f, n, v, r)
  {
    var names := GlobYear(listing, v.day.year);
    var r := Scan(f, names, PathSubstring(dir), v);
    ScanHit(f, listing, names, PathSubstring(dir), v);
    r
  }

  /** `get_data_week_files`: every listed `*_*.csv` other than the reserved
      names themselves. */
  function Lab2WeekLookup(f: Folder, listing: seq<string>, q: Date): (r: Option<Rate>)
    ensures r.Some? ==> exists n :: n in listing && MatchesWeekGlob(n) && !IsReservedName(n) && AnsweredBy(f, n, Stamp(q), r)
  {
    var names := GlobWeek(listing);
    var r := Scan(f, names, ExactName, Stamp(q));
    ScanHit(f, listing, names, ExactName, Stamp(q));
    r
  }

  /** `_get_data_week_files`: every listed `*_*.csv` whose joined path mentions
      no reserved name. */
  function MainWeekLookup(f: Folder, dir: string, listing: seq<string>, v: DayValue): (r: Option<Rate>)
    ensures r.Some? ==> exists n :: n in listing && MatchesWeekGlob(n) && !MentionsReserved(Join(dir, n))
                                    && AnsweredBy(f, n, v, r)
  {
    var names := GlobWeek(listing);
    var r := Scan(f, names, PathSubstring(dir), v);
    ScanHit(f, listing, names, PathSubstring(dir), v);
    r
  }

  /** What `search_data` shows: a warning when nothing is loaded, otherwise the
      chosen version's answer (`None` for an index outside 0..3). */
  datatype SearchOutcome = NotLoadedWarning | Answer(rate: Option<Rate>)

  /** `MainWindow.search_data`: the version index picks the lookup; every
      lookup reads the folder of the loaded dataset. The selected day reaches
      versions 1 to 3 as the comparison value `v`; version 0 converts it with
      `pd.Timestamp` first. The window passes `QDate.toPython()`, a bare
      date: `SearchData(..., BareDate(q))`. */
  function SearchData(current: Option<seq<Record>>, f: Folder, dir: string, listing: seq<string>,
                      version: int, v: DayValue): (r: SearchOutcome)
    ensures r.NotLoadedWarning? <==> current.None?
    ensures current.Some? && version == 0 ==> r == Answer(GetDataByDate(current, v.day))
    ensures current.Some? && version == 1 ==> r == Answer(XYLookup(f, v))
    ensures current.Some? && version == 2 ==> r == Answer(MainYearLookup(f, dir, listing, v))
    ensures current.Some? && version == 3 ==> r == Answer(MainWeekLookup(f, dir, listing, v))
    ensures current.Some? && !(0 <= version <= 3) ==> r == Answer(None)
  {
    if current.None? then NotLoadedWarning
    else if version == 0 then Answer(GetDataByDate(current, v.day))
    else if version == 1 then Answer(XYLookup(f, v))
    else if version == 2 then Answer(MainYearLookup(f, dir, listing, v))
    else if version == 3 then Answer(MainWeekLookup(f, dir, listing, v))
    else Answer(None)
  }

  /** As the window is written, versions 1 to 3 never find a day: the bare
      date equals no cell of a parsed `Date` column, whatever the folder
      holds. */
  lemma BareDateFindsNothing(current: Option<seq<Record>>, f: Folder, dir: string, listing: seq<string>,
                             version: int, q: Date)
    requires current.Some? && 1 <= version <= 3
    ensures SearchData(current, f, dir, listing, version, BareDate(q)) == Answer(None)
  {
  }

  /** A loaded one-row dataset exported as `X.csv`/`Y.csv`: the loaded frame
      and the X/Y files both hold the day when it is compared as a
      `Timestamp`, but the window's version 1, given the bare date, answers
      `None`. */
  lemma BareDateMissesLoadedDay()
    ensures var d, rate := CivilDate(2020, 3, 2), Amount(1.5);
      var rs := [Record(d, rate, [])];
      var f := map[DatasetName := Table(rs), XName := DateColumn([d]), YName := RateColumn([rate])];
      && GetDataByDate(Some(rs), d) == Some(rate)
      && SearchData(Some(rs), f, "", [], 0, BareDate(d)) == Answer(Some(rate))
      && SearchData(Some(rs), f, "", [], 1, Stamp(d)) == Answer(Some(rate))
      && SearchData(Some(rs), f, "", [], 1, BareDate(d)) == Answer(None)
  {
    var d, rate := CivilDate(2020, 3, 2), Amount(1.5);
    var rs := [Record(d, rate, [])];
    var f := map[DatasetName := Table(rs), XName := DateColumn([d]), YName := RateColumn([rate])];
    assert FirstMatch([d], Stamp(d)) == Some(0);
    BareDateFindsNothing(Some(rs), f, "", [], 1, d);
  }
}
