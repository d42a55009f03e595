/** The dated series every layout is built from: rows of `(Date, INR_Rate)` plus
    whatever further columns the loaded CSV carried. */
module Records {
  import opened Wrappers
  import opened Calendar
  import opened IsoWeek
  import opened Grouping

  /** A value of the `INR_Rate` column; `NaN` is pandas' missing value. */
  datatype Rate = Amount(value: real) | NaN

  /** One CSV row: its `Date`, its `INR_Rate` and the cells of any other column. */
  datatype Record = Record(date: Date, rate: Rate, extra: seq<string>)

  /** The `Date` column. */
  function Dates(rs: seq<Record>): (ds: seq<Date>)
    ensures |ds| == |rs|
    ensures forall i :: 0 <= i < |rs| ==> ds[i] == rs[i].date
  {
    if rs == [] then [] else [rs[0].date] + Dates(rs[1..])
  }

  /** The `INR_Rate` column. */
  function Rates(rs: seq<Record>): (vs: seq<Rate>)
    ensures |vs| == |rs|
    ensures forall i :: 0 <= i < |rs| ==> vs[i] == rs[i].rate
  {
    if rs == [] then [] else [rs[0].rate] + Rates(rs[1..])
  }

  /** `df[df["Date"] == q]["INR_Rate"].iloc[0]`, with `None` for an empty match. */
  function FirstRate(rs: seq<Record>, q: Date): (r: Option<Rate>)
    ensures r.None? <==> forall i :: 0 <= i < |rs| ==> rs[i].date != q
    ensures r.Some? ==> exists i :: 0 <= i < |rs| && rs[i].date == q && rs[i].rate == r.value
                                    && forall j :: 0 <= j < i ==> rs[j].date != q
  {
    if rs == [] then None
    else if rs[0].date == q then Some(rs[0].rate)
    else
      var r := FirstRate(rs[1..], q);
      assert forall i :: 1 <= i < |rs| ==> rs[i] == rs[1..][i - 1];
      r
  }

  /** `mask.idxmax()` guarded by `mask.any()`: the first position holding `x`. */
  function FirstIndex<T(==)>(s: seq<T>, x: T): (r: Option<nat>)
    ensures r.None? <==> x !in s
    ensures r.Some? ==> r.value < |s| && s[r.value] == x && x !in s[..r.value]
  {
    if s == [] then None
    else if s[0] == x then Some(0)
    else
      match FirstIndex(s[1..], x)
      case None => None
      case Some(i) =>
        assert s[..i + 1] == [s[0]] + s[1..][..i];
        Some(i + 1)
  }

  /** The value a parsed `Date` column is compared with. pandas compares a
      `datetime64` column with a `Timestamp` or a `datetime` by value; a bare
      `datetime.date` (what `QDate.toPython()` returns) is no datetime scalar
      to it, so `column == value` is `False` in every row. */
  datatype DayValue = Stamp(day: Date) | BareDate(day: Date)

  /** `cell == v` for one cell of a parsed `Date` column. */
  predicate CellEquals(cell: Date, v: DayValue) {
    v.Stamp? && cell == v.day
  }

  /** `mask = column == v`, then `mask.idxmax()` guarded by `mask.any()`:
      the first position whose cell equals `v`. */
  function FirstMatch(ds: seq<Date>, v: DayValue): (r: Option<nat>)
    ensures r.None? <==> forall i :: 0 <= i < |ds| ==> !CellEquals(ds[i], v)
    ensures r.Some? ==> r.value < |ds| && CellEquals(ds[r.value], v)
                        && forall j :: 0 <= j < r.value ==> !CellEquals(ds[j], v)
  {
    match v
    case Stamp(d) =>
      var r := FirstIndex(ds, d);
      assert r.None? ==> forall i :: 0 <= i < |ds| ==> ds[i] in ds;
      assert r.Some? ==> forall j :: 0 <= j < r.value ==> ds[..r.value][j] == ds[j];
      r
    case BareDate(_) => None
  }

  /** `df[df["Date"] == v]["INR_Rate"].iloc[0]`, with `None` for an empty
      match. */
  function FirstRateAt(rs: seq<Record>, v: DayValue): (r: Option<Rate>)
    ensures r.None? <==> forall i :: 0 <= i < |rs| ==> !CellEquals(rs[i].date, v)
    ensures r.Some? ==> exists i :: 0 <= i < |rs| && CellEquals(rs[i].date, v) && rs[i].rate == r.value
                                    && forall j :: 0 <= j < i ==> !CellEquals(rs[j].date, v)
  {
    match v
    case Stamp(d) => FirstRate(rs, d)
    case BareDate(_) => None
  }

  /** Reading the rate column at the first position of the date column that
      holds `q` is the same as the first matching row's rate. */
  lemma {:induction false} FirstRateByIndex(rs: seq<Record>, q: Date)
    ensures FirstRate(rs, q) == match FirstIndex(Dates(rs), q)
                                case None => None
                                case Some(i) => Some(Rates(rs)[i])
  {
    var ds := Dates(rs);
    match FirstIndex(ds, q)
    case None =>
      assert forall i :: 0 <= i < |rs| ==> ds[i] in ds;
    case Some(i) =>
      var r := FirstRate(rs, q);
      assert forall j :: 0 <= j < i ==> ds[..i][j] == ds[j];
  }

  /** No two rows share a date. */
  predicate DistinctDates(rs: seq<Record>) {
    forall i, j :: 0 <= i < j < |rs| ==> rs[i].date != rs[j].date
  }

  /** Every date lies in the range of `datetime64[ns]`, as in any frame
      whose `Date` column `pd.to_datetime` converted. */
  predicate StampDates(rs: seq<Record>) {
    forall k :: 0 <= k < |rs| ==> InStampRange(rs[k].date)
  }

  /** Every row of `t` repeats the (date, rate) pair of some row of `rs`. */
  predicate SoundFor(t: seq<Record>, rs: seq<Record>) {
    forall j :: 0 <= j < |t| ==> exists i :: 0 <= i < |rs| && rs[i].date == t[j].date && rs[i].rate == t[j].rate
  }

  /** A file drawn from a series with distinct dates answers a query found in
      it with the series' own answer. */
  lemma SoundLookup(t: seq<Record>, rs: seq<Record>, q: Date)
    requires DistinctDates(rs) && SoundFor(t, rs)
    requires FirstRate(t, q).Some?
    ensures FirstRate(t, q) == FirstRate(rs, q)
  {
    var j :| 0 <= j < |t| && t[j].date == q && t[j].rate == FirstRate(t, q).value;
    var i :| 0 <= i < |rs| && rs[i].date == t[j].date && rs[i].rate == t[j].rate;
    var k :| 0 <= k < |rs| && rs[k].date == q && rs[k].rate == FirstRate(rs, q).value
             && forall m :: 0 <= m < k ==> rs[m].date != q;
    assert i == k;
  }

  /** A file drawn from `rs` holds no date `rs` lacks. */
  lemma SoundMiss(t: seq<Record>, rs: seq<Record>, q: Date)
    requires SoundFor(t, rs)
    requires FirstRate(rs, q).None?
    ensures FirstRate(t, q).None?
  {
    forall j | 0 <= j < |t|
      ensures t[j].date != q
    {
      var i :| 0 <= i < |rs| && rs[i].date == t[j].date && rs[i].rate == t[j].rate;
    }
  }

  /** `group[["Date", "INR_Rate"]]`: the rows without their other columns. */
  function Project(rs: seq<Record>): (p: seq<Record>)
    ensures |p| == |rs|
    ensures forall i :: 0 <= i < |rs| ==> p[i] == Record(rs[i].date, rs[i].rate, [])
  {
    if rs == [] then [] else [Record(rs[0].date, rs[0].rate, [])] + Project(rs[1..])
  }

  /** `group["Date"].min()`. */
  function Earliest(rs: seq<Record>): (d: Date)
    requires |rs| > 0
    ensures exists i :: 0 <= i < |rs| && rs[i].date == d
    ensures forall i :: 0 <= i < |rs| ==> Le(d, rs[i].date)
  {
    if |rs| == 1 then rs[0].date
    else
      var d := Earliest(rs[1..]);
      assert forall i :: 1 <= i < |rs| ==> rs[i] == rs[1..][i - 1];
      LeTotal(rs[0].date, d);
      forall i | 1 <= i < |rs| ensures Le(rs[0].date, d) ==> Le(rs[0].date, rs[i].date) {
        if Le(rs[0].date, d) {
          LeTransitive(rs[0].date, d, rs[i].date);
        }
      }
      if Le(rs[0].date, d) then rs[0].date else d
  }

  /** `group["Date"].max()`. */
  function Latest(rs: seq<Record>): (d: Date)
    requires |rs| > 0
    ensures exists i :: 0 <= i < |rs| && rs[i].date == d
    ensures forall i :: 0 <= i < |rs| ==> Le(rs[i].date, d)
  {
    if |rs| == 1 then rs[0].date
    else
      var d := Latest(rs[1..]);
      assert forall i :: 1 <= i < |rs| ==> rs[i] == rs[1..][i - 1];
      LeTotal(rs[0].date, d);
      forall i | 1 <= i < |rs| ensures Le(d, rs[0].date) ==> Le(rs[i].date, rs[0].date) {
        if Le(d, rs[0].date) {
          LeTransitive(rs[i].date, d, rs[0].date);
        }
      }
      if Le(d, rs[0].date) then rs[0].date else d
  }

  /** The rows dated within [lo, hi], in their original order. */
  function Window(rs: seq<Record>, lo: Date, hi: Date): (w: seq<Record>)
    ensures forall x :: x in w <==> x in rs && Le(lo, x.date) && Le(x.date, hi)
  {
    if rs == [] then []
    else (if Le(lo, rs[0].date) && Le(rs[0].date, hi) then [rs[0]] else []) + Window(rs[1..], lo, hi)
  }

  /** `df["Date"].dt.year`. */
  function YearOf(r: Record): int {
    r.date.year
  }

  /** The ISO (year, week) of a row, the integer form of the `YearWeek` key. */
  function WeekOf(r: Record): int {
    IsoKey(r.date)
  }

  /** A grouping key that never decreases along the calendar. */
  ghost predicate DateMonotone(key: Record -> int) {
    forall a: Record, b: Record :: Le(a.date, b.date) ==> key(a) <= key(b)
  }

  lemma YearOfMonotone()
    ensures DateMonotone(YearOf)
  {
  }

  lemma WeekOfMonotone()
    ensures DateMonotone(WeekOf)
  {
    forall a: Record, b: Record | Le(a.date, b.date)
      ensures WeekOf(a) <= WeekOf(b)
    {
      IsoKeyMonotone(a.date, b.date);
    }
  }

  /** Two filters that agree on every element of `s` select the same rows. */
  lemma {:induction false} SelectIsWindowOn(s: seq<Record>, key: Record -> int, k: int, lo: Date, hi: Date)
    requires forall x :: x in s ==> (key(x) == k <==> Le(lo, x.date) && Le(x.date, hi))
    ensures Select(s, key, k) == Window(s, lo, hi)
  {
    if s != [] {
      assert forall x :: x in s[1..] ==> x in s;
      SelectIsWindowOn(s[1..], key, k, lo, hi);
    }
  }

  /** A group of a date-monotone key is exactly the run of rows between its
      earliest and its latest date: no other row lies in that span. */
  lemma GroupIsWindow(rs: seq<Record>, key: Record -> int, k: int)
    requires DateMonotone(key)
    requires |Select(rs, key, k)| > 0
    ensures var g := Select(rs, key, k);
      Select(rs, key, k) == Window(rs, Earliest(g), Latest(g))
  {
    var g := Select(rs, key, k);
    var lo, hi := Earliest(g), Latest(g);
    var a :| 0 <= a < |g| && g[a].date == lo;
    var b :| 0 <= b < |g| && g[b].date == hi;
    assert g[a] in g && g[b] in g;
    forall x | x in rs
      ensures key(x) == k <==> Le(lo, x.date) && Le(x.date, hi)
    {
      if key(x) == k {
        assert x in g;
        var j :| 0 <= j < |g| && g[j] == x;
      }
      if Le(lo, x.date) && Le(x.date, hi) {
        assert key(g[a]) <= key(x) <= key(g[b]);
      }
    }
    SelectIsWindowOn(rs, key, k, lo, hi);
  }

  /** The rows of any subsequence-by-filter of `rs` repeat rows of `rs`. */
  lemma MembersSound(t: seq<Record>, rs: seq<Record>)
    requires forall x :: x in t ==> x in rs
    ensures SoundFor(t, rs)
    ensures SoundFor(Project(t), rs)
  {
    forall j | 0 <= j < |t|
      ensures exists i :: 0 <= i < |rs| && rs[i].date == t[j].date && rs[i].rate == t[j].rate
    {
      assert t[j] in t;
      var i :| 0 <= i < |rs| && rs[i] == t[j];
      assert rs[i].date == t[j].date && rs[i].rate == t[j].rate;
    }
    var p := Project(t);
    forall j | 0 <= j < |p|
      ensures exists i :: 0 <= i < |rs| && rs[i].date == p[j].date && rs[i].rate == p[j].rate
    {
      assert p[j].date == t[j].date && p[j].rate == t[j].rate;
    }
  }

  /** Dropping the other columns twice is dropping them once. */
  lemma ProjectIdempotent(rs: seq<Record>)
    ensures Project(Project(rs)) == Project(rs)
  {
  }

  /** A lookup reads only `Date` and `INR_Rate`, so dropping the other columns
      does not change its answer. */
  lemma {:induction false} FirstRateProject(rs: seq<Record>, q: Date)
    ensures FirstRate(Project(rs), q) == FirstRate(rs, q)
  {
    if rs != [] {
      assert Project(rs)[1..] == Project(rs[1..]);
      FirstRateProject(rs[1..], q);
    }
  }
}
