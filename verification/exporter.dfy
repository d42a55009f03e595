/** `DataProcessor.split_to_xy`, `split_by_years` and `split_by_weeks`: the loaded
    series written out as an X/Y pair, as one file per calendar year, or as one
    file per ISO week; plus the counting week split of `lab2_main.py`. */
module Exporter {
  import opened Wrappers
  import opened Text
  import opened Calendar
  import opened IsoWeek
  import opened Grouping
  import opened Records
  import opened Folder

  /** `{"error": "Данные не загружены"}`: no dataset is loaded. */
  datatype ExportError = NotLoaded

  /** The `files` list of the success dictionary and the directory afterwards;
      the message's count is `|files|`. */
  datatype Export = Export(files: seq<string>, folder: Folder)

  /** A character a partition name is made of. */
  predicate NameChar(c: char) {
    IsDigit(c) || c == '_' || c == '.' || c == 'c' || c == 's' || c == 'v'
  }

  /** `f"{start:%Y%m%d}_{end:%Y%m%d}.csv"`. */
  function PartitionName(lo: Date, hi: Date): string {
    Ymd(lo) + "_" + Ymd(hi) + ".csv"
  }

  /** A partition name is 21 characters long, an underscore in the middle, and
      its two digit runs read back as the span's dates. */
  lemma PartitionNameShape(lo: Date, hi: Date)
    ensures var n := PartitionName(lo, hi);
      && |n| == 21 && n[8] == '_' && n[0] != '.'
      && StartsWith(n, Ymd(lo)) && EndsWith(n, ".csv")
      && (forall k :: 0 <= k < |n| ==> NameChar(n[k]))
      && ParseYmd(n[..8]) == lo && ParseYmd(n[9..17]) == hi
  {
    var n := PartitionName(lo, hi);
    assert n[..8] == Ymd(lo) && n[9..17] == Ymd(hi) && n[17..] == ".csv";
  }

  /** Different spans get different names. */
  lemma PartitionNameInjective(lo1: Date, hi1: Date, lo2: Date, hi2: Date)
    requires PartitionName(lo1, hi1) == PartitionName(lo2, hi2)
    ensures lo1 == lo2 && hi1 == hi2
  {
    PartitionNameShape(lo1, hi1);
    PartitionNameShape(lo2, hi2);
  }

  lemma PartitionNamesDiffer(lo1: Date, hi1: Date, lo2: Date, hi2: Date)
    requires lo1 != lo2 || hi1 != hi2
    ensures PartitionName(lo1, hi1) != PartitionName(lo2, hi2)
  {
    var n1, n2 := PartitionName(lo1, hi1), PartitionName(lo2, hi2);
    PartitionNameShape(lo1, hi1);
    PartitionNameShape(lo2, hi2);
    assert n1[..8] != n2[..8] || n1[9..17] != n2[9..17];
  }

  /** No partition name is, or contains, a reserved name. */
  lemma PartitionNameClear(lo: Date, hi: Date, dir: string)
    requires !MentionsReserved(dir)
    ensures !IsReservedName(PartitionName(lo, hi))
    ensures !MentionsReserved(PartitionName(lo, hi))
    ensures !MentionsReserved(Join(dir, PartitionName(lo, hi)))
  {
    var n := PartitionName(lo, hi);
    PartitionNameShape(lo, hi);
    assert forall k :: 0 <= k < |n| ==> n[k] != 'X' && n[k] != 'Y' && n[k] != 'd';
    AbsentFirstChar(n, XName);
    AbsentFirstChar(n, YName);
    AbsentFirstChar(n, DatasetName);
    JoinClear(dir, n);
  }

  /** The name a group is written under. */
  function GroupName(g: seq<Record>): string
    requires |g| > 0
  {
    PartitionName(Earliest(g), Latest(g))
  }

  /** What a partition file holds: the whole rows (years) or only `Date` and
      `INR_Rate` (weeks). */
  function Content(g: seq<Record>, keepAll: bool): seq<Record> {
    if keepAll then g else Project(g)
  }

  predicate NonEmptyGroups(gs: seq<Group<Record>>) {
    forall i :: 0 <= i < |gs| ==> |gs[i].members| > 0
  }

  function GroupNames(gs: seq<Group<Record>>): (ns: seq<string>)
    requires NonEmptyGroups(gs)
    ensures |ns| == |gs|
    ensures forall i :: 0 <= i < |gs| ==> ns[i] == GroupName(gs[i].members)
  {
    if gs == [] then [] else [GroupName(gs[0].members)] + GroupNames(gs[1..])
  }

  /** What `group.to_csv(os.path.join(path, filename))` puts in each file. */
  function GroupContents(gs: seq<Group<Record>>, keepAll: bool): (cs: seq<CsvFile>)
    ensures |cs| == |gs|
    ensures forall i :: 0 <= i < |gs| ==> cs[i] == Table(Content(gs[i].members, keepAll))
  {
    if gs == [] then [] else [Table(Content(gs[0].members, keepAll))] + GroupContents(gs[1..], keepAll)
  }

  /** The groups of a date-determined key get pairwise different names: two
      groups named alike would share their earliest date, hence their key. */
  lemma GroupNamesDistinct(rs: seq<Record>, key: Record -> int)
    requires DateMonotone(key)
    ensures NonEmptyGroups(GroupBy(rs, key))
    ensures Distinct(GroupNames(GroupBy(rs, key)))
  {
    var gs := GroupBy(rs, key);
    GroupBySpec(rs, key);
    forall i, j | 0 <= i < j < |gs|
      ensures GroupNames(gs)[i] != GroupNames(gs)[j]
    {
      var gi, gj := gs[i].members, gs[j].members;
      var a :| 0 <= a < |gi| && gi[a].date == Earliest(gi);
      var b :| 0 <= b < |gj| && gj[b].date == Earliest(gj);
      assert gi[a] in gi && gj[b] in gj;
      assert key(gi[a]) < key(gj[b]);
      assert Earliest(gi) != Earliest(gj);
      PartitionNamesDiffer(Earliest(gi), Latest(gi), Earliest(gj), Latest(gj));
    }
  }

  /** The shared body of the year and week splits. */
  function Partition(rs: seq<Record>, f: Folder, key: Record -> int, keepAll: bool): (e: Export)
    ensures |e.files| == |GroupBy(rs, key)|
  {
    var gs := GroupBy(rs, key);
    GroupBySpec(rs, key);
    Export(GroupNames(gs), WriteAll(f, GroupNames(gs), GroupContents(gs, keepAll)))
  }

  /** `split_to_xy`: `X.csv` holds the `Date` column and `Y.csv` the `INR_Rate`
      column. */
  function SplitToXY(current: Option<seq<Record>>, f: Folder): (r: Result<Export, ExportError>)
    ensures r.Failure? <==> current.None?
    ensures r.Success? ==> r.value.files == [XName, YName]
  {
    match current
    case None => Failure(NotLoaded)
    case Some(rs) => Success(Export([XName, YName], f[XName := DateColumn(Dates(rs))][YName := RateColumn(Rates(rs))]))
  }

  /** `split_by_years`: one file per calendar year present. */
  function SplitByYears(current: Option<seq<Record>>, f: Folder): (r: Result<Export, ExportError>)
    ensures r.Failure? <==> current.None?
  {
    match current
    case None => Failure(NotLoaded)
    case Some(rs) =>
      Success(Partition(rs, f, YearOf, true))
  }

  /** `split_by_weeks`: one file per ISO week present, `Date` and `INR_Rate`
      only. */
  function SplitByWeeks(current: Option<seq<Record>>, f: Folder): (r: Result<Export, ExportError>)
    ensures r.Failure? <==> current.None?
  {
    match current
    case None => Failure(NotLoaded)
    case Some(rs) =>
      Success(Partition(rs, f, WeekOf, false))
  }

  /** Pairing `X.csv` and `Y.csv` row by row gives back the dataset's (date,
      rate) pairs in order, and nothing but those two files changes. */
  lemma SplitToXYAligned(rs: seq<Record>, f: Folder)
    ensures var w := SplitToXY(Some(rs), f).value.folder;
      && XName in w && YName in w
      && w[XName].DateColumn? && w[YName].RateColumn?
      && |w[XName].dates| == |w[YName].rates| == |rs|
      && (forall i :: 0 <= i < |rs| ==> w[XName].dates[i] == rs[i].date && w[YName].rates[i] == rs[i].rate)
      && (forall n :: n != XName && n != YName ==> (n in w <==> n in f) && (n in f ==> w[n] == f[n]))
  {
  }

  /** How row `x` appears in a partition file. */
  function Row(x: Record, keepAll: bool): Record {
    if keepAll then x else Record(x.date, x.rate, [])
  }

  /** File `i` of an export holds row `x`. */
  predicate HoldsRow(e: Export, i: int, x: Record, keepAll: bool)
    requires 0 <= i < |e.files|
  {
    e.files[i] in e.folder && e.folder[e.files[i]].Table? && Row(x, keepAll) in e.folder[e.files[i]].records
  }

  /** A row shown in a group's content shares its date with a member. */
  lemma ContentDate(g: seq<Record>, keepAll: bool, x: Record)
    requires Row(x, keepAll) in Content(g, keepAll)
    ensures exists y :: y in g && y.date == x.date
  {
    var c := Content(g, keepAll);
    var k :| 0 <= k < |c| && c[k] == Row(x, keepAll);
    assert g[k] in g;
  }

  /** Every written file is the content of one non-empty group, under that
      group's span name. */
  ghost predicate FilesAreGroups(e: Export, rs: seq<Record>, key: Record -> int, keepAll: bool) {
    forall i :: 0 <= i < |e.files| ==> FileIsGroup(e, i, rs, key, keepAll)
  }

  /** File `i` holds the content of the non-empty group of some key value,
      under that group's span name. */
  ghost predicate FileIsGroup(e: Export, i: int, rs: seq<Record>, key: Record -> int, keepAll: bool)
    requires 0 <= i < |e.files|
  {
    && e.files[i] in e.folder
    && exists k :: |Select(rs, key, k)| > 0 && e.files[i] == GroupName(Select(rs, key, k))
                   && e.folder[e.files[i]] == Table(Content(Select(rs, key, k), keepAll))
  }

  predicate FilesDistinct(e: Export) {
    forall i, j :: 0 <= i < j < |e.files| ==> e.files[i] != e.files[j]
  }

  /** Every row of `rs` is held by exactly one written file. */
  ghost predicate EachRowOnce(e: Export, rs: seq<Record>, keepAll: bool) {
    && (forall x :: x in rs ==> exists i :: 0 <= i < |e.files| && HoldsRow(e, i, x, keepAll))
    && (forall x, i, j ::
          (x in rs && 0 <= i < |e.files| && 0 <= j < |e.files| && HoldsRow(e, i, x, keepAll) && HoldsRow(e, j, x, keepAll))
          ==> i == j)
  }

  /** Names the export did not write are as they were. */
  ghost predicate OthersUnchanged(e: Export, f: Folder) {
    forall n :: n !in e.files ==> (n in e.folder <==> n in f) && (n in f ==> e.folder[n] == f[n])
  }

  /** File `i` of a partition export is group `i`, under its span name. */
  lemma PartitionFileAt(rs: seq<Record>, f: Folder, key: Record -> int, keepAll: bool, i: int)
    requires DateMonotone(key)
    requires 0 <= i < |GroupBy(rs, key)|
    ensures var e, g := Partition(rs, f, key, keepAll), GroupBy(rs, key)[i].members;
      && |g| > 0 && g == Select(rs, key, GroupBy(rs, key)[i].key) && e.files[i] == GroupName(g)
      && e.files[i] in e.folder && e.folder[e.files[i]] == Table(Content(g, keepAll))
  {
    var gs := GroupBy(rs, key);
    GroupBySpec(rs, key);
    GroupNamesDistinct(rs, key);
    WriteAllSpec(f, GroupNames(gs), GroupContents(gs, keepAll));
  }

  /** A partition export writes one file per group, under the group's own span
      name, holding exactly the rows of one key value; none is empty. */
  lemma PartitionFilesAreGroups(rs: seq<Record>, f: Folder, key: Record -> int, keepAll: bool)
    requires DateMonotone(key)
    ensures FilesAreGroups(Partition(rs, f, key, keepAll), rs, key, keepAll)
  {
    var e := Partition(rs, f, key, keepAll);
    forall i | 0 <= i < |e.files|
      ensures FileIsGroup(e, i, rs, key, keepAll)
    {
      PartitionFileIsGroup(rs, f, key, keepAll, i);
    }
  }

  lemma PartitionFileIsGroup(rs: seq<Record>, f: Folder, key: Record -> int, keepAll: bool, i: int)
    requires DateMonotone(key)
    requires 0 <= i < |Partition(rs, f, key, keepAll).files|
    ensures FileIsGroup(Partition(rs, f, key, keepAll), i, rs, key, keepAll)
  {
    var gs := GroupBy(rs, key);
    PartitionFileAt(rs, f, key, keepAll, i);
    GroupBySpec(rs, key);
    var k := gs[i].key;
    assert Select(rs, key, k) == gs[i].members;
  }

  /** The files of one export have pairwise different names. */
  lemma PartitionFilesDistinct(rs: seq<Record>, f: Folder, key: Record -> int, keepAll: bool)
    requires DateMonotone(key)
    ensures FilesDistinct(Partition(rs, f, key, keepAll))
  {
    GroupNamesDistinct(rs, key);
  }

  /** An export touches no name besides the files it reports. */
  lemma PartitionOthersUnchanged(rs: seq<Record>, f: Folder, key: Record -> int, keepAll: bool)
    requires DateMonotone(key)
    ensures OthersUnchanged(Partition(rs, f, key, keepAll), f)
  {
    GroupNamesDistinct(rs, key);
    WriteAllSpec(f, GroupNames(GroupBy(rs, key)), GroupContents(GroupBy(rs, key), keepAll));
  }

  /** Every row of the dataset lands in exactly one written file. */
  lemma PartitionRowsOnce(rs: seq<Record>, f: Folder, key: Record -> int, keepAll: bool)
    requires DateMonotone(key)
    ensures EachRowOnce(Partition(rs, f, key, keepAll), rs, keepAll)
  {
    var e := Partition(rs, f, key, keepAll);
    PartitionRowsHeld(rs, f, key, keepAll, e);
    PartitionRowsUnique(rs, f, key, keepAll, e);
  }

  lemma PartitionRowsHeld(rs: seq<Record>, f: Folder, key: Record -> int, keepAll: bool, e: Export)
    requires DateMonotone(key) && e == Partition(rs, f, key, keepAll)
    ensures forall x :: x in rs ==> exists i :: 0 <= i < |e.files| && HoldsRow(e, i, x, keepAll)
  {
    forall x | x in rs
      ensures exists i :: 0 <= i < |e.files| && HoldsRow(e, i, x, keepAll)
    {
      PartitionRowHeld(rs, f, key, keepAll, x);
    }
  }

  lemma PartitionRowsUnique(rs: seq<Record>, f: Folder, key: Record -> int, keepAll: bool, e: Export)
    requires DateMonotone(key) && e == Partition(rs, f, key, keepAll)
    ensures forall x, i, j ::
              (x in rs && 0 <= i < |e.files| && 0 <= j < |e.files| && HoldsRow(e, i, x, keepAll) && HoldsRow(e, j, x, keepAll))
              ==> i == j
  {
    forall x, i, j | x in rs && 0 <= i < |e.files| && 0 <= j < |e.files|
        && HoldsRow(e, i, x, keepAll) && HoldsRow(e, j, x, keepAll)
      ensures i == j
    {
      PartitionRowUnique(rs, f, key, keepAll, e, x, i, j);
    }
  }

  lemma PartitionRowHeld(rs: seq<Record>, f: Folder, key: Record -> int, keepAll: bool, x: Record)
    requires DateMonotone(key) && x in rs
    ensures var e := Partition(rs, f, key, keepAll);
      exists i :: 0 <= i < |e.files| && HoldsRow(e, i, x, keepAll)
  {
    var gs := GroupBy(rs, key);
    var e := Partition(rs, f, key, keepAll);
    GroupByCovers(rs, key, x);
    var i :| 0 <= i < |gs| && gs[i].key == key(x);
    PartitionFileAt(rs, f, key, keepAll, i);
    GroupBySpec(rs, key);
    RowInGroup(rs, key, gs, i, x, keepAll);
    assert HoldsRow(e, i, x, keepAll);
  }

  lemma PartitionRowUnique(rs: seq<Record>, f: Folder, key: Record -> int, keepAll: bool, e: Export, x: Record, i: int, j: int)
    requires DateMonotone(key) && e == Partition(rs, f, key, keepAll)
    requires 0 <= i < |e.files| && 0 <= j < |e.files| && HoldsRow(e, i, x, keepAll) && HoldsRow(e, j, x, keepAll)
    ensures i == j
  {
    var gs := GroupBy(rs, key);
    PartitionFileAt(rs, f, key, keepAll, i);
    PartitionFileAt(rs, f, key, keepAll, j);
    GroupBySpec(rs, key);
    GroupsDisjoint(rs, key, gs, i, j, x, keepAll);
  }

  /** A row shows up in the content of one group only. */
  lemma GroupsDisjoint(rs: seq<Record>, key: Record -> int, gs: seq<Group<Record>>, i: int, j: int, x: Record, keepAll: bool)
    requires DateMonotone(key)
    requires ExactGroups(rs, key, gs) && StrictlyAscending(gs)
    requires 0 <= i < |gs| && 0 <= j < |gs|
    requires Row(x, keepAll) in Content(gs[i].members, keepAll)
    requires Row(x, keepAll) in Content(gs[j].members, keepAll)
    ensures i == j
  {
    ContentDate(gs[i].members, keepAll, x);
    ContentDate(gs[j].members, keepAll, x);
    var yi :| yi in gs[i].members && yi.date == x.date;
    var yj :| yj in gs[j].members && yj.date == x.date;
    assert key(yi) == key(yj);
    assert gs[i].key == gs[j].key;
  }

  lemma RowInGroup(rs: seq<Record>, key: Record -> int, gs: seq<Group<Record>>, i: int, x: Record, keepAll: bool)
    requires ExactGroups(rs, key, gs) && 0 <= i < |gs|
    requires x in rs && gs[i].key == key(x)
    ensures Row(x, keepAll) in Content(gs[i].members, keepAll)
  {
    var m := gs[i].members;
    assert x in m;
    var k :| 0 <= k < |m| && m[k] == x;
    assert Content(m, keepAll)[k] == Row(x, keepAll);
  }

  /** The week split of a loaded series, spelled out. */
  lemma WeeksExport(rs: seq<Record>, f: Folder)
    ensures NonEmptyGroups(GroupBy(rs, WeekOf))
    ensures var gs := GroupBy(rs, WeekOf);
      SplitByWeeks(Some(rs), f) == Success(Export(GroupNames(gs), WriteAll(f, GroupNames(gs), GroupContents(gs, false))))
  {
    GroupBySpec(rs, WeekOf);
  }

  /** The `for` loop over the week groups, counting each file written. */
  method WriteWeeks(rs: seq<Record>, f: Folder) returns (created: nat, w: Folder)
    ensures var e := SplitByWeeks(Some(rs), f).value;
      created == |e.files| && w == e.folder
  {
    WeeksExport(rs, f);
    var gs := GroupBy(rs, WeekOf);
    created, w := WriteEach(f, GroupNames(gs), GroupContents(gs, false));
  }

  /** `lab2_main.split_by_weeks`: reads `dataset.csv` from the working directory
      and counts the files it writes. A read error, or a `dataset.csv` without
      the `INR_Rate` column whose first week fails to write, ends it with an
      error and nothing written. */
  method Lab2SplitByWeeks(f: Folder) returns (r: Result<(nat, Folder), string>)
    ensures r.Success? <==> DatasetName in f && (f[DatasetName].Table? || f[DatasetName] == DateColumn([]))
    ensures r.Success? && f[DatasetName].Table? ==>
      var e := SplitByWeeks(Some(f[DatasetName].records), f).value;
      r.value == (|e.files|, e.folder)
    ensures r.Success? && f[DatasetName].DateColumn? ==> r.value == (0, f)
  {
    if DatasetName !in f {
      return Failure("dataset.csv not found");
    }
    match f[DatasetName]
    case Table(rs) =>
      var created, w := WriteWeeks(rs, f);
      return Success((created, w));
    case DateColumn(ds) =>
      if |ds| == 0 {
        return Success((0, f));
      }
      return Failure("KeyError: INR_Rate");
    case RateColumn(_) =>
      return Failure("KeyError: Date");
    case Unusable =>
      return Failure("dataset.csv has no usable columns");
    case Unreadable =>
      return Failure("unreadable dataset.csv");
  }
}
