/** The four search versions give the same answer. After any sequence of the
    DataProcessor's exports, written into the folder that holds the loaded
    `dataset.csv`, every lookup whose layout has been written returns what the
    loaded frame itself returns, provided the frame's dates are distinct. */
module Agreement {
  import opened Wrappers
  import opened Text
  import opened Calendar
  import opened Grouping
  import opened Records
  import opened Folder
  import opened Exporter
  import opened PointQuery

  /** Every `.csv` file besides the reserved ones is a table whose rows
      repeat rows of the dataset. Other files (`annotation.txt`, say) are
      free: every glob the lookups use ends in `.csv`. */
  ghost predicate SoundFolder(f: Folder, rs: seq<Record>) {
    forall n :: n in f && !IsReservedName(n) && EndsWith(n, ".csv") ==> f[n].Table? && SoundFor(f[n].records, rs)
  }

  /** A file no glob can pick up leaves a folder sound. */
  lemma SoundIgnoresOtherFiles(f: Folder, rs: seq<Record>, n: string, c: CsvFile)
    requires SoundFolder(f, rs) && !EndsWith(n, ".csv")
    ensures SoundFolder(f[n := c], rs)
  {
  }

  /** The application's own `annotation.txt` next to `dataset.csv` leaves the
      folder sound. */
  lemma AnnotationTextIsFree(rs: seq<Record>)
    ensures SoundFolder(map[DatasetName := Table(rs), "annotation.txt" := Unreadable], rs)
  {
    assert "annotation.txt"[10..] != ".csv";
  }

  /** `dataset.csv` still holds the loaded rows. */
  predicate DatasetIntact(f: Folder, rs: seq<Record>) {
    DatasetName in f && f[DatasetName] == Table(rs)
  }

  /** `X.csv` and `Y.csv` hold the dataset's two columns. */
  predicate XYReady(f: Folder, rs: seq<Record>) {
    && XName in f && YName in f
    && f[XName] == DateColumn(Dates(rs)) && f[YName] == RateColumn(Rates(rs))
  }

  /** The file named for the span [lo, hi] holds, as far as `Date` and
      `INR_Rate` go, exactly the dataset's rows in that span. */
  ghost predicate WindowFile(f: Folder, rs: seq<Record>, lo: Date, hi: Date) {
    var n := PartitionName(lo, hi);
    n in f && f[n].Table? && Project(f[n].records) == Project(Window(rs, lo, hi))
  }

  /** Some span file covers the row's date; with `sameYear`, one whose name
      starts with the row's year. */
  ghost predicate Covered(f: Folder, rs: seq<Record>, x: Record, sameYear: bool) {
    exists lo: Date, hi: Date :: WindowFile(f, rs, lo, hi) && Le(lo, x.date) && Le(x.date, hi)
                                 && (sameYear ==> lo.year == x.date.year)
  }

  /** The year layout: every row lies in a span file of its own year. */
  ghost predicate YearsReady(f: Folder, rs: seq<Record>) {
    forall x :: x in rs ==> Covered(f, rs, x, true)
  }

  /** What the week lookup needs: every row lies in some span file. */
  ghost predicate WeeksReady(f: Folder, rs: seq<Record>) {
    forall x :: x in rs ==> Covered(f, rs, x, false)
  }

  /** The three layouts a user can write. */
  datatype Layout = XYLayout | YearLayout | WeekLayout

  /** The folder after one export of the loaded rows. */
  function ApplyExport(rs: seq<Record>, f: Folder, l: Layout): Folder {
    match l
    case XYLayout => SplitToXY(Some(rs), f).value.folder
    case YearLayout => SplitByYears(Some(rs), f).value.folder
    case WeekLayout => SplitByWeeks(Some(rs), f).value.folder
  }

  /** The folder after the exports `ls`, in order. */
  function ApplyExports(rs: seq<Record>, f: Folder, ls: seq<Layout>): Folder
    decreases |ls|
  {
    if ls == [] then f else ApplyExports(rs, ApplyExport(rs, f, ls[0]), ls[1..])
  }

  /** Which lookups a folder is ready for: the X/Y pair, the year files, and
      some span file for every row. */
  datatype Promises = Promises(xy: bool, years: bool, spans: bool)

  /** What writing layout `l` adds to the promises. */
  function Promise(p: Promises, l: Layout): Promises {
    match l
    case XYLayout => p.(xy := true)
    case YearLayout => p.(years := true, spans := true)
    case WeekLayout => p.(spans := true)
  }

  function PromiseAll(p: Promises, ls: seq<Layout>): Promises
    decreases |ls|
  {
    if ls == [] then p else PromiseAll(Promise(p, ls[0]), ls[1..])
  }

  /** After the layouts `ls` the X/Y pair is promised when `ls` wrote it, the
      year files when it wrote them, and span files when it wrote either
      partition. */
  lemma {:induction false} PromiseAllFlags(p: Promises, ls: seq<Layout>)
    ensures PromiseAll(p, ls).xy == (p.xy || XYLayout in ls)
    ensures PromiseAll(p, ls).years == (p.years || YearLayout in ls)
    ensures PromiseAll(p, ls).spans == (p.spans || YearLayout in ls || WeekLayout in ls)
    decreases |ls|
  {
    if ls != [] {
      PromiseAllFlags(Promise(p, ls[0]), ls[1..]);
      assert forall l :: l in ls <==> l == ls[0] || l in ls[1..];
    }
  }

  /** What the folder holds, given what it promises. */
  ghost predicate Coherent(f: Folder, rs: seq<Record>, p: Promises) {
    && SoundFolder(f, rs) && DatasetIntact(f, rs)
    && (p.xy ==> XYReady(f, rs))
    && (p.years ==> YearsReady(f, rs))
    && (p.spans ==> WeeksReady(f, rs))
  }

  // ---------------------------------------------------------------------
  // Partition exports and span files
  // ---------------------------------------------------------------------

  lemma ContentProject(g: seq<Record>, keepAll: bool)
    ensures Project(Content(g, keepAll)) == Project(g)
  {
    if !keepAll {
      ProjectIdempotent(g);
    }
  }

  /** A partition export rewrites a span file, if at all, with the same span's
      rows: equal names mean equal spans. */
  lemma PartitionKeepsWindow(rs: seq<Record>, f: Folder, key: Record -> int, keepAll: bool, lo: Date, hi: Date)
    requires DateMonotone(key)
    requires WindowFile(f, rs, lo, hi)
    ensures WindowFile(Partition(rs, f, key, keepAll).folder, rs, lo, hi)
  {
    var e := Partition(rs, f, key, keepAll);
    if PartitionName(lo, hi) in e.files {
      var j :| 0 <= j < |e.files| && e.files[j] == PartitionName(lo, hi);
      PartitionRewritesWindow(rs, f, key, keepAll, lo, hi, j);
    } else {
      PartitionOthersUnchanged(rs, f, key, keepAll);
    }
  }

  /** A span file the export rewrites holds the same span afterwards. */
  lemma PartitionRewritesWindow(rs: seq<Record>, f: Folder, key: Record -> int, keepAll: bool,
                                lo: Date, hi: Date, j: int)
    requires DateMonotone(key)
    requires 0 <= j < |Partition(rs, f, key, keepAll).files|
    requires Partition(rs, f, key, keepAll).files[j] == PartitionName(lo, hi)
    ensures WindowFile(Partition(rs, f, key, keepAll).folder, rs, lo, hi)
  {
    var gs := GroupBy(rs, key);
    PartitionFileAt(rs, f, key, keepAll, j);
    var g := gs[j].members;
    PartitionNameInjective(Earliest(g), Latest(g), lo, hi);
    GroupIsWindow(rs, key, gs[j].key);
    ContentProject(g, keepAll);
  }

  /** The group of a row under a date-monotone key is the span between its
      earliest and latest dates, that span holds the row, and it starts at a
      row of the same key. */
  lemma GroupSpan(rs: seq<Record>, key: Record -> int, x: Record)
    requires DateMonotone(key) && x in rs
    ensures var g := Select(rs, key, key(x));
      && |g| > 0 && g == Window(rs, Earliest(g), Latest(g))
      && Le(Earliest(g), x.date) && Le(x.date, Latest(g))
      && exists y :: y in rs && y.date == Earliest(g) && key(y) == key(x)
  {
    var g := Select(rs, key, key(x));
    assert x in g;
    var k :| 0 <= k < |g| && g[k] == x;
    GroupIsWindow(rs, key, key(x));
    var a :| 0 <= a < |g| && g[a].date == Earliest(g);
    assert g[a] in g;
  }

  /** After a partition export every row lies in the span file of its group,
      a span that starts at a row of the same key. */
  lemma PartitionCovers(rs: seq<Record>, f: Folder, key: Record -> int, keepAll: bool, x: Record)
    requires DateMonotone(key) && x in rs
    ensures exists lo: Date, hi: Date :: WindowFile(Partition(rs, f, key, keepAll).folder, rs, lo, hi)
                                         && Le(lo, x.date) && Le(x.date, hi)
                                         && exists y :: y in rs && y.date == lo && key(y) == key(x)
  {
    var gs := GroupBy(rs, key);
    GroupByCovers(rs, key, x);
    var i :| 0 <= i < |gs| && gs[i].key == key(x);
    PartitionFileAt(rs, f, key, keepAll, i);
    var g := gs[i].members;
    GroupSpan(rs, key, x);
    ContentProject(g, keepAll);
    assert WindowFile(Partition(rs, f, key, keepAll).folder, rs, Earliest(g), Latest(g));
  }

  /** Each file a partition export writes is a table drawn from the dataset,
      under a name that is not reserved. */
  lemma PartitionFileSound(rs: seq<Record>, f: Folder, key: Record -> int, keepAll: bool, e: Export, j: int)
    requires DateMonotone(key) && e == Partition(rs, f, key, keepAll)
    requires 0 <= j < |e.files|
    ensures && !IsReservedName(e.files[j]) && e.files[j] in e.folder
            && e.folder[e.files[j]].Table? && SoundFor(e.folder[e.files[j]].records, rs)
  {
    PartitionFileAt(rs, f, key, keepAll, j);
    GroupFileSound(GroupBy(rs, key)[j].members, rs, keepAll);
  }

  /** A group drawn from the dataset is written under a name that is not
      reserved, as a table whose rows repeat the dataset's. */
  lemma GroupFileSound(g: seq<Record>, rs: seq<Record>, keepAll: bool)
    requires |g| > 0 && forall x :: x in g ==> x in rs
    ensures !IsReservedName(GroupName(g)) && SoundFor(Content(g, keepAll), rs)
  {
    MembersSound(g, rs);
    PartitionNameClear(Earliest(g), Latest(g), []);
  }

  /** A partition export adds only tables drawn from the dataset and leaves
      the reserved files alone. */
  lemma PartitionKeepsSound(rs: seq<Record>, f: Folder, key: Record -> int, keepAll: bool)
    requires DateMonotone(key)
    requires SoundFolder(f, rs)
    ensures SoundFolder(Partition(rs, f, key, keepAll).folder, rs)
    ensures forall n :: IsReservedName(n) ==> n !in Partition(rs, f, key, keepAll).files
  {
    var e := Partition(rs, f, key, keepAll);
    PartitionOthersUnchanged(rs, f, key, keepAll);
    forall j | 0 <= j < |e.files|
      ensures FileSound(e, j, rs)
    {
      PartitionFileSound(rs, f, key, keepAll, e, j);
    }
    WritesKeepSound(e, f, rs);
  }

  /** File `j` of an export is a table drawn from the dataset, under a name
      that is not reserved. */
  ghost predicate FileSound(e: Export, j: int, rs: seq<Record>)
    requires 0 <= j < |e.files|
  {
    && !IsReservedName(e.files[j]) && e.files[j] in e.folder
    && e.folder[e.files[j]].Table? && SoundFor(e.folder[e.files[j]].records, rs)
  }

  /** An export that writes only sound files under unreserved names, and
      touches nothing else, keeps a folder sound. */
  lemma WritesKeepSound(e: Export, f: Folder, rs: seq<Record>)
    requires SoundFolder(f, rs) && OthersUnchanged(e, f)
    requires forall j :: 0 <= j < |e.files| ==> FileSound(e, j, rs)
    ensures SoundFolder(e.folder, rs)
    ensures forall n :: IsReservedName(n) ==> n !in e.files
  {
    forall n | n in e.folder && !IsReservedName(n) && EndsWith(n, ".csv")
      ensures e.folder[n].Table? && SoundFor(e.folder[n].records, rs)
    {
      if n in e.files {
        var j :| 0 <= j < |e.files| && e.files[j] == n;
        assert FileSound(e, j, rs);
      }
    }
    forall n | IsReservedName(n)
      ensures n !in e.files
    {
      forall j | 0 <= j < |e.files|
        ensures e.files[j] != n
      {
        assert FileSound(e, j, rs);
      }
    }
  }

  /** A partition export keeps everything the folder already promised, and
      adds a span file for every row. */
  lemma PartitionKeepsCoherent(rs: seq<Record>, f: Folder, key: Record -> int, keepAll: bool, p: Promises)
    requires DateMonotone(key)
    requires Coherent(f, rs, p)
    ensures Coherent(Partition(rs, f, key, keepAll).folder, rs, p.(spans := true))
  {
    PartitionKeepsSound(rs, f, key, keepAll);
    PartitionKeepsReserved(rs, f, key, keepAll);
    if p.years {
      PartitionKeepsYears(rs, f, key, keepAll);
    }
    PartitionMakesSpans(rs, f, key, keepAll);
  }

  /** The reserved files survive a partition export. */
  lemma PartitionKeepsReserved(rs: seq<Record>, f: Folder, key: Record -> int, keepAll: bool)
    requires DateMonotone(key) && SoundFolder(f, rs)
    ensures var w := Partition(rs, f, key, keepAll).folder;
      && (DatasetIntact(f, rs) ==> DatasetIntact(w, rs))
      && (XYReady(f, rs) ==> XYReady(w, rs))
  {
    var e := Partition(rs, f, key, keepAll);
    PartitionKeepsSound(rs, f, key, keepAll);
    PartitionOthersUnchanged(rs, f, key, keepAll);
    assert DatasetName !in e.files && XName !in e.files && YName !in e.files;
  }

  /** Year coverage already in the folder survives a partition export. */
  lemma PartitionKeepsYears(rs: seq<Record>, f: Folder, key: Record -> int, keepAll: bool)
    requires DateMonotone(key) && YearsReady(f, rs)
    ensures YearsReady(Partition(rs, f, key, keepAll).folder, rs)
  {
    forall x | x in rs
      ensures Covered(Partition(rs, f, key, keepAll).folder, rs, x, true)
    {
      PartitionKeepsCovered(rs, f, key, keepAll, x);
    }
  }

  lemma PartitionKeepsCovered(rs: seq<Record>, f: Folder, key: Record -> int, keepAll: bool, x: Record)
    requires DateMonotone(key) && Covered(f, rs, x, true)
    ensures Covered(Partition(rs, f, key, keepAll).folder, rs, x, true)
  {
    var lo: Date, hi: Date :| WindowFile(f, rs, lo, hi) && Le(lo, x.date) && Le(x.date, hi) && lo.year == x.date.year;
    PartitionKeepsWindow(rs, f, key, keepAll, lo, hi);
  }

  /** After a partition export every row lies in some span file. */
  lemma PartitionMakesSpans(rs: seq<Record>, f: Folder, key: Record -> int, keepAll: bool)
    requires DateMonotone(key)
    ensures WeeksReady(Partition(rs, f, key, keepAll).folder, rs)
  {
    forall x | x in rs
      ensures Covered(Partition(rs, f, key, keepAll).folder, rs, x, false)
    {
      PartitionCovers(rs, f, key, keepAll, x);
    }
  }

  /** The folder after a year export is the year partition's. */
  lemma YearExportFolder(rs: seq<Record>, f: Folder)
    ensures ApplyExport(rs, f, YearLayout) == Partition(rs, f, YearOf, true).folder
  {
    assert SplitByYears(Some(rs), f) == Success(Partition(rs, f, YearOf, true));
  }

  /** The folder after a week export is the week partition's. */
  lemma WeekExportFolder(rs: seq<Record>, f: Folder)
    ensures ApplyExport(rs, f, WeekLayout) == Partition(rs, f, WeekOf, false).folder
  {
    assert SplitByWeeks(Some(rs), f) == Success(Partition(rs, f, WeekOf, false));
  }

  /** `split_by_years` makes every row covered by a file of its own year. */
  lemma YearsExportCoherent(rs: seq<Record>, f: Folder, p: Promises)
    requires Coherent(f, rs, p)
    ensures Coherent(ApplyExport(rs, f, YearLayout), rs, Promise(p, YearLayout))
  {
    YearOfMonotone();
    YearExportFolder(rs, f);
    var w := Partition(rs, f, YearOf, true).folder;
    assert Promise(p, YearLayout) == p.(years := true).(spans := true);
    PartitionKeepsCoherent(rs, f, YearOf, true, p);
    forall x | x in rs
      ensures Covered(w, rs, x, true)
    {
      PartitionCovers(rs, f, YearOf, true, x);
    }
  }

  /** `split_by_weeks` adds a span file for every row. */
  lemma WeeksExportCoherent(rs: seq<Record>, f: Folder, p: Promises)
    requires Coherent(f, rs, p)
    ensures Coherent(ApplyExport(rs, f, WeekLayout), rs, Promise(p, WeekLayout))
  {
    WeekOfMonotone();
    WeekExportFolder(rs, f);
    assert Promise(p, WeekLayout) == p.(spans := true);
    PartitionKeepsCoherent(rs, f, WeekOf, false, p);
  }

  /** `split_to_xy` changes only the reserved `X.csv` and `Y.csv`. */
  lemma XYExportCoherent(rs: seq<Record>, f: Folder, p: Promises)
    requires Coherent(f, rs, p)
    ensures Coherent(ApplyExport(rs, f, XYLayout), rs, Promise(p, XYLayout))
  {
    var w := SplitToXY(Some(rs), f).value.folder;
    SplitToXYAligned(rs, f);
    forall lo: Date, hi: Date | WindowFile(f, rs, lo, hi)
      ensures WindowFile(w, rs, lo, hi)
    {
      PartitionNameClear(lo, hi, []);
    }
  }

  /** Every export keeps the folder coherent with what it has promised. */
  lemma {:induction false} ExportsKeepCoherent(rs: seq<Record>, f: Folder, ls: seq<Layout>, p: Promises)
    requires Coherent(f, rs, p)
    ensures Coherent(ApplyExports(rs, f, ls), rs, PromiseAll(p, ls))
    decreases |ls|
  {
    if ls != [] {
      match ls[0] {
        case XYLayout => XYExportCoherent(rs, f, p);
        case YearLayout => YearsExportCoherent(rs, f, p);
        case WeekLayout => WeeksExportCoherent(rs, f, p);
      }
      ExportsKeepCoherent(rs, ApplyExport(rs, f, ls[0]), ls[1..], Promise(p, ls[0]));
    }
  }

  // ---------------------------------------------------------------------
  // Each lookup on a coherent folder
  // ---------------------------------------------------------------------

  /** Version 0 on `dataset.csv` answers as the loaded frame. */
  lemma SingleFileAgrees(f: Folder, rs: seq<Record>, q: Date)
    requires DatasetIntact(f, rs)
    ensures SingleFile(f, DatasetName, q) == FirstRate(rs, q)
  {
  }

  /** Version 1 on an exported X/Y pair answers as the loaded frame. */
  lemma XYAgrees(f: Folder, rs: seq<Record>, q: Date)
    requires XYReady(f, rs)
    ensures XYLookup(f, Stamp(q)) == FirstRate(rs, q)
  {
    FirstRateByIndex(rs, q);
  }

  /** A scan over files drawn from a dataset with distinct dates answers as
      the dataset once some scanned file holds the date, and misses when the
      dataset lacks it. */
  lemma {:induction false} ScanAgrees(f: Folder, rs: seq<Record>, names: seq<string>, ex: Exclusion, q: Date)
    requires DistinctDates(rs) && SoundFolder(f, rs)
    requires forall k :: 0 <= k < |names| ==> names[k] in f && EndsWith(names[k], ".csv")
    ensures FirstRate(rs, q).None? ==> Scan(f, names, ex, Stamp(q)).None?
    ensures (exists k :: 0 <= k < |names| && !Excluded(ex, names[k]) && f[names[k]].Table?
                         && FirstRate(f[names[k]].records, q).Some?)
            ==> Scan(f, names, ex, Stamp(q)) == FirstRate(rs, q)
  {
    if names != [] {
      var tail := names[1..];
      assert forall k :: 0 <= k < |tail| ==> tail[k] == names[k + 1];
      ScanAgrees(f, rs, tail, ex, q);
      var n := names[0];
      if Excluded(ex, n) || IsReservedName(n) {
        if !Excluded(ex, n) {
          ReservedExcluded(ex, n);
        }
        assert Scan(f, names, ex, Stamp(q)) == Scan(f, tail, ex, Stamp(q));
        TailWitness(f, names, ex, q);
      } else {
        var t := f[n].records;
        assert ProbeFile(f, n, Stamp(q)) == match FirstRate(t, q) case Some(r) => Hit(r) case None => Miss;
        if FirstRate(t, q).Some? {
          SoundLookup(t, rs, q);
          assert Scan(f, names, ex, Stamp(q)) == FirstRate(t, q);
        } else {
          assert Scan(f, names, ex, Stamp(q)) == Scan(f, tail, ex, Stamp(q));
          if FirstRate(rs, q).None? {
            SoundMiss(t, rs, q);
          }
          TailWitness(f, names, ex, q);
        }
      }
    }
  }

  /** When the head of a scan cannot answer, a file of the scan that holds
      the day is a file of its tail. */
  lemma TailWitness(f: Folder, names: seq<string>, ex: Exclusion, q: Date)
    requires names != [] && names[0] in f
    requires Excluded(ex, names[0]) || !f[names[0]].Table? || FirstRate(f[names[0]].records, q).None?
    ensures (exists k :: 0 <= k < |names| && !Excluded(ex, names[k]) && names[k] in f && f[names[k]].Table?
                         && FirstRate(f[names[k]].records, q).Some?)
            ==> exists k :: 0 <= k < |names[1..]| && !Excluded(ex, names[1..][k]) && names[1..][k] in f
                            && f[names[1..][k]].Table? && FirstRate(f[names[1..][k]].records, q).Some?
  {
    if exists k :: 0 <= k < |names| && !Excluded(ex, names[k]) && names[k] in f && f[names[k]].Table?
                   && FirstRate(f[names[k]].records, q).Some? {
      var k :| 0 <= k < |names| && !Excluded(ex, names[k]) && names[k] in f && f[names[k]].Table?
               && FirstRate(f[names[k]].records, q).Some?;
      assert names[1..][k - 1] == names[k];
    }
  }

  /** No reserved name is clear of reserved names. */
  lemma ReservedMentions(n: string)
    requires IsReservedName(n)
    ensures MentionsReserved(n)
  {
    ReservedExcluded(NameSubstring, n);
  }

  /** A span file of year `y` is picked up by the glob `{y}*.csv`, for a
      four-digit year. */
  lemma SpanFileMatchesYear(lo: Date, hi: Date)
    requires lo.year >= 1000
    ensures MatchesYearGlob(PartitionName(lo, hi), lo.year)
  {
    var n := PartitionName(lo, hi);
    PartitionNameShape(lo, hi);
    FourDigitNatToString(lo.year);
    assert n[..4] == Ymd(lo)[..4] == Pad4(lo.year);
  }

  /** A span file is picked up by the glob `*_*.csv`. */
  lemma SpanFileMatchesWeek(lo: Date, hi: Date)
    ensures MatchesWeekGlob(PartitionName(lo, hi))
  {
    var n := PartitionName(lo, hi);
    PartitionNameShape(lo, hi);
    assert n[8] == '_';
  }

  /** A span file that covers `x` answers `x`'s date. */
  lemma SpanFileHolds(f: Folder, rs: seq<Record>, lo: Date, hi: Date, x: Record)
    requires WindowFile(f, rs, lo, hi) && x in rs && Le(lo, x.date) && Le(x.date, hi)
    ensures FirstRate(f[PartitionName(lo, hi)].records, x.date).Some?
  {
    var t := f[PartitionName(lo, hi)].records;
    var w := Window(rs, lo, hi);
    assert x in w;
    var k :| 0 <= k < |w| && w[k] == x;
    assert Project(w)[k].date == x.date;
    FirstRateProject(t, x.date);
    FirstRateProject(w, x.date);
  }

  /** A scan over a glob of the whole listing that the covering span file
      passes answers as the dataset. */
  lemma GlobScanAgrees(f: Folder, rs: seq<Record>, listing: seq<string>, names: seq<string>,
                       ex: Exclusion, q: Date, lo: Date, hi: Date)
    requires DistinctDates(rs) && SoundFolder(f, rs)
    requires forall n :: n in names ==> n in listing && EndsWith(n, ".csv")
    requires forall n :: n in listing ==> n in f
    requires PartitionName(lo, hi) in names && !Excluded(ex, PartitionName(lo, hi))
    requires f[PartitionName(lo, hi)].Table? && FirstRate(f[PartitionName(lo, hi)].records, q).Some?
    ensures Scan(f, names, ex, Stamp(q)) == FirstRate(rs, q)
  {
    var k :| 0 <= k < |names| && names[k] == PartitionName(lo, hi);
    assert forall j :: 0 <= j < |names| ==> names[j] in names;
    ScanAgrees(f, rs, names, ex, q);
  }

  /** On a folder with the year layout, a date the dataset holds lies in a
      listed span file that the year glob picks up and no exclusion skips.
      The dataset's dates are those of a loaded frame, so its years have
      four digits. */
  lemma CoveringYearFile(f: Folder, rs: seq<Record>, dir: string, q: Date) returns (n: string)
    requires YearsReady(f, rs) && StampDates(rs) && FirstRate(rs, q).Some?
    requires !MentionsReserved(dir)
    ensures n in f && f[n].Table? && FirstRate(f[n].records, q).Some?
    ensures MatchesYearGlob(n, q.year) && !MentionsReserved(n) && !MentionsReserved(Join(dir, n))
  {
    var i :| 0 <= i < |rs| && rs[i].date == q;
    var x := rs[i];
    assert x in rs && InStampRange(x.date);
    var lo: Date, hi: Date :| WindowFile(f, rs, lo, hi) && Le(lo, x.date) && Le(x.date, hi) && lo.year == x.date.year;
    n := PartitionName(lo, hi);
    SpanFileMatchesYear(lo, hi);
    PartitionNameClear(lo, hi, dir);
    SpanFileHolds(f, rs, lo, hi, x);
  }

  /** The scan of the year glob answers as the dataset. */
  lemma YearScanAgrees(f: Folder, rs: seq<Record>, dir: string, listing: seq<string>, q: Date, ex: Exclusion)
    requires DistinctDates(rs) && StampDates(rs) && SoundFolder(f, rs) && YearsReady(f, rs)
    requires !MentionsReserved(dir)
    requires ex == NameSubstring || ex == PathSubstring(dir)
    requires forall n :: n in listing <==> n in f
    ensures Scan(f, GlobYear(listing, q.year), ex, Stamp(q)) == FirstRate(rs, q)
  {
    var names := GlobYear(listing, q.year);
    assert forall k :: 0 <= k < |names| ==> names[k] in names;
    if FirstRate(rs, q).None? {
      ScanAgrees(f, rs, names, ex, q);
    } else {
      var n := CoveringYearFile(f, rs, dir, q);
      var k :| 0 <= k < |names| && names[k] == n;
      ScanAgrees(f, rs, names, ex, q);
    }
  }

  /** Both year lookups on a folder with the year layout answer as the
      dataset, for every day. */
  lemma YearLookupsAgree(f: Folder, rs: seq<Record>, dir: string, listing: seq<string>, q: Date)
    requires DistinctDates(rs) && StampDates(rs) && SoundFolder(f, rs) && YearsReady(f, rs)
    requires !MentionsReserved(dir)
    requires forall n :: n in listing <==> n in f
    ensures Lab2YearLookup(f, listing, q) == FirstRate(rs, q)
    ensures MainYearLookup(f, dir, listing, Stamp(q)) == FirstRate(rs, q)
  {
    YearScanAgrees(f, rs, dir, listing, q, NameSubstring);
    YearScanAgrees(f, rs, dir, listing, q, PathSubstring(dir));
    var nominal := NominalYearName(q.year);
    NominalYearNameShape(q.year);
    if nominal in f {
      if IsReservedName(nominal) {
        ReservedMentions(nominal);
      }
      var t := f[nominal].records;
      if FirstRate(rs, q).None? {
        SoundMiss(t, rs, q);
      } else if FirstRate(t, q).Some? {
        SoundLookup(t, rs, q);
      }
    }
  }

  /** Both week lookups on a folder with a span layout answer as the dataset. */
  lemma WeekLookupsAgree(f: Folder, rs: seq<Record>, dir: string, listing: seq<string>, q: Date)
    requires DistinctDates(rs) && SoundFolder(f, rs) && WeeksReady(f, rs)
    requires !MentionsReserved(dir)
    requires forall n :: n in listing <==> n in f
    ensures Lab2WeekLookup(f, listing, q) == FirstRate(rs, q)
    ensures MainWeekLookup(f, dir, listing, Stamp(q)) == FirstRate(rs, q)
  {
    var names := GlobWeek(listing);
    assert forall k :: 0 <= k < |names| ==> names[k] in names;
    if FirstRate(rs, q).None? {
      ScanAgrees(f, rs, names, ExactName, q);
      ScanAgrees(f, rs, names, PathSubstring(dir), q);
    } else {
      WeekLookupsHit(f, rs, dir, listing, names, q);
    }
  }

  lemma WeekLookupsHit(f: Folder, rs: seq<Record>, dir: string, listing: seq<string>, names: seq<string>, q: Date)
    requires DistinctDates(rs) && SoundFolder(f, rs) && WeeksReady(f, rs)
    requires !MentionsReserved(dir)
    requires forall n :: n in listing <==> n in f
    requires names == GlobWeek(listing) && FirstRate(rs, q).Some?
    ensures Lab2WeekLookup(f, listing, q) == FirstRate(rs, q)
    ensures MainWeekLookup(f, dir, listing, Stamp(q)) == FirstRate(rs, q)
  {
    var lo, hi := WeekSpanFound(f, rs, listing, q);
    PartitionNameClear(lo, hi, dir);
    GlobScanAgrees(f, rs, listing, names, ExactName, q, lo, hi);
    GlobScanAgrees(f, rs, listing, names, PathSubstring(dir), q, lo, hi);
  }

  /** A date the dataset holds lies in a span file the week glob lists. */
  lemma WeekSpanFound(f: Folder, rs: seq<Record>, listing: seq<string>, q: Date) returns (lo: Date, hi: Date)
    requires SoundFolder(f, rs) && WeeksReady(f, rs)
    requires forall n :: n in listing <==> n in f
    requires FirstRate(rs, q).Some?
    ensures PartitionName(lo, hi) in GlobWeek(listing)
    ensures f[PartitionName(lo, hi)].Table? && FirstRate(f[PartitionName(lo, hi)].records, q).Some?
  {
    var i :| 0 <= i < |rs| && rs[i].date == q;
    var x := rs[i];
    assert x in rs;
    lo, hi :| WindowFile(f, rs, lo, hi) && Le(lo, x.date) && Le(x.date, hi);
    SpanFileMatchesWeek(lo, hi);
    SpanFileHolds(f, rs, lo, hi, x);
  }

  // ---------------------------------------------------------------------
  // The theorem
  // ---------------------------------------------------------------------

  /** Starting from a folder whose `dataset.csv` holds the loaded rows (with
      distinct dates) and whose other files are drawn from them, write the
      layouts `ls` in any order. Then every lookup whose layout was written
      answers every query exactly as the loaded frame does, in both the
      console and the GUI spelling and through `search_data` given the day
      as a `Timestamp` (the window as written passes a bare date and finds
      nothing, see `PointQuery.BareDateFindsNothing`). The loaded rows' dates
      lie in the range of `datetime64[ns]`, as `DateRange.LoadedStampDates`
      shows for every frame that loads. */
  lemma AllLookupsAgree(rs: seq<Record>, f0: Folder, ls: seq<Layout>, dir: string, listing: seq<string>, q: Date)
    requires DistinctDates(rs) && StampDates(rs) && SoundFolder(f0, rs) && DatasetIntact(f0, rs)
    requires !MentionsReserved(dir)
    requires forall n :: n in listing <==> n in ApplyExports(rs, f0, ls)
    ensures var f, want := ApplyExports(rs, f0, ls), FirstRate(rs, q);
      && GetDataByDate(Some(rs), q) == want
      && SingleFile(f, DatasetName, q) == want
      && SearchData(Some(rs), f, dir, listing, 0, Stamp(q)) == Answer(want)
      && (XYLayout in ls ==> XYLookup(f, Stamp(q)) == want && SearchData(Some(rs), f, dir, listing, 1, Stamp(q)) == Answer(want))
      && (YearLayout in ls ==>
            && Lab2YearLookup(f, listing, q) == want && MainYearLookup(f, dir, listing, Stamp(q)) == want
            && SearchData(Some(rs), f, dir, listing, 2, Stamp(q)) == Answer(want))
      && (YearLayout in ls || WeekLayout in ls ==>
            && Lab2WeekLookup(f, listing, q) == want && MainWeekLookup(f, dir, listing, Stamp(q)) == want
            && SearchData(Some(rs), f, dir, listing, 3, Stamp(q)) == Answer(want))
  {
    var f := ApplyExports(rs, f0, ls);
    ExportsKeepCoherent(rs, f0, ls, Promises(false, false, false));
    PromiseAllFlags(Promises(false, false, false), ls);
    SingleFileAgrees(f, rs, q);
    if XYLayout in ls {
      XYAgrees(f, rs, q);
    }
    if YearLayout in ls {
      YearLookupsAgree(f, rs, dir, listing, q);
    }
    if YearLayout in ls || WeekLayout in ls {
      WeekLookupsAgree(f, rs, dir, listing, q);
    }
  }
}
