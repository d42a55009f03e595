/** Which files `DataProcessor.create_annotation` lists for a layout. The
    manifest's text, its per-file row counts and its timestamp are not part
    of this model; the file list and the two refusals are. */
module Annotation {
  import opened Wrappers
  import opened Text
  import opened Calendar
  import opened Records
  import opened Folder
  import opened Grouping
  import opened Exporter

  /** Why `create_annotation` returns an error: no dataset folder chosen yet
      (`"Путь к данным не установлен"`), or `pd.read_csv` raised on a listed
      file that exists (`"Ошибка создания аннотации"`). */
  datatype AnnotationError = NoDatasetPath | ReadFailed

  /** The name length the year and week filters test for as written. */
  const WrittenNameLength: nat := 16

  /** The length every partition name actually has. */
  const PartitionNameLength: nat := 21

  /** The filter of the `"years"` and `"weeks"` branches: a `.csv` name that
      is not a reserved name and has length `len`. */
  predicate ListedPartition(n: string, len: nat) {
    EndsWith(n, ".csv") && !IsReservedName(n) && |n| == len
  }

  /** The list comprehension over `os.listdir`, in listing order. */
  function FilterListing(listing: seq<string>, len: nat): (r: seq<string>)
    ensures forall n :: n in r <==> n in listing && ListedPartition(n, len)
  {
    if listing == [] then []
    else (if ListedPartition(listing[0], len) then [listing[0]] else []) + FilterListing(listing[1..], len)
  }

  /** The `files` list of `create_annotation` with the year/week filter
      testing for `len`: the existing `dataset.csv` for `"original"`, the
      existing `X.csv`/`Y.csv` for `"xy"`, the filtered listing for `"years"`
      and `"weeks"`, and nothing for any other type. `listing` is `os.listdir`
      of the folder `f`. */
  function ListedFiles(f: Folder, listing: seq<string>, datasetType: string, len: nat): seq<string> {
    if datasetType == "original" then (if DatasetName in f then [DatasetName] else [])
    else if datasetType == "xy" then (if XName in f then [XName] else []) + (if YName in f then [YName] else [])
    else if datasetType == "years" || datasetType == "weeks" then FilterListing(listing, len)
    else []
  }

  /** The loop that counts rows: every listed file that exists is read with
      `pd.read_csv`, which raises only on an `Unreadable` one; a file it reads
      is counted whatever its columns, and a missing one is reported as not
      found. */
  predicate ReadsCleanly(f: Folder, files: seq<string>) {
    forall n :: n in files && n in f ==> !f[n].Unreadable?
  }

  /** `create_annotation`: refused without a dataset folder, failed when a
      listed file cannot be read, and otherwise the listed files. */
  function AnnotationFilesWith(hasPath: bool, f: Folder, listing: seq<string>, datasetType: string, len: nat)
    : Result<seq<string>, AnnotationError>
  {
    if !hasPath then Failure(NoDatasetPath)
    else
      var files := ListedFiles(f, listing, datasetType, len);
      if ReadsCleanly(f, files) then Success(files) else Failure(ReadFailed)
  }

  /** The file list as the source computes it, with `len(f) == 16`. */
  function AnnotationFilesAsWritten(hasPath: bool, f: Folder, listing: seq<string>, datasetType: string)
    : Result<seq<string>, AnnotationError>
  {
    AnnotationFilesWith(hasPath, f, listing, datasetType, WrittenNameLength)
  }

  /** The file list with the filter testing the partition names' real length. */
  function AnnotationFiles(hasPath: bool, f: Folder, listing: seq<string>, datasetType: string)
    : Result<seq<string>, AnnotationError>
  {
    AnnotationFilesWith(hasPath, f, listing, datasetType, PartitionNameLength)
  }

  /** The two refusals, each exactly in its case, and the fixed layouts:
      `"original"` and `"xy"` list exactly the reserved files present, an
      unknown type lists nothing. */
  lemma AnnotationCases(hasPath: bool, f: Folder, listing: seq<string>, datasetType: string, len: nat)
    ensures var r, files := AnnotationFilesWith(hasPath, f, listing, datasetType, len),
                            ListedFiles(f, listing, datasetType, len);
      && (r == Failure(NoDatasetPath) <==> !hasPath)
      && (r == Failure(ReadFailed) <==> hasPath && exists n :: n in files && n in f && f[n].Unreadable?)
      && (r.Success? ==> r.value == files)
      && (datasetType == "original" ==> forall n :: n in files <==> n == DatasetName && n in f)
      && (datasetType == "xy" ==> forall n :: n in files <==> (n == XName || n == YName) && n in f)
      && (!(datasetType in ["original", "xy", "years", "weeks"]) ==> files == [])
  {
  }

  /** The year and week branches list exactly the listed `.csv` names of the
      required length other than the reserved ones. */
  lemma AnnotationPartitionCases(f: Folder, listing: seq<string>, datasetType: string, len: nat)
    requires datasetType == "years" || datasetType == "weeks"
    ensures forall n :: n in ListedFiles(f, listing, datasetType, len) <==> n in listing && ListedPartition(n, len)
  {
  }

  /** As written, no partition file is ever listed: every partition name has
      21 characters, never 16. */
  lemma AsWrittenMissesPartitions(f: Folder, listing: seq<string>, datasetType: string, lo: Date, hi: Date)
    requires datasetType == "years" || datasetType == "weeks"
    ensures PartitionName(lo, hi) !in ListedFiles(f, listing, datasetType, WrittenNameLength)
  {
    PartitionNameShape(lo, hi);
  }

  /** After a year split of any non-empty dataset, which writes at least one
      file (one row dated 2020-01-01 writes `20200101_20200101.csv`), the
      annotation of the files written lists none of them. */
  lemma AsWrittenEmptyAfterSplit(rs: seq<Record>, f: Folder)
    requires |rs| > 0
    ensures var e := SplitByYears(Some(rs), f).value;
      && |e.files| > 0 && (forall i :: 0 <= i < |e.files| ==> e.files[i] in e.folder)
      && AnnotationFilesAsWritten(true, e.folder, e.files, "years") == Success([])
  {
    var e := Partition(rs, f, YearOf, true);
    assert SplitByYears(Some(rs), f).value == e;
    YearOfMonotone();
    GroupByCovers(rs, YearOf, rs[0]);
    forall i | 0 <= i < |e.files|
      ensures e.files[i] in e.folder && !ListedPartition(e.files[i], WrittenNameLength)
    {
      PartitionFileAt(rs, f, YearOf, true, i);
      var g := GroupBy(rs, YearOf)[i].members;
      PartitionNameShape(Earliest(g), Latest(g));
    }
    FilterListingNone(e.files, WrittenNameLength);
    PartitionBranch(e.folder, e.files, "years", WrittenNameLength);
  }

  /** The year and week branches return the filtered listing once its
      files read. */
  lemma PartitionBranch(f: Folder, listing: seq<string>, datasetType: string, len: nat)
    requires datasetType == "years" || datasetType == "weeks"
    requires ReadsCleanly(f, FilterListing(listing, len))
    ensures AnnotationFilesWith(true, f, listing, datasetType, len) == Success(FilterListing(listing, len))
  {
  }

  /** A listing none of whose names passes the filter filters to nothing. */
  lemma {:induction false} FilterListingNone(listing: seq<string>, len: nat)
    requires forall i :: 0 <= i < |listing| ==> !ListedPartition(listing[i], len)
    ensures FilterListing(listing, len) == []
  {
    if listing != [] {
      var t := listing[1..];
      forall i | 0 <= i < |t|
        ensures !ListedPartition(t[i], len)
      {
        assert t[i] == listing[i + 1];
      }
      FilterListingNone(t, len);
    }
  }

  /** Corrected: every listed partition name is in the annotation's file
      list, and the annotation succeeds with that list exactly when the
      listed files read. */
  lemma AnnotationListsPartitionName(f: Folder, listing: seq<string>, datasetType: string, lo: Date, hi: Date)
    requires datasetType == "years" || datasetType == "weeks"
    requires PartitionName(lo, hi) in listing
    ensures var r, files := AnnotationFiles(true, f, listing, datasetType),
                            ListedFiles(f, listing, datasetType, PartitionNameLength);
      && PartitionName(lo, hi) in files
      && (r.Success? <==> ReadsCleanly(f, files))
      && (r.Success? ==> PartitionName(lo, hi) in r.value)
  {
    PartitionNameShape(lo, hi);
    PartitionNameClear(lo, hi, "");
  }

  /** Corrected: after a year or week export, every file written appears in
      the annotation's file list for any listing of the folder's names; the
      annotation succeeds, listing it, unless some other listed file of the
      same shape cannot be read (the written files are tables). */
  lemma AnnotationListsPartitions(rs: seq<Record>, f: Folder, key: Record -> int, keepAll: bool,
                                  e: Export, listing: seq<string>, datasetType: string, i: int)
    requires DateMonotone(key) && e == Partition(rs, f, key, keepAll)
    requires datasetType == "years" || datasetType == "weeks"
    requires 0 <= i < |e.files|
    requires forall n :: n in listing <==> n in e.folder
    ensures var r, files := AnnotationFiles(true, e.folder, listing, datasetType),
                            ListedFiles(e.folder, listing, datasetType, PartitionNameLength);
      && e.files[i] in files && e.files[i] in e.folder && e.folder[e.files[i]].Table?
      && (r.Success? <==> ReadsCleanly(e.folder, files))
      && (r.Success? ==> e.files[i] in r.value)
  {
    PartitionFileAt(rs, f, key, keepAll, i);
    var g := GroupBy(rs, key)[i].members;
    assert e.files[i] == PartitionName(Earliest(g), Latest(g)) && e.files[i] in listing;
    AnnotationListsPartitionName(e.folder, listing, datasetType, Earliest(g), Latest(g));
  }

  /** An unreadable file of the listing fails the annotation, whatever the
      layout lists besides: `map["dataset.csv" := Unreadable]` for
      `"original"`. */
  lemma UnreadableDatasetFails()
    ensures AnnotationFilesWith(true, map[DatasetName := Unreadable], [], "original", PartitionNameLength)
            == Failure(ReadFailed)
  {
    assert ListedFiles(map[DatasetName := Unreadable], [], "original", PartitionNameLength) == [DatasetName];
  }

  /** Only `pd.read_csv` raising fails the annotation: a 16-character
      `prices_2020a.csv` that reads but has neither column is listed by the
      `"years"` annotation as written. */
  lemma UnusableFileIsAnnotated()
    ensures AnnotationFilesAsWritten(true, map["prices_2020a.csv" := Unusable], ["prices_2020a.csv"], "years")
            == Success(["prices_2020a.csv"])
  {
    var n := "prices_2020a.csv";
    assert n[|n| - 4..] == ".csv";
    assert ListedPartition(n, WrittenNameLength);
    assert FilterListing([n], WrittenNameLength) == [n] + FilterListing([], WrittenNameLength);
    assert ListedFiles(map[n := Unusable], [n], "years", WrittenNameLength) == [n];
    assert ReadsCleanly(map[n := Unusable], [n]);
  }
}
