/** A directory of CSV files as the lookups see it: a map from file name to what
    `pd.read_csv` makes of the file, and the order in which `glob` lists names. */
module Folder {
  import opened Wrappers
  import opened Text
  import opened Calendar
  import opened Records

  /** The shape a reader finds: both columns, only `Date` (an `X.csv`), only
      `INR_Rate` (a `Y.csv`), a file `pd.read_csv` reads but whose columns no
      lookup can use (neither column, or `Date` texts that `pd.to_datetime`
      rejects), or a file on which `pd.read_csv` itself raises. */
  datatype CsvFile =
    | Table(records: seq<Record>)
    | DateColumn(dates: seq<Date>)
    | RateColumn(rates: seq<Rate>)
    | Unusable
    | Unreadable

  type Folder = map<string, CsvFile>

  const DatasetName: string := "dataset.csv"
  const XName: string := "X.csv"
  const YName: string := "Y.csv"

  /** `f in ["X.csv", "Y.csv", "dataset.csv"]`. */
  predicate IsReservedName(n: string) {
    n == XName || n == YName || n == DatasetName
  }

  /** `any(excluded in s for excluded in ["X.csv", "Y.csv", "dataset.csv"])`. */
  predicate MentionsReserved(s: string) {
    Contains(s, XName) || Contains(s, YName) || Contains(s, DatasetName)
  }

  /** `fnmatch(n, f"{year}*.csv")`: the year's digits, anything, then `.csv`. */
  predicate MatchesYearGlob(n: string, year: nat) {
    var p := NatToString(year);
    |p| + 4 <= |n| && StartsWith(n, p) && EndsWith(n, ".csv")
  }

  /** `fnmatch(n, "*_*.csv")`: an underscore before the final `.csv`; a leading
      `*` never matches a hidden name. */
  predicate MatchesWeekGlob(n: string) {
    && |n| > 0 && n[0] != '.'
    && EndsWith(n, ".csv")
    && exists i | 0 <= i < |n| - 4 :: n[i] == '_'
  }

  /** `glob`: the listed names that match, in listing order. */
  function GlobYear(listing: seq<string>, year: nat): (r: seq<string>)
    ensures forall n :: n in r <==> n in listing && MatchesYearGlob(n, year)
  {
    if listing == [] then []
    else (if MatchesYearGlob(listing[0], year) then [listing[0]] else []) + GlobYear(listing[1..], year)
  }

  function GlobWeek(listing: seq<string>): (r: seq<string>)
    ensures forall n :: n in r <==> n in listing && MatchesWeekGlob(n)
  {
    if listing == [] then []
    else (if MatchesWeekGlob(listing[0]) then [listing[0]] else []) + GlobWeek(listing[1..])
  }

  /** `os.path.join(dir, name)` for a relative `name`. */
  function Join(dir: string, name: string): string {
    if dir == [] then name
    else if EndsWith(dir, "/") then dir + name
    else dir + "/" + name
  }

  /** Which names a scan passes over: exactly the reserved names (`lab2_main`'s
      week lookup), names containing one (its year lookup), or joined paths
      containing one (the GUI's lookups, which test the full path). */
  datatype Exclusion = ExactName | NameSubstring | PathSubstring(dir: string)

  predicate Excluded(ex: Exclusion, n: string) {
    match ex
    case ExactName => IsReservedName(n)
    case NameSubstring => MentionsReserved(n)
    case PathSubstring(dir) => MentionsReserved(Join(dir, n))
  }

  /** Each variant passes over the reserved names themselves. */
  lemma ReservedExcluded(ex: Exclusion, n: string)
    requires IsReservedName(n)
    ensures Excluded(ex, n)
  {
    assert OccursAt(n, n, 0);
    match ex
    case ExactName =>
    case NameSubstring =>
    case PathSubstring(dir) =>
      var j := Join(dir, n);
      var k := |j| - |n|;
      assert j[k..k + |n|] == n;
      assert OccursAt(j, n, k);
  }

  /** Outcome of reading one file and filtering it by date. */
  datatype Probe = Hit(rate: Rate) | Miss | Fail

  /** `df = pd.read_csv(n); df[df["Date"] == v]["INR_Rate"].iloc[0]`: a file
      without a `Date` column, a missing file, or a match in a file without an
      `INR_Rate` column raises. */
  function ProbeFile(f: Folder, n: string, v: DayValue): (p: Probe)
    ensures p.Hit? ==> n in f && f[n].Table? && FirstRateAt(f[n].records, v) == Some(p.rate)
    ensures n in f && f[n].Table? ==> p != Fail
    ensures p.Miss? <==> n in f && ((f[n].Table? && FirstRateAt(f[n].records, v).None?)
                                    || (f[n].DateColumn? && FirstMatch(f[n].dates, v).None?))
  {
    if n !in f then Fail
    else match f[n]
      case Table(rs) => (match FirstRateAt(rs, v) case Some(r) => Hit(r) case None => Miss)
      case DateColumn(ds) => if FirstMatch(ds, v).Some? then Fail else Miss
      case RateColumn(_) => Fail
      case Unusable => Fail
      case Unreadable => Fail
  }

  /** The `for file in files` loop: skip excluded names, return the first hit,
      keep going on a miss; an exception ends the whole lookup with `None`. */
  function Scan(f: Folder, names: seq<string>, ex: Exclusion, v: DayValue): (r: Option<Rate>)
    ensures r.Some? ==> exists k :: 0 <= k < |names| && !Excluded(ex, names[k]) && ProbeFile(f, names[k], v) == Hit(r.value)
  {
    if names == [] then None
    else if Excluded(ex, names[0]) then Scan(f, names[1..], ex, v)
    else match ProbeFile(f, names[0], v)
      case Hit(r) => Some(r)
      case Miss =>
        var r := Scan(f, names[1..], ex, v);
        assert r.Some? ==> exists k :: 1 <= k < |names| && !Excluded(ex, names[k]) && ProbeFile(f, names[k], v) == Hit(r.value) by {
          if r.Some? {
            var k :| 0 <= k < |names[1..]| && !Excluded(ex, names[1..][k]) && ProbeFile(f, names[1..][k], v) == Hit(r.value);
            assert names[k + 1] == names[1..][k];
          }
        }
        r
      case Fail => None
  }

  /** A character that no reserved name starts with can keep a text clear of
      every reserved name. */
  lemma AbsentFirstChar(s: string, p: string)
    requires |p| > 0 && forall k :: 0 <= k < |s| ==> s[k] != p[0]
    ensures !Contains(s, p)
  {
    forall i | 0 <= i <= |s| - |p|
      ensures !OccursAt(s, p, i)
    {
      assert s[i..i + |p|][0] == s[i];
    }
  }

  /** A path joined from a directory that mentions no reserved name and a name
      that holds none of the letters `X`, `Y`, `d` mentions no reserved name:
      an occurrence cannot straddle the separator, since no reserved name holds
      a `/`. */
  lemma {:induction false} JoinClear(dir: string, n: string)
    requires !MentionsReserved(dir)
    requires forall k :: 0 <= k < |n| ==> n[k] != 'X' && n[k] != 'Y' && n[k] != 'd'
    ensures !MentionsReserved(Join(dir, n))
  {
    JoinClearOf(dir, n, XName);
    JoinClearOf(dir, n, YName);
    JoinClearOf(dir, n, DatasetName);
  }

  lemma {:induction false} JoinClearOf(dir: string, n: string, p: string)
    requires p == XName || p == YName || p == DatasetName
    requires !Contains(dir, p)
    requires forall k :: 0 <= k < |n| ==> n[k] != p[0]
    ensures !Contains(Join(dir, n), p)
  {
    var j := Join(dir, n);
    var a := |j| - |n|;
    assert j[a..] == n;
    assert j[..|dir|] == dir;
    forall i | 0 <= i <= |j| - |p|
      ensures !OccursAt(j, p, i)
    {
      var w := j[i..i + |p|];
      if i >= a {
        assert w[0] == j[i] == n[i - a];
      } else if i + |p| <= |dir| {
        assert w == dir[i..i + |p|];
        assert !OccursAt(dir, p, i);
      } else {
        // The window covers the separator at |dir|, or dir's own final '/'.
        var sep := if EndsWith(dir, "/") then |dir| - 1 else |dir|;
        assert j[sep] == '/';
        assert w[sep - i] == '/';
      }
    }
  }

  predicate Distinct(names: seq<string>) {
    forall i, j :: 0 <= i < j < |names| ==> names[i] != names[j]
  }

  /** `to_csv` for each (name, content) pair in turn; a later write to a name
      replaces an earlier one. */
  function WriteAll(f: Folder, names: seq<string>, files: seq<CsvFile>): Folder
    requires |names| == |files|
    decreases |names|
  {
    if names == [] then f else WriteAll(f[names[0] := files[0]], names[1..], files[1..])
  }

  /** A loop that writes the files one by one and counts them. */
  method WriteEach(f: Folder, names: seq<string>, files: seq<CsvFile>) returns (created: nat, w: Folder)
    requires |names| == |files|
    ensures created == |names| && w == WriteAll(f, names, files)
  {
    created, w := 0, f;
    while created < |names|
      invariant 0 <= created <= |names|
      invariant WriteAll(w, names[created..], files[created..]) == WriteAll(f, names, files)
    {
      assert names[created..][1..] == names[created + 1..];
      assert files[created..][1..] == files[created + 1..];
      w := w[names[created] := files[created]];
      created := created + 1;
    }
  }

  /** Writing under pairwise different names leaves each content under its
      name and every other name as it was. */
  lemma {:induction false} WriteAllSpec(f: Folder, names: seq<string>, files: seq<CsvFile>)
    requires |names| == |files| && Distinct(names)
    ensures var w := WriteAll(f, names, files);
      && (forall i :: 0 <= i < |names| ==> names[i] in w && w[names[i]] == files[i])
      && (forall n :: n !in names ==> (n in w <==> n in f) && (n in f ==> w[n] == f[n]))
    decreases |names|
  {
    if names != [] {
      var f1 := f[names[0] := files[0]];
      var w := WriteAll(f, names, files);
      WriteAllSpec(f1, names[1..], files[1..]);
      forall i | 0 <= i < |names|
        ensures names[i] in w && w[names[i]] == files[i]
      {
        if i == 0 {
          assert names[0] !in names[1..];
        } else {
          assert names[1..][i - 1] == names[i];
        }
      }
      forall n | n !in names
        ensures (n in w <==> n in f) && (n in f ==> w[n] == f[n])
      {
        assert n !in names[1..];
      }
    }
  }
}
