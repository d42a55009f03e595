/** `lab2_main.DataIterator`: a cursor over the rows of a CSV sorted by date,
    with `next`, `reset` and `get_current_position`. The object's two fields
    (`df`, `current_index`) are a `Cursor` value; each method maps a cursor
    to the next one. */
module Iteration {
  import opened Wrappers
  import opened Calendar
  import opened Records
  import opened Folder

  /** Rows in non-decreasing date order. */
  predicate SortedByDate(rs: seq<Record>) {
    forall i, j :: 0 <= i < j < |rs| ==> Le(rs[i].date, rs[j].date)
  }

  /** Puts `x` in front of the first row not dated before it. */
  function Insert(x: Record, s: seq<Record>): (r: seq<Record>)
    ensures multiset(r) == multiset(s) + multiset{x}
  {
    if s == [] then [x]
    else if Le(x.date, s[0].date) then [x] + s
    else
      assert s == [s[0]] + s[1..];
      [s[0]] + Insert(x, s[1..])
  }

  /** Inserting into a sorted sequence keeps it sorted. */
  lemma {:induction false} InsertSorted(x: Record, s: seq<Record>)
    requires SortedByDate(s)
    ensures SortedByDate(Insert(x, s))
  {
    if s != [] && !Le(x.date, s[0].date) {
      SortedTail(s);
      InsertSorted(x, s[1..]);
      var t := Insert(x, s[1..]);
      assert Insert(x, s) == [s[0]] + t;
      LeTotal(x.date, s[0].date);
      forall i | 0 <= i < |t|
        ensures Le(s[0].date, t[i].date)
      {
        assert t[i] in multiset(t);
        if t[i] != x {
          assert t[i] in multiset(s[1..]);
          var j :| 0 <= j < |s[1..]| && s[1..][j] == t[i];
          assert s[1..][j] == s[j + 1];
        }
      }
      SortedCons(s[0], t);
    } else if s != [] {
      forall i | 0 <= i < |s|
        ensures Le(x.date, s[i].date)
      {
        LeTransitive(x.date, s[0].date, s[i].date);
      }
      SortedCons(x, s);
    }
  }

  lemma SortedTail(s: seq<Record>)
    requires SortedByDate(s) && s != []
    ensures SortedByDate(s[1..])
  {
    forall i, j | 0 <= i < j < |s| - 1
      ensures Le(s[1..][i].date, s[1..][j].date)
    {
      assert s[1..][i] == s[i + 1] && s[1..][j] == s[j + 1];
    }
  }

  /** A row dated no later than every row of a sorted sequence can go in
      front of it. */
  lemma SortedCons(h: Record, t: seq<Record>)
    requires SortedByDate(t) && forall i :: 0 <= i < |t| ==> Le(h.date, t[i].date)
    ensures SortedByDate([h] + t)
  {
    var r := [h] + t;
    forall i, j | 0 <= i < j < |r|
      ensures Le(r[i].date, r[j].date)
    {
      assert r[j] == t[j - 1];
      if i > 0 {
        assert r[i] == t[i - 1];
      }
    }
  }

  /** `df.sort_values("Date")`: the same rows, in date order. */
  function SortByDate(rs: seq<Record>): (r: seq<Record>)
    ensures SortedByDate(r)
    ensures multiset(r) == multiset(rs)
  {
    if rs == [] then []
    else
      var t := SortByDate(rs[1..]);
      InsertSorted(rs[0], t);
      assert rs == [rs[0]] + rs[1..];
      Insert(rs[0], t)
  }

  /** The iterator's state: the sorted frame and `current_index`. */
  datatype Cursor = Cursor(rows: seq<Record>, position: nat)

  /** A position no call ever moves past: the number of rows. */
  predicate Valid(c: Cursor) {
    c.position <= |c.rows|
  }

  /** What `pd.read_csv(filename)` followed by `pd.to_datetime` yields: the
      rows of a file with both columns, `None` for any exception. */
  function ReadFrame(f: Folder, name: string): Option<seq<Record>> {
    if name in f && f[name].Table? then Some(f[name].records) else None
  }

  /** `DataIterator(filename)`: the file's rows sorted by date at position 0;
      a failed read leaves an empty frame, still at position 0. */
  function Init(f: Folder, name: string): (c: Cursor)
    ensures Valid(c) && c.position == 0
    ensures ReadFrame(f, name).None? ==> c.rows == []
    ensures ReadFrame(f, name).Some? ==>
              SortedByDate(c.rows) && multiset(c.rows) == multiset(ReadFrame(f, name).value)
  {
    match ReadFrame(f, name)
    case None => Cursor([], 0)
    case Some(rs) => Cursor(SortByDate(rs), 0)
  }

  /** One row as `next` hands it out: `(row["Date"], row["INR_Rate"])`. */
  function Item(x: Record): (Date, Rate) {
    (x.date, x.rate)
  }

  /** `next()`: `None` once the position reaches the row count, otherwise the
      row at the position, advancing by one. */
  function Next(c: Cursor): (Cursor, Option<(Date, Rate)>) {
    if c.position >= |c.rows| then (c, None)
    else (c.(position := c.position + 1), Some(Item(c.rows[c.position])))
  }

  /** `reset()`. */
  function Reset(c: Cursor): Cursor {
    c.(position := 0)
  }

  /** `get_current_position()`. */
  function Position(c: Cursor): nat {
    c.position
  }

  /** `next` never changes the frame, keeps the position valid, and either
      hands out the row at the position and moves by one, or hands out
      nothing and stays. */
  lemma NextStep(c: Cursor)
    requires Valid(c)
    ensures var (c', item) := Next(c);
      && c'.rows == c.rows && Valid(c')
      && (item.Some? <==> c.position < |c.rows|)
      && (item.Some? ==> Position(c') == Position(c) + 1 && item.value == Item(c.rows[Position(c)]))
      && (item.None? ==> c' == c)
  {
  }

  /** `n` successive calls to `next`, with the items they return. */
  function Run(c: Cursor, n: nat): (r: (Cursor, seq<Option<(Date, Rate)>>))
    ensures |r.1| == n
    decreases n
  {
    if n == 0 then (c, [])
    else
      var (c1, item) := Next(c);
      var (c2, items) := Run(c1, n - 1);
      (c2, [item] + items)
  }

  /** The number of calls in `items` that returned a row. */
  function Successes(items: seq<Option<(Date, Rate)>>): nat {
    if items == [] then 0 else (if items[0].Some? then 1 else 0) + Successes(items[1..])
  }

  function Min(a: int, b: int): int {
    if a <= b then a else b
  }

  /** From position `p`, `n` calls hand out the rows `p, p + 1, ...` while
      they last and `None` afterwards; the position ends `min(p + n, rows)`
      further on, which is the number of calls that returned a row. */
  lemma {:induction false} RunSpec(c: Cursor, n: nat)
    requires Valid(c)
    decreases n
    ensures var (c', items) := Run(c, n);
      && |items| == n && c'.rows == c.rows && Valid(c')
      && Position(c') == Min(Position(c) + n, |c.rows|)
      && Position(c') == Position(c) + Successes(items)
      && forall k :: 0 <= k < n ==>
           items[k] == (if Position(c) + k < |c.rows| then Some(Item(c.rows[Position(c) + k])) else None)
  {
    if n > 0 {
      var (c1, item) := Next(c);
      RunSpec(c1, n - 1);
      var (c2, items) := Run(c1, n - 1);
      assert Run(c, n) == (c2, [item] + items);
      assert ([item] + items)[1..] == items;
      forall k | 0 < k < n
        ensures ([item] + items)[k] == items[k - 1]
      {
      }
    }
  }

  /** Over a sorted frame, the rows `next` hands out come in date order. */
  lemma RunAscending(c: Cursor, n: nat, k1: int, k2: int)
    requires Valid(c) && SortedByDate(c.rows)
    requires 0 <= k1 < k2 < n
    requires Run(c, n).1[k1].Some? && Run(c, n).1[k2].Some?
    ensures Le(Run(c, n).1[k1].value.0, Run(c, n).1[k2].value.0)
  {
    RunSpec(c, n);
  }

  /** Once the rows are used up, `next` keeps returning `None` and the
      position stays put. */
  lemma ExhaustedStays(c: Cursor, n: nat)
    requires Valid(c) && Position(c) == |c.rows|
    ensures Run(c, n).0 == c
    ensures forall k :: 0 <= k < n ==> Run(c, n).1[k].None?
  {
    RunSpec(c, n);
    assert Run(c, n).0.position == c.position;
  }

  /** After `reset`, the next call hands out the first row again and `n`
      calls replay the frame from its start, whatever was consumed before. */
  lemma ResetReplays(c: Cursor, n: nat)
    requires Valid(c)
    ensures Position(Reset(c)) == 0
    ensures |c.rows| > 0 ==> Next(Reset(c)).1 == Some(Item(c.rows[0]))
    ensures var (c', items) := Run(Reset(c), n);
      Position(c') == Successes(items) == Min(n, |c.rows|)
  {
    RunSpec(Reset(c), n);
  }

  /** The iterator of a file walks its rows in ascending date order, each row
      handed out once: `n` calls from the start return a prefix of the sorted
      frame. */
  lemma IteratorWalksSorted(f: Folder, name: string, n: nat)
    ensures var c := Init(f, name);
      var items := Run(c, n).1;
      && (forall k :: 0 <= k < n && k < |c.rows| ==> items[k] == Some(Item(c.rows[k])))
      && (forall k :: 0 <= k < n && k >= |c.rows| ==> items[k].None?)
      && (forall k1, k2 :: 0 <= k1 < k2 < n && items[k1].Some? && items[k2].Some? ==>
            Le(items[k1].value.0, items[k2].value.0))
  {
    var c := Init(f, name);
    RunSpec(c, n);
    forall k1, k2 | 0 <= k1 < k2 < n && Run(c, n).1[k1].Some? && Run(c, n).1[k2].Some?
      ensures Le(Run(c, n).1[k1].value.0, Run(c, n).1[k2].value.0)
    {
      RunAscending(c, n, k1, k2);
    }
  }
}
