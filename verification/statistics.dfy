/** The reductions pandas applies to a rate column: `mean`, `median`, `min`
    and `max`, each skipping `NaN` and giving `NaN` when nothing is left. */
module Statistics {
  import opened Records

  /** The present values, in order: what every reduction works on. */
  function Present(vs: seq<Rate>): (xs: seq<real>)
    ensures |xs| <= |vs|
    ensures forall x {:trigger x in xs} :: x in xs <==> Amount(x) in vs
  {
    if vs == [] then []
    else
      assert vs == [vs[0]] + vs[1..];
      (match vs[0] case Amount(x) => [x] case NaN => []) + Present(vs[1..])
  }

  lemma PresentCons(v: Rate, vs: seq<Rate>)
    ensures v.Amount? ==> Present([v] + vs) == [v.value] + Present(vs)
    ensures v.NaN? ==> Present([v] + vs) == Present(vs)
  {
    assert ([v] + vs)[0] == v && ([v] + vs)[1..] == vs;
  }

  /** `isnull().sum()`: the number of missing values. */
  function NaNCount(vs: seq<Rate>): (n: nat)
    ensures n + |Present(vs)| == |vs|
    ensures n == 0 <==> NaN !in vs
  {
    if vs == [] then 0
    else
      assert vs == [vs[0]] + vs[1..];
      (if vs[0].NaN? then 1 else 0) + NaNCount(vs[1..])
  }

  function Sum(xs: seq<real>): real {
    if xs == [] then 0.0 else xs[0] + Sum(xs[1..])
  }

  lemma {:induction false} SumAppend(a: seq<real>, b: seq<real>)
    ensures Sum(a + b) == Sum(a) + Sum(b)
  {
    if a == [] {
      assert a + b == b;
    } else {
      assert (a + b)[0] == a[0] && (a + b)[1..] == a[1..] + b;
      SumAppend(a[1..], b);
    }
  }

  /** Values all within [lo, hi] sum to within [n lo, n hi]. */
  lemma {:induction false} SumBounds(xs: seq<real>, lo: real, hi: real)
    requires forall i :: 0 <= i < |xs| ==> lo <= xs[i] <= hi
    ensures |xs| as real * lo <= Sum(xs) <= |xs| as real * hi
  {
    if xs != [] {
      SumBounds(xs[1..], lo, hi);
    }
  }

  /** The mean of a non-empty sequence of values. */
  function MeanOf(xs: seq<real>): (m: real)
    requires |xs| > 0
    ensures |xs| as real * m == Sum(xs)
  {
    Sum(xs) / |xs| as real
  }

  /** `Series.mean()`. */
  function Mean(vs: seq<Rate>): (r: Rate)
    ensures r.NaN? <==> |Present(vs)| == 0
  {
    var xs := Present(vs);
    if |xs| == 0 then NaN else Amount(MeanOf(xs))
  }

  lemma QuotientBounds(s: real, n: real, lo: real, hi: real)
    requires n > 0.0 && n * lo <= s <= n * hi
    ensures lo <= s / n <= hi
  {
  }

  lemma MeanOfBounds(xs: seq<real>, lo: real, hi: real)
    requires |xs| > 0
    requires forall i :: 0 <= i < |xs| ==> lo <= xs[i] <= hi
    ensures lo <= MeanOf(xs) <= hi
  {
    SumBounds(xs, lo, hi);
    QuotientBounds(Sum(xs), |xs| as real, lo, hi);
  }

  /** The mean of values within [lo, hi] lies within [lo, hi]. */
  lemma MeanBounds(vs: seq<Rate>, lo: real, hi: real)
    requires forall x :: Amount(x) in vs ==> lo <= x <= hi
    ensures Mean(vs).Amount? ==> lo <= Mean(vs).value <= hi
  {
    var xs := Present(vs);
    if |xs| > 0 {
      forall i | 0 <= i < |xs|
        ensures lo <= xs[i] <= hi
      {
        assert xs[i] in xs;
      }
      MeanOfBounds(xs, lo, hi);
    }
  }

  /** Every value shifted by `c`. */
  function Shift(xs: seq<real>, c: real): (ys: seq<real>)
    ensures |ys| == |xs|
    ensures forall i :: 0 <= i < |xs| ==> ys[i] == xs[i] - c
  {
    if xs == [] then [] else [xs[0] - c] + Shift(xs[1..], c)
  }

  lemma {:induction false} SumShift(xs: seq<real>, c: real)
    ensures Sum(Shift(xs, c)) == Sum(xs) - |xs| as real * c
  {
    if xs != [] {
      assert Shift(xs, c)[1..] == Shift(xs[1..], c);
      SumShift(xs[1..], c);
    }
  }

  /** The deviations of the present values from their mean `m` sum to zero. */
  lemma DeviationsFromMeanSumToZero(vs: seq<Rate>, m: real)
    requires Mean(vs) == Amount(m)
    ensures Sum(Shift(Present(vs), m)) == 0.0
  {
    var xs := Present(vs);
    assert |xs| > 0 && m == MeanOf(xs);
    ShiftByMean(xs, m);
  }

  lemma ShiftByMean(xs: seq<real>, m: real)
    requires |xs| as real * m == Sum(xs)
    ensures Sum(Shift(xs, m)) == 0.0
  {
    SumShift(xs, m);
  }

  /** `a - b` on rates: `NaN` when either side is. */
  function Minus(a: Rate, b: Rate): (r: Rate)
    ensures r.NaN? <==> a.NaN? || b.NaN?
  {
    if a.Amount? && b.Amount? then Amount(a.value - b.value) else NaN
  }

  /** `abs` on rates. */
  function AbsRate(a: Rate): (r: Rate)
    ensures r.NaN? <==> a.NaN?
    ensures r.Amount? ==> r.value >= 0.0 && (r.value == a.value || r.value == -a.value)
  {
    match a
    case NaN => NaN
    case Amount(x) => Amount(if x < 0.0 then -x else x)
  }

  /** Subtracting `m` from every rate shifts the present values by `m`. */
  lemma {:induction false} PresentMinus(vs: seq<Rate>, ds: seq<Rate>, m: real)
    requires |ds| == |vs|
    requires forall i :: 0 <= i < |vs| ==> ds[i] == Minus(vs[i], Amount(m))
    ensures Present(ds) == Shift(Present(vs), m)
  {
    if vs != [] {
      var vt, dt := vs[1..], ds[1..];
      forall i | 0 <= i < |vt|
        ensures dt[i] == Minus(vt[i], Amount(m))
      {
        assert dt[i] == ds[i + 1] && vt[i] == vs[i + 1];
      }
      PresentMinus(vt, dt, m);
      assert vs == [vs[0]] + vt && ds == [ds[0]] + dt;
      PresentMinusStep(vs[0], ds[0], vt, dt, m);
    }
  }

  lemma PresentMinusStep(v: Rate, d: Rate, vt: seq<Rate>, dt: seq<Rate>, m: real)
    requires d == Minus(v, Amount(m)) && Present(dt) == Shift(Present(vt), m)
    ensures Present([d] + dt) == Shift(Present([v] + vt), m)
  {
    match v
    case Amount(x) =>
      assert d == Amount(x - m);
      PresentAmountStep(x, vt, dt, m);
    case NaN =>
      PresentCons(v, vt);
      PresentCons(d, dt);
  }

  lemma PresentAmountStep(x: real, vt: seq<Rate>, dt: seq<Rate>, m: real)
    requires Present(dt) == Shift(Present(vt), m)
    ensures Present([Amount(x - m)] + dt) == Shift(Present([Amount(x)] + vt), m)
  {
    var p := Present(vt);
    PresentCons(Amount(x - m), dt);
    PresentCons(Amount(x), vt);
    ShiftCons(x, p, m);
    calc {
      Present([Amount(x - m)] + dt);
      [x - m] + Present(dt);
      [x - m] + Shift(p, m);
      Shift([x] + p, m);
      Shift(Present([Amount(x)] + vt), m);
    }
  }

  lemma ShiftCons(x: real, xs: seq<real>, c: real)
    ensures Shift([x] + xs, c) == [x - c] + Shift(xs, c)
  {
    assert ([x] + xs)[1..] == xs;
  }

  /** `Series.min()`. */
  function MinRate(vs: seq<Rate>): (r: Rate)
    ensures r.NaN? <==> |Present(vs)| == 0
    ensures r.Amount? ==> Amount(r.value) in vs && forall x :: Amount(x) in vs ==> r.value <= x
  {
    if vs == [] then NaN
    else
      assert vs == [vs[0]] + vs[1..];
      var m := MinRate(vs[1..]);
      match vs[0]
      case NaN => m
      case Amount(x) =>
        assert x in Present(vs);
        assert forall y :: Amount(y) in vs[1..] ==> y in Present(vs[1..]);
        if m.NaN? || x <= m.value then Amount(x) else m
  }

  /** `Series.max()`. */
  function MaxRate(vs: seq<Rate>): (r: Rate)
    ensures r.NaN? <==> |Present(vs)| == 0
    ensures r.Amount? ==> Amount(r.value) in vs && forall x :: Amount(x) in vs ==> x <= r.value
  {
    if vs == [] then NaN
    else
      assert vs == [vs[0]] + vs[1..];
      var m := MaxRate(vs[1..]);
      match vs[0]
      case NaN => m
      case Amount(x) =>
        assert x in Present(vs);
        assert forall y :: Amount(y) in vs[1..] ==> y in Present(vs[1..]);
        if m.NaN? || m.value <= x then Amount(x) else m
  }

  predicate SortedReals(s: seq<real>) {
    forall i, j :: 0 <= i < j < |s| ==> s[i] <= s[j]
  }

  function InsertReal(x: real, s: seq<real>): (r: seq<real>)
    ensures multiset(r) == multiset(s) + multiset{x}
  {
    if s == [] then [x]
    else if x <= s[0] then [x] + s
    else
      assert s == [s[0]] + s[1..];
      [s[0]] + InsertReal(x, s[1..])
  }

  lemma {:induction false} InsertRealSorted(x: real, s: seq<real>)
    requires SortedReals(s)
    ensures SortedReals(InsertReal(x, s))
  {
    if s != [] && x > s[0] {
      SortedTail(s);
      InsertRealSorted(x, s[1..]);
      var t := InsertReal(x, s[1..]);
      assert InsertReal(x, s) == [s[0]] + t;
      forall y | y in multiset(s[1..])
        ensures s[0] <= y
      {
        var j :| 0 <= j < |s[1..]| && s[1..][j] == y;
        assert y == s[j + 1];
      }
      BoundedBelow(t, s[1..], x, s[0]);
      SortedCons(s[0], t);
    } else if s != [] {
      forall i | 0 <= i < |s|
        ensures x <= s[i]
      {
      }
      SortedCons(x, s);
    }
  }

  /** A sequence holding `x` and the values of `s` is bounded below by a
      bound of both. */
  lemma BoundedBelow(t: seq<real>, s: seq<real>, x: real, h: real)
    requires multiset(t) == multiset(s) + multiset{x}
    requires h <= x && forall y :: y in multiset(s) ==> h <= y
    ensures forall i :: 0 <= i < |t| ==> h <= t[i]
  {
    forall i | 0 <= i < |t|
      ensures h <= t[i]
    {
      assert t[i] in multiset(t);
    }
  }

  lemma SortedCons(h: real, t: seq<real>)
    requires SortedReals(t) && forall i :: 0 <= i < |t| ==> h <= t[i]
    ensures SortedReals([h] + t)
  {
    var r := [h] + t;
    forall i, j | 0 <= i < j < |r|
      ensures r[i] <= r[j]
    {
      assert r[j] == t[j - 1];
      if i > 0 {
        assert r[i] == t[i - 1];
      }
    }
  }

  /** The present values in ascending order. */
  function SortReals(xs: seq<real>): (s: seq<real>)
    ensures SortedReals(s)
    ensures multiset(s) == multiset(xs)
  {
    if xs == [] then []
    else
      assert xs == [xs[0]] + xs[1..];
      InsertRealSorted(xs[0], SortReals(xs[1..]));
      InsertReal(xs[0], SortReals(xs[1..]))
  }

  lemma SortedTail(s: seq<real>)
    requires SortedReals(s) && s != []
    ensures SortedReals(s[1..])
  {
    forall i, j | 0 <= i < j < |s| - 1
      ensures s[1..][i] <= s[1..][j]
    {
      assert s[1..][i] == s[i + 1] && s[1..][j] == s[j + 1];
    }
  }

  /** The head of a sorted sequence is its least element. */
  lemma HeadIsLeast(s: seq<real>, x: real)
    requires SortedReals(s) && x in multiset(s)
    ensures s[0] <= x
  {
    var i :| 0 <= i < |s| && s[i] == x;
  }

  lemma MultisetSplit(s: seq<real>)
    requires s != []
    ensures multiset(s) == multiset{s[0]} + multiset(s[1..])
  {
    assert s == [s[0]] + s[1..];
  }

  /** A multiset has one sorted arrangement. */
  lemma {:induction false} SortedUnique(a: seq<real>, b: seq<real>)
    requires SortedReals(a) && SortedReals(b)
    requires multiset(a) == multiset(b)
    ensures a == b
    decreases |a|
  {
    assert |a| == |multiset(a)| == |b|;
    if a != [] {
      assert b[0] in multiset(b) && a[0] in multiset(a);
      HeadIsLeast(a, b[0]);
      HeadIsLeast(b, a[0]);
      SameTails(a, b);
      SortedTail(a);
      SortedTail(b);
      SortedUnique(a[1..], b[1..]);
      calc {
        a;
        [a[0]] + a[1..];
        [b[0]] + b[1..];
        b;
      }
    }
  }

  /** Equal multisets with equal heads have equal tails. */
  lemma SameTails(a: seq<real>, b: seq<real>)
    requires a != [] && b != [] && a[0] == b[0] && multiset(a) == multiset(b)
    ensures multiset(a[1..]) == multiset(b[1..])
  {
    MultisetSplit(a);
    MultisetSplit(b);
    calc {
      multiset(a[1..]);
      multiset(a) - multiset{a[0]};
      multiset(b) - multiset{b[0]};
      multiset(b[1..]);
    }
  }

  /** The middle of a sorted sequence: its middle element, or the mean of
      the two middle ones when its length is even. */
  function Middle(s: seq<real>): Rate {
    var n := |s|;
    if n == 0 then NaN
    else if n % 2 == 1 then Amount(s[n / 2])
    else Amount((s[n / 2 - 1] + s[n / 2]) / 2.0)
  }

  /** `Series.median()`. */
  function Median(vs: seq<Rate>): (r: Rate)
    ensures r.NaN? <==> |Present(vs)| == 0
  {
    var s := SortReals(Present(vs));
    assert |s| == |multiset(s)| == |Present(vs)|;
    Middle(s)
  }

  /** The median depends on the multiset of present values only, not on the
      order of the rows or on where the missing values sit. */
  lemma MedianPermutation(vs: seq<Rate>, ws: seq<Rate>)
    requires multiset(Present(vs)) == multiset(Present(ws))
    ensures Median(vs) == Median(ws)
  {
    var s, t := SortReals(Present(vs)), SortReals(Present(ws));
    SortedUnique(s, t);
    assert Median(vs) == Middle(s) && Median(ws) == Middle(t);
  }

  /** The median lies between the minimum and the maximum. */
  lemma MedianBounds(vs: seq<Rate>)
    requires Median(vs).Amount?
    ensures MinRate(vs).value <= Median(vs).value <= MaxRate(vs).value
  {
    var xs := Present(vs);
    var s := SortReals(xs);
    forall i | 0 <= i < |s|
      ensures MinRate(vs).value <= s[i] <= MaxRate(vs).value
    {
      assert s[i] in multiset(xs);
      assert s[i] in xs;
      assert Amount(s[i]) in vs;
    }
  }

  /** The number of values satisfying `p`. */
  function Count(xs: seq<real>, p: real -> bool): (n: nat)
    ensures n <= |xs|
  {
    if xs == [] then 0 else (if p(xs[0]) then 1 else 0) + Count(xs[1..], p)
  }

  lemma {:induction false} CountAppend(a: seq<real>, b: seq<real>, p: real -> bool)
    ensures Count(a + b, p) == Count(a, p) + Count(b, p)
  {
    if a == [] {
      assert a + b == b;
    } else {
      assert (a + b)[0] == a[0] && (a + b)[1..] == a[1..] + b;
      CountAppend(a[1..], b, p);
    }
  }

  lemma {:induction false} CountAll(xs: seq<real>, p: real -> bool)
    requires forall i :: 0 <= i < |xs| ==> p(xs[i])
    ensures Count(xs, p) == |xs|
  {
    if xs != [] {
      CountAll(xs[1..], p);
    }
  }

  /** Taking out the element at `k`. */
  lemma RemoveAt(b: seq<real>, k: int, p: real -> bool)
    requires 0 <= k < |b|
    ensures multiset(b[..k] + b[k + 1..]) == multiset(b) - multiset{b[k]}
    ensures Count(b, p) == Count(b[..k] + b[k + 1..], p) + (if p(b[k]) then 1 else 0)
  {
    var l, x, r := b[..k], b[k], b[k + 1..];
    assert b == l + ([x] + r);
    RemoveAtMultiset(l, x, r);
    RemoveAtCount(l, x, r, p);
  }

  lemma RemoveAtCount(l: seq<real>, x: real, r: seq<real>, p: real -> bool)
    ensures Count(l + ([x] + r), p) == Count(l + r, p) + (if p(x) then 1 else 0)
  {
    assert ([x] + r)[1..] == r;
    calc {
      Count(l + ([x] + r), p);
      { CountAppend(l, [x] + r, p); }
      Count(l, p) + Count([x] + r, p);
      Count(l, p) + (if p(x) then 1 else 0) + Count(r, p);
      { CountAppend(l, r, p); }
      Count(l + r, p) + (if p(x) then 1 else 0);
    }
  }

  lemma RemoveAtMultiset(l: seq<real>, x: real, r: seq<real>)
    ensures multiset(l + r) == multiset(l + ([x] + r)) - multiset{x}
  {
    calc {
      multiset(l + ([x] + r));
      multiset(l) + multiset([x] + r);
      multiset(l) + (multiset{x} + multiset(r));
    }
    assert multiset(l + r) == multiset(l) + multiset(r);
  }

  /** Counting depends on the multiset only. */
  lemma {:induction false} CountPermutation(a: seq<real>, b: seq<real>, p: real -> bool)
    requires multiset(a) == multiset(b)
    ensures Count(a, p) == Count(b, p)
    decreases |a|
  {
    assert |a| == |multiset(a)| == |b|;
    if a != [] {
      assert a[0] in multiset(b);
      var k :| 0 <= k < |b| && b[k] == a[0];
      RemoveAt(b, k, p);
      MultisetSplit(a);
      assert multiset(a[1..]) == multiset(a) - multiset{a[0]};
      CountPermutation(a[1..], b[..k] + b[k + 1..], p);
    }
  }

  /** The number of values at most `m`, and at least `m`. */
  function CountAtMost(xs: seq<real>, m: real): nat {
    Count(xs, x => x <= m)
  }

  function CountAtLeast(xs: seq<real>, m: real): nat {
    Count(xs, x => x >= m)
  }

  /** A prefix of `h` values satisfying `p` counts at least `h`. */
  lemma CountPrefix(s: seq<real>, h: int, p: real -> bool)
    requires 0 <= h <= |s|
    requires forall i :: 0 <= i < h ==> p(s[i])
    ensures Count(s, p) >= h
  {
    assert s == s[..h] + s[h..];
    CountAll(s[..h], p);
    CountAppend(s[..h], s[h..], p);
  }

  /** A suffix from `h` on satisfying `p` counts at least `|s| - h`. */
  lemma CountSuffix(s: seq<real>, h: int, p: real -> bool)
    requires 0 <= h <= |s|
    requires forall i :: h <= i < |s| ==> p(s[i])
    ensures Count(s, p) >= |s| - h
  {
    assert s == s[..h] + s[h..];
    assert forall i :: 0 <= i < |s| - h ==> s[h..][i] == s[h + i];
    CountAll(s[h..], p);
    CountAppend(s[..h], s[h..], p);
  }

  /** The middle of a sorted sequence has half of it on each side. */
  lemma MiddleSplitsInHalf(s: seq<real>)
    requires SortedReals(s) && |s| > 0
    ensures 2 * CountAtMost(s, Middle(s).value) >= |s|
    ensures 2 * CountAtLeast(s, Middle(s).value) >= |s|
  {
    var n := |s|;
    var m := Middle(s).value;
    var h := if n % 2 == 1 then n / 2 + 1 else n / 2;
    assert s[h - 1] <= m <= s[n / 2];
    forall i | 0 <= i < h
      ensures s[i] <= m
    {
      assert s[i] <= s[h - 1];
    }
    forall i | n / 2 <= i < n
      ensures s[i] >= m
    {
      assert s[n / 2] <= s[i];
    }
    CountPrefix(s, h, x => x <= m);
    CountSuffix(s, n / 2, x => x >= m);
  }

  /** At least half of the present values lie at or below the median, and at
      least half at or above it. */
  lemma MedianSplitsInHalf(vs: seq<Rate>)
    requires Median(vs).Amount?
    ensures 2 * CountAtMost(Present(vs), Median(vs).value) >= |Present(vs)|
    ensures 2 * CountAtLeast(Present(vs), Median(vs).value) >= |Present(vs)|
  {
    var xs := Present(vs);
    var s := SortReals(xs);
    var m := Median(vs).value;
    assert |s| == |multiset(s)| == |xs|;
    MiddleSplitsInHalf(s);
    CountPermutation(xs, s, x => x <= m);
    CountPermutation(xs, s, x => x >= m);
  }
}
