/** `DataFrame.groupby` on an integer key: the non-empty groups in ascending key
    order, each holding its rows in their original order. */
module Grouping {

  /** `df[key == k]`: the elements whose key is `k`, in their original order. */
  function Select<T(!new)>(s: seq<T>, key: T -> int, k: int): (g: seq<T>)
    ensures |g| <= |s|
    ensures forall x :: x in g <==> x in s && key(x) == k
  {
    if s == [] then []
    else
      assert s == [s[0]] + s[1..];
      (if key(s[0]) == k then [s[0]] else []) + Select(s[1..], key, k)
  }

  /** `Select` keeps every occurrence of a matching element and nothing else. */
  lemma {:induction false} SelectCount<T(!new)>(s: seq<T>, key: T -> int, k: int, x: T)
    ensures multiset(Select(s, key, k))[x] == if key(x) == k then multiset(s)[x] else 0
  {
    if s != [] {
      SelectCount(s[1..], key, k, x);
      assert s == [s[0]] + s[1..];
    }
  }

  /** The elements whose key lies in [lo, hi], in their original order. */
  function SelectBetween<T(!new)>(s: seq<T>, key: T -> int, lo: int, hi: int): (g: seq<T>)
    ensures forall x :: x in g <==> x in s && lo <= key(x) <= hi
  {
    if s == [] then []
    else (if lo <= key(s[0]) <= hi then [s[0]] else []) + SelectBetween(s[1..], key, lo, hi)
  }

  datatype Group<T> = Group(key: int, members: seq<T>)

  /** Every group is non-empty and holds exactly the elements with its key. */
  ghost predicate ExactGroups<T(!new)>(s: seq<T>, key: T -> int, gs: seq<Group<T>>) {
    forall i :: 0 <= i < |gs| ==> |gs[i].members| > 0 && gs[i].members == Select(s, key, gs[i].key)
  }

  ghost predicate StrictlyAscending<T(!new)>(gs: seq<Group<T>>) {
    forall i, j :: 0 <= i < j < |gs| ==> gs[i].key < gs[j].key
  }

  /** The groups for the keys lo, lo + 1, ..., hi, skipping the empty ones (the
      exporters' `if not group.empty` guard). */
  function GroupsBetween<T(!new)>(s: seq<T>, key: T -> int, lo: int, hi: int): seq<Group<T>>
    decreases hi - lo
  {
    if lo > hi then [] else HeadGroup(s, key, lo) + GroupsBetween(s, key, lo + 1, hi)
  }

  /** The group for key `k`, or nothing when no element has that key. */
  function HeadGroup<T(!new)>(s: seq<T>, key: T -> int, k: int): seq<Group<T>> {
    var g := Select(s, key, k);
    if |g| > 0 then [Group(k, g)] else []
  }

  /** The groups of `GroupsBetween` carry keys in [lo, hi], in ascending order. */
  lemma {:induction false} GroupsBetweenKeys<T(!new)>(s: seq<T>, key: T -> int, lo: int, hi: int)
    ensures var gs := GroupsBetween(s, key, lo, hi);
      && (forall i :: 0 <= i < |gs| ==> lo <= gs[i].key <= hi)
      && StrictlyAscending(gs)
    decreases hi - lo
  {
    if lo <= hi {
      var g := Select(s, key, lo);
      var rest := GroupsBetween(s, key, lo + 1, hi);
      GroupsBetweenKeys(s, key, lo + 1, hi);
      if |g| > 0 {
        var gs := [Group(lo, g)] + rest;
        assert gs == GroupsBetween(s, key, lo, hi);
        forall i | 0 <= i < |gs|
          ensures lo <= gs[i].key <= hi
        {
          if i > 0 {
            assert gs[i] == rest[i - 1];
          }
        }
        forall i, j | 0 <= i < j < |gs|
          ensures gs[i].key < gs[j].key
        {
          assert gs[j] == rest[j - 1];
          if i > 0 {
            assert gs[i] == rest[i - 1];
          }
        }
      }
    }
  }

  /** Every group of `GroupsBetween` is non-empty and holds exactly the elements
      with its key. */
  lemma {:induction false} GroupsBetweenExact<T(!new)>(s: seq<T>, key: T -> int, lo: int, hi: int)
    ensures ExactGroups(s, key, GroupsBetween(s, key, lo, hi))
    decreases hi - lo
  {
    if lo <= hi {
      var g := Select(s, key, lo);
      var rest := GroupsBetween(s, key, lo + 1, hi);
      GroupsBetweenExact(s, key, lo + 1, hi);
      if |g| > 0 {
        var gs := [Group(lo, g)] + rest;
        assert forall j :: 0 <= j < |rest| ==> gs[j + 1] == rest[j];
      }
    }
  }

  /** Every element whose key lies in [lo, hi] has a group in `GroupsBetween`. */
  lemma GroupsBetweenCovers<T(!new)>(s: seq<T>, key: T -> int, lo: int, hi: int, x: T)
    requires x in s && lo <= key(x) <= hi
    ensures exists i :: 0 <= i < |GroupsBetween(s, key, lo, hi)| && GroupsBetween(s, key, lo, hi)[i].key == key(x)
  {
    var i := GroupsBetweenIndex(s, key, lo, hi, x);
  }

  /** The position of that group. */
  lemma {:induction false} GroupsBetweenIndex<T(!new)>(s: seq<T>, key: T -> int, lo: int, hi: int, x: T)
    returns (i: nat)
    requires x in s && lo <= key(x) <= hi
    ensures i < |GroupsBetween(s, key, lo, hi)| && GroupsBetween(s, key, lo, hi)[i].key == key(x)
    decreases hi - lo
  {
    var h := HeadGroup(s, key, lo);
    var rest := GroupsBetween(s, key, lo + 1, hi);
    assert GroupsBetween(s, key, lo, hi) == h + rest;
    if key(x) == lo {
      HeadGroupHolds(s, key, x);
      i := 0;
    } else {
      var j := GroupsBetweenIndex(s, key, lo + 1, hi, x);
      i := |h| + j;
      assert (h + rest)[i] == rest[j];
    }
  }

  lemma HeadGroupHolds<T(!new)>(s: seq<T>, key: T -> int, x: T)
    requires x in s
    ensures |HeadGroup(s, key, key(x))| == 1 && HeadGroup(s, key, key(x))[0].key == key(x)
  {
    assert x in Select(s, key, key(x));
  }

  function MinKey<T(!new)>(s: seq<T>, key: T -> int): (k: int)
    requires |s| > 0
    ensures forall x :: x in s ==> k <= key(x)
    ensures exists x :: x in s && key(x) == k
  {
    if |s| == 1 then key(s[0])
    else
      var k := MinKey(s[1..], key);
      if key(s[0]) <= k then key(s[0]) else k
  }

  function MaxKey<T(!new)>(s: seq<T>, key: T -> int): (k: int)
    requires |s| > 0
    ensures forall x :: x in s ==> key(x) <= k
    ensures exists x :: x in s && key(x) == k
  {
    if |s| == 1 then key(s[0])
    else
      var k := MaxKey(s[1..], key);
      if key(s[0]) >= k then key(s[0]) else k
  }

  /** `for k, group in df.groupby(key)`: one group per key present. */
  function GroupBy<T(!new)>(s: seq<T>, key: T -> int): seq<Group<T>> {
    if |s| == 0 then [] else GroupsBetween(s, key, MinKey(s, key), MaxKey(s, key))
  }

  /** `GroupBy` yields non-empty groups, each holding exactly the elements with
      its key, in strictly ascending key order. */
  lemma GroupBySpec<T(!new)>(s: seq<T>, key: T -> int)
    ensures ExactGroups(s, key, GroupBy(s, key))
    ensures StrictlyAscending(GroupBy(s, key))
  {
    if |s| > 0 {
      GroupsBetweenKeys(s, key, MinKey(s, key), MaxKey(s, key));
      GroupsBetweenExact(s, key, MinKey(s, key), MaxKey(s, key));
    }
  }

  /** Every element's key has a group in `GroupBy`. */
  lemma GroupByCovers<T(!new)>(s: seq<T>, key: T -> int, x: T)
    requires x in s
    ensures exists i :: 0 <= i < |GroupBy(s, key)| && GroupBy(s, key)[i].key == key(x)
  {
    assert GroupBy(s, key) == GroupsBetween(s, key, MinKey(s, key), MaxKey(s, key));
    GroupsBetweenCovers(s, key, MinKey(s, key), MaxKey(s, key), x);
  }

  /** Each element lies in exactly one group: the one carrying its key. */
  lemma GroupOfMember<T(!new)>(s: seq<T>, key: T -> int, gs: seq<Group<T>>, x: T, i: int)
    requires ExactGroups(s, key, gs) && StrictlyAscending(gs)
    requires x in s && 0 <= i < |gs|
    ensures x in gs[i].members <==> gs[i].key == key(x)
  {
  }

  /** The concatenation of the groups' members. */
  function Flatten<T(!new)>(gs: seq<Group<T>>): seq<T> {
    if gs == [] then [] else gs[0].members + Flatten(gs[1..])
  }

  lemma {:induction false} FlattenAppend<T(!new)>(a: seq<Group<T>>, b: seq<Group<T>>)
    ensures Flatten(a + b) == Flatten(a) + Flatten(b)
  {
    if a == [] {
      assert a + b == b;
    } else {
      assert (a + b)[1..] == a[1..] + b;
      FlattenAppend(a[1..], b);
    }
  }

  lemma {:induction false} SplitLowest<T(!new)>(s: seq<T>, key: T -> int, lo: int, hi: int)
    requires lo <= hi
    ensures multiset(SelectBetween(s, key, lo, hi))
         == multiset(Select(s, key, lo)) + multiset(SelectBetween(s, key, lo + 1, hi))
  {
    if s != [] {
      SplitLowest(s[1..], key, lo, hi);
    }
  }

  lemma {:induction false} GroupsBetweenPermutation<T(!new)>(s: seq<T>, key: T -> int, lo: int, hi: int)
    ensures multiset(Flatten(GroupsBetween(s, key, lo, hi))) == multiset(SelectBetween(s, key, lo, hi))
    decreases hi - lo
  {
    if lo > hi {
      SelectBetweenEmpty(s, key, lo, hi);
    } else {
      var g := Select(s, key, lo);
      var head: seq<Group<T>> := if |g| > 0 then [Group(lo, g)] else [];
      FlattenAppend(head, GroupsBetween(s, key, lo + 1, hi));
      GroupsBetweenPermutation(s, key, lo + 1, hi);
      SplitLowest(s, key, lo, hi);
      if |g| > 0 {
        assert Flatten(head) == g;
      } else {
        assert g == [];
      }
    }
  }

  lemma {:induction false} SelectBetweenEmpty<T(!new)>(s: seq<T>, key: T -> int, lo: int, hi: int)
    requires lo > hi
    ensures SelectBetween(s, key, lo, hi) == []
  {
    if s != [] {
      SelectBetweenEmpty(s[1..], key, lo, hi);
    }
  }

  lemma {:induction false} SelectBetweenAll<T(!new)>(s: seq<T>, key: T -> int, lo: int, hi: int)
    requires forall x :: x in s ==> lo <= key(x) <= hi
    ensures SelectBetween(s, key, lo, hi) == s
  {
    if s != [] {
      assert forall x :: x in s[1..] ==> x in s;
      SelectBetweenAll(s[1..], key, lo, hi);
      assert s == [s[0]] + s[1..];
    }
  }

  /** The groups together hold every element exactly as often as `s` does. */
  lemma GroupByPermutation<T(!new)>(s: seq<T>, key: T -> int)
    ensures multiset(Flatten(GroupBy(s, key))) == multiset(s)
  {
    if |s| > 0 {
      var lo, hi := MinKey(s, key), MaxKey(s, key);
      GroupsBetweenPermutation(s, key, lo, hi);
      SelectBetweenAll(s, key, lo, hi);
    }
  }
}
