/** Descending order on an integer key, the `ORDER BY … DESC` of the record store's queries
    (dates ordered by their day number, users ordered by experience). */
module Sorting {

  ghost predicate DescendingBy<T>(s: seq<T>, key: T -> int) {
    forall i, j :: 0 <= i < j < |s| ==> key(s[i]) >= key(s[j])
  }

  ghost predicate NoDuplicates<T>(s: seq<T>) {
    forall i, j :: 0 <= i < j < |s| ==> s[i] != s[j]
  }

  /** Places `x` in front of the first element whose key does not exceed its own. */
  function Insert<T(==)>(x: T, s: seq<T>, key: T -> int): (r: seq<T>)
    requires DescendingBy(s, key)
    ensures DescendingBy(r, key)
    ensures multiset(r) == multiset(s) + multiset{x}
    ensures |r| == |s| + 1
    ensures r[0] == x || (s != [] && r[0] == s[0])
  {
    if s == [] || key(s[0]) <= key(x) then [x] + s
    else
      var rest := Insert(x, s[1..], key);
      assert s == [s[0]] + s[1..];
      var r := [s[0]] + rest;
      assert key(s[0]) >= key(rest[0]);
      assert forall j :: 0 < j < |r| ==> key(r[0]) >= key(r[j]) by {
        forall j | 0 < j < |r| ensures key(r[0]) >= key(r[j]) {
          assert r[j] == rest[j - 1];
          if j > 1 {
            assert key(rest[0]) >= key(rest[j - 1]);
          }
        }
      }
      r
  }

  /** Inserting an element that is new keeps a duplicate-free sequence duplicate-free. */
  lemma InsertKeepsDistinct<T>(x: T, s: seq<T>, key: T -> int)
    requires DescendingBy(s, key)
    requires NoDuplicates(s) && x !in s
    ensures NoDuplicates(Insert(x, s, key))
  {
    var r := Insert(x, s, key);
    forall i, j | 0 <= i < j < |r| ensures r[i] != r[j] {
      assert r[i] in multiset(r) && r[j] in multiset(r);
      if r[i] == r[j] {
        assert multiset(r)[r[i]] >= 2 by {
          MultiplicityAtLeastTwo(r, i, j);
        }
        if r[i] != x {
          DistinctMultiplicity(s, r[i]);
        }
      }
    }
  }

  /** An element at two positions occurs twice in the multiset. */
  lemma {:induction false} MultiplicityAtLeastTwo<T>(r: seq<T>, i: int, j: int)
    requires 0 <= i < j < |r| && r[i] == r[j]
    ensures multiset(r)[r[i]] >= 2
  {
    if i == 0 {
      assert r == [r[0]] + r[1..];
      assert r[1..][j - 1] == r[j];
      assert r[j] in multiset(r[1..]);
    } else {
      assert r == [r[0]] + r[1..];
      MultiplicityAtLeastTwo(r[1..], i - 1, j - 1);
    }
  }

  /** In a duplicate-free sequence every element occurs at most once. */
  lemma {:induction false} DistinctMultiplicity<T>(s: seq<T>, y: T)
    requires NoDuplicates(s)
    ensures multiset(s)[y] <= 1
  {
    if s != [] {
      assert s == [s[0]] + s[1..];
      DistinctMultiplicity(s[1..], y);
      if s[0] == y {
        assert y !in s[1..];
      }
    }
  }

  /** Insertion sort, highest key first; equal keys keep their original order. */
  function SortDesc<T(==)>(s: seq<T>, key: T -> int): (r: seq<T>)
    ensures DescendingBy(r, key)
    ensures multiset(r) == multiset(s)
    ensures |r| == |s|
  {
    if s == [] then []
    else
      assert s == [s[0]] + s[1..];
      Insert(s[0], SortDesc(s[1..], key), key)
  }

  /** Sorting a duplicate-free sequence gives a duplicate-free sequence. */
  lemma {:induction false} SortKeepsDistinct<T>(s: seq<T>, key: T -> int)
    requires NoDuplicates(s)
    ensures NoDuplicates(SortDesc(s, key))
  {
    if s != [] {
      assert s == [s[0]] + s[1..];
      SortKeepsDistinct(s[1..], key);
      var tail := SortDesc(s[1..], key);
      assert s[0] !in s[1..];
      assert s[0] !in multiset(tail);
      InsertKeepsDistinct(s[0], tail, key);
    }
  }

  /** Appending an element that is new keeps a duplicate-free sequence duplicate-free. */
  lemma AppendKeepsDistinct<T>(s: seq<T>, x: T)
    requires NoDuplicates(s) && x !in s
    ensures NoDuplicates(s + [x])
  {
    var r := s + [x];
    forall i, j | 0 <= i < j < |r| ensures r[i] != r[j] {
      if j == |s| {
        assert r[i] == s[i];
      }
    }
  }
}
