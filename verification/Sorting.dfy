// Sorting by a key, and ascending sequences as canonical forms of sets.
module Sorting {
  import opened BoundaryGraph

  predicate Ascending(s: seq<nat>) {
    forall i, j :: 0 <= i < j < |s| ==> s[i] < s[j]
  }

  predicate OrderedBy<T>(s: seq<T>, key: T -> nat) {
    forall i, j :: 0 <= i < j < |s| ==> key(s[i]) <= key(s[j])
  }

  predicate KeysDistinct<T>(s: seq<T>, key: T -> nat) {
    forall i, j :: 0 <= i < j < |s| ==> key(s[i]) != key(s[j])
  }

  function InsertBy<T(!new)>(x: T, s: seq<T>, key: T -> nat): (r: seq<T>)
    requires OrderedBy(s, key)
    ensures OrderedBy(r, key) && |r| == |s| + 1
    ensures forall y :: y in r <==> y == x || y in s
  {
    if s == [] || key(x) <= key(s[0]) then [x] + s
    else
      var rest := InsertBy(x, s[1..], key);
      assert forall y :: y in s <==> y == s[0] || y in s[1..];
      assert forall y :: y in s[1..] ==> key(s[0]) <= key(y);
      assert forall k :: 0 <= k < |rest| ==> rest[k] in rest;
      [s[0]] + rest
  }

  // Stands for std::sort with a comparison of keys.
  function SortBy<T(!new)>(s: seq<T>, key: T -> nat): (r: seq<T>)
    ensures OrderedBy(r, key) && |r| == |s|
    ensures forall y :: y in r <==> y in s
  {
    if s == [] then []
    else
      assert forall y :: y in s <==> y == s[0] || y in s[1..];
      InsertBy(s[0], SortBy(s[1..], key), key)
  }

  lemma {:induction false} SameSizeDistinct<T(!new)>(s: seq<T>, r: seq<T>)
    requires Distinct(s) && |r| == |s| && forall y :: y in r <==> y in s
    ensures Distinct(r)
  {
    DistinctSize(s);
    assert Elements(r) == Elements(s);
    DuplicateShrinks(r);
  }

  lemma {:induction false} DuplicateShrinks<T>(s: seq<T>)
    ensures |Elements(s)| <= |s|
    ensures |Elements(s)| == |s| ==> Distinct(s)
  {
    if s != [] {
      var shorter, x := s[..|s| - 1], s[|s| - 1];
      DuplicateShrinks(shorter);
      assert Elements(s) == Elements(shorter) + {x};
    }
  }

  function SortIds(s: seq<nat>): (r: seq<nat>)
    ensures Elements(r) == Elements(s) && |r| == |s|
    ensures Distinct(s) ==> Ascending(r)
  {
    var r := SortBy(s, x => x);
    if Distinct(s) then SameSizeDistinct(s, r); r else r
  }

  // Distinct keys sort into strictly increasing ones.
  lemma SortKeepsKeys<T(!new)>(s: seq<T>, key: T -> nat)
    requires KeysDistinct(s, key)
    ensures forall i, j :: 0 <= i < j < |s| ==> key(SortBy(s, key)[i]) < key(SortBy(s, key)[j])
  {
    var r := SortBy(s, key);
    assert Distinct(s);
    SameSizeDistinct(s, r);
    forall i, j | 0 <= i < j < |s|
      ensures key(r[i]) < key(r[j])
    {
      assert r[i] in s && r[j] in s;
    }
  }

  // With distinct keys, the order by key is determined by the elements.
  lemma {:induction false} OrderUnique<T(!new)>(s: seq<T>, r: seq<T>, key: T -> nat)
    requires OrderedBy(s, key) && OrderedBy(r, key) && KeysDistinct(s, key) && KeysDistinct(r, key)
    requires forall y :: y in s <==> y in r
    ensures s == r
  {
    if r != [] {
      assert r[0] in r;
      assert r[0] in s;
    }
    if s != [] {
      assert s[0] in s;
      assert s[0] in r;
      var i :| 0 <= i < |r| && r[i] == s[0];
      assert r[0] in r;
      var j :| 0 <= j < |s| && s[j] == r[0];
      assert key(s[0]) == key(r[0]);
      assert s[0] == r[0];
      forall y
        ensures y in s[1..] <==> y in r[1..]
      {
        assert y in s <==> y == s[0] || y in s[1..];
        assert y in r <==> y == r[0] || y in r[1..];
        assert y in s[1..] ==> key(y) != key(s[0]);
        assert y in r[1..] ==> key(y) != key(r[0]);
      }
      OrderUnique(s[1..], r[1..], key);
      assert s == [s[0]] + s[1..] && r == [r[0]] + r[1..];
    }
  }

  // An ascending sequence is determined by its elements.
  lemma AscendingUnique(s: seq<nat>, r: seq<nat>)
    requires Ascending(s) && Ascending(r) && Elements(s) == Elements(r)
    ensures s == r
  {
    forall y
      ensures y in s <==> y in r
    {
      assert y in s <==> y in Elements(s);
      assert y in r <==> y in Elements(r);
    }
    OrderUnique(s, r, x => x);
  }
}
