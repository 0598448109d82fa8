/** The stable sort of the host language (`sorted`, `list.sort`), by a real-valued key. */
module Sorting {
  /** x goes behind every element whose key is no larger. */
  function InsertLast<T>(s: seq<T>, x: T, key: T -> real): seq<T> {
    if s == [] || key(s[|s| - 1]) <= key(x) then s + [x]
    else InsertLast(s[..|s| - 1], x, key) + [s[|s| - 1]]
  }

  function StableSort<T>(s: seq<T>, key: T -> real): seq<T> {
    if s == [] then [] else InsertLast(StableSort(s[..|s| - 1], key), s[|s| - 1], key)
  }

  ghost predicate SortedBy<T>(s: seq<T>, key: T -> real) {
    forall i, j :: 0 <= i < j < |s| ==> key(s[i]) <= key(s[j])
  }

  lemma {:induction false} InsertMembers<T>(s: seq<T>, x: T, key: T -> real)
    ensures multiset(InsertLast(s, x, key)) == multiset(s) + multiset{x}
    ensures |InsertLast(s, x, key)| == |s| + 1
    ensures forall i :: 0 <= i < |InsertLast(s, x, key)| ==>
      InsertLast(s, x, key)[i] == x || InsertLast(s, x, key)[i] in s
  {
    if s != [] && key(s[|s| - 1]) > key(x) {
      InsertMembers(s[..|s| - 1], x, key);
      assert s == s[..|s| - 1] + [s[|s| - 1]];
    }
  }

  lemma {:induction false} InsertSorts<T>(s: seq<T>, x: T, key: T -> real)
    requires SortedBy(s, key)
    ensures SortedBy(InsertLast(s, x, key), key)
  {
    if s != [] && key(s[|s| - 1]) > key(x) {
      var front, last := s[..|s| - 1], s[|s| - 1];
      var r := InsertLast(front, x, key);
      InsertSorts(front, x, key);
      InsertMembers(front, x, key);
      hide InsertLast;
      forall i | 0 <= i < |r|
        ensures key(r[i]) <= key(last)
      {
        if r[i] != x {
          var j :| 0 <= j < |front| && front[j] == r[i];
          assert key(s[j]) <= key(s[|s| - 1]);
        }
      }
      SortedSnoc(r, last, key);
    } else if s != [] {
      forall i | 0 <= i < |s|
        ensures key(s[i]) <= key(x)
      {
        assert i == |s| - 1 || key(s[i]) <= key(s[|s| - 1]);
      }
      SortedSnoc(s, x, key);
    }
  }

  lemma SortedSnoc<T>(s: seq<T>, x: T, key: T -> real)
    requires SortedBy(s, key) && forall i :: 0 <= i < |s| ==> key(s[i]) <= key(x)
    ensures SortedBy(s + [x], key)
  {
  }

  lemma {:induction false} SortSorts<T>(s: seq<T>, key: T -> real)
    ensures SortedBy(StableSort(s, key), key)
    ensures multiset(StableSort(s, key)) == multiset(s)
    ensures |StableSort(s, key)| == |s|
  {
    if s != [] {
      var front := s[..|s| - 1];
      SortSorts(front, key);
      InsertSorts(StableSort(front, key), s[|s| - 1], key);
      InsertMembers(StableSort(front, key), s[|s| - 1], key);
      assert s == front + [s[|s| - 1]];
    }
  }

  lemma SortMembers<T>(s: seq<T>, key: T -> real, x: T)
    ensures x in StableSort(s, key) <==> x in s
  {
    SortSorts(s, key);
    assert x in multiset(StableSort(s, key)) <==> x in multiset(s);
  }

  lemma SortDistinct<T>(s: seq<T>, key: T -> real)
    requires forall i, j :: 0 <= i < j < |s| ==> s[i] != s[j]
    ensures forall i, j :: 0 <= i < j < |StableSort(s, key)| ==> StableSort(s, key)[i] != StableSort(s, key)[j]
  {
    SortSorts(s, key);
    OnceEach(s);
    OnceEachBack(StableSort(s, key));
  }

  lemma {:induction false} OnceEach<T>(s: seq<T>)
    requires forall i, j :: 0 <= i < j < |s| ==> s[i] != s[j]
    ensures forall x :: multiset(s)[x] <= 1
  {
    if s != [] {
      var front, x := s[..|s| - 1], s[|s| - 1];
      OnceEach(front);
      assert s == front + [x];
      assert x !in front;
    }
  }

  lemma OnceEachBack<T>(s: seq<T>)
    requires forall x :: multiset(s)[x] <= 1
    ensures forall i, j :: 0 <= i < j < |s| ==> s[i] != s[j]
  {
    forall i, j | 0 <= i < j < |s| ensures s[i] != s[j] {
      var a, b := s[..j], s[j..];
      assert s == a + b;
      assert a[i] in multiset(a) && b[0] in multiset(b);
      assert multiset(s) == multiset(a) + multiset(b);
      assert multiset(s)[s[i]] >= multiset(a)[s[i]] + multiset(b)[s[i]];
    }
  }

  /** The elements with one key, in order. */
  function WithKey<T>(s: seq<T>, key: T -> real, v: real): seq<T> {
    if s == [] then []
    else WithKey(s[..|s| - 1], key, v) + if key(s[|s| - 1]) == v then [s[|s| - 1]] else []
  }

  lemma {:induction false} InsertIsStable<T>(s: seq<T>, x: T, key: T -> real, v: real)
    requires SortedBy(s, key)
    ensures WithKey(InsertLast(s, x, key), key, v) == WithKey(s, key, v) + if key(x) == v then [x] else []
  {
    if s == [] || key(s[|s| - 1]) <= key(x) {
      assert (s + [x])[..|s|] == s;
    } else {
      var front, last := s[..|s| - 1], s[|s| - 1];
      InsertIsStable(front, x, key, v);
      var r := InsertLast(front, x, key);
      assert (r + [last])[..|r|] == r;
      if key(last) == v && key(x) == v {
        assert false;
      }
    }
  }

  /** Elements with equal keys keep their order. */
  lemma {:induction false} SortIsStable<T>(s: seq<T>, key: T -> real, v: real)
    ensures WithKey(StableSort(s, key), key, v) == WithKey(s, key, v)
  {
    if s != [] {
      var front := s[..|s| - 1];
      SortIsStable(front, key, v);
      SortSorts(front, key);
      InsertIsStable(StableSort(front, key), s[|s| - 1], key, v);
    }
  }
}
