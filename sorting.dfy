/**
 * Sorting by a real-valued key, as Python's `sorted(..., key=...)` does in
 * the program. The sort is an insertion sort: a new element goes in front
 * of the first element whose key is not smaller, so elements with equal
 * keys keep their input order, as `sorted` guarantees. The same sort
 * stands for `DataFrame.sort_values`, whose default quicksort gives equal
 * keys no guaranteed order; for those calls the tie order is a choice of
 * this model.
 */
module Sorting {

  /** Keys never decrease along `s`. */
  predicate SortedBy<T>(s: seq<T>, key: T -> real)
  {
    forall i, j :: 0 <= i < j < |s| ==> key(s[i]) <= key(s[j])
  }

  function Insert<T>(x: T, s: seq<T>, key: T -> real): (r: seq<T>)
    requires SortedBy(s, key)
    ensures |r| == |s| + 1
    ensures SortedBy(r, key)
    ensures multiset(r) == multiset(s) + multiset{x}
    ensures forall i :: 0 <= i < |r| ==> r[i] == x || r[i] in s
  {
    if |s| == 0 then [x]
    else if key(x) <= key(s[0]) then
      InFront(x, s, key);
      [x] + s
    else
      assert s == [s[0]] + s[1..];
      var rest := Insert(x, s[1..], key);
      InsertAfterHead(x, s, rest, key);
      HeadThenRest(x, s, rest);
      [s[0]] + rest
  }

  /** `x` may go in front of a sorted sequence whose keys are not
      smaller. */
  lemma InFront<T>(x: T, s: seq<T>, key: T -> real)
    requires SortedBy(s, key) && |s| > 0 && key(x) <= key(s[0])
    ensures SortedBy([x] + s, key)
    ensures multiset([x] + s) == multiset(s) + multiset{x}
    ensures forall i :: 0 <= i < |[x] + s| ==> ([x] + s)[i] == x || ([x] + s)[i] in s
  {
    var r := [x] + s;
    forall i, j | 0 <= i < j < |r| ensures key(r[i]) <= key(r[j]) {
      assert r[j] == s[j - 1];
      if i > 0 { assert r[i] == s[i - 1]; }
    }
    forall i | 0 < i < |r| ensures r[i] in s {
      assert r[i] == s[i - 1];
    }
  }

  /** Putting the head back in front of the tail with `x` inserted gives
      `s` with `x` added. */
  lemma HeadThenRest<T>(x: T, s: seq<T>, rest: seq<T>)
    requires |s| > 0
    requires multiset(rest) == multiset(s[1..]) + multiset{x}
    requires forall i :: 0 <= i < |rest| ==> rest[i] == x || rest[i] in s[1..]
    ensures multiset([s[0]] + rest) == multiset(s) + multiset{x}
    ensures forall i :: 0 <= i < |[s[0]] + rest| ==> ([s[0]] + rest)[i] == x || ([s[0]] + rest)[i] in s
  {
    assert s == [s[0]] + s[1..];
    var r := [s[0]] + rest;
    forall i | 0 <= i < |r| ensures r[i] == x || r[i] in s {
      if i > 0 {
        assert r[i] == rest[i - 1];
        if rest[i - 1] != x {
          var m :| 0 <= m < |s[1..]| && s[1..][m] == rest[i - 1];
          assert s[1..][m] == s[m + 1];
        }
      }
    }
  }

  /** The head of `s` may precede what inserting a larger `x` into the
      tail gives. */
  lemma InsertAfterHead<T>(x: T, s: seq<T>, rest: seq<T>, key: T -> real)
    requires |s| > 0 && SortedBy(s, key) && key(s[0]) < key(x)
    requires SortedBy(rest, key)
    requires forall i :: 0 <= i < |rest| ==> rest[i] == x || rest[i] in s[1..]
    ensures SortedBy([s[0]] + rest, key)
  {
    var r := [s[0]] + rest;
    forall i, j | 0 <= i < j < |r| ensures key(r[i]) <= key(r[j]) {
      if i == 0 {
        assert r[j] == rest[j - 1];
        if rest[j - 1] != x {
          var m :| 0 <= m < |s[1..]| && s[1..][m] == rest[j - 1];
          assert s[1..][m] == s[m + 1];
        }
      } else {
        assert r[i] == rest[i - 1] && r[j] == rest[j - 1];
      }
    }
  }

  /** A stable ascending sort of `s` by `key`. */
  function SortBy<T>(s: seq<T>, key: T -> real): (r: seq<T>)
    ensures |r| == |s|
    ensures SortedBy(r, key)
    ensures multiset(r) == multiset(s)
  {
    if |s| == 0 then []
    else
      assert s == [s[0]] + s[1..];
      Insert(s[0], SortBy(s[1..], key), key)
  }

  /** `s[k]` has the least key of `s`, and every earlier element a larger
      one. */
  predicate FirstLeast<T>(s: seq<T>, key: T -> real, k: int)
  {
    && 0 <= k < |s|
    && (forall j :: 0 <= j < |s| ==> key(s[k]) <= key(s[j]))
    && (forall j :: 0 <= j < k ==> key(s[j]) > key(s[k]))
  }

  /** Inserting puts `x` in front exactly when no key is smaller. */
  lemma InsertHead<T>(x: T, s: seq<T>, key: T -> real)
    requires SortedBy(s, key)
    ensures Insert(x, s, key)[0] == if |s| == 0 || key(x) <= key(s[0]) then x else s[0]
  {
  }

  /** The head of the sorted sequence is the first element of least key,
      as a stable sort leaves it. */
  lemma {:induction false} SortByHead<T>(s: seq<T>, key: T -> real)
    requires |s| > 0
    ensures exists k :: FirstLeast(s, key, k) && SortBy(s, key)[0] == s[k]
  {
    var r := SortBy(s[1..], key);
    assert SortBy(s, key) == Insert(s[0], r, key);
    InsertHead(s[0], r, key);
    if |s| == 1 {
      assert FirstLeast(s, key, 0);
    } else {
      SortByHead(s[1..], key);
      var k' :| FirstLeast(s[1..], key, k') && r[0] == s[1..][k'];
      FirstLeastCons(s, key, k');
    }
  }

  /** The first least element of `s` is its head when no key of the tail
      is smaller, and otherwise the first least element of the tail. */
  lemma FirstLeastCons<T>(s: seq<T>, key: T -> real, k: int)
    requires |s| > 1 && FirstLeast(s[1..], key, k)
    ensures key(s[0]) <= key(s[1..][k]) ==> FirstLeast(s, key, 0)
    ensures key(s[0]) > key(s[1..][k]) ==> FirstLeast(s, key, k + 1)
  {
    assert forall j :: 0 < j < |s| ==> s[j] == s[1..][j - 1];
  }

  /** Every element of the input appears in the sorted output and vice
      versa. */
  lemma SortBySameElements<T>(s: seq<T>, key: T -> real)
    ensures forall x :: x in s <==> x in SortBy(s, key)
  {
    var r := SortBy(s, key);
    forall x ensures x in s <==> x in r {
      assert x in s <==> x in multiset(s);
      assert x in r <==> x in multiset(r);
    }
  }
}
