/**
 Python's `sorted`, as the analyzer uses it.

 `Sort(s, lt)` is `sorted(s)` for a list whose elements `lt` orders
 strictly and totally (with `Flip(lt)` for `reverse=True`): on a list
 without repeated elements there is exactly one arrangement that is
 increasing, and `Sort` returns it. `SortByKeyDesc(s, key)` is
 `sorted(s, key=key, reverse=True)`, which is stable: elements with equal
 keys keep the order they had in `s`.
 */
module Sorting {
  import opened Order
  import opened PySeq

  /** Every element is below every later one. */
  predicate Sorted<T>(s: seq<T>, lt: (T, T) -> bool) {
    forall i, j :: 0 <= i < j < |s| ==> lt(s[i], s[j])
  }

  /** `x` placed before the first element above it. */
  function Insert<T(!new)>(s: seq<T>, x: T, lt: (T, T) -> bool): (r: seq<T>)
    ensures multiset(r) == multiset(s) + multiset{x}
  {
    if s == [] then [x]
    else if lt(x, s[0]) then [x] + s
    else
      assert s == [s[0]] + s[1..];
      [s[0]] + Insert(s[1..], x, lt)
  }

  lemma {:induction false} InsertSorted<T(!new)>(s: seq<T>, x: T, lt: (T, T) -> bool)
    requires StrictTotal(lt) && Sorted(s, lt) && x !in s
    ensures Sorted(Insert(s, x, lt), lt)
    decreases |s|
  {
    if s != [] {
      var r := Insert(s, x, lt);
      if lt(x, s[0]) {
        forall i, j | 0 <= i < j < |r| ensures lt(r[i], r[j]) {
          if i > 0 {
            assert lt(s[i - 1], s[j - 1]);
          } else if j > 1 {
            assert lt(s[0], s[j - 1]);
          }
        }
      } else {
        assert s == [s[0]] + s[1..];
        var rest := Insert(s[1..], x, lt);
        InsertSorted(s[1..], x, lt);
        assert lt(s[0], x);
        forall y | y in rest ensures lt(s[0], y) {
          assert y in multiset(rest);
          if y != x {
            assert y in s[1..];
            var j :| 1 <= j < |s| && s[j] == y;
          }
        }
        forall i, j | 0 <= i < j < |r| ensures lt(r[i], r[j]) {
          if i > 0 {
            assert lt(rest[i - 1], rest[j - 1]);
          } else {
            assert r[j] in rest;
          }
        }
      }
    }
  }

  /** `sorted(s)`, by insertion. */
  function Sort<T(!new)>(s: seq<T>, lt: (T, T) -> bool): (r: seq<T>)
    ensures multiset(r) == multiset(s)
  {
    if s == [] then []
    else
      assert s == s[..|s| - 1] + [s[|s| - 1]];
      Insert(Sort(s[..|s| - 1], lt), s[|s| - 1], lt)
  }

  /** On distinct elements `sorted` yields the increasing arrangement. */
  lemma {:induction false} SortSorted<T(!new)>(s: seq<T>, lt: (T, T) -> bool)
    requires StrictTotal(lt) && Distinct(s)
    ensures Sorted(Sort(s, lt), lt)
    decreases |s|
  {
    if s != [] {
      var init := s[..|s| - 1];
      SortSorted(init, lt);
      assert s[|s| - 1] !in multiset(Sort(init, lt));
      InsertSorted(Sort(init, lt), s[|s| - 1], lt);
    }
  }

  /** The head of an increasing sequence is below each of its other elements. */
  lemma SortedHead<T(!new)>(a: seq<T>, x: T, lt: (T, T) -> bool)
    requires Sorted(a, lt) && x in a
    ensures x == a[0] || lt(a[0], x)
  {
    var i :| 0 <= i < |a| && a[i] == x;
    if i > 0 {
      assert lt(a[0], a[i]);
    }
  }

  /** Two increasing sequences with the same elements are the same sequence. */
  lemma {:induction false} SortedUnique<T(!new)>(a: seq<T>, b: seq<T>, lt: (T, T) -> bool)
    requires StrictTotal(lt)
    requires Sorted(a, lt) && Sorted(b, lt)
    requires forall x :: x in a <==> x in b
    ensures a == b
    decreases |a|
  {
    assert a != [] ==> a[0] in b;
    assert b != [] ==> b[0] in a;
    if a != [] {
      // The first element of each is the least of the common element set.
      SortedHead(a, b[0], lt);
      SortedHead(b, a[0], lt);
      assert a[0] == b[0];
      forall x ensures x in a[1..] <==> x in b[1..] {
        if x in a[1..] {
          var i :| 1 <= i < |a| && a[i] == x;
          assert lt(a[0], a[i]);
          assert x in a;
          var j :| 0 <= j < |b| && b[j] == x;
          assert j != 0;
          assert b[1..][j - 1] == x;
        }
        if x in b[1..] {
          var j :| 1 <= j < |b| && b[j] == x;
          assert lt(b[0], b[j]);
          assert x in b;
          var i :| 0 <= i < |a| && a[i] == x;
          assert i != 0;
          assert a[1..][i - 1] == x;
        }
      }
      SortedUnique(a[1..], b[1..], lt);
      assert a == [a[0]] + a[1..] && b == [b[0]] + b[1..];
    }
  }

  lemma SortElems<T(!new)>(s: seq<T>, lt: (T, T) -> bool)
    ensures forall x :: x in Sort(s, lt) <==> x in s
  {
    var r := Sort(s, lt);
    forall x ensures x in r <==> x in s {
      assert x in r <==> x in multiset(r);
      assert x in s <==> x in multiset(s);
    }
  }

  /**
   `sorted` does not depend on the order of its input: two lists without
   repeated elements that hold the same elements sort to the same list.
   */
  lemma SortSameElements<T(!new)>(a: seq<T>, b: seq<T>, lt: (T, T) -> bool)
    requires StrictTotal(lt) && Distinct(a) && Distinct(b)
    requires forall x :: x in a <==> x in b
    ensures Sort(a, lt) == Sort(b, lt)
  {
    SortSorted(a, lt);
    SortSorted(b, lt);
    SortElems(a, lt);
    SortElems(b, lt);
    SortedUnique(Sort(a, lt), Sort(b, lt), lt);
  }

  /** Equal keys keep their order; otherwise the larger key comes first. */
  function KeyDescThen<T>(key: T -> int, lt: (T, T) -> bool): (T, T) -> bool {
    (x: T, y: T) => key(x) > key(y) || (key(x) == key(y) && lt(x, y))
  }

  /** `x` placed after every element whose key is at least its own. */
  function InsertByKey<T(!new)>(s: seq<T>, x: T, key: T -> int): (r: seq<T>)
    ensures multiset(r) == multiset(s) + multiset{x}
  {
    if s == [] then [x]
    else if key(s[0]) < key(x) then [x] + s
    else
      assert s == [s[0]] + s[1..];
      [s[0]] + InsertByKey(s[1..], x, key)
  }

  /**
   Inserting an element that `lt` puts above everything already there,
   into a sequence ordered by key descending and then by `lt`, keeps it so.
   */
  lemma {:induction false} InsertByKeyOrdered<T(!new)>(s: seq<T>, x: T, key: T -> int, lt: (T, T) -> bool)
    requires Sorted(s, KeyDescThen(key, lt))
    requires forall y :: y in s ==> lt(y, x)
    ensures Sorted(InsertByKey(s, x, key), KeyDescThen(key, lt))
    decreases |s|
  {
    var order := KeyDescThen(key, lt);
    if s != [] {
      if key(s[0]) < key(x) {
        forall y | y in s ensures order(x, y) {
          var j :| 0 <= j < |s| && s[j] == y;
          if j > 0 {
            assert order(s[0], s[j]);
          }
        }
        ConsSorted(x, s, order);
      } else {
        InsertByKeyOrdered(s[1..], x, key, lt);
        var rest := InsertByKey(s[1..], x, key);
        assert order(s[0], x) by {
          assert lt(s[0], x);
        }
        forall y | y in rest ensures order(s[0], y) {
          assert y in multiset(rest);
          if y != x {
            assert y in s[1..];
            var j :| 1 <= j < |s| && s[j] == y;
          }
        }
        ConsSorted(s[0], rest, order);
      }
    }
  }

  /** An element below everything in a sorted sequence can go in front of it. */
  lemma ConsSorted<T>(y: T, s: seq<T>, lt: (T, T) -> bool)
    requires Sorted(s, lt) && forall z :: z in s ==> lt(y, z)
    ensures Sorted([y] + s, lt)
  {
    var r := [y] + s;
    forall i, j | 0 <= i < j < |r| ensures lt(r[i], r[j]) {
      if i > 0 {
        assert r[i] == s[i - 1] && r[j] == s[j - 1];
      } else {
        assert r[j] in s;
      }
    }
  }

  /** `sorted(s, key=key, reverse=True)`: a stable sort by descending key. */
  function SortByKeyDesc<T(!new)>(s: seq<T>, key: T -> int): (r: seq<T>)
    ensures multiset(r) == multiset(s)
  {
    if s == [] then []
    else
      assert s == s[..|s| - 1] + [s[|s| - 1]];
      InsertByKey(SortByKeyDesc(s[..|s| - 1], key), s[|s| - 1], key)
  }

  /**
   Stability, in the form the analyzer relies on: when the input is already
   increasing by `lt`, the output is ordered by key descending and, among
   equal keys, still by `lt`.
   */
  lemma {:induction false} SortByKeyDescStable<T(!new)>(s: seq<T>, key: T -> int, lt: (T, T) -> bool)
    requires StrictTotal(lt)
    requires Sorted(s, lt)
    ensures Sorted(SortByKeyDesc(s, key), KeyDescThen(key, lt))
    decreases |s|
  {
    if s != [] {
      var init := s[..|s| - 1];
      var x := s[|s| - 1];
      SortByKeyDescStable(init, key, lt);
      var sorted := SortByKeyDesc(init, key);
      forall y | y in sorted ensures lt(y, x) {
        assert y in multiset(sorted);
        assert y in init;
        var i :| 0 <= i < |init| && init[i] == y;
      }
      InsertByKeyOrdered(sorted, x, key, lt);
    }
  }

  /**
   `ranked[:n]` of a sorted arrangement of `ps`: its elements come from `ps`,
   it is still sorted, it has Python's slice length, and every element of
   `ps` that was cut off is below every element that was kept.
   */
  lemma TopK<T(!new)>(ranked: seq<T>, ps: seq<T>, lt: (T, T) -> bool, n: int)
    requires Sorted(ranked, lt)
    requires |ranked| == |ps| && forall x :: x in ranked <==> x in ps
    ensures var r := Take(ranked, n);
      && (forall x :: x in r ==> x in ps)
      && Sorted(r, lt)
      && |r| == TakeLen(|ps|, n)
      && (forall x :: x in ps && x !in r ==> forall i :: 0 <= i < |r| ==> lt(r[i], x))
  {
    var r := Take(ranked, n);
    forall x | x in ps && x !in r ensures forall i :: 0 <= i < |r| ==> lt(r[i], x) {
      var j :| 0 <= j < |ranked| && ranked[j] == x;
      assert j >= |r|;
    }
  }
}
