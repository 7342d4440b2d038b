/**
 The few Python list operations the analyzer relies on, with Python's
 semantics: slicing `s[lo:hi]` and `s[:n]` (which clamp to the list and,
 for a negative `n`, count from the end), `list.count(x)`, and the
 conversion of a list to a set.
 */
module PySeq {

  /** Python's `s[lo:hi]` for non-negative bounds: out-of-range bounds are clamped. */
  function Slice<T>(s: seq<T>, lo: nat, hi: nat): (r: seq<T>)
    ensures |r| == if hi <= lo || |s| <= lo then 0 else (if hi < |s| then hi else |s|) - lo
    ensures forall i :: 0 <= i < |r| ==> r[i] == s[lo + i]
  {
    var h := if hi < |s| then hi else |s|;
    var l := if lo < h then lo else h;
    s[l..h]
  }

  /** `s[:len(s)]` is `s`. */
  lemma TakeAll<T>(s: seq<T>)
    ensures s[..|s|] == s
  {
  }

  /** One more element of `b` taken after `a`. */
  lemma AppendTakeStep<T>(a: seq<T>, b: seq<T>, j: nat)
    requires j < |b|
    ensures a + b[..j + 1] == (a + b[..j]) + [b[j]]
  {
    assert b[..j + 1] == b[..j] + [b[j]];
  }

  /** The length of `s[:n]` for a list of length `len`. */
  function TakeLen(len: nat, n: int): nat {
    if n >= 0 then (if n < len then n else len)
    else if len + n > 0 then len + n else 0
  }

  /** Python's `s[:n]`; a negative `n` drops the last `-n` elements. */
  function Take<T>(s: seq<T>, n: int): (r: seq<T>)
    ensures |r| == TakeLen(|s|, n)
    ensures r == s[..|r|]
  {
    s[..TakeLen(|s|, n)]
  }

  /** Python's `list.count(x)`: how many times `x` occurs in `s`. */
  function Occ<T(==)>(s: seq<T>, x: T): nat {
    if s == [] then 0 else Occ(s[..|s| - 1], x) + (if s[|s| - 1] == x then 1 else 0)
  }

  lemma {:induction false} OccAppend<T>(a: seq<T>, b: seq<T>, x: T)
    ensures Occ(a + b, x) == Occ(a, x) + Occ(b, x)
    decreases |b|
  {
    if b == [] {
      assert a + b == a;
    } else {
      assert (a + b)[..|a + b| - 1] == a + b[..|b| - 1];
      OccAppend(a, b[..|b| - 1], x);
    }
  }

  lemma {:induction false} OccPositive<T>(s: seq<T>, x: T)
    ensures Occ(s, x) > 0 <==> x in s
    decreases |s|
  {
    if s != [] {
      OccPositive(s[..|s| - 1], x);
      assert s == s[..|s| - 1] + [s[|s| - 1]];
    }
  }

  /**
   No element occurs twice: every element stands at its first occurrence.
   (Two equal elements at positions `i` and `j` then give `i == j`.)
   */
  predicate Distinct<T(==)>(s: seq<T>) {
    forall i :: 0 <= i < |s| ==> Index(s, s[i]) == i
  }

  /** Python's `set(s)`. */
  function Elems<T>(s: seq<T>): set<T> {
    set x | x in s
  }

  lemma {:induction false} DistinctCard<T>(s: seq<T>)
    requires Distinct(s)
    ensures |Elems(s)| == |s|
    decreases |s|
  {
    if s != [] {
      var init := s[..|s| - 1];
      DistinctCard(init);
      assert Elems(s) == Elems(init) + {s[|s| - 1]};
      assert s[|s| - 1] !in Elems(init);
    }
  }

  /**
   The elements of `s`, each once, in order of first occurrence: one way of
   iterating over `set(s)`, used where the program sorts the set afterwards.
   */
  function Dedup<T(==, !new)>(s: seq<T>): (r: seq<T>)
    ensures forall x :: x in r <==> x in s
  {
    if s == [] then []
    else
      var init := Dedup(s[..|s| - 1]);
      assert forall x :: x in s <==> x in s[..|s| - 1] || x == s[|s| - 1];
      if s[|s| - 1] in init then init else init + [s[|s| - 1]]
  }

  lemma DedupSnoc<T(!new)>(s: seq<T>, x: T)
    ensures Dedup(s + [x]) == if x in s then Dedup(s) else Dedup(s) + [x]
  {
    assert (s + [x])[..|s|] == s;
  }

  lemma {:induction false} DedupDistinct<T(!new)>(s: seq<T>)
    ensures Distinct(Dedup(s))
    decreases |s|
  {
    if s != [] {
      DedupDistinct(s[..|s| - 1]);
    }
  }

  /** The position of the first occurrence of `x` in `s`. */
  function Index<T(==)>(s: seq<T>, x: T): (i: nat)
    requires x in s
    ensures i < |s| && s[i] == x
  {
    if s[0] == x then 0 else 1 + Index(s[1..], x)
  }

  /** No occurrence of `x` comes before `Index(s, x)`. */
  lemma {:induction false} IndexLeast<T>(s: seq<T>, x: T, j: nat)
    requires j < |s| && s[j] == x
    ensures Index(s, x) <= j
    decreases j
  {
    if s[0] != x {
      IndexLeast(s[1..], x, j - 1);
    }
  }

  lemma IndexFirst<T>(s: seq<T>, x: T, i: nat)
    requires i < |s| && s[i] == x && x !in s[..i]
    ensures Index(s, x) == i
  {
    IndexLeast(s, x, i);
  }

  /** The first components of a list of pairs, in order. */
  function Firsts<K, W>(ps: seq<(K, W)>): (ks: seq<K>)
    ensures |ks| == |ps| && forall i :: 0 <= i < |ps| ==> ks[i] == ps[i].0
  {
    seq(|ps|, i requires 0 <= i < |ps| => ps[i].0)
  }

  lemma FirstsAppend<K, W>(a: seq<(K, W)>, b: seq<(K, W)>)
    ensures Firsts(a + b) == Firsts(a) + Firsts(b)
  {
  }

  /** The second components of the pairs whose first component is `a`, in order. */
  function Lookup<A(==), B>(ps: seq<(A, B)>, a: A): seq<B> {
    if ps == [] then []
    else
      var p := ps[|ps| - 1];
      Lookup(ps[..|ps| - 1], a) + (if p.0 == a then [p.1] else [])
  }

  lemma {:induction false} LookupSpec<A, B>(ps: seq<(A, B)>, a: A)
    ensures |Lookup(ps, a)| == Occ(Firsts(ps), a)
    ensures forall b :: b in Lookup(ps, a) <==> (a, b) in ps
    decreases |ps|
  {
    if ps != [] {
      var init := ps[..|ps| - 1];
      LookupSpec(init, a);
      assert Firsts(ps)[..|ps| - 1] == Firsts(init);
      assert ps == init + [ps[|ps| - 1]];
    }
  }

  lemma {:induction false} LookupAppend<A, B>(a: seq<(A, B)>, b: seq<(A, B)>, x: A)
    ensures Lookup(a + b, x) == Lookup(a, x) + Lookup(b, x)
    decreases |b|
  {
    if b == [] {
      assert a + b == a;
    } else {
      assert (a + b)[..|a + b| - 1] == a + b[..|b| - 1];
      LookupAppend(a, b[..|b| - 1], x);
    }
  }

  lemma LookupSnoc<A, B>(ps: seq<(A, B)>, ps': seq<(A, B)>, a: A, b: B, x: A)
    requires ps' == ps + [(a, b)]
    ensures Lookup(ps', x) == Lookup(ps, x) + (if x == a then [b] else [])
  {
    assert ps'[..|ps|] == ps;
  }

  /** How often a pair occurs is how often its second part is listed under its first. */
  lemma {:induction false} LookupOcc<A, B>(ps: seq<(A, B)>, a: A, b: B)
    ensures Occ(ps, (a, b)) == Occ(Lookup(ps, a), b)
    decreases |ps|
  {
    if ps != [] {
      var init := ps[..|ps| - 1];
      var p := ps[|ps| - 1];
      LookupOcc(init, a, b);
      var l := Lookup(init, a);
      if p.0 == a {
        assert (l + [p.1])[..|l|] == l;
      } else {
        assert Lookup(ps, a) == l;
      }
    }
  }
}
