/**
 Orderings used by the analyzer's sorts. Python compares numbers by value,
 strings character by character (by code point), and tuples and lists
 lexicographically, element by element. Each of those comparisons is a
 strict total order; this module builds them from their parts and proves
 that each combination is again a strict total order.
 */
module Order {

  /** `lt` is irreflexive, transitive and relates every two distinct values. */
  ghost predicate StrictTotal<T(!new)>(lt: (T, T) -> bool) {
    && (forall x :: !lt(x, x))
    && (forall x, y, z :: lt(x, y) && lt(y, z) ==> lt(x, z))
    && (forall x, y :: x != y ==> lt(x, y) || lt(y, x))
  }

  /** Python's `<` on integers. */
  predicate IntLt(a: int, b: int) {
    a < b
  }

  /** Python's `<` on single characters: code point order. */
  predicate CharLt(a: char, b: char) {
    a < b
  }

  lemma IntLtStrictTotal()
    ensures StrictTotal(IntLt)
  {
  }

  lemma CharLtStrictTotal()
    ensures StrictTotal(CharLt)
  {
  }

  /** The order with its two sides exchanged; `reverse=True` sorts by it. */
  function Flip<T>(lt: (T, T) -> bool): (T, T) -> bool {
    (x: T, y: T) => lt(y, x)
  }

  lemma FlipStrictTotal<T(!new)>(lt: (T, T) -> bool)
    requires StrictTotal(lt)
    ensures StrictTotal(Flip(lt))
  {
  }

  /** Python's tuple comparison on pairs: first components, then second. */
  predicate PairLt<A(==), B>(ltA: (A, A) -> bool, ltB: (B, B) -> bool, x: (A, B), y: (A, B)) {
    ltA(x.0, y.0) || (x.0 == y.0 && ltB(x.1, y.1))
  }

  function Pairwise<A(==), B>(ltA: (A, A) -> bool, ltB: (B, B) -> bool): ((A, B), (A, B)) -> bool {
    (x: (A, B), y: (A, B)) => PairLt(ltA, ltB, x, y)
  }

  lemma PairwiseStrictTotal<A(!new), B(!new)>(ltA: (A, A) -> bool, ltB: (B, B) -> bool)
    requires StrictTotal(ltA) && StrictTotal(ltB)
    ensures StrictTotal(Pairwise(ltA, ltB))
  {
    var lt := Pairwise(ltA, ltB);
    forall x, y, z | lt(x, y) && lt(y, z) ensures lt(x, z) {
      assert PairLt(ltA, ltB, x, y) && PairLt(ltA, ltB, y, z);
    }
    forall x, y | x != y ensures lt(x, y) || lt(y, x) {
      if x.0 == y.0 {
        assert x.1 != y.1;
      }
    }
  }

  /** The order of pairs `(a, b)` compared as the pairs `(b, a)`. */
  function Swapped<A, B>(lt: ((B, A), (B, A)) -> bool): ((A, B), (A, B)) -> bool {
    (x: (A, B), y: (A, B)) => lt((x.1, x.0), (y.1, y.0))
  }

  lemma SwappedStrictTotal<A(!new), B(!new)>(lt: ((B, A), (B, A)) -> bool)
    requires StrictTotal(lt)
    ensures StrictTotal(Swapped(lt))
  {
    var sw := Swapped(lt);
    forall x, y | x != y ensures sw(x, y) || sw(y, x) {
      assert (x.1, x.0) != (y.1, y.0);
    }
  }

  /**
   Python's comparison of lists and strings: the first differing element
   decides, and a proper prefix is smaller than the longer sequence.
   */
  predicate SeqLt<T(==)>(lt: (T, T) -> bool, a: seq<T>, b: seq<T>)
    decreases |a|
  {
    if |a| == 0 then |b| > 0
    else if |b| == 0 then false
    else lt(a[0], b[0]) || (a[0] == b[0] && SeqLt(lt, a[1..], b[1..]))
  }

  function Lexicographic<T(==)>(lt: (T, T) -> bool): (seq<T>, seq<T>) -> bool {
    (a: seq<T>, b: seq<T>) => SeqLt(lt, a, b)
  }

  lemma {:induction false} SeqLtIrreflexive<T(!new)>(lt: (T, T) -> bool, a: seq<T>)
    requires StrictTotal(lt)
    ensures !SeqLt(lt, a, a)
    decreases |a|
  {
    if |a| > 0 {
      SeqLtIrreflexive(lt, a[1..]);
    }
  }

  lemma {:induction false} SeqLtTransitive<T(!new)>(lt: (T, T) -> bool, a: seq<T>, b: seq<T>, c: seq<T>)
    requires StrictTotal(lt)
    requires SeqLt(lt, a, b) && SeqLt(lt, b, c)
    ensures SeqLt(lt, a, c)
    decreases |a|
  {
    if |a| > 0 && a[0] == b[0] && b[0] == c[0] {
      SeqLtTransitive(lt, a[1..], b[1..], c[1..]);
    }
  }

  lemma {:induction false} SeqLtConnected<T(!new)>(lt: (T, T) -> bool, a: seq<T>, b: seq<T>)
    requires StrictTotal(lt)
    requires a != b
    ensures SeqLt(lt, a, b) || SeqLt(lt, b, a)
    decreases |a|
  {
    if |a| > 0 && |b| > 0 && a[0] == b[0] {
      assert a == [a[0]] + a[1..] && b == [b[0]] + b[1..];
      SeqLtConnected(lt, a[1..], b[1..]);
    }
  }

  lemma LexicographicStrictTotal<T(!new)>(lt: (T, T) -> bool)
    requires StrictTotal(lt)
    ensures StrictTotal(Lexicographic(lt))
  {
    var order := Lexicographic(lt);
    forall a ensures !order(a, a) {
      SeqLtIrreflexive(lt, a);
    }
    forall a, b, c | order(a, b) && order(b, c) ensures order(a, c) {
      SeqLtTransitive(lt, a, b, c);
    }
    forall a, b | a != b ensures order(a, b) || order(b, a) {
      SeqLtConnected(lt, a, b);
    }
  }
}
