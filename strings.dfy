/**
 String operations of the analyzer: Python's `str.strip()` (used to build
 the (title, year) key) and Python's ordering of strings, which compares
 code points from the left and puts a proper prefix first.
 */
module Strings {
  import opened Order

  /**
   The ASCII characters `str.strip()` removes: space, `\t` to `\r` (that is
   `\t`, `\n`, `\x0b`, `\x0c`, `\r`), and the separators `\x1c` to `\x1f`.
   */
  predicate IsSpace(c: char) {
    c == ' ' || '\t' <= c <= '\r' || '\U{1C}' <= c <= '\U{1F}'
  }

  /** How many whitespace characters `s` starts with. */
  function LeadingSpaces(s: string): (n: nat)
    ensures n <= |s|
  {
    if s != [] && IsSpace(s[0]) then 1 + LeadingSpaces(s[1..]) else 0
  }

  /** How many whitespace characters `s` ends with. */
  function TrailingSpaces(s: string): (n: nat)
    ensures n <= |s|
  {
    if s != [] && IsSpace(s[|s| - 1]) then 1 + TrailingSpaces(s[..|s| - 1]) else 0
  }

  /** Python's `s.strip()`. */
  function Strip(s: string): string {
    var t := s[LeadingSpaces(s)..];
    t[..|t| - TrailingSpaces(t)]
  }

  lemma {:induction false} LeadingSpacesSpec(s: string)
    ensures forall i :: 0 <= i < LeadingSpaces(s) ==> IsSpace(s[i])
    ensures LeadingSpaces(s) < |s| ==> !IsSpace(s[LeadingSpaces(s)])
    decreases |s|
  {
    if s != [] && IsSpace(s[0]) {
      LeadingSpacesSpec(s[1..]);
    }
  }

  lemma {:induction false} TrailingSpacesSpec(s: string)
    ensures forall i :: |s| - TrailingSpaces(s) <= i < |s| ==> IsSpace(s[i])
    ensures TrailingSpaces(s) < |s| ==> !IsSpace(s[|s| - TrailingSpaces(s) - 1])
    decreases |s|
  {
    if s != [] && IsSpace(s[|s| - 1]) {
      TrailingSpacesSpec(s[..|s| - 1]);
    }
  }

  /**
   What `strip` promises: the result is the part of `s` between its leading
   and its trailing whitespace, neither of its ends is whitespace, and
   everything cut off on either side is.
   */
  lemma StripTrims(s: string)
    ensures var r, lo := Strip(s), LeadingSpaces(s);
      && (r == [] || (!IsSpace(r[0]) && !IsSpace(r[|r| - 1])))
      && lo + |r| <= |s| && r == s[lo..lo + |r|]
      && (forall i :: 0 <= i < lo ==> IsSpace(s[i]))
      && (forall i :: lo + |r| <= i < |s| ==> IsSpace(s[i]))
  {
    StripSlice(s);
    StripCut(s);
  }

  /** The strip is the slice of `s` after its leading spaces, cut before the trailing ones. */
  lemma StripSlice(s: string)
    ensures var r, lo := Strip(s), LeadingSpaces(s);
      && lo + |r| <= |s| && r == s[lo..lo + |r|]
      && (r == [] || (!IsSpace(r[0]) && !IsSpace(r[|r| - 1])))
  {
    var lo := LeadingSpaces(s);
    var t := s[lo..];
    var m := |t| - TrailingSpaces(t);
    LeadingSpacesSpec(s);
    TrailingSpacesSpec(t);
    assert Strip(s) == t[..m] == s[lo..lo + m];
    if m > 0 {
      assert t[..m][0] == t[0] && t[..m][m - 1] == t[m - 1];
    }
  }

  /** Everything `strip` cuts off is whitespace. */
  lemma StripCut(s: string)
    ensures var r, lo := Strip(s), LeadingSpaces(s);
      && (forall i :: 0 <= i < lo ==> IsSpace(s[i]))
      && (forall i :: lo + |r| <= i < |s| ==> IsSpace(s[i]))
  {
    var lo := LeadingSpaces(s);
    var t := s[lo..];
    var m := |t| - TrailingSpaces(t);
    LeadingSpacesSpec(s);
    TrailingSpacesSpec(t);
    assert |Strip(s)| == m;
    forall i | lo + m <= i < |s| ensures IsSpace(s[i]) {
      assert s[i] == t[i - lo];
    }
  }

  /** A string that is already stripped is its own strip. */
  lemma StripIdempotent(s: string)
    ensures Strip(Strip(s)) == Strip(s)
  {
    var r := Strip(s);
    StripTrims(s);
    if r != [] {
      assert LeadingSpaces(r) == 0;
      assert TrailingSpaces(r) == 0;
    }
  }

  /** Python's `a < b` on strings. */
  predicate Lt(a: string, b: string) {
    SeqLt(CharLt, a, b)
  }

  lemma LtStrictTotal()
    ensures StrictTotal(Lt)
  {
    CharLtStrictTotal();
    LexicographicStrictTotal(CharLt);
    assert forall a, b :: Lt(a, b) == Lexicographic(CharLt)(a, b);
  }

  /** Python's `<` on (string, string) tuples, e.g. the (title, year) keys. */
  function PairOrder(): ((string, string), (string, string)) -> bool {
    Pairwise(Lt, Lt)
  }

  lemma PairOrderStrictTotal()
    ensures StrictTotal(PairOrder())
  {
    LtStrictTotal();
    PairwiseStrictTotal(Lt, Lt);
  }
}
