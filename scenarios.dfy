/**
 Two small worked scenarios: a decade count over three years, and a
 top-billed count where one actor leads, the second derived from the
 ranking's specification alone.
 */
module Scenarios {
  import opened PySeq
  import opened Order
  import opened Strings
  import opened Tally
  import opened Sorting
  import opened Rankings
  import opened Joiner
  import opened Queries

  /** Three movies from 1995, 1999 and 2001 (records left empty: the query reads only the keys). */
  function DecadeMovies(): Items {
    [(("A", "1995"), []), (("B", "1999"), []), (("C", "2001"), [])]
  }

  lemma DecadeMoviesStems()
    ensures Decades(DecadeMovies()) == ["199", "199", "200"]
  {
    assert Take("1995", 3) == "199" by { assert "1995"[..3] == "199"; }
    assert Take("1999", 3) == "199" by { assert "1999"[..3] == "199"; }
    assert Take("2001", 3) == "200" by { assert "2001"[..3] == "200"; }
  }

  lemma StemTotals()
    ensures Totals(Ones(["199", "199", "200"])) == [(2, "199"), (1, "200")]
  {
    var ds: seq<string> := ["199", "199", "200"];
    var ws := Ones(ds);
    assert Firsts(ws) == ds;
    var s1: seq<string> := ["199"];
    assert s1[..0] == [];
    assert Dedup(s1) == ["199"];
    assert ds[..2][..1] == s1;
    assert Dedup(ds[..2]) == ["199"];
    assert "200" != "199";
    assert Dedup(ds) == ["199", "200"];
    var w1 := Ones(s1);
    assert w1 == [("199", 1)] && w1[..0] == [];
    assert Weight(w1, "199") == 1;
    assert Weight(w1, "200") == 0;
    assert ws[..2][..1] == w1;
    assert Weight(ws[..2], "199") == 2 && Weight(ws[..2], "200") == 0;
    assert Weight(ws, "199") == 2;
    assert Weight(ws, "200") == 1;
  }

  /** Two movies in the 1990s and one in the 2000s. */
  lemma DecadesExample()
    ensures DecadeRanking(DecadeMovies()) == [(2, "1990s"), (1, "2000s")]
  {
    DecadeMoviesStems();
    StemTotals();
    var ts: seq<(int, string)> := [(2, "199"), (1, "200")];
    assert "199" + "0s" == "1990s";
    assert "200" + "0s" == "2000s";
    var ls := Labelled(ts);
    assert ls == [(2, "1990s"), (1, "2000s")];
    SortDecadePair();
  }

  lemma SortDecadePair()
    ensures Sort([(2, "1990s"), (1, "2000s")], Descending(Lt)) == [(2, "1990s"), (1, "2000s")]
  {
    var ls: seq<(int, string)> := [(2, "1990s"), (1, "2000s")];
    var lt := Descending(Lt);
    assert ls[..1] == [(2, "1990s")];
    assert [(2, "1990s")][..0] == [];
    assert Sort(ls[..1], lt) == [(2, "1990s")];
    assert !lt((1, "2000s"), (2, "1990s"));
    assert Insert([(2, "1990s")], (1, "2000s"), lt) == ls;
  }

  /** Four records, X billed first in three of them and Y in one. */
  function BillingMovies(): Items {
    [(("A", "2001"), ["1", "D", "X"]), (("B", "2002"), ["2", "D", "X"]),
     (("C", "2003"), ["3", "E", "Y"]), (("D", "2004"), ["4", "E", "X"])]
  }

  /** The single top-billed entry is (3, X). */
  lemma TopBilledExample()
    ensures TopBilledRanking(BillingMovies(), 1) == [(3, "X")]
  {
    BillingCounts();
    TopBilledOfTwo(BillingMovies());
  }

  /** With "X" top-billed three times and "Y" once, and no one else, the top entry is (3, "X"). */
  lemma TopBilledOfTwo(ms: Items)
    requires HasField(ms, 2)
    requires var ds := Column(ms, 2);
      && Occ(ds, "X") == 3 && Occ(ds, "Y") == 1 && Elems(ds) == {"X", "Y"}
      && (forall a :: a in ds <==> a == "X" || a == "Y")
    ensures TopBilledRanking(ms, 1) == [(3, "X")]
  {
    TopBilledRankingSpec(ms, 1);
    var r := TopBilledRanking(ms, 1);
    assert |{"X", "Y"}| == 2;
    assert |r| == 1;
    var t := r[0];
    assert t in r;
    assert t.1 == "X" || t.1 == "Y";
    assert t.1 != "Y" by {
      assert (3, "X") != t || t.1 == "X";
    }
    assert r == [t];
  }

  /** The top-billed column holds "X" three times and "Y" once. */
  lemma BillingCounts()
    ensures var ds := Column(BillingMovies(), 2);
      && Occ(ds, "X") == 3 && Occ(ds, "Y") == 1 && Elems(ds) == {"X", "Y"}
      && (forall a :: a in ds <==> a == "X" || a == "Y")
  {
    var ds := Column(BillingMovies(), 2);
    assert ds == ["X", "X", "Y", "X"];
    var s1: seq<string> := ["X"];
    var s2: seq<string> := ["X", "X"];
    var s3: seq<string> := ["X", "X", "Y"];
    assert s1[..0] == [] && s2[..1] == s1 && s3[..2] == s2 && ds[..3] == s3;
    assert "X" != "Y";
    assert Occ(s1, "X") == 1 && Occ(s1, "Y") == 0;
    assert Occ(s2, "X") == 2 && Occ(s2, "Y") == 0;
    assert Occ(s3, "X") == 2 && Occ(s3, "Y") == 1;
    assert Occ(ds, "X") == 3;
    assert Occ(ds, "Y") == 1;
    assert Elems(ds) == {"X", "Y"};
  }
}
