/**
 The analyzer's ranking queries: `directorsOfMostMovies`,
 `mostProfitableDirectors`, `mostMoviesPerDecades`, `mostTopBilled` and
 `actorDirectorPairs`. Each builds a counting dict in one pass over the
 movies and returns its items ranked; the first three sort (total, key)
 pairs with `reverse=True`, so equal totals are broken by the key in
 descending order, while the last two sort by key first and then stably
 by total, so equal totals keep ascending key order.
 */
module Rankings {
  import opened Order
  import opened PySeq
  import opened Strings
  import opened Sorting
  import opened Joiner
  import opened Queries
  import opened Tally

  /** The column of one more record. */
  lemma ColumnSnoc(movies: Items, j: nat, i: nat)
    requires HasField(movies, j) && i < |movies|
    ensures HasField(movies[..i], j) && HasField(movies[..i + 1], j)
    ensures Column(movies[..i + 1], j) == Column(movies[..i], j) + [movies[i].1[j]]
  {
  }

  // ----- directorsOfMostMovies -----

  /** The ranking `directorsOfMostMovies(movies, count)` returns. */
  function DirectorRanking(movies: Items, count: int): seq<(int, string)>
    requires HasField(movies, 1)
  {
    Ranking(Totals(Ones(Column(movies, 1))), Lt, count)
  }

  /**
   (number of movies, director) pairs: each director's count is how many
   records name them, the pairs are strictly descending by count and then
   by name, there are as many as `[:count]` keeps of the distinct
   directors, and every director left out ranks below every one kept.
   */
  lemma DirectorRankingSpec(movies: Items, count: int)
    requires HasField(movies, 1)
    ensures var r, ds := DirectorRanking(movies, count), Column(movies, 1);
      && (forall t :: t in r ==> t.1 in ds && t.0 == Occ(ds, t.1) && t.0 >= 1)
      && (forall i, j :: 0 <= i < j < |r| ==>
            r[i].0 > r[j].0 || (r[i].0 == r[j].0 && Lt(r[j].1, r[i].1)))
      && |r| == TakeLen(|Elems(ds)|, count)
      && (forall d :: d in ds && (Occ(ds, d), d) !in r ==>
            forall i :: 0 <= i < |r| ==>
              r[i].0 > Occ(ds, d) || (r[i].0 == Occ(ds, d) && Lt(d, r[i].1)))
  {
    var ds := Column(movies, 1);
    LtStrictTotal();
    RankingSpec(Ones(ds), Lt, count);
    FirstsOnes(ds);
    forall d ensures Weight(Ones(ds), d) == Occ(ds, d) && (d in ds ==> Occ(ds, d) >= 1) {
      WeightOnes(ds, d);
      OccPositive(ds, d);
    }
  }

  /**
   `directorsOfMostMovies(movies, count)`: counts the records of each
   director (`movieInfo[1]`) and returns the (count, director) pairs,
   sorted in reverse, cut to the first `count`.
   */
  method DirectorsOfMostMovies(movies: Items, count: int) returns (r: seq<(int, string)>)
    requires HasField(movies, 1)
    ensures r == DirectorRanking(movies, count)
  {
    var counts: map<string, int> := map[];
    var order: seq<string> := [];
    for i := 0 to |movies|
      invariant HasField(movies[..i], 1)
      invariant IsTally(order, counts, Ones(Column(movies[..i], 1)))
    {
      var key := movies[i].1[1];
      ghost var ws := Ones(Column(movies[..i], 1));
      ColumnSnoc(movies, 1, i);
      OnesSnoc(Column(movies[..i], 1), key);
      // `if key not in directorCounts: directorCounts[key] = 0`, then `+= 1`
      order, counts := Add(order, counts, ws, Ones(Column(movies[..i + 1], 1)), key, 1);
    }
    TakeAll(movies);
    TallyItems(order, counts, Ones(Column(movies, 1)));
    var items := ValueKeyPairs(order, counts);
    r := Take(Sort(items, Descending(Lt)), count);
  }

  // ----- mostMoviesPerDecades -----

  /** `year[:3]` for the key (title, year) of every movie, in dict order. */
  function Decades(movies: Items): (ds: seq<string>)
    ensures |ds| == |movies| && forall i :: 0 <= i < |movies| ==> ds[i] == Take(movies[i].0.1, 3)
  {
    seq(|movies|, i requires 0 <= i < |movies| => Take(movies[i].0.1, 3))
  }

  lemma DecadesSnoc(movies: Items, i: nat)
    requires i < |movies|
    ensures Decades(movies[..i + 1]) == Decades(movies[..i]) + [Take(movies[i].0.1, 3)]
  {
  }

  /** `[(count, decade + '0s') for (count, decade) in ts]` */
  function Labelled(ts: seq<(int, string)>): (ls: seq<(int, string)>)
    ensures |ls| == |ts| && forall i :: 0 <= i < |ts| ==> ls[i] == (ts[i].0, ts[i].1 + "0s")
  {
    seq(|ts|, i requires 0 <= i < |ts| => (ts[i].0, ts[i].1 + "0s"))
  }

  /** The ranking `mostMoviesPerDecades(movies)` returns. */
  function DecadeRanking(movies: Items): seq<(int, string)> {
    Sort(Labelled(Totals(Ones(Decades(movies)))), Descending(Lt))
  }

  /** The sum of the first components. */
  function SumCounts<K>(ts: seq<(int, K)>): int {
    if ts == [] then 0 else SumCounts(ts[..|ts| - 1]) + ts[|ts| - 1].0
  }

  lemma {:induction false} SumCountsAppend<K>(a: seq<(int, K)>, b: seq<(int, K)>)
    ensures SumCounts(a + b) == SumCounts(a) + SumCounts(b)
    decreases |b|
  {
    if b == [] {
      assert a + b == a;
    } else {
      assert (a + b)[..|a + b| - 1] == a + b[..|b| - 1];
      SumCountsAppend(a, b[..|b| - 1]);
    }
  }

  /** Reordering does not change the sum. */
  lemma {:induction false} SumCountsPermutation<K>(a: seq<(int, K)>, b: seq<(int, K)>)
    requires multiset(a) == multiset(b)
    ensures SumCounts(a) == SumCounts(b)
    decreases |a|
  {
    if a == [] {
      assert |b| == |multiset(b)| == 0;
    } else {
      var x := a[|a| - 1];
      var init := a[..|a| - 1];
      assert a == init + [x];
      assert x in multiset(b);
      var j :| 0 <= j < |b| && b[j] == x;
      var rest := b[..j] + b[j + 1..];
      MultisetRemove(b, j);
      SumCountsPermutation(init, rest);
      SumCountsRemove(b, j);
    }
  }

  lemma MultisetRemove<T>(b: seq<T>, j: nat)
    requires j < |b|
    ensures multiset(b[..j] + b[j + 1..]) == multiset(b) - multiset{b[j]}
  {
    assert b == b[..j] + [b[j]] + b[j + 1..];
  }

  /** Taking one pair out of the list takes its count out of the sum. */
  lemma SumCountsRemove<K>(b: seq<(int, K)>, j: nat)
    requires j < |b|
    ensures SumCounts(b) == SumCounts(b[..j] + b[j + 1..]) + b[j].0
  {
    var pre, rest := b[..j], b[j..];
    assert b == pre + rest;
    SumCountsAppend(pre, rest);
    SumCountsFront(rest);
    assert rest[1..] == b[j + 1..];
    SumCountsAppend(pre, b[j + 1..]);
  }

  /** The sum is the first count plus the sum of the rest. */
  lemma SumCountsFront<K>(s: seq<(int, K)>)
    requires s != []
    ensures SumCounts(s) == s[0].0 + SumCounts(s[1..])
  {
    assert s == [s[0]] + s[1..];
    SumCountsAppend([s[0]], s[1..]);
    assert SumCounts([s[0]]) == s[0].0 by {
      assert [s[0]][..0] == [];
    }
  }

  lemma {:induction false} SumCountsLabelled(ts: seq<(int, string)>)
    ensures SumCounts(Labelled(ts)) == SumCounts(ts)
    decreases |ts|
  {
    if ts != [] {
      assert Labelled(ts)[..|ts| - 1] == Labelled(ts[..|ts| - 1]);
      SumCountsLabelled(ts[..|ts| - 1]);
    }
  }

  /** The totals of the keys `ks`. */
  function SumOver<K(==)>(ks: seq<K>, ws: seq<(K, int)>): int {
    if ks == [] then 0 else SumOver(ks[..|ks| - 1], ws) + Weight(ws, ks[|ks| - 1])
  }

  /** The sum of all weights. */
  function TotalWeight<K>(ws: seq<(K, int)>): int {
    if ws == [] then 0 else TotalWeight(ws[..|ws| - 1]) + ws[|ws| - 1].1
  }

  lemma {:induction false} SumOverStep<K>(ks: seq<K>, ws: seq<(K, int)>, x: K, w: int)
    ensures SumOver(ks, ws + [(x, w)]) == SumOver(ks, ws) + Occ(ks, x) * w
    decreases |ks|
  {
    var ws' := ws + [(x, w)];
    assert ws'[..|ws|] == ws;
    if ks != [] {
      SumOverStep(ks[..|ks| - 1], ws, x, w);
    }
  }

  lemma {:induction false} OccDistinct<T>(s: seq<T>, x: T)
    requires Distinct(s)
    ensures Occ(s, x) == if x in s then 1 else 0
    decreases |s|
  {
    if s != [] {
      var init := s[..|s| - 1];
      OccDistinct(init, x);
      assert s == init + [s[|s| - 1]];
      assert s[|s| - 1] !in init;
    }
  }

  /** Summing the totals of the distinct keys sums every weight once. */
  lemma {:induction false} SumOverKeys<K(!new)>(ws: seq<(K, int)>)
    ensures SumOver(Dedup(Firsts(ws)), ws) == TotalWeight(ws)
    decreases |ws|
  {
    if ws != [] {
      var init := ws[..|ws| - 1];
      var p := ws[|ws| - 1];
      assert ws == init + [p];
      assert Firsts(ws)[..|ws| - 1] == Firsts(init);
      var d := Dedup(Firsts(init));
      DedupDistinct(Firsts(init));
      SumOverKeys(init);
      SumOverStep(d, init, p.0, p.1);
      if p.0 in d {
        OccDistinct(d, p.0);
      } else {
        OccDistinct(d, p.0);
        SumOverStep(d + [p.0], init, p.0, p.1);
        assert (d + [p.0])[..|d|] == d;
        WeightAbsent(init, p.0);
        assert Weight(ws, p.0) == p.1;
      }
    }
  }

  lemma {:induction false} SumCountsTotals<K(!new)>(ws: seq<(K, int)>)
    ensures SumCounts(Totals(ws)) == TotalWeight(ws)
  {
    var ks := Dedup(Firsts(ws));
    SumOverKeys(ws);
    SumOverTotals(ks, ws);
  }

  lemma {:induction false} SumOverTotals<K(!new)>(ks: seq<K>, ws: seq<(K, int)>)
    ensures SumCounts(seq(|ks|, i requires 0 <= i < |ks| => (Weight(ws, ks[i]), ks[i]))) == SumOver(ks, ws)
    decreases |ks|
  {
    if ks != [] {
      var init := ks[..|ks| - 1];
      SumOverTotals(init, ws);
      var t := seq(|ks|, i requires 0 <= i < |ks| => (Weight(ws, ks[i]), ks[i]));
      assert t[..|ks| - 1] == seq(|init|, i requires 0 <= i < |init| => (Weight(ws, init[i]), init[i]));
    }
  }

  lemma {:induction false} TotalWeightOnes<K>(xs: seq<K>)
    ensures TotalWeight(Ones(xs)) == |xs|
    decreases |xs|
  {
    if xs != [] {
      assert Ones(xs)[..|xs| - 1] == Ones(xs[..|xs| - 1]);
      TotalWeightOnes(xs[..|xs| - 1]);
    }
  }

  /** Distinct stems give distinct labels. */
  lemma LabelledDistinct(ts: seq<(int, string)>)
    requires Distinct(ts)
    ensures Distinct(Labelled(ts))
  {
    var ls := Labelled(ts);
    forall i, j | 0 <= i < j < |ls| ensures ls[i] != ls[j] {
      assert ts[i] != ts[j];
      if ls[i].1 == ls[j].1 {
        assert ts[i].1 == ls[i].1[..|ts[i].1|];
        assert ts[j].1 == ls[j].1[..|ts[j].1|];
      }
    }
  }

  /** The labelled pairs are the decade stems with their counts. */
  lemma LabelledDecades(movies: Items)
    ensures var ls, ds := Labelled(Totals(Ones(Decades(movies)))), Decades(movies);
      && Distinct(ls)
      && (forall t :: t in ls ==> |t.1| >= 2 && t.1[|t.1| - 2..] == "0s" && t.1[..|t.1| - 2] in ds
                                  && t.0 == Occ(ds, t.1[..|t.1| - 2]))
      && (forall d :: d in ds ==> (Occ(ds, d), d + "0s") in ls)
  {
    var ds := Decades(movies);
    var ws := Ones(ds);
    var ts := Totals(ws);
    var ls := Labelled(ts);
    TotalsSpec(ws);
    LabelledDistinct(ts);
    FirstsOnes(ds);
    forall t | t in ls
      ensures |t.1| >= 2 && t.1[|t.1| - 2..] == "0s" && t.1[..|t.1| - 2] in ds
      ensures t.0 == Occ(ds, t.1[..|t.1| - 2])
    {
      var i :| 0 <= i < |ls| && ls[i] == t;
      assert ts[i] in ts;
      assert t.1[..|t.1| - 2] == ts[i].1;
      WeightOnes(ds, ts[i].1);
    }
    forall d | d in ds ensures (Occ(ds, d), d + "0s") in ls {
      var u := (Weight(ws, d), d);
      assert u in ts;
      var i :| 0 <= i < |ts| && ts[i] == u;
      WeightOnes(ds, d);
      assert ls[i] == (Occ(ds, d), d + "0s");
    }
  }

  /** Every movie is counted in exactly one decade. */
  lemma DecadeCountsSum(movies: Items)
    ensures SumCounts(DecadeRanking(movies)) == |movies|
  {
    var ds := Decades(movies);
    var ws := Ones(ds);
    var ts := Totals(ws);
    var ls := Labelled(ts);
    SumCountsPermutation(DecadeRanking(movies), ls);
    SumCountsLabelled(ts);
    SumCountsTotals(ws);
    TotalWeightOnes(ds);
  }

  /** The decades are in strictly descending order of count and then of label. */
  lemma DecadeRankingOrdered(movies: Items)
    ensures var r := DecadeRanking(movies);
      forall i, j :: 0 <= i < j < |r| ==> r[i].0 > r[j].0 || (r[i].0 == r[j].0 && Lt(r[j].1, r[i].1))
  {
    var ls := Labelled(Totals(Ones(Decades(movies))));
    var lt := Descending(Lt);
    var r := DecadeRanking(movies);
    LabelledDecades(movies);
    LtStrictTotal();
    DescendingStrictTotal(Lt);
    SortSorted(ls, lt);
    forall i, j | 0 <= i < j < |r|
      ensures r[i].0 > r[j].0 || (r[i].0 == r[j].0 && Lt(r[j].1, r[i].1))
    {
      assert lt(r[i], r[j]);
    }
  }

  /**
   (number of movies, decade label) pairs: one per decade stem `year[:3]`
   that occurs, labelled stem + "0s", with the number of movies whose year
   starts with that stem; strictly descending by count and then by label;
   and the counts add up to the number of movies.
   */
  lemma DecadeRankingSpec(movies: Items)
    ensures var r, ds := DecadeRanking(movies), Decades(movies);
      && (forall t :: t in r ==> |t.1| >= 2 && t.1[|t.1| - 2..] == "0s" && t.1[..|t.1| - 2] in ds
                                 && t.0 == Occ(ds, t.1[..|t.1| - 2]))
      && (forall d :: d in ds ==> (Occ(ds, d), d + "0s") in r)
      && (forall i, j :: 0 <= i < j < |r| ==>
            r[i].0 > r[j].0 || (r[i].0 == r[j].0 && Lt(r[j].1, r[i].1)))
      && (forall i, j :: 0 <= i < j < |r| ==> r[i].1 != r[j].1)
      && SumCounts(r) == |movies|
  {
    var r := DecadeRanking(movies);
    LabelledDecades(movies);
    SortElems(Labelled(Totals(Ones(Decades(movies)))), Descending(Lt));
    DecadeRankingOrdered(movies);
    DecadeCountsSum(movies);
    LtStrictTotal();
    forall i, j | 0 <= i < j < |r| ensures r[i].1 != r[j].1 {
      assert r[i] in r && r[j] in r;
    }
  }

  /**
   `mostMoviesPerDecades(movies)`: counts the movies of each decade stem
   `year[:3]` and returns (count, stem + '0s') pairs sorted in reverse.
   */
  method MostMoviesPerDecades(movies: Items) returns (r: seq<(int, string)>)
    ensures r == DecadeRanking(movies)
  {
    var movieDecades: map<string, int> := map[];
    var order: seq<string> := [];
    for i := 0 to |movies|
      invariant IsTally(order, movieDecades, Ones(Decades(movies[..i])))
    {
      var (title, year) := movies[i].0;
      var key := Take(year, 3);
      ghost var ws := Ones(Decades(movies[..i]));
      DecadesSnoc(movies, i);
      OnesSnoc(Decades(movies[..i]), key);
      order, movieDecades := Add(order, movieDecades, ws, Ones(Decades(movies[..i + 1])), key, 1);
    }
    TakeAll(movies);
    TallyItems(order, movieDecades, Ones(Decades(movies)));
    var items := Labelled(ValueKeyPairs(order, movieDecades));
    r := Sort(items, Descending(Lt));
  }

  // ----- mostTopBilled -----

  /** The ranking `mostTopBilled(movies, count)` returns. */
  function TopBilledRanking(movies: Items, count: int): seq<(int, string)>
    requires HasField(movies, 2)
  {
    StableRanking(Swap(Totals(Ones(Column(movies, 2)))), Lt, count)
  }

  /**
   (number of movies, actor) pairs for the actors billed first (`v[2]`):
   each count is how many records bill that actor first, the pairs are
   descending by count and, for equal counts, ascending by name, there are
   as many as `[:count]` keeps of the distinct actors, and every actor left
   out ranks below every one kept.
   */
  lemma TopBilledRankingSpec(movies: Items, count: int)
    requires HasField(movies, 2)
    ensures var r, ds := TopBilledRanking(movies, count), Column(movies, 2);
      && (forall t :: t in r ==> t.1 in ds && t.0 == Occ(ds, t.1) && t.0 >= 1)
      && (forall i, j :: 0 <= i < j < |r| ==>
            r[i].0 > r[j].0 || (r[i].0 == r[j].0 && Lt(r[i].1, r[j].1)))
      && |r| == TakeLen(|Elems(ds)|, count)
      && (forall a :: a in ds && (Occ(ds, a), a) !in r ==>
            forall i :: 0 <= i < |r| ==>
              r[i].0 > Occ(ds, a) || (r[i].0 == Occ(ds, a) && Lt(r[i].1, a)))
  {
    var ds := Column(movies, 2);
    LtStrictTotal();
    StableRankingSpec(Ones(ds), Lt, count);
    FirstsOnes(ds);
    forall a ensures Weight(Ones(ds), a) == Occ(ds, a) && (a in ds ==> Occ(ds, a) >= 1) {
      WeightOnes(ds, a);
      OccPositive(ds, a);
    }
  }

  /**
   `mostTopBilled(movies, count)`: counts how often each actor is billed
   first (`v[2]`), lists the (actor, count) items, sorts them, swaps each
   to (count, actor) and sorts stably by count, descending, keeping the
   first `count`.
   */
  method MostTopBilled(movies: Items, count: int) returns (r: seq<(int, string)>)
    requires HasField(movies, 2)
    ensures r == TopBilledRanking(movies, count)
  {
    var topBilledDict: map<string, int> := map[];
    var order: seq<string> := [];
    for i := 0 to |movies|
      invariant HasField(movies[..i], 2)
      invariant IsTally(order, topBilledDict, Ones(Column(movies[..i], 2)))
    {
      var v := movies[i].1;
      ghost var ws := Ones(Column(movies[..i], 2));
      ColumnSnoc(movies, 2, i);
      OnesSnoc(Column(movies[..i], 2), v[2]);
      // `if v[2] not in topBilledDict: topBilledDict[v[2]] = 0`, then `+= 1`
      order, topBilledDict := Add(order, topBilledDict, ws, Ones(Column(movies[..i + 1], 2)), v[2], 1);
    }
    TakeAll(movies);
    var topBilledList: seq<(string, int)> := [];
    for i := 0 to |order|
      invariant |topBilledList| == i
      invariant forall j :: 0 <= j < i ==> topBilledList[j] == (order[j], topBilledDict[order[j]])
    {
      var actor := order[i];
      topBilledList := topBilledList + [(actor, topBilledDict[actor])];
    }
    TallyItems(order, topBilledDict, Ones(Column(movies, 2)));
    assert topBilledList == Swap(Totals(Ones(Column(movies, 2))));
    var sortedList := Sort(topBilledList, Pairwise(Lt, IntLt));
    var swapped := Swap(sortedList);
    r := Take(SortByKeyDesc(swapped, Fst), count);
  }

  // ----- mostProfitableDirectors -----

  /** The field the loop reads the value from: 9 for a record of 10 fields, 7 otherwise. */
  function ProfitField(v: Record): (f: nat)
    requires |v| > 7
    ensures f < |v|
  {
    if |v| == 10 then 9 else 7
  }

  /**
   The (key, `int(value)`) entries the loop of `mostProfitableDirectors`
   adds, as written: the key is `movieInfo[0]`, the value is
   `float(movieInfo[ProfitField(movieInfo)])`, and only values above 100
   count. `num` stands for `float` on the field's text; `int` truncates,
   which for a value above 100 is the floor.
   */
  function ProfitEntries(movies: Items, num: string -> real): seq<(string, int)>
    requires HasField(movies, 7)
  {
    if movies == [] then []
    else
      var v := movies[|movies| - 1].1;
      var value := num(v[ProfitField(v)]);
      ProfitEntries(movies[..|movies| - 1], num) + (if value > 100.0 then [(v[0], value.Floor)] else [])
  }

  /** The entries of one more record. */
  lemma ProfitEntriesSnoc(movies: Items, i: nat, num: string -> real)
    requires HasField(movies, 7) && i < |movies|
    ensures HasField(movies[..i], 7) && HasField(movies[..i + 1], 7)
    ensures var v := movies[i].1;
      var value := num(v[ProfitField(v)]);
      && (value > 100.0 ==>
            ProfitEntries(movies[..i + 1], num) == ProfitEntries(movies[..i], num) + [(v[0], value.Floor)])
      && (value <= 100.0 ==> ProfitEntries(movies[..i + 1], num) == ProfitEntries(movies[..i], num))
  {
    assert movies[..i + 1][..i] == movies[..i];
  }

  /**
   A key's entries come from the records holding that key with a value
   above 100, and from nothing else: every entry is `(movieInfo[0],
   int(value))` of such a record, and every such record files one.
   */
  lemma ProfitEntriesSpec(movies: Items, num: string -> real)
    requires HasField(movies, 7)
    ensures forall e :: e in ProfitEntries(movies, num) ==> e.1 >= 100
    ensures forall e :: e in ProfitEntries(movies, num) ==>
              exists kv :: kv in movies && kv.1[0] == e.0 && num(kv.1[ProfitField(kv.1)]) > 100.0
                           && e.1 == num(kv.1[ProfitField(kv.1)]).Floor
    ensures forall kv :: kv in movies && num(kv.1[ProfitField(kv.1)]) > 100.0 ==>
              kv.1[0] in Firsts(ProfitEntries(movies, num))
  {
    ProfitEntriesFrom(movies, num);
    ProfitAtLeast(movies, num);
    ProfitFiledKeys(movies, num);
  }

  /** Every record whose value is above 100 files an entry under `movieInfo[0]`. */
  lemma ProfitFiledKeys(movies: Items, num: string -> real)
    requires HasField(movies, 7)
    ensures forall kv :: kv in movies && num(kv.1[ProfitField(kv.1)]) > 100.0 ==>
              kv.1[0] in Firsts(ProfitEntries(movies, num))
  {
    ProfitFiled(movies, num);
    forall kv | kv in movies && num(kv.1[ProfitField(kv.1)]) > 100.0
      ensures kv.1[0] in Firsts(ProfitEntries(movies, num))
    {
      var j :| 0 <= j < |movies| && movies[j] == kv;
    }
  }

  lemma {:induction false} ProfitAtLeast(movies: Items, num: string -> real)
    requires HasField(movies, 7)
    ensures forall e :: e in ProfitEntries(movies, num) ==> e.1 >= 100
    decreases |movies|
  {
    if movies != [] {
      ProfitAtLeast(movies[..|movies| - 1], num);
    }
  }

  lemma {:induction false} ProfitFiled(movies: Items, num: string -> real)
    requires HasField(movies, 7)
    ensures forall j :: 0 <= j < |movies| && num(movies[j].1[ProfitField(movies[j].1)]) > 100.0 ==>
              movies[j].1[0] in Firsts(ProfitEntries(movies, num))
    decreases |movies|
  {
    if movies != [] {
      var n := |movies| - 1;
      var init := movies[..n];
      var v := movies[n].1;
      var value := num(v[ProfitField(v)]);
      var tail := if value > 100.0 then [(v[0], value.Floor)] else [];
      ProfitFiled(init, num);
      FirstsAppend(ProfitEntries(init, num), tail);
      forall j | 0 <= j < |movies| && num(movies[j].1[ProfitField(movies[j].1)]) > 100.0
        ensures movies[j].1[0] in Firsts(ProfitEntries(movies, num))
      {
        if j < n {
          assert init[j] == movies[j];
        } else {
          assert Firsts(tail) == [v[0]];
        }
      }
    }
  }

  /** Every entry is the key and truncated value of a record whose value is above 100. */
  lemma {:induction false} ProfitEntriesFrom(movies: Items, num: string -> real)
    requires HasField(movies, 7)
    ensures forall e :: e in ProfitEntries(movies, num) ==>
              exists kv :: kv in movies && kv.1[0] == e.0 && num(kv.1[ProfitField(kv.1)]) > 100.0
                           && e.1 == num(kv.1[ProfitField(kv.1)]).Floor
    decreases |movies|
  {
    if movies != [] {
      var init := movies[..|movies| - 1];
      var last := movies[|movies| - 1];
      ProfitEntriesFrom(init, num);
      forall e | e in ProfitEntries(movies, num)
        ensures exists kv :: kv in movies && kv.1[0] == e.0 && num(kv.1[ProfitField(kv.1)]) > 100.0
                             && e.1 == num(kv.1[ProfitField(kv.1)]).Floor
      {
        if e in ProfitEntries(init, num) {
          var kv :| kv in init && kv.1[0] == e.0 && num(kv.1[ProfitField(kv.1)]) > 100.0
                    && e.1 == num(kv.1[ProfitField(kv.1)]).Floor;
          assert kv in movies;
        } else {
          assert last in movies;
        }
      }
    }
  }

  /** A key that has entries, each at least `b`, totals at least `b`. */
  lemma {:induction false} WeightAtLeast<K>(ws: seq<(K, int)>, k: K, b: nat)
    requires forall e :: e in ws ==> e.1 >= b
    requires k in Firsts(ws)
    ensures Weight(ws, k) >= b
    decreases |ws|
  {
    var init := ws[..|ws| - 1];
    assert forall e :: e in init ==> e in ws;
    if ws[|ws| - 1].0 == k {
      WeightNonNegative(init, k);
    } else {
      assert Firsts(ws) == Firsts(init) + [ws[|ws| - 1].0];
      WeightAtLeast(init, k, b);
    }
  }

  lemma {:induction false} WeightNonNegative<K>(ws: seq<(K, int)>, k: K)
    requires forall e :: e in ws ==> e.1 >= 0
    ensures Weight(ws, k) >= 0
    decreases |ws|
  {
    if ws != [] {
      var init := ws[..|ws| - 1];
      assert forall e :: e in init ==> e in ws;
      WeightNonNegative(init, k);
    }
  }

  /** The ranking `mostProfitableDirectors(movies, count)` returns. */
  function ProfitRanking(movies: Items, count: int, num: string -> real): seq<(int, string)>
    requires HasField(movies, 7)
  {
    Ranking(Totals(ProfitEntries(movies, num)), Lt, count)
  }

  /**
   (total, key) pairs: each total is the sum of the truncated values above
   100 filed under the key, so at least 100; every key kept is
   `movieInfo[0]` of a record whose value is above 100, and every key
   with such a value is a candidate; the pairs are strictly descending by total and then by
   key, as many as `[:count]` keeps, and every key left out ranks below
   every key kept.
   */
  lemma ProfitRankingSpec(movies: Items, count: int, num: string -> real)
    requires HasField(movies, 7)
    ensures var r, ws := ProfitRanking(movies, count, num), ProfitEntries(movies, num);
      && (forall t :: t in r ==> t.1 in Firsts(ws) && t.0 == Weight(ws, t.1) && t.0 >= 100)
      && (forall t :: t in r ==>
            exists kv :: kv in movies && kv.1[0] == t.1 && num(kv.1[ProfitField(kv.1)]) > 100.0)
      && (forall kv :: kv in movies && num(kv.1[ProfitField(kv.1)]) > 100.0 ==> kv.1[0] in Firsts(ws))
      && (forall i, j :: 0 <= i < j < |r| ==>
            r[i].0 > r[j].0 || (r[i].0 == r[j].0 && Lt(r[j].1, r[i].1)))
      && |r| == TakeLen(|Elems(Firsts(ws))|, count)
      && (forall k :: k in Firsts(ws) && (Weight(ws, k), k) !in r ==>
            forall i :: 0 <= i < |r| ==>
              r[i].0 > Weight(ws, k) || (r[i].0 == Weight(ws, k) && Lt(k, r[i].1)))
  {
    var ws := ProfitEntries(movies, num);
    LtStrictTotal();
    RankingSpec(ws, Lt, count);
    ProfitAtLeast(movies, num);
    ProfitFiledKeys(movies, num);
    ProfitKeysFrom(movies, num);
    forall k | k in Firsts(ws) ensures Weight(ws, k) >= 100 {
      WeightAtLeast(ws, k, 100);
    }
  }

  /** Every key with entries is `movieInfo[0]` of a record whose value is above 100. */
  lemma ProfitKeysFrom(movies: Items, num: string -> real)
    requires HasField(movies, 7)
    ensures forall k :: k in Firsts(ProfitEntries(movies, num)) ==>
              exists kv :: kv in movies && kv.1[0] == k && num(kv.1[ProfitField(kv.1)]) > 100.0
  {
    var ws := ProfitEntries(movies, num);
    ProfitEntriesFrom(movies, num);
    forall k | k in Firsts(ws)
      ensures exists kv :: kv in movies && kv.1[0] == k && num(kv.1[ProfitField(kv.1)]) > 100.0
    {
      var i :| 0 <= i < |ws| && Firsts(ws)[i] == k;
      assert ws[i] in ws;
    }
  }

  /**
   `mostProfitableDirectors(movies, count)`: adds `int(value)` under
   `movieInfo[0]` for every record whose value is above 100 and returns
   the (total, key) pairs sorted in reverse, cut to the first `count`.
   */
  method MostProfitableDirectors(movies: Items, count: int, num: string -> real) returns (r: seq<(int, string)>)
    requires HasField(movies, 7)
    ensures r == ProfitRanking(movies, count, num)
  {
    var order, directors := TallyProfits(movies, num);
    TallyItems(order, directors, ProfitEntries(movies, num));
    var items := ValueKeyPairs(order, directors);
    r := Take(Sort(items, Descending(Lt)), count);
  }

  /** The loop of `mostProfitableDirectors`: `directors[key] += int(value)` for each profit over 100. */
  method TallyProfits(movies: Items, num: string -> real) returns (order: seq<string>, directors: map<string, int>)
    requires HasField(movies, 7)
    ensures IsTally(order, directors, ProfitEntries(movies, num))
  {
    directors := map[];
    order := [];
    for i := 0 to |movies|
      invariant HasField(movies[..i], 7)
      invariant IsTally(order, directors, ProfitEntries(movies[..i], num))
    {
      ProfitEntriesSnoc(movies, i, num);
      order, directors := FileProfit(order, directors, ProfitEntries(movies[..i], num),
                                     ProfitEntries(movies[..i + 1], num), movies[i].1, num);
    }
    TakeAll(movies);
  }

  /** One iteration of that loop, for the record `movieInfo`; `ws'` is `ws` with its entry, if any. */
  method FileProfit(order: seq<string>, directors: map<string, int>, ghost ws: seq<(string, int)>,
                    ghost ws': seq<(string, int)>, movieInfo: Record, num: string -> real)
    returns (order': seq<string>, directors': map<string, int>)
    requires |movieInfo| > 7 && IsTally(order, directors, ws)
    requires var value := num(movieInfo[ProfitField(movieInfo)]);
      && (value > 100.0 ==> ws' == ws + [(movieInfo[0], value.Floor)])
      && (value <= 100.0 ==> ws' == ws)
    ensures IsTally(order', directors', ws')
  {
    order', directors' := order, directors;
    var key := movieInfo[0];
    var value: real;
    if |movieInfo| == 10 {
      value := num(movieInfo[9]);
    } else {
      value := num(movieInfo[7]);
    }
    if value > 100.0 {
      // `if key not in directors: directors[key] = 0`, then `+= int(value)`
      order', directors' := Add(order, directors, ws, ws', key, value.Floor);
    }
  }

  // ----- mostProfitableDirectors: what it reads from the joined dict -----

  /**
   As written, for a movie in all three lists, the loop above files the
   movie's top-rated rank under the movie's cast rank: the record has 11
   fields (never 10), so field 7 is read, which is the top-rated rank, and
   the key `movieInfo[0]` is the cast rank rather than the director.
   */
  lemma ProfitReadsRanksAsWritten(cast: seq<Row>, rated: seq<Row>, gross: seq<Row>,
                                  k: Key, c: nat, r: nat, g: nat)
    requires WellFormed(cast, 9) && WellFormed(rated, 4) && WellFormed(gross, 4)
    requires c < |cast| && r < |rated| && g < |gross|
    requires RowKey(cast[c]) == k && RowKey(rated[r]) == k && RowKey(gross[g]) == k
    ensures var v := GetOr(Joined(cast, rated, gross), k, []);
      && |v| == 11
      && v[0] == cast[c][0]
      && v[ProfitField(v)] == rated[r][0]
      && v[1] == cast[c][3] && v[10] == gross[g][3]
  {
    JoinedFields(cast, rated, gross, k, c, r, g);
  }

  /**
   The entries the loop evidently means to add: the director `v[1]` with
   the truncated last field, counted only when it is above 100 (a profit,
   not a rating).
   */
  function IntendedProfitEntries(movies: Items, num: string -> real): seq<(string, int)>
    requires HasField(movies, 1)
  {
    if movies == [] then []
    else
      var v := movies[|movies| - 1].1;
      var value := num(v[|v| - 1]);
      IntendedProfitEntries(movies[..|movies| - 1], num) + (if value > 100.0 then [(v[1], value.Floor)] else [])
  }

  /**
   Each intended entry is at least 100 and is the director and truncated
   last field of a record whose last field is above 100; every such record
   files its director.
   */
  lemma IntendedProfitEntriesSpec(movies: Items, num: string -> real)
    requires HasField(movies, 1)
    ensures forall e :: e in IntendedProfitEntries(movies, num) ==> e.1 >= 100
    ensures forall e :: e in IntendedProfitEntries(movies, num) ==>
              exists kv :: kv in movies && kv.1[1] == e.0 && num(kv.1[|kv.1| - 1]) > 100.0
                           && e.1 == num(kv.1[|kv.1| - 1]).Floor
    ensures forall kv :: kv in movies && num(kv.1[|kv.1| - 1]) > 100.0 ==>
              kv.1[1] in Firsts(IntendedProfitEntries(movies, num))
  {
    IntendedProfitFrom(movies, num);
    IntendedProfitAtLeast(movies, num);
    IntendedProfitFiledKeys(movies, num);
  }

  /** Every record whose last field is above 100 files an intended entry under its director. */
  lemma IntendedProfitFiledKeys(movies: Items, num: string -> real)
    requires HasField(movies, 1)
    ensures forall kv :: kv in movies && num(kv.1[|kv.1| - 1]) > 100.0 ==>
              kv.1[1] in Firsts(IntendedProfitEntries(movies, num))
  {
    IntendedProfitFiled(movies, num);
    forall kv | kv in movies && num(kv.1[|kv.1| - 1]) > 100.0
      ensures kv.1[1] in Firsts(IntendedProfitEntries(movies, num))
    {
      var j :| 0 <= j < |movies| && movies[j] == kv;
    }
  }

  lemma {:induction false} IntendedProfitFrom(movies: Items, num: string -> real)
    requires HasField(movies, 1)
    ensures forall e :: e in IntendedProfitEntries(movies, num) ==>
              exists kv :: kv in movies && kv.1[1] == e.0 && num(kv.1[|kv.1| - 1]) > 100.0
                           && e.1 == num(kv.1[|kv.1| - 1]).Floor
    decreases |movies|
  {
    if movies != [] {
      var init := movies[..|movies| - 1];
      var last := movies[|movies| - 1];
      IntendedProfitFrom(init, num);
      forall e | e in IntendedProfitEntries(movies, num)
        ensures exists kv :: kv in movies && kv.1[1] == e.0 && num(kv.1[|kv.1| - 1]) > 100.0
                             && e.1 == num(kv.1[|kv.1| - 1]).Floor
      {
        if e in IntendedProfitEntries(init, num) {
          var kv :| kv in init && kv.1[1] == e.0 && num(kv.1[|kv.1| - 1]) > 100.0
                    && e.1 == num(kv.1[|kv.1| - 1]).Floor;
          assert kv in movies;
        } else {
          assert last in movies;
        }
      }
    }
  }

  lemma {:induction false} IntendedProfitAtLeast(movies: Items, num: string -> real)
    requires HasField(movies, 1)
    ensures forall e :: e in IntendedProfitEntries(movies, num) ==> e.1 >= 100
    decreases |movies|
  {
    if movies != [] {
      IntendedProfitAtLeast(movies[..|movies| - 1], num);
    }
  }

  lemma {:induction false} IntendedProfitFiled(movies: Items, num: string -> real)
    requires HasField(movies, 1)
    ensures forall j :: 0 <= j < |movies| && num(movies[j].1[|movies[j].1| - 1]) > 100.0 ==>
              movies[j].1[1] in Firsts(IntendedProfitEntries(movies, num))
    decreases |movies|
  {
    if movies != [] {
      var n := |movies| - 1;
      var init := movies[..n];
      var v := movies[n].1;
      var value := num(v[|v| - 1]);
      var tail := if value > 100.0 then [(v[1], value.Floor)] else [];
      IntendedProfitFiled(init, num);
      FirstsAppend(IntendedProfitEntries(init, num), tail);
      forall j | 0 <= j < |movies| && num(movies[j].1[|movies[j].1| - 1]) > 100.0
        ensures movies[j].1[1] in Firsts(IntendedProfitEntries(movies, num))
      {
        if j < n {
          assert init[j] == movies[j];
        } else {
          assert Firsts(tail) == [v[1]];
        }
      }
    }
  }

  /** For a movie in all three lists the intended entry is its director with its gross profit. */
  lemma IntendedProfitReadsProfit(cast: seq<Row>, rated: seq<Row>, gross: seq<Row>,
                                  k: Key, c: nat, r: nat, g: nat)
    requires WellFormed(cast, 9) && WellFormed(rated, 4) && WellFormed(gross, 4)
    requires c < |cast| && r < |rated| && g < |gross|
    requires RowKey(cast[c]) == k && RowKey(rated[r]) == k && RowKey(gross[g]) == k
    ensures var v := GetOr(Joined(cast, rated, gross), k, []);
      |v| > 1 && v[1] == cast[c][3] && v[|v| - 1] == gross[g][3]
  {
    JoinedFields(cast, rated, gross, k, c, r, g);
  }

  /** The ranking `mostProfitableDirectors` evidently means to return. */
  function IntendedProfitRanking(movies: Items, count: int, num: string -> real): seq<(int, string)>
    requires HasField(movies, 1)
  {
    Ranking(Totals(IntendedProfitEntries(movies, num)), Lt, count)
  }

  /**
   (total profit, director) pairs: each total is the sum of the director's
   truncated profits above 100, so at least 100; every director kept has
   a record whose last field is above 100, and every director with such
   a profit is a candidate; strictly descending by total and then by name,
   as many as `[:count]` keeps, and every director left out ranks below
   every director kept.
   */
  lemma IntendedProfitRankingSpec(movies: Items, count: int, num: string -> real)
    requires HasField(movies, 1)
    ensures var r, ws := IntendedProfitRanking(movies, count, num), IntendedProfitEntries(movies, num);
      && (forall t :: t in r ==> t.1 in Firsts(ws) && t.0 == Weight(ws, t.1) && t.0 >= 100)
      && (forall t :: t in r ==>
            exists kv :: kv in movies && kv.1[1] == t.1 && num(kv.1[|kv.1| - 1]) > 100.0)
      && (forall kv :: kv in movies && num(kv.1[|kv.1| - 1]) > 100.0 ==> kv.1[1] in Firsts(ws))
      && (forall i, j :: 0 <= i < j < |r| ==>
            r[i].0 > r[j].0 || (r[i].0 == r[j].0 && Lt(r[j].1, r[i].1)))
      && |r| == TakeLen(|Elems(Firsts(ws))|, count)
      && (forall d :: d in Firsts(ws) && (Weight(ws, d), d) !in r ==>
            forall i :: 0 <= i < |r| ==>
              r[i].0 > Weight(ws, d) || (r[i].0 == Weight(ws, d) && Lt(d, r[i].1)))
  {
    var ws := IntendedProfitEntries(movies, num);
    LtStrictTotal();
    RankingSpec(ws, Lt, count);
    IntendedProfitAtLeast(movies, num);
    IntendedProfitFiledKeys(movies, num);
    IntendedProfitKeysFrom(movies, num);
    forall d | d in Firsts(ws) ensures Weight(ws, d) >= 100 {
      WeightAtLeast(ws, d, 100);
    }
  }

  /** Every director with intended entries has a record whose last field is above 100. */
  lemma IntendedProfitKeysFrom(movies: Items, num: string -> real)
    requires HasField(movies, 1)
    ensures forall d :: d in Firsts(IntendedProfitEntries(movies, num)) ==>
              exists kv :: kv in movies && kv.1[1] == d && num(kv.1[|kv.1| - 1]) > 100.0
  {
    var ws := IntendedProfitEntries(movies, num);
    IntendedProfitFrom(movies, num);
    forall d | d in Firsts(ws)
      ensures exists kv :: kv in movies && kv.1[1] == d && num(kv.1[|kv.1| - 1]) > 100.0
    {
      var i :| 0 <= i < |ws| && Firsts(ws)[i] == d;
      assert ws[i] in ws;
    }
  }

  // ----- actorDirectorPairs -----

  /** `v[2:6]`: the actor fields the pairing reads (the first four). */
  function PairSlots(v: Record): seq<string> {
    Slice(v, 2, 6)
  }

  /** (director, actor) for each of those fields of one record. */
  function MoviePairs(v: Record): (ps: seq<(string, string)>)
    requires |v| > 1
    ensures |ps| == |PairSlots(v)| && forall j :: 0 <= j < |ps| ==> ps[j] == (v[1], PairSlots(v)[j])
  {
    var slots := PairSlots(v);
    seq(|slots|, j requires 0 <= j < |slots| => (v[1], slots[j]))
  }

  /** The (director, actor) pairs of all records, in dict order. */
  function DirectorCredits(movies: Items): seq<(string, string)>
    requires HasField(movies, 1)
  {
    if movies == [] then []
    else DirectorCredits(movies[..|movies| - 1]) + MoviePairs(movies[|movies| - 1].1)
  }

  /** Under its own director a record lists its four actor fields; under any other, nothing. */
  lemma {:induction false} LookupMoviePairs(v: Record, d: string, n: nat)
    requires |v| > 1 && n <= |MoviePairs(v)|
    ensures Lookup(MoviePairs(v)[..n], d) == if d == v[1] then PairSlots(v)[..n] else []
    decreases n
  {
    if n > 0 {
      var ps := MoviePairs(v)[..n];
      assert ps[..n - 1] == MoviePairs(v)[..n - 1];
      LookupMoviePairs(v, d, n - 1);
      assert PairSlots(v)[..n] == PairSlots(v)[..n - 1] + [PairSlots(v)[n - 1]];
    }
  }

  /** Every pair's director is the director of some record. */
  lemma {:induction false} DirectorCreditsDirectors(movies: Items)
    requires HasField(movies, 1)
    ensures forall p :: p in DirectorCredits(movies) ==> p.0 in Column(movies, 1)
    decreases |movies|
  {
    if movies != [] {
      var init := movies[..|movies| - 1];
      DirectorCreditsDirectors(init);
      forall p | p in DirectorCredits(movies) ensures p.0 in Column(movies, 1) {
        if p in DirectorCredits(init) {
          var i :| 0 <= i < |init| && Column(init, 1)[i] == p.0;
          assert Column(movies, 1)[i] == p.0;
        } else {
          assert p in MoviePairs(movies[|movies| - 1].1);
          assert Column(movies, 1)[|movies| - 1] == p.0;
        }
      }
    }
  }

  /** The ranking `actorDirectorPairs(movies, count)` returns. */
  function PairRanking(movies: Items, count: int): seq<(int, (string, string))>
    requires HasField(movies, 1)
  {
    StableRanking(Swap(Totals(Ones(DirectorCredits(movies)))), PairOrder(), count)
  }

  /**
   (number of movies, (director, actor)) pairs: each count is how often the
   director's records list the actor among their first four actor fields;
   the pairs are descending by count and, for equal counts, ascending by
   (director, actor); there are as many as `[:count]` keeps of the distinct
   pairs, and every pair left out ranks below every pair kept.
   */
  lemma PairRankingSpec(movies: Items, count: int)
    requires HasField(movies, 1)
    ensures var r, cs := PairRanking(movies, count), DirectorCredits(movies);
      && (forall t :: t in r ==> t.1 in cs && t.0 == Occ(cs, t.1) && t.0 >= 1)
      && (forall i, j :: 0 <= i < j < |r| ==>
            r[i].0 > r[j].0 || (r[i].0 == r[j].0 && PairOrder()(r[i].1, r[j].1)))
      && |r| == TakeLen(|Elems(cs)|, count)
      && (forall p :: p in cs && (Occ(cs, p), p) !in r ==>
            forall i :: 0 <= i < |r| ==>
              r[i].0 > Occ(cs, p) || (r[i].0 == Occ(cs, p) && PairOrder()(r[i].1, p)))
  {
    var cs := DirectorCredits(movies);
    PairOrderStrictTotal();
    StableRankingSpec(Ones(cs), PairOrder(), count);
    FirstsOnes(cs);
    forall p ensures Weight(Ones(cs), p) == Occ(cs, p) && (p in cs ==> Occ(cs, p) >= 1) {
      WeightOnes(cs, p);
      OccPositive(cs, p);
    }
  }

  /**
   The pairs the second loop of `actorDirectorPairs` collects are the
   distinct (director, actor) pairs with their counts, so they sort like
   the dict-derived list the ranking is defined from.
   */
  lemma PairsSortAlike(movies: Items, pairs: seq<((string, string), int)>)
    requires HasField(movies, 1) && Distinct(pairs)
    requires forall p :: p in pairs <==> p.0 in DirectorCredits(movies) && p.1 == Occ(DirectorCredits(movies), p.0)
    ensures Sort(pairs, Pairwise(PairOrder(), IntLt)) == Sort(Swap(Totals(Ones(DirectorCredits(movies)))), Pairwise(PairOrder(), IntLt))
  {
    var cs := DirectorCredits(movies);
    var ts := Totals(Ones(cs));
    var ps := Swap(ts);
    TotalsSpec(Ones(cs));
    FirstsOnes(cs);
    SwapElems(ts);
    forall p ensures p in ps <==> p in pairs {
      WeightOnes(cs, p.0);
    }
    assert Distinct(ps) by {
      forall i, j | 0 <= i < j < |ps| ensures ps[i] != ps[j] {
        assert ts[i] != ts[j];
      }
    }
    IntLtStrictTotal();
    PairOrderStrictTotal();
    PairwiseStrictTotal(PairOrder(), IntLt);
    SortSameElements(pairs, ps, Pairwise(PairOrder(), IntLt));
  }

  /**
   What `directorsDict` holds after the first loop has seen records whose
   directors are `ds` and whose (director, actor) pairs are `cs`: each
   director once, in order of first record, with the actors of their
   records concatenated in dict order.
   */
  ghost predicate Grouped(order: seq<string>, dd: map<string, seq<string>>,
                          ds: seq<string>, cs: seq<(string, string)>)
  {
    && order == Dedup(ds)
    && (forall d :: d in dd <==> d in order)
    && (forall d :: d in dd ==> dd[d] == Lookup(cs, d))
  }

  /** The directors column and the pairs of one more record. */
  lemma PrefixStep(movies: Items, i: nat)
    requires HasField(movies, 1) && i < |movies|
    ensures HasField(movies[..i], 1) && HasField(movies[..i + 1], 1)
    ensures Column(movies[..i + 1], 1) == Column(movies[..i], 1) + [movies[i].1[1]]
    ensures DirectorCredits(movies[..i + 1]) == DirectorCredits(movies[..i]) + MoviePairs(movies[i].1)
  {
    assert movies[..i + 1][..i] == movies[..i];
  }

  /** One pass of the first loop of `actorDirectorPairs` keeps `Grouped`. */
  lemma GroupedStep(order: seq<string>, dd: map<string, seq<string>>,
                    ds: seq<string>, cs: seq<(string, string)>, v: Record,
                    order': seq<string>, dd': map<string, seq<string>>)
    requires |v| > 1 && Grouped(order, dd, ds, cs)
    requires forall p :: p in cs ==> p.0 in ds
    requires order' == (if v[1] in dd then order else order + [v[1]])
    requires dd' == dd[v[1] := (if v[1] in dd then dd[v[1]] else []) + PairSlots(v)]
    ensures Grouped(order', dd', ds + [v[1]], cs + MoviePairs(v))
  {
    var director := v[1];
    assert order' == Dedup(ds + [director]) by {
      assert (ds + [director])[..|ds|] == ds;
    }
    if director !in dd {
      assert Lookup(cs, director) == [] by {
        LookupSpec(cs, director);
        OccPositive(Firsts(cs), director);
        forall i | 0 <= i < |cs| ensures Firsts(cs)[i] != director {
          assert cs[i] in cs;
        }
      }
    }
    forall d | d in dd'
      ensures dd'[d] == Lookup(cs + MoviePairs(v), d)
    {
      LookupOneMore(cs, v, d);
    }
  }

  /** `for x in xs: d[key] += [x]` */
  method AppendAll(d: map<string, seq<string>>, key: string, xs: seq<string>)
    returns (r: map<string, seq<string>>)
    requires key in d
    ensures r == d[key := d[key] + xs]
  {
    r := d;
    assert r == d[key := d[key] + xs[..0]] by {
      assert d[key] + xs[..0] == d[key];
    }
    for j := 0 to |xs|
      invariant r == d[key := d[key] + xs[..j]]
    {
      assert d[key] + xs[..j + 1] == (d[key] + xs[..j]) + [xs[j]];
      r := r[key := r[key] + [xs[j]]];
    }
    TakeAll(xs);
  }

  /** `GroupedStep` for the records of a dict, one record further. */
  lemma GroupedRecord(movies: Items, i: nat, order: seq<string>, dd: map<string, seq<string>>,
                      order': seq<string>, dd': map<string, seq<string>>)
    requires HasField(movies, 1) && i < |movies| && HasField(movies[..i], 1)
    requires Grouped(order, dd, Column(movies[..i], 1), DirectorCredits(movies[..i]))
    requires var v := movies[i].1;
      var dd1 := if v[1] in dd then dd else dd[v[1] := []];
      && order' == (if v[1] in dd then order else order + [v[1]])
      && dd' == dd1[v[1] := dd1[v[1]] + PairSlots(v)]
    ensures HasField(movies[..i + 1], 1)
    ensures Grouped(order', dd', Column(movies[..i + 1], 1), DirectorCredits(movies[..i + 1]))
  {
    var d := movies[i].1[1];
    assert dd' == dd[d := (if d in dd then dd[d] else []) + PairSlots(movies[i].1)];
    PrefixStep(movies, i);
    DirectorCreditsDirectors(movies[..i]);
    GroupedStep(order, dd, Column(movies[..i], 1), DirectorCredits(movies[..i]), movies[i].1, order', dd');
  }

  lemma LookupOneMore(done: seq<(string, string)>, v: Record, d: string)
    requires |v| > 1
    ensures Lookup(done + MoviePairs(v), d) == Lookup(done, d) + (if d == v[1] then PairSlots(v) else [])
  {
    LookupAppend(done, MoviePairs(v), d);
    LookupMoviePairs(v, d, |MoviePairs(v)|);
    assert MoviePairs(v)[..|MoviePairs(v)|] == MoviePairs(v);
    assert PairSlots(v)[..|PairSlots(v)|] == PairSlots(v);
  }

  /**
   What the second loop of `actorDirectorPairs` has collected once it has
   gone through the directors `ds` and, of director `d`, the actors `seen`:
   each such (director, actor) pair with the number of times the actor is
   listed under the director.
   */
  ghost predicate Counted(list: seq<((string, string), int)>, ds: seq<string>,
                          dd: map<string, seq<string>>, d: string, seen: set<string>)
  {
    forall p :: p in list <==>
      (p.0.0 in ds && p.0.0 in dd && p.0.1 in dd[p.0.0] && p.1 == Occ(dd[p.0.0], p.0.1))
      || (p.0.0 == d && d in dd && p.0.1 in seen && p.1 == Occ(dd[d], p.0.1))
  }

  lemma CountedStep(list: seq<((string, string), int)>, ds: seq<string>,
                    dd: map<string, seq<string>>, d: string, seen: set<string>, a: string)
    requires Distinct(list) && Counted(list, ds, dd, d, seen)
    requires d in dd && d !in ds && a in dd[d] && a !in seen
    ensures var list' := list + [((d, a), Occ(dd[d], a))];
      Distinct(list') && Counted(list', ds, dd, d, seen + {a})
  {
    var q := ((d, a), Occ(dd[d], a));
    assert q !in list;
    var list' := list + [q];
    forall i, j | 0 <= i < j < |list'| ensures list'[i] != list'[j] {
      if j == |list| {
        assert list'[i] in list;
      } else {
        assert list'[i] == list[i] && list'[j] == list[j];
      }
    }
  }

  lemma CountedNext(list: seq<((string, string), int)>, ds: seq<string>,
                    dd: map<string, seq<string>>, d: string)
    requires d in dd && Counted(list, ds, dd, d, Elems(dd[d]))
    ensures Counted(list, ds + [d], dd, "", {})
  {
  }

  /** After the second loop: exactly the distinct pairs, counted. */
  lemma CountedAll(list: seq<((string, string), int)>, movies: Items,
                   order: seq<string>, dd: map<string, seq<string>>)
    requires HasField(movies, 1)
    requires Grouped(order, dd, Column(movies, 1), DirectorCredits(movies))
    requires Counted(list, order, dd, "", {})
    ensures forall p :: p in list <==>
      p.0 in DirectorCredits(movies) && p.1 == Occ(DirectorCredits(movies), p.0)
  {
    var cs := DirectorCredits(movies);
    DirectorCreditsDirectors(movies);
    forall p: ((string, string), int)
      ensures p in list <==> p.0 in cs && p.1 == Occ(cs, p.0)
    {
      LookupSpec(cs, p.0.0);
      LookupOcc(cs, p.0.0, p.0.1);
    }
  }

  /**
   `actorDirectorPairs(movies, count)`: collects each director's actors
   (`v[2:6]` of each of their records), counts every distinct actor in that
   list, sorts the ((director, actor), count) pairs, swaps each to
   (count, (director, actor)) and sorts stably by count, descending,
   keeping the first `count`.
   */
  method ActorDirectorPairs(movies: Items, count: int) returns (r: seq<(int, (string, string))>)
    requires HasField(movies, 1)
    ensures r == PairRanking(movies, count)
  {
    var order, directorsDict := GroupDirectors(movies);
    DedupDistinct(Column(movies, 1));
    var actorDirectorList: seq<((string, string), int)> := [];
    for i := 0 to |order|
      invariant Distinct(actorDirectorList)
      invariant Counted(actorDirectorList, order[..i], directorsDict, "", {})
    {
      assert order[..i + 1] == order[..i] + [order[i]];
      assert order[i] !in order[..i];
      actorDirectorList := CountActors(actorDirectorList, order[..i], directorsDict, order[i]);
    }
    TakeAll(order);
    CountedAll(actorDirectorList, movies, order, directorsDict);
    PairsSortAlike(movies, actorDirectorList);
    var swapped := Swap(Sort(actorDirectorList, Pairwise(PairOrder(), IntLt)));
    r := Take(SortByKeyDesc(swapped, Fst), count);
  }

  /** The first loop of `actorDirectorPairs`: each actor of `v[2:6]` appended to `directorsDict[v[1]]`, record by record. */
  method GroupDirectors(movies: Items) returns (order: seq<string>, directorsDict: map<string, seq<string>>)
    requires HasField(movies, 1)
    ensures Grouped(order, directorsDict, Column(movies, 1), DirectorCredits(movies))
  {
    directorsDict := map[];
    order := [];
    for i := 0 to |movies|
      invariant HasField(movies[..i], 1)
      invariant Grouped(order, directorsDict, Column(movies[..i], 1), DirectorCredits(movies[..i]))
    {
      var v := movies[i].1;
      var director := v[1];
      ghost var dd0, order0 := directorsDict, order;
      if director !in directorsDict {
        order := order + [director];
        directorsDict := directorsDict[director := []];
      }
      directorsDict := AppendAll(directorsDict, director, Slice(v, 2, 6));
      GroupedRecord(movies, i, order0, dd0, order, directorsDict);
    }
    TakeAll(movies);
  }

  /** The inner loop of `actorDirectorPairs`: one counted pair per distinct actor of `director`. */
  method CountActors(list: seq<((string, string), int)>, ghost ds: seq<string>,
                     dd: map<string, seq<string>>, director: string)
    returns (list': seq<((string, string), int)>)
    requires Distinct(list) && Counted(list, ds, dd, "", {})
    requires director in dd && director !in ds
    ensures Distinct(list') && Counted(list', ds + [director], dd, "", {})
  {
    var actors := dd[director];
    var remaining := Elems(actors);
    list' := list;
    while remaining != {}
      invariant remaining <= Elems(actors)
      invariant Distinct(list')
      invariant Counted(list', ds, dd, director, Elems(actors) - remaining)
      decreases |remaining|
    {
      var actor :| actor in remaining;
      CountedStep(list', ds, dd, director, Elems(actors) - remaining, actor);
      list' := list' + [((director, actor), Occ(actors, actor))];
      assert Elems(actors) - (remaining - {actor}) == (Elems(actors) - remaining) + {actor};
      remaining := remaining - {actor};
    }
    CountedNext(list', ds, dd, director);
  }
}
