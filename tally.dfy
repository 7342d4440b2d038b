/**
 The counting dicts of the analyzer's ranking queries.

 Each of those queries walks the movies once and, for every movie that
 contributes, adds a weight to the entry of a key: `d[key] += 1` after
 `d[key] = 0` for a new key, or `d[key] = d.get(key, 0) + 1`, or, for
 profits, `+= int(value)`. Such a dict is described here by the list of
 (key, weight) entries the loop adds, in order: its keys are those of the
 entries in order of first occurrence, and its value for a key is the sum
 of that key's weights. The queries then rank the dict's items by
 `sorted(..., reverse=True)[:count]`, or by a sort on the key followed by
 a stable sort on the total; this module proves what those rankings hold.
 */
module Tally {
  import opened Order
  import opened PySeq
  import opened Sorting

  /** The sum of the weights the entries give `k`. */
  function Weight<K(==)>(ws: seq<(K, int)>, k: K): int {
    if ws == [] then 0
    else Weight(ws[..|ws| - 1], k) + (if ws[|ws| - 1].0 == k then ws[|ws| - 1].1 else 0)
  }

  /** Every element with weight 1: what a counter adds up. */
  function Ones<K>(xs: seq<K>): (ws: seq<(K, int)>)
    ensures |ws| == |xs| && forall i :: 0 <= i < |xs| ==> ws[i] == (xs[i], 1)
  {
    seq(|xs|, i requires 0 <= i < |xs| => (xs[i], 1))
  }

  /** A counter's value for `k` is `list.count(k)`. */
  lemma {:induction false} WeightOnes<K>(xs: seq<K>, k: K)
    ensures Weight(Ones(xs), k) == Occ(xs, k)
    decreases |xs|
  {
    if xs != [] {
      assert Ones(xs)[..|xs| - 1] == Ones(xs[..|xs| - 1]);
      WeightOnes(xs[..|xs| - 1], k);
    }
  }

  lemma OnesSnoc<K>(xs: seq<K>, x: K)
    ensures Ones(xs + [x]) == Ones(xs) + [(x, 1)]
  {
  }

  lemma FirstsOnes<K>(xs: seq<K>)
    ensures Firsts(Ones(xs)) == xs
  {
  }

  /** The weight of a key no entry names is 0. */
  lemma {:induction false} WeightAbsent<K>(ws: seq<(K, int)>, k: K)
    requires k !in Firsts(ws)
    ensures Weight(ws, k) == 0
    decreases |ws|
  {
    if ws != [] {
      assert Firsts(ws[..|ws| - 1]) == Firsts(ws)[..|ws| - 1];
      WeightAbsent(ws[..|ws| - 1], k);
    }
  }

  /**
   `[(v, k) for (k, v) in d.items()]` of the dict the entries build: one
   (total, key) pair per key, in order of first occurrence.
   */
  function Totals<K(==, !new)>(ws: seq<(K, int)>): (ts: seq<(int, K)>)
    ensures var ks := Dedup(Firsts(ws));
      |ts| == |ks| && forall i :: 0 <= i < |ks| ==> ts[i] == (Weight(ws, ks[i]), ks[i])
  {
    var ks := Dedup(Firsts(ws));
    seq(|ks|, i requires 0 <= i < |ks| => (Weight(ws, ks[i]), ks[i]))
  }

  /**
   The pairs are exactly the keys with their totals, each key once, and
   there are as many as there are distinct keys.
   */
  lemma TotalsSpec<K(!new)>(ws: seq<(K, int)>)
    ensures Distinct(Totals(ws))
    ensures forall t :: t in Totals(ws) <==> t.1 in Firsts(ws) && t.0 == Weight(ws, t.1)
    ensures |Totals(ws)| == |Elems(Firsts(ws))|
  {
    var ks := Dedup(Firsts(ws));
    var ts := Totals(ws);
    forall t: (int, K) | t.1 in Firsts(ws) && t.0 == Weight(ws, t.1) ensures t in ts {
      var i :| 0 <= i < |ks| && ks[i] == t.1;
      assert ts[i] == t;
    }
    DedupDistinct(Firsts(ws));
    DistinctCard(ks);
    assert Elems(ks) == Elems(Firsts(ws));
  }

  /**
   `keys` (in insertion order) and `m` are the dict a loop holds after it
   has added the entries `ws`, in order, by `d[k] = d.get(k, 0) + w`.
   */
  ghost predicate IsTally<K(!new)>(keys: seq<K>, m: map<K, int>, ws: seq<(K, int)>) {
    && keys == Dedup(Firsts(ws))
    && (forall k :: k in m <==> k in keys)
    && (forall k :: k in m ==> m[k] == Weight(ws, k))
  }

  /** One more entry: `d[k] = d.get(k, 0) + w`, `k` appended to the keys if new. */
  lemma TallyStep<K(!new)>(keys: seq<K>, m: map<K, int>, ws: seq<(K, int)>, ws': seq<(K, int)>, k: K, w: int)
    requires IsTally(keys, m, ws) && ws' == ws + [(k, w)]
    ensures IsTally(if k in m then keys else keys + [k],
                    m[k := (if k in m then m[k] else 0) + w],
                    ws')
  {
    if k in m {
      TallySeen(keys, m, ws, ws', k, w, m[k := m[k] + w]);
    } else {
      TallyNew(keys, m, ws, ws', k, w, keys + [k], m[k := 0 + w]);
    }
  }

  /**
   One iteration of a counting loop: `d[k] = d.get(k, 0) + w`, which is
   also what `if k not in d: d[k] = 0` followed by `d[k] += w` does, with
   `keys` the dict's insertion order.
   */
  method Add<K(!new)>(keys: seq<K>, m: map<K, int>, ghost ws: seq<(K, int)>, ghost ws': seq<(K, int)>, k: K, w: int)
    returns (keys': seq<K>, m': map<K, int>)
    requires IsTally(keys, m, ws) && ws' == ws + [(k, w)]
    ensures IsTally(keys', m', ws')
  {
    TallyStep(keys, m, ws, ws', k, w);
    keys', m' := keys, m;
    if k !in m' {
      keys' := keys' + [k];
    }
    m' := m'[k := (if k in m' then m'[k] else 0) + w];
  }

  /** An entry for a key the dict already holds. */
  lemma TallySeen<K(!new)>(keys: seq<K>, m: map<K, int>, ws: seq<(K, int)>, ws': seq<(K, int)>, k: K, w: int,
                           m': map<K, int>)
    requires IsTally(keys, m, ws) && ws' == ws + [(k, w)]
    requires k in m && m' == m[k := m[k] + w]
    ensures IsTally(keys, m', ws')
  {
    FirstsAppend(ws, [(k, w)]);
    DedupSnoc(Firsts(ws), k);
    forall x | x in m' ensures m'[x] == Weight(ws', x) {
      WeightSnoc(ws, ws', k, w, x);
    }
  }

  /** An entry for a key the dict does not hold yet. */
  lemma TallyNew<K(!new)>(keys: seq<K>, m: map<K, int>, ws: seq<(K, int)>, ws': seq<(K, int)>, k: K, w: int,
                          keys': seq<K>, m': map<K, int>)
    requires IsTally(keys, m, ws) && ws' == ws + [(k, w)]
    requires k !in m && keys' == keys + [k] && m' == m[k := 0 + w]
    ensures IsTally(keys', m', ws')
  {
    FirstsAppend(ws, [(k, w)]);
    DedupSnoc(Firsts(ws), k);
    WeightAbsent(ws, k);
    forall x | x in m' ensures m'[x] == Weight(ws', x) {
      WeightSnoc(ws, ws', k, w, x);
    }
  }

  lemma WeightSnoc<K>(ws: seq<(K, int)>, ws': seq<(K, int)>, k: K, w: int, x: K)
    requires ws' == ws + [(k, w)]
    ensures Weight(ws', x) == Weight(ws, x) + (if x == k then w else 0)
  {
    assert ws'[..|ws|] == ws;
  }

  /** `[(v, k) for (k, v) in d.items()]` for the dict `m` whose keys, in order, are `keys`. */
  function ValueKeyPairs<K>(keys: seq<K>, m: map<K, int>): (ps: seq<(int, K)>)
    requires forall k :: k in keys ==> k in m
    ensures |ps| == |keys| && forall i :: 0 <= i < |keys| ==> ps[i] == (m[keys[i]], keys[i])
  {
    seq(|keys|, i requires 0 <= i < |keys| => (m[keys[i]], keys[i]))
  }

  /** The items of a tally, `[(v, k) for (k, v) in d.items()]`, are its totals. */
  lemma TallyItems<K(!new)>(keys: seq<K>, m: map<K, int>, ws: seq<(K, int)>)
    requires IsTally(keys, m, ws)
    ensures ValueKeyPairs(keys, m) == Totals(ws)
  {
  }

  /** Totals in descending order, ties broken by the key, descending. */
  function Descending<K>(ltK: (K, K) -> bool): ((int, K), (int, K)) -> bool {
    Flip(Pairwise(IntLt, ltK))
  }

  lemma DescendingStrictTotal<K(!new)>(ltK: (K, K) -> bool)
    requires StrictTotal(ltK)
    ensures StrictTotal(Descending(ltK))
  {
    IntLtStrictTotal();
    PairwiseStrictTotal(IntLt, ltK);
    FlipStrictTotal(Pairwise(IntLt, ltK));
  }

  /** `sorted(ts, reverse=True)[:count]` */
  function Ranking<K(!new)>(ts: seq<(int, K)>, ltK: (K, K) -> bool, count: int): seq<(int, K)> {
    Take(Sort(ts, Descending(ltK)), count)
  }

  /** The ranking, in terms of the order it sorts by. */
  lemma RankingOrdered<K(!new)>(ws: seq<(K, int)>, ltK: (K, K) -> bool, count: int)
    requires StrictTotal(ltK)
    ensures var r, lt := Ranking(Totals(ws), ltK, count), Descending(ltK);
      && (forall t :: t in r ==> t in Totals(ws))
      && Sorted(r, lt)
      && |r| == TakeLen(|Totals(ws)|, count)
      && (forall t :: t in Totals(ws) && t !in r ==> forall i :: 0 <= i < |r| ==> lt(r[i], t))
  {
    var ts := Totals(ws);
    var lt := Descending(ltK);
    DescendingStrictTotal(ltK);
    TotalsSpec(ws);
    SortSorted(ts, lt);
    SortElems(ts, lt);
    var ranked := Sort(ts, lt);
    assert |ranked| == |multiset(ranked)| == |multiset(ts)| == |ts|;
    TopK(ranked, ts, lt, count);
  }

  /**
   What `sorted([(v, k) for (k, v) in d.items()], reverse=True)[:count]`
   holds: pairs of a key and its total, strictly descending by total and
   then by key, as many as `[:count]` keeps of the distinct keys, and every
   key left out ranks below every key kept.
   */
  lemma RankingSpec<K(!new)>(ws: seq<(K, int)>, ltK: (K, K) -> bool, count: int)
    requires StrictTotal(ltK)
    ensures var r := Ranking(Totals(ws), ltK, count);
      && (forall t :: t in r ==> t.1 in Firsts(ws) && t.0 == Weight(ws, t.1))
      && (forall i, j :: 0 <= i < j < |r| ==>
            r[i].0 > r[j].0 || (r[i].0 == r[j].0 && ltK(r[j].1, r[i].1)))
      && |r| == TakeLen(|Elems(Firsts(ws))|, count)
      && (forall k :: k in Firsts(ws) && (Weight(ws, k), k) !in r ==>
            forall i :: 0 <= i < |r| ==>
              r[i].0 > Weight(ws, k) || (r[i].0 == Weight(ws, k) && ltK(k, r[i].1)))
  {
    var r, lt := Ranking(Totals(ws), ltK, count), Descending(ltK);
    RankingOrdered(ws, ltK, count);
    TotalsSpec(ws);
    forall i, j | 0 <= i < j < |r|
      ensures r[i].0 > r[j].0 || (r[i].0 == r[j].0 && ltK(r[j].1, r[i].1))
    {
      assert lt(r[i], r[j]);
    }
    forall k | k in Firsts(ws) && (Weight(ws, k), k) !in r
      ensures forall i :: 0 <= i < |r| ==>
        r[i].0 > Weight(ws, k) || (r[i].0 == Weight(ws, k) && ltK(k, r[i].1))
    {
      var t := (Weight(ws, k), k);
      assert t in Totals(ws);
      forall i | 0 <= i < |r|
        ensures r[i].0 > Weight(ws, k) || (r[i].0 == Weight(ws, k) && ltK(k, r[i].1))
      {
        assert lt(r[i], t);
      }
    }
  }

  /** `[(y, x) for (x, y) in s]` */
  function Swap<A, B>(s: seq<(A, B)>): (r: seq<(B, A)>)
    ensures |r| == |s| && forall i :: 0 <= i < |s| ==> r[i] == (s[i].1, s[i].0)
  {
    seq(|s|, i requires 0 <= i < |s| => (s[i].1, s[i].0))
  }

  lemma SwapElems<A, B>(s: seq<(A, B)>)
    ensures forall x :: x in Swap(s) <==> (x.1, x.0) in s
  {
    forall x: (B, A) | (x.1, x.0) in s ensures x in Swap(s) {
      var i :| 0 <= i < |s| && s[i] == (x.1, x.0);
      assert Swap(s)[i] == x;
    }
  }

  /** `operator.itemgetter(0)` on a (total, key) pair. */
  function Fst<K>(t: (int, K)): int {
    t.0
  }

  /** Totals in descending order, ties broken by the key, ascending. */
  function DescendingThenAscending<K(==)>(ltK: (K, K) -> bool): ((int, K), (int, K)) -> bool {
    KeyDescThen(Fst, Swapped(Pairwise(ltK, IntLt)))
  }

  /**
   `sorted(sorted(ps) swapped, key=itemgetter(0), reverse=True)[:count]` on
   (key, total) pairs `ps`: sorted by key, turned into (total, key) pairs,
   then stably sorted by total, descending.
   */
  function StableRanking<K(==, !new)>(ps: seq<(K, int)>, ltK: (K, K) -> bool, count: int): seq<(int, K)> {
    Take(SortByKeyDesc(Swap(Sort(ps, Pairwise(ltK, IntLt))), Fst), count)
  }

  lemma SortByKeyDescElems<T(!new)>(s: seq<T>, key: T -> int)
    ensures |SortByKeyDesc(s, key)| == |s|
    ensures forall x :: x in SortByKeyDesc(s, key) <==> x in s
  {
    var r := SortByKeyDesc(s, key);
    assert |r| == |multiset(r)| == |multiset(s)| == |s|;
    forall x ensures x in r <==> x in s {
      assert x in r <==> x in multiset(r);
      assert x in s <==> x in multiset(s);
    }
  }

  lemma DescendingThenAscendingMeans<K>(ltK: (K, K) -> bool, x: (int, K), y: (int, K))
    ensures DescendingThenAscending(ltK)(x, y) <==> x.0 > y.0 || (x.0 == y.0 && ltK(x.1, y.1))
  {
    var sw := Swapped(Pairwise(ltK, IntLt));
    assert sw(x, y) == PairLt(ltK, IntLt, (x.1, x.0), (y.1, y.0));
    assert KeyDescThen(Fst, sw)(x, y) == (Fst(x) > Fst(y) || (Fst(x) == Fst(y) && sw(x, y)));
  }

  /** Sorting the swapped pairs by key and swapping back orders them by key. */
  lemma SwapSorted<K(!new)>(ps: seq<(K, int)>, ltK: (K, K) -> bool)
    requires StrictTotal(ltK) && Distinct(ps)
    ensures var s := Swap(Sort(ps, Pairwise(ltK, IntLt)));
      && Sorted(s, Swapped(Pairwise(ltK, IntLt)))
      && |s| == |ps|
      && forall x :: x in s <==> (x.1, x.0) in ps
  {
    var byKey := Pairwise(ltK, IntLt);
    IntLtStrictTotal();
    PairwiseStrictTotal(ltK, IntLt);
    var s1 := Sort(ps, byKey);
    SortSorted(ps, byKey);
    SortElems(ps, byKey);
    assert |s1| == |multiset(s1)| == |multiset(ps)| == |ps|;
    var s2 := Swap(s1);
    SwapElems(s1);
    forall i, j | 0 <= i < j < |s2| ensures Swapped(byKey)(s2[i], s2[j]) {
      assert byKey(s1[i], s1[j]);
    }
  }

  /** The stable ranking, in terms of the order it sorts by. */
  lemma StableRankingOrdered<K(!new)>(ws: seq<(K, int)>, ltK: (K, K) -> bool, count: int)
    requires StrictTotal(ltK)
    ensures var r, lt := StableRanking(Swap(Totals(ws)), ltK, count), DescendingThenAscending(ltK);
      && (forall t :: t in r ==> t in Totals(ws))
      && Sorted(r, lt)
      && |r| == TakeLen(|Totals(ws)|, count)
      && (forall t :: t in Totals(ws) && t !in r ==> forall i :: 0 <= i < |r| ==> lt(r[i], t))
  {
    var ts := Totals(ws);
    var ps := Swap(ts);
    TotalsSpec(ws);
    SwapElems(ts);
    assert Distinct(ps) by {
      forall i, j | 0 <= i < j < |ps| ensures ps[i] != ps[j] {
        assert ts[i] != ts[j];
      }
    }
    SwapSorted(ps, ltK);
    var s2 := Swap(Sort(ps, Pairwise(ltK, IntLt)));
    assert forall x :: x in s2 <==> x in ts;
    var s3 := SortByKeyDesc(s2, Fst);
    IntLtStrictTotal();
    PairwiseStrictTotal(ltK, IntLt);
    SwappedStrictTotal(Pairwise(ltK, IntLt));
    SortByKeyDescStable(s2, Fst, Swapped(Pairwise(ltK, IntLt)));
    SortByKeyDescElems(s2, Fst);
    TopK(s3, ts, DescendingThenAscending(ltK), count);
  }

  /**
   What the two-step stable ranking of a dict's `(key, total)` items holds:
   pairs of a total and its key, descending by total and, among equal
   totals, ascending by key, as many as `[:count]` keeps of the distinct
   keys, and every key left out ranks below every key kept.
   */
  lemma StableRankingSpec<K(!new)>(ws: seq<(K, int)>, ltK: (K, K) -> bool, count: int)
    requires StrictTotal(ltK)
    ensures var r := StableRanking(Swap(Totals(ws)), ltK, count);
      && (forall t :: t in r ==> t.1 in Firsts(ws) && t.0 == Weight(ws, t.1))
      && (forall i, j :: 0 <= i < j < |r| ==>
            r[i].0 > r[j].0 || (r[i].0 == r[j].0 && ltK(r[i].1, r[j].1)))
      && |r| == TakeLen(|Elems(Firsts(ws))|, count)
      && (forall k :: k in Firsts(ws) && (Weight(ws, k), k) !in r ==>
            forall i :: 0 <= i < |r| ==>
              r[i].0 > Weight(ws, k) || (r[i].0 == Weight(ws, k) && ltK(r[i].1, k)))
  {
    var r, lt := StableRanking(Swap(Totals(ws)), ltK, count), DescendingThenAscending(ltK);
    StableRankingOrdered(ws, ltK, count);
    TotalsSpec(ws);
    forall i, j | 0 <= i < j < |r|
      ensures r[i].0 > r[j].0 || (r[i].0 == r[j].0 && ltK(r[i].1, r[j].1))
    {
      assert lt(r[i], r[j]);
      DescendingThenAscendingMeans(ltK, r[i], r[j]);
    }
    forall k | k in Firsts(ws) && (Weight(ws, k), k) !in r
      ensures forall i :: 0 <= i < |r| ==>
        r[i].0 > Weight(ws, k) || (r[i].0 == Weight(ws, k) && ltK(r[i].1, k))
    {
      var t := (Weight(ws, k), k);
      assert t in Totals(ws);
      forall i | 0 <= i < |r|
        ensures r[i].0 > Weight(ws, k) || (r[i].0 == Weight(ws, k) && ltK(r[i].1, k))
      {
        assert lt(r[i], t);
        DescendingThenAscendingMeans(ltK, r[i], t);
      }
    }
  }
}
