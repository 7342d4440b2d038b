/**
 The analyzer's queries that select movies, list directors and collect
 each cast member's filmography (`bothTopRatedAndGrossing`,
 `uniqueDirectors`, `castFilmography`, `uniqueCastMembers`).

 A movie's record in the joined dict holds, at positions 0 to 6, the cast
 list's rank, the director and five actors, followed by two fields from
 each other list the movie is in.
 */
module Queries {
  import opened Order
  import opened PySeq
  import opened Strings
  import opened Sorting
  import opened Joiner

  /** Every record has a field at position `j`. */
  predicate HasField(movies: Items, j: nat) {
    forall i :: 0 <= i < |movies| ==> j < |movies[i].1|
  }

  /** `[v[j] for v in movies.values()]` */
  function Column(movies: Items, j: nat): (c: seq<string>)
    requires HasField(movies, j)
    ensures |c| == |movies| && forall i :: 0 <= i < |movies| ==> c[i] == movies[i].1[j]
  {
    seq(|movies|, i requires 0 <= i < |movies| => movies[i].1[j])
  }

  // ----- bothTopRatedAndGrossing -----

  /** The items whose record has all 11 fields, in dict order. */
  function Complete(movies: Items): Items {
    if movies == [] then []
    else
      var kv := movies[|movies| - 1];
      Complete(movies[..|movies| - 1]) + (if |kv.1| == 11 then [kv] else [])
  }

  /**
   The selection keeps exactly the items with 11 fields, leaves their
   records as they are and keeps them in dict order (it is a subsequence).
   */
  lemma {:induction false} CompleteSpec(movies: Items)
    ensures forall kv :: kv in Complete(movies) <==> kv in movies && |kv.1| == 11
    ensures |Complete(movies)| <= |movies|
    ensures forall n :: 0 <= n <= |movies| ==> Complete(movies[..n]) <= Complete(movies)
    decreases |movies|
  {
    if movies != [] {
      var init := movies[..|movies| - 1];
      CompleteSpec(init);
      assert movies == init + [movies[|movies| - 1]];
      forall n | 0 <= n <= |movies| ensures Complete(movies[..n]) <= Complete(movies) {
        if n < |movies| {
          assert movies[..n] == init[..n];
        } else {
          assert movies[..n] == movies;
        }
      }
    }
  }

  /** The keys of a selection are keys of the dict. */
  lemma CompleteKeys(movies: Items)
    ensures forall k :: k in Keys(Complete(movies)) ==> k in Keys(movies)
  {
    CompleteSpec(movies);
    forall k | k in Keys(Complete(movies)) ensures k in Keys(movies) {
      var i :| 0 <= i < |Complete(movies)| && Keys(Complete(movies))[i] == k;
      var kv := Complete(movies)[i];
      assert kv in movies;
      var j :| 0 <= j < |movies| && movies[j] == kv;
      assert Keys(movies)[j] == k;
    }
  }

  /**
   `bothTopRatedAndGrossing(movies)`: a new dict holding the movies whose
   record has 11 fields, with their records, in the order of `movies`.
   */
  method BothTopRatedAndGrossing(movies: Items) returns (r: Items)
    requires DistinctKeys(movies)
    ensures r == Complete(movies) && DistinctKeys(r)
    ensures forall kv :: kv in r <==> kv in movies && |kv.1| == 11
  {
    r := [];
    for i := 0 to |movies|
      invariant r == Complete(movies[..i]) && DistinctKeys(r)
    {
      var (k, v) := movies[i];
      assert movies[..i + 1][..i] == movies[..i];
      if |v| == 11 {
        assert k !in Keys(r) by {
          CompleteKeys(movies[..i]);
          assert k !in Keys(movies[..i]) by {
            assert Keys(movies[..i]) == Keys(movies)[..i];
          }
        }
        AssignSpec(r, k, v);
        r := Assign(r, k, v);
        assert r == Complete(movies[..i]) + [(k, v)];
      }
    }
    TakeAll(movies);
    CompleteSpec(movies);
  }

  /**
   The remark behind the test of 11 fields: in the dict the script builds,
   a movie is selected exactly when it is in all three lists.
   */
  lemma SelectedIffInAllLists(cast: seq<Row>, rated: seq<Row>, gross: seq<Row>, k: Key)
    requires WellFormed(cast, 9) && WellFormed(rated, 4) && WellFormed(gross, 4)
    ensures k in Keys(Complete(Joined(cast, rated, gross)))
            <==> k in RowKeys(cast) && k in RowKeys(rated) && k in RowKeys(gross)
  {
    JoinedLayout(cast, rated, gross, k);
    CompleteIff(Joined(cast, rated, gross), k);
  }

  /** A key is selected exactly when it is in the dict with a record of 11 fields. */
  lemma CompleteIff(movies: Items, k: Key)
    requires DistinctKeys(movies)
    ensures k in Keys(Complete(movies)) <==> k in Keys(movies) && |GetOr(movies, k, [])| == 11
  {
    CompleteSpec(movies);
    CompleteKeys(movies);
    if k in Keys(Complete(movies)) {
      var i :| 0 <= i < |Complete(movies)| && Keys(Complete(movies))[i] == k;
      var kv := Complete(movies)[i];
      var j :| 0 <= j < |movies| && movies[j] == kv;
      assert GetOr(movies, k, []) == kv.1;
    }
    if k in Keys(movies) && |GetOr(movies, k, [])| == 11 {
      var j :| 0 <= j < |movies| && Keys(movies)[j] == k;
      assert GetOr(movies, k, []) == movies[j].1;
      assert movies[j] in Complete(movies);
      assert Keys(Complete(movies))[Index(Complete(movies), movies[j])] == k;
    }
  }

  // ----- uniqueDirectors -----

  /** `sorted(set([x[1] for x in movies.values()]))` */
  function UniqueDirectors(movies: Items): seq<string>
    requires HasField(movies, 1)
  {
    Sort(Dedup(Column(movies, 1)), Lt)
  }

  /** Each director once, in strictly increasing string order. */
  lemma UniqueDirectorsSpec(movies: Items)
    requires HasField(movies, 1)
    ensures var r := UniqueDirectors(movies);
      && Sorted(r, Lt)
      && (forall x :: x in r <==> x in Column(movies, 1))
      && |r| == |Elems(Column(movies, 1))|
  {
    var ds := Dedup(Column(movies, 1));
    DedupDistinct(Column(movies, 1));
    LtStrictTotal();
    SortSorted(ds, Lt);
    SortElems(ds, Lt);
    assert |Sort(ds, Lt)| == |multiset(Sort(ds, Lt))| == |ds|;
    DistinctCard(ds);
    assert Elems(ds) == Elems(Column(movies, 1));
  }

  // ----- castFilmography -----

  /** `v[2:7]`: a record's actor fields (fewer when the record is shorter). */
  function CastSlots(v: Record): seq<string> {
    Slice(v, 2, 7)
  }

  /** One (name, key) pair per actor field of a movie, in field order. */
  function MovieCredits(kv: (Key, Record)): (cs: seq<(string, Key)>)
    ensures |cs| == |CastSlots(kv.1)|
    ensures forall i :: 0 <= i < |cs| ==> cs[i] == (CastSlots(kv.1)[i], kv.0)
  {
    var slots := CastSlots(kv.1);
    seq(|slots|, i requires 0 <= i < |slots| => (slots[i], kv.0))
  }

  /** The (name, key) pairs of all actor fields, in the order the loops visit them. */
  function Credits(movies: Items): seq<(string, Key)> {
    if movies == [] then []
    else Credits(movies[..|movies| - 1]) + MovieCredits(movies[|movies| - 1])
  }

  /** The credits of one more record. */
  lemma CreditsSnoc(movies: Items, i: nat)
    requires i < |movies|
    ensures Credits(movies[..i + 1]) == Credits(movies[..i]) + MovieCredits(movies[i])
  {
    assert movies[..i + 1][..i] == movies[..i];
  }

  /** Every actor field of every record, in dict order. */
  function CastNames(movies: Items): seq<string> {
    Firsts(Credits(movies))
  }

  /** A pair is a credit exactly when some movie lists that name in an actor field. */
  lemma {:induction false} CreditsSpec(movies: Items)
    ensures forall c :: c in Credits(movies) <==>
              exists kv :: kv in movies && kv.0 == c.1 && c.0 in CastSlots(kv.1)
    decreases |movies|
  {
    if movies != [] {
      var init := movies[..|movies| - 1];
      var kv := movies[|movies| - 1];
      CreditsSpec(init);
      assert movies == init + [kv];
      forall c ensures c in Credits(movies) <==>
                       exists kv' :: kv' in movies && kv'.0 == c.1 && c.0 in CastSlots(kv'.1)
      {
        if c in MovieCredits(kv) {
          var i :| 0 <= i < |MovieCredits(kv)| && MovieCredits(kv)[i] == c;
          assert kv in movies && kv.0 == c.1 && c.0 in CastSlots(kv.1);
        }
        if exists kv' :: kv' in movies && kv'.0 == c.1 && c.0 in CastSlots(kv'.1) {
          var kv' :| kv' in movies && kv'.0 == c.1 && c.0 in CastSlots(kv'.1);
          if kv' != kv {
            assert kv' in init;
          } else {
            var i :| 0 <= i < |CastSlots(kv.1)| && CastSlots(kv.1)[i] == c.0;
            assert MovieCredits(kv)[i] == c;
          }
        }
      }
    }
  }

  /** The list `actors[a]` ends with: the keys of the movies, one per actor field naming `a`. */
  function Appearances(movies: Items, a: string): seq<Key> {
    Lookup(Credits(movies), a)
  }

  /**
   A cast member's list has one entry per actor field naming them, and
   holds exactly the keys of the movies that list them.
   */
  lemma AppearancesSpec(movies: Items, a: string)
    ensures |Appearances(movies, a)| == Occ(CastNames(movies), a)
    ensures forall k :: k in Appearances(movies, a) <==>
              exists kv :: kv in movies && kv.0 == k && a in CastSlots(kv.1)
  {
    LookupSpec(Credits(movies), a);
    CreditsSpec(movies);
    forall k ensures k in Appearances(movies, a) <==>
                     exists kv :: kv in movies && kv.0 == k && a in CastSlots(kv.1)
    {
      assert k in Appearances(movies, a) <==> (a, k) in Credits(movies);
    }
  }

  /** A cast member is somewhere in the data exactly when their list is not empty. */
  lemma CastMemberListed(movies: Items, a: string)
    ensures a in CastNames(movies) <==> |Appearances(movies, a)| >= 1
  {
    AppearancesSpec(movies, a);
    OccPositive(CastNames(movies), a);
  }

  /** How many actor fields name `a` across the records keyed `k`. */
  function KeyOcc(movies: Items, a: string, k: Key): nat {
    if movies == [] then 0
    else
      var kv := movies[|movies| - 1];
      KeyOcc(movies[..|movies| - 1], a, k) + (if kv.0 == k then Occ(CastSlots(kv.1), a) else 0)
  }

  /**
   A cast member's list holds each movie key once per actor field naming
   them in the records with that key; in a dict (distinct keys) that is
   the actor fields of the one movie with that key, and a key the dict
   does not hold never appears.
   */
  lemma AppearancesOcc(movies: Items, a: string, k: Key)
    ensures Occ(Appearances(movies, a), k) == KeyOcc(movies, a, k)
    ensures DistinctKeys(movies) ==>
              forall i :: 0 <= i < |movies| && movies[i].0 == k ==>
                Occ(Appearances(movies, a), k) == Occ(CastSlots(movies[i].1), a)
    ensures k !in Keys(movies) ==> Occ(Appearances(movies, a), k) == 0
  {
    LookupOcc(Credits(movies), a, k);
    CreditsOcc(movies, a, k);
    if DistinctKeys(movies) {
      forall i | 0 <= i < |movies| && movies[i].0 == k
        ensures KeyOcc(movies, a, k) == Occ(CastSlots(movies[i].1), a)
      {
        forall j | 0 <= j < |movies| && movies[j].0 == k ensures j == i {
          assert Keys(movies)[j] == Keys(movies)[i];
        }
        KeyOccOnly(movies, a, k, i);
      }
    }
    if k !in Keys(movies) {
      forall j | 0 <= j < |movies| ensures movies[j].0 != k {
        assert Keys(movies)[j] == movies[j].0;
      }
      KeyOccAbsent(movies, a, k);
    }
  }

  /** The credits pair `(a, k)` as often as the records keyed `k` name `a`. */
  lemma {:induction false} CreditsOcc(movies: Items, a: string, k: Key)
    ensures Occ(Credits(movies), (a, k)) == KeyOcc(movies, a, k)
    decreases |movies|
  {
    if movies != [] {
      var init := movies[..|movies| - 1];
      var kv := movies[|movies| - 1];
      CreditsOcc(init, a, k);
      OccAppend(Credits(init), MovieCredits(kv), (a, k));
      PairsOcc(CastSlots(kv.1), MovieCredits(kv), kv.0, a, k);
    }
  }

  /** Pairing every name of `s` with `key` gives `(a, k)` once per `a` in `s`, when `key` is `k`. */
  lemma {:induction false} PairsOcc(s: seq<string>, ps: seq<(string, Key)>, key: Key, a: string, k: Key)
    requires |ps| == |s| && forall i :: 0 <= i < |s| ==> ps[i] == (s[i], key)
    ensures Occ(ps, (a, k)) == if key == k then Occ(s, a) else 0
    decreases |s|
  {
    if s != [] {
      PairsOcc(s[..|s| - 1], ps[..|ps| - 1], key, a, k);
    }
  }

  /** Only record `i` carries key `k`. */
  lemma {:induction false} KeyOccOnly(movies: Items, a: string, k: Key, i: nat)
    requires i < |movies| && movies[i].0 == k
    requires forall j :: 0 <= j < |movies| && movies[j].0 == k ==> j == i
    ensures KeyOcc(movies, a, k) == Occ(CastSlots(movies[i].1), a)
    decreases |movies|
  {
    var init := movies[..|movies| - 1];
    if i == |movies| - 1 {
      KeyOccAbsent(init, a, k);
    } else {
      KeyOccOnly(init, a, k, i);
    }
  }

  /** No record carries key `k`. */
  lemma {:induction false} KeyOccAbsent(movies: Items, a: string, k: Key)
    requires forall j :: 0 <= j < |movies| ==> movies[j].0 != k
    ensures KeyOcc(movies, a, k) == 0
    decreases |movies|
  {
    if movies != [] {
      KeyOccAbsent(movies[..|movies| - 1], a, k);
    }
  }

  /**
   `order` (the dict's insertion order) and `actors` are the dict
   `castFilmography` holds after `actors[a] = actors.get(a, []) + [k]` for
   each credit (a, k) of `cs`, in order.
   */
  ghost predicate Collected(order: seq<string>, actors: map<string, seq<Key>>, cs: seq<(string, Key)>) {
    && order == Dedup(Firsts(cs))
    && (forall a :: a in actors <==> a in order)
    && (forall a :: a in actors ==> actors[a] == Lookup(cs, a))
  }

  lemma CollectStep(order: seq<string>, actors: map<string, seq<Key>>, cs: seq<(string, Key)>,
                    cs': seq<(string, Key)>, a: string, k: Key)
    requires Collected(order, actors, cs) && cs' == cs + [(a, k)]
    ensures Collected(if a in actors then order else order + [a],
                      actors[a := (if a in actors then actors[a] else []) + [k]],
                      cs')
  {
    if a in actors {
      CollectSeen(order, actors, cs, cs', a, k, actors[a := actors[a] + [k]]);
    } else {
      CollectNew(order, actors, cs, cs', a, k, order + [a], actors[a := [k]]);
    }
  }

  /** A credit for a name the dict already holds. */
  lemma CollectSeen(order: seq<string>, actors: map<string, seq<Key>>, cs: seq<(string, Key)>,
                    cs': seq<(string, Key)>, a: string, k: Key, actors': map<string, seq<Key>>)
    requires Collected(order, actors, cs) && cs' == cs + [(a, k)]
    requires a in actors && actors' == actors[a := actors[a] + [k]]
    ensures Collected(order, actors', cs')
  {
    FirstsAppend(cs, [(a, k)]);
    DedupSnoc(Firsts(cs), a);
    forall b | b in actors' ensures actors'[b] == Lookup(cs', b) {
      LookupSnoc(cs, cs', a, k, b);
    }
  }

  /** A credit for a name the dict does not hold yet. */
  lemma CollectNew(order: seq<string>, actors: map<string, seq<Key>>, cs: seq<(string, Key)>,
                   cs': seq<(string, Key)>, a: string, k: Key, order': seq<string>, actors': map<string, seq<Key>>)
    requires Collected(order, actors, cs) && cs' == cs + [(a, k)]
    requires a !in actors && order' == order + [a] && actors' == actors[a := [k]]
    ensures Collected(order', actors', cs')
  {
    FirstsAppend(cs, [(a, k)]);
    DedupSnoc(Firsts(cs), a);
    LookupSpec(cs, a);
    OccPositive(Firsts(cs), a);
    forall b | b in actors' ensures actors'[b] == Lookup(cs', b) {
      LookupSnoc(cs, cs', a, k, b);
    }
  }

  /** A row of the result: `[name] + keys`, as a name and its keys. */
  type Film = (string, seq<Key>)

  /** Python's `<` on `[name] + keys` lists: by name, then key by key. */
  function FilmOrder(): (Film, Film) -> bool {
    Pairwise(Lt, Lexicographic(PairOrder()))
  }

  lemma FilmOrderStrictTotal()
    ensures StrictTotal(FilmOrder())
  {
    LtStrictTotal();
    PairOrderStrictTotal();
    LexicographicStrictTotal(PairOrder());
    PairwiseStrictTotal(Lt, Lexicographic(PairOrder()));
  }

  /** `[[k] + v for (k, v) in actors.items() if len(v) >= m]` over the names in `names`. */
  function Films(names: seq<string>, movies: Items, m: int): seq<Film> {
    if names == [] then []
    else
      var a := names[|names| - 1];
      Films(names[..|names| - 1], movies, m)
        + (if |Appearances(movies, a)| >= m then [(a, Appearances(movies, a))] else [])
  }

  lemma {:induction false} FilmsSpec(names: seq<string>, movies: Items, m: int)
    requires Distinct(names)
    ensures Distinct(Films(names, movies, m))
    ensures forall f :: f in Films(names, movies, m) <==>
              f.0 in names && f.1 == Appearances(movies, f.0) && |f.1| >= m
    decreases |names|
  {
    if names != [] {
      var init := names[..|names| - 1];
      var a := names[|names| - 1];
      FilmsSpec(init, movies, m);
      assert names == init + [a];
      assert a !in init;
    }
  }

  /** The rows of one more name. */
  lemma FilmsSnoc(names: seq<string>, i: nat, movies: Items, m: int)
    requires i < |names|
    ensures Films(names[..i + 1], movies, m)
              == Films(names[..i], movies, m)
                 + (if |Appearances(movies, names[i])| >= m then [(names[i], Appearances(movies, names[i]))] else [])
  {
    assert names[..i + 1][..i] == names[..i];
  }

  /** What `castFilmography(movies, m)` returns. */
  function Filmography(movies: Items, m: int): seq<Film> {
    Sort(Films(Dedup(CastNames(movies)), movies, m), FilmOrder())
  }

  /** Rows in increasing `FilmOrder` whose names are distinct are in increasing order of name. */
  lemma FilmsByName(r: seq<Film>)
    requires Sorted(r, FilmOrder())
    requires forall i, j :: 0 <= i < j < |r| && r[i].0 == r[j].0 ==> r[i].1 == r[j].1
    ensures forall i, j :: 0 <= i < j < |r| ==> Lt(r[i].0, r[j].0)
  {
    PairOrderStrictTotal();
    forall i, j | 0 <= i < j < |r| ensures Lt(r[i].0, r[j].0) {
      assert PairLt(Lt, Lexicographic(PairOrder()), r[i], r[j]);
      SeqLtIrreflexive(PairOrder(), r[i].1);
    }
  }

  /**
   One row per cast member with at least `m` list entries, holding the
   member's name and the keys of their movies (repeated when a movie lists
   them twice); the rows are in strictly increasing order of name.
   */
  lemma FilmographySpec(movies: Items, m: int)
    ensures var r := Filmography(movies, m);
      && (forall f :: f in r ==> f.0 in CastNames(movies) && f.1 == Appearances(movies, f.0) && |f.1| >= m)
      && (forall a :: a in CastNames(movies) && |Appearances(movies, a)| >= m ==>
            (a, Appearances(movies, a)) in r)
      && (forall i, j :: 0 <= i < j < |r| ==> Lt(r[i].0, r[j].0))
  {
    var films := Films(Dedup(CastNames(movies)), movies, m);
    var r := Filmography(movies, m);
    DedupDistinct(CastNames(movies));
    FilmsSpec(Dedup(CastNames(movies)), movies, m);
    FilmOrderStrictTotal();
    SortSorted(films, FilmOrder());
    SortElems(films, FilmOrder());
    FilmsByName(r);
  }

  /**
   `castFilmography(movies, minAppearances)`: collects, for every actor
   field `v[2:7]` of every movie in dict order, the movie's key under the
   field's name, and returns `[name] + keys` for the names with at least
   `minAppearances` keys, sorted.
   */
  method CastFilmography(movies: Items, minAppearances: int) returns (r: seq<Film>)
    ensures r == Filmography(movies, minAppearances)
  {
    var actors: map<string, seq<Key>> := map[];
    var order: seq<string> := [];
    for i := 0 to |movies|
      invariant Collected(order, actors, Credits(movies[..i]))
    {
      order, actors := CollectMovie(order, actors, Credits(movies[..i]), movies[i]);
      CreditsSnoc(movies, i);
    }
    TakeAll(movies);
    var films := ListFilms(order, actors, movies, minAppearances);
    r := Sort(films, FilmOrder());
  }

  /** The inner loop of `castFilmography`: `actors[a] = actors.get(a, []) + [k]` for each `a` in `v[2:7]`. */
  method CollectMovie(order: seq<string>, actors: map<string, seq<Key>>, ghost done: seq<(string, Key)>, kv: (Key, Record))
    returns (order': seq<string>, actors': map<string, seq<Key>>)
    requires Collected(order, actors, done)
    ensures Collected(order', actors', done + MovieCredits(kv))
  {
    var (k, v) := kv;
    var slots := Slice(v, 2, 7);
    ghost var here := MovieCredits(kv);
    order', actors' := order, actors;
    assert done + here[..0] == done;
    for j := 0 to |slots|
      invariant Collected(order', actors', done + here[..j])
    {
      var a := slots[j];
      assert here[j] == (a, k);
      AppendTakeStep(done, here, j);
      CollectStep(order', actors', done + here[..j], done + here[..j + 1], a, k);
      var listed := if a in actors' then actors'[a] else [];
      if a !in actors' {
        order' := order' + [a];
      }
      actors' := actors'[a := listed + [k]];
    }
    TakeAll(here);
  }

  /** `[[k] + v for (k, v) in actors.items() if len(v) >= m]`, in the dict's order `order`. */
  method ListFilms(order: seq<string>, actors: map<string, seq<Key>>, movies: Items, m: int) returns (films: seq<Film>)
    requires Collected(order, actors, Credits(movies))
    ensures films == Films(order, movies, m)
  {
    films := [];
    for i := 0 to |order|
      invariant films == Films(order[..i], movies, m)
    {
      var a := order[i];
      FilmsSnoc(order, i, movies, m);
      if |actors[a]| >= m {
        films := films + [(a, actors[a])];
      }
    }
    TakeAll(order);
  }

  // ----- uniqueCastMembers -----

  /** `sorted([x[0] for x in castFilmography(movies, 1)])` */
  function UniqueCastMembers(movies: Items): seq<string> {
    Sort(Firsts(Filmography(movies, 1)), Lt)
  }

  /** The names of the rows of `castFilmography(movies, 1)` are distinct and are the cast names. */
  lemma FilmographyNames(movies: Items)
    ensures var names := Firsts(Filmography(movies, 1));
      && Distinct(names)
      && (forall a :: a in names <==> a in CastNames(movies))
  {
    var films := Filmography(movies, 1);
    var names := Firsts(films);
    FilmographySpec(movies, 1);
    assert Distinct(names) by {
      forall i, j | 0 <= i < j < |names| ensures names[i] != names[j] {
        assert Lt(names[i], names[j]);
        LtStrictTotal();
      }
    }
    forall a ensures a in names <==> a in CastNames(movies) {
      CastMemberListed(movies, a);
      if a in CastNames(movies) {
        var f := (a, Appearances(movies, a));
        assert f in films;
        var i :| 0 <= i < |films| && films[i] == f;
        assert names[i] == a;
      }
    }
  }

  /** Every name found in an actor field, once each, in increasing order. */
  lemma UniqueCastMembersSpec(movies: Items)
    ensures var r := UniqueCastMembers(movies);
      && Sorted(r, Lt)
      && (forall a :: a in r <==> a in CastNames(movies))
  {
    var names := Firsts(Filmography(movies, 1));
    FilmographyNames(movies);
    LtStrictTotal();
    SortSorted(names, Lt);
    SortElems(names, Lt);
  }
}
