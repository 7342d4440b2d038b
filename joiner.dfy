/**
 The record joiner (`processData` in movie-analyzer.py).

 Each source row is a list of fields whose position 1 is the title and
 position 2 the year. The joiner keys the row by the stripped (title, year)
 pair and appends every other field of the row, in order, to the list the
 dictionary already holds for that key. The script calls it on one
 dictionary three times (cast, top rated, top grossing), so a movie's
 record is the concatenation of what each source contributed.

 A Python dict is modelled by its items in insertion order, with distinct
 keys; `Dict` is the mutable dictionary that `processData` updates.
 */
module Joiner {
  import opened PySeq
  import opened Strings

  /** (title, year), both stripped. */
  type Key = (string, string)
  /** The accumulated fields of one movie. */
  type Record = seq<string>
  /** One tokenised line of a source file. */
  type Row = seq<string>
  /** The items of a dict from keys to records, in insertion order. */
  type Items = seq<(Key, Record)>

  /** `list(d.keys())` */
  function Keys(items: Items): seq<Key> {
    Firsts(items)
  }

  /** What makes a list of items the items of a dict. */
  predicate DistinctKeys(items: Items) {
    Distinct(Keys(items))
  }

  /** `d.get(k, default)` */
  function GetOr(items: Items, k: Key, default: Record): (r: Record)
    ensures k !in Keys(items) ==> r == default
    ensures DistinctKeys(items) ==> forall i :: 0 <= i < |items| && items[i].0 == k ==> r == items[i].1
  {
    if k in Keys(items) then items[Index(Keys(items), k)].1 else default
  }

  /** `d[k] = v` */
  function Assign(items: Items, k: Key, v: Record): Items {
    if k in Keys(items) then items[Index(Keys(items), k) := (k, v)] else items + [(k, v)]
  }

  /**
   What `d[k] = v` does: an existing key keeps its position and gets the new
   value, a new key is added at the end, and no other item changes.
   */
  lemma AssignSpec(items: Items, k: Key, v: Record)
    ensures k in Keys(items) ==> Keys(Assign(items, k, v)) == Keys(items)
    ensures k !in Keys(items) ==> Keys(Assign(items, k, v)) == Keys(items) + [k]
    ensures |Assign(items, k, v)| >= |items|
    ensures forall i :: 0 <= i < |items| && items[i].0 != k ==> Assign(items, k, v)[i] == items[i]
    ensures DistinctKeys(items) ==> DistinctKeys(Assign(items, k, v)) && GetOr(Assign(items, k, v), k, []) == v
  {
    var r := Assign(items, k, v);
    if k in Keys(items) {
      assert Keys(r) == Keys(items);
    } else {
      assert Keys(r) == Keys(items) + [k];
    }
  }

  lemma AssignOthers(items: Items, k: Key, v: Record, k': Key)
    requires DistinctKeys(items) && k' != k
    ensures (k' in Keys(Assign(items, k, v))) == (k' in Keys(items))
    ensures GetOr(Assign(items, k, v), k', []) == GetOr(items, k', [])
  {
    var r := Assign(items, k, v);
    AssignSpec(items, k, v);
    if k' in Keys(items) {
      var i :| 0 <= i < |items| && items[i].0 == k';
      assert r[i] == items[i];
    }
  }

  /** Assigning a key twice is assigning it the second value. */
  lemma AssignTwice(items: Items, k: Key, v1: Record, v2: Record)
    ensures Assign(Assign(items, k, v1), k, v2) == Assign(items, k, v2)
  {
    var once := Assign(items, k, v1);
    AssignSpec(items, k, v1);
    assert k in Keys(once);
    if k in Keys(items) {
      assert Index(Keys(once), k) == Index(Keys(items), k);
    } else {
      assert Index(Keys(once), k) == |items| by {
        assert Keys(once)[|items|] == k;
        assert k !in Keys(once)[..|items|];
        IndexFirst(Keys(once), k, |items|);
      }
    }
  }

  /** The key a row is filed under: `(d[1].strip(), d[2].strip())`. */
  function RowKey(d: Row): Key
    requires |d| >= 3
  {
    (Strip(d[1]), Strip(d[2]))
  }

  /** The fields a row contributes: `d[0:1] + d[3:]`. */
  function RowValue(d: Row): (v: Record)
    requires |d| >= 3
    ensures |v| == |d| - 2 && v[0] == d[0] && v[1..] == d[3..]
  {
    d[..1] + d[3..]
  }

  predicate AllRows(data: seq<Row>) {
    forall i :: 0 <= i < |data| ==> |data[i]| >= 3
  }

  function RowKeys(data: seq<Row>): (ks: seq<Key>)
    requires AllRows(data)
    ensures |ks| == |data| && forall i :: 0 <= i < |data| ==> ks[i] == RowKey(data[i])
  {
    seq(|data|, i requires 0 <= i < |data| => RowKey(data[i]))
  }

  lemma RowKeysSnoc(data: seq<Row>)
    requires AllRows(data) && data != []
    ensures RowKeys(data) == RowKeys(data[..|data| - 1]) + [RowKey(data[|data| - 1])]
  {
  }

  /** The effect of one iteration of the loop in `processData`. */
  function AddRow(items: Items, d: Row): Items
    requires |d| >= 3
  {
    Assign(items, RowKey(d), GetOr(items, RowKey(d), []) + RowValue(d))
  }

  /** The dict after `processData(data, items)`. */
  function Join(items: Items, data: seq<Row>): Items
    requires AllRows(data)
  {
    if data == [] then items
    else AddRow(Join(items, data[..|data| - 1]), data[|data| - 1])
  }

  /** Everything the rows filed under `k` contribute, in row order. */
  function Contribution(data: seq<Row>, k: Key): Record
    requires AllRows(data)
  {
    if data == [] then []
    else
      var d := data[|data| - 1];
      Contribution(data[..|data| - 1], k) + (if RowKey(d) == k then RowValue(d) else [])
  }

  /** One row, seen from one key. */
  lemma AddRowAt(items: Items, d: Row, k: Key)
    requires DistinctKeys(items) && |d| >= 3
    ensures DistinctKeys(AddRow(items, d))
    ensures k in Keys(AddRow(items, d)) <==> k in Keys(items) || k == RowKey(d)
    ensures GetOr(AddRow(items, d), k, []) == GetOr(items, k, []) + (if k == RowKey(d) then RowValue(d) else [])
  {
    AssignSpec(items, RowKey(d), GetOr(items, RowKey(d), []) + RowValue(d));
    if k != RowKey(d) {
      AssignOthers(items, RowKey(d), GetOr(items, RowKey(d), []) + RowValue(d), k);
    }
  }

  /**
   One row: the record under its key becomes the old record (or `[]`) with
   `d[0]` and `d[3:]` appended; every other key keeps its record and its
   place, and the set of keys grows by the row's key only.
   */
  lemma AddRowEffect(items: Items, d: Row)
    requires DistinctKeys(items) && |d| >= 3
    ensures DistinctKeys(AddRow(items, d))
    ensures GetOr(AddRow(items, d), RowKey(d), []) == GetOr(items, RowKey(d), []) + [d[0]] + d[3..]
    ensures forall k :: k != RowKey(d) ==>
              (k in Keys(AddRow(items, d)) <==> k in Keys(items))
              && GetOr(AddRow(items, d), k, []) == GetOr(items, k, [])
    ensures forall i :: 0 <= i < |items| && items[i].0 != RowKey(d) ==> AddRow(items, d)[i] == items[i]
    ensures RowKey(d) in Keys(AddRow(items, d))
  {
    AddRowAt(items, d, RowKey(d));
    AssignSpec(items, RowKey(d), GetOr(items, RowKey(d), []) + RowValue(d));
    assert RowValue(d) == [d[0]] + d[3..];
    forall k | k != RowKey(d)
      ensures (k in Keys(AddRow(items, d)) <==> k in Keys(items))
      ensures GetOr(AddRow(items, d), k, []) == GetOr(items, k, [])
    {
      AddRowAt(items, d, k);
    }
  }

  /**
   The whole join, for every key: the key is present afterwards exactly when
   it was present before or some row carries it, and its record is the old
   record followed by the contributions of its rows in row order.
   */
  lemma {:induction false} JoinValue(items: Items, data: seq<Row>, k: Key)
    requires DistinctKeys(items) && AllRows(data)
    ensures DistinctKeys(Join(items, data))
    ensures k in Keys(Join(items, data)) <==> k in Keys(items) || k in RowKeys(data)
    ensures GetOr(Join(items, data), k, []) == GetOr(items, k, []) + Contribution(data, k)
    decreases |data|
  {
    if data != [] {
      var init := data[..|data| - 1];
      var d := data[|data| - 1];
      JoinValue(items, init, k);
      JoinStepAt(Join(items, init), d, k, GetOr(items, k, []), Contribution(init, k));
      RowKeysSnoc(data);
    }
  }

  /** One more row, given the record `base + c` the dict holds under `k` so far. */
  lemma JoinStepAt(j: Items, d: Row, k: Key, base: Record, c: Record)
    requires DistinctKeys(j) && |d| >= 3 && GetOr(j, k, []) == base + c
    ensures DistinctKeys(AddRow(j, d))
    ensures k in Keys(AddRow(j, d)) <==> k in Keys(j) || k == RowKey(d)
    ensures GetOr(AddRow(j, d), k, []) == base + (c + (if RowKey(d) == k then RowValue(d) else []))
  {
    AddRowAt(j, d, k);
  }

  /** Items already in the dict keep their positions; new keys go after them. */
  lemma {:induction false} JoinKeepsOrder(items: Items, data: seq<Row>)
    requires AllRows(data)
    ensures |Join(items, data)| >= |items|
    ensures Keys(Join(items, data))[..|items|] == Keys(items)
    decreases |data|
  {
    if data != [] {
      var init := data[..|data| - 1];
      JoinKeepsOrder(items, init);
    }
  }

  /** A source in which every row has `width` fields and no key occurs twice. */
  predicate WellFormed(data: seq<Row>, width: nat) {
    && (forall i :: 0 <= i < |data| ==> |data[i]| == width)
    && width >= 3
    && Distinct(RowKeys(data))
  }

  /** A key no row carries contributes nothing. */
  lemma {:induction false} ContributionAbsent(data: seq<Row>, k: Key)
    requires AllRows(data) && forall j :: 0 <= j < |data| ==> RowKey(data[j]) != k
    ensures Contribution(data, k) == []
    decreases |data|
  {
    if data != [] {
      ContributionAbsent(data[..|data| - 1], k);
    }
  }

  /** A key that only row `i` carries contributes that row's fields. */
  lemma {:induction false} ContributionOnly(data: seq<Row>, k: Key, i: nat)
    requires AllRows(data) && i < |data| && RowKey(data[i]) == k
    requires forall j :: 0 <= j < |data| && j != i ==> RowKey(data[j]) != k
    ensures Contribution(data, k) == RowValue(data[i])
    decreases |data|
  {
    var init := data[..|data| - 1];
    if i == |data| - 1 {
      ContributionAbsent(init, k);
    } else {
      ContributionOnly(init, k, i);
    }
  }

  /** In a well-formed source, the key of row `i` contributes that row's fields. */
  lemma ContributionOfRow(data: seq<Row>, width: nat, i: nat)
    requires WellFormed(data, width) && i < |data|
    ensures Contribution(data, RowKey(data[i])) == RowValue(data[i])
  {
    var ks := RowKeys(data);
    forall j | 0 <= j < |data| && j != i ensures RowKey(data[j]) != RowKey(data[i]) {
      assert ks[i] != ks[j];
    }
    ContributionOnly(data, RowKey(data[i]), i);
  }

  /** In a well-formed source a key contributes its one row's fields, or nothing. */
  lemma ContributionOfUnique(data: seq<Row>, width: nat, k: Key)
    requires WellFormed(data, width)
    ensures k !in RowKeys(data) ==> Contribution(data, k) == []
    ensures k in RowKeys(data) ==> Contribution(data, k) == RowValue(data[Index(RowKeys(data), k)])
    ensures k in RowKeys(data) ==> |Contribution(data, k)| == width - 2
  {
    if k in RowKeys(data) {
      ContributionOfRow(data, width, Index(RowKeys(data), k));
    } else {
      ContributionAbsent(data, k);
    }
  }

  /**
   The dict the script builds: `processData` on an empty dict with the cast
   rows, then the top-rated rows, then the top-grossing rows.
   */
  function Joined(cast: seq<Row>, rated: seq<Row>, gross: seq<Row>): Items
    requires AllRows(cast) && AllRows(rated) && AllRows(gross)
  {
    Join(Join(Join([], cast), rated), gross)
  }

  /** A key's record in the three-source join is the three contributions in merge order. */
  lemma JoinedValue(cast: seq<Row>, rated: seq<Row>, gross: seq<Row>, k: Key)
    requires AllRows(cast) && AllRows(rated) && AllRows(gross)
    ensures DistinctKeys(Joined(cast, rated, gross))
    ensures k in Keys(Joined(cast, rated, gross)) <==> k in RowKeys(cast) || k in RowKeys(rated) || k in RowKeys(gross)
    ensures GetOr(Joined(cast, rated, gross), k, []) == Contribution(cast, k) + Contribution(rated, k) + Contribution(gross, k)
  {
    var empty: Items := [];
    assert DistinctKeys(empty);
    assert GetOr(empty, k, []) == [];
    var m1 := Join(empty, cast);
    JoinValue(empty, cast, k);
    var v1 := GetOr(m1, k, []);
    assert v1 == Contribution(cast, k);
    var m2 := Join(m1, rated);
    JoinValue(m1, rated, k);
    var v2 := GetOr(m2, k, []);
    assert v2 == v1 + Contribution(rated, k);
    JoinValue(m2, gross, k);
    assert GetOr(Join(m2, gross), k, []) == v2 + Contribution(gross, k);
  }

  /**
   Record layout of the three-source join. With cast rows of 9 fields
   (rank, title, year, director, five actors) and top-rated and
   top-grossing rows of 4 (rank, title, year, value), each key at most once
   per source, a movie's record has 7 fields from the cast list plus 2 from
   each other list it is in. So the length is 11 exactly when the movie is
   in all three lists, and a length of 10 never arises.
   */
  lemma JoinedLayout(cast: seq<Row>, rated: seq<Row>, gross: seq<Row>, k: Key)
    requires WellFormed(cast, 9) && WellFormed(rated, 4) && WellFormed(gross, 4)
    ensures var movies := Joined(cast, rated, gross);
      && DistinctKeys(movies)
      && (k in Keys(movies) <==> k in RowKeys(cast) || k in RowKeys(rated) || k in RowKeys(gross))
      && |GetOr(movies, k, [])| == (if k in RowKeys(cast) then 7 else 0)
                                  + (if k in RowKeys(rated) then 2 else 0)
                                  + (if k in RowKeys(gross) then 2 else 0)
      && (|GetOr(movies, k, [])| == 11 <==> k in RowKeys(cast) && k in RowKeys(rated) && k in RowKeys(gross))
      && |GetOr(movies, k, [])| != 10
  {
    JoinedValue(cast, rated, gross, k);
    ContributionOfUnique(cast, 9, k);
    ContributionOfUnique(rated, 4, k);
    ContributionOfUnique(gross, 4, k);
  }

  /**
   The fields of a movie found in all three lists: rank and director and
   five actors from the cast row, then rank and rating, then rank and
   gross, each in the order of its row.
   */
  lemma JoinedFields(cast: seq<Row>, rated: seq<Row>, gross: seq<Row>, k: Key, c: nat, r: nat, g: nat)
    requires WellFormed(cast, 9) && WellFormed(rated, 4) && WellFormed(gross, 4)
    requires c < |cast| && r < |rated| && g < |gross|
    requires RowKey(cast[c]) == k && RowKey(rated[r]) == k && RowKey(gross[g]) == k
    ensures GetOr(Joined(cast, rated, gross), k, [])
            == [cast[c][0]] + cast[c][3..] + [rated[r][0], rated[r][3]] + [gross[g][0], gross[g][3]]
  {
    ContributionOfRow(cast, 9, c);
    ContributionOfRow(rated, 4, r);
    ContributionOfRow(gross, 4, g);
    JoinedRows(cast, rated, gross, k, cast[c], rated[r], gross[g]);
  }

  /** The record of a key that contributes one row from each source. */
  lemma JoinedRows(cast: seq<Row>, rated: seq<Row>, gross: seq<Row>, k: Key, dc: Row, dr: Row, dg: Row)
    requires AllRows(cast) && AllRows(rated) && AllRows(gross)
    requires |dc| == 9 && |dr| == 4 && |dg| == 4
    requires Contribution(cast, k) == RowValue(dc)
    requires Contribution(rated, k) == RowValue(dr)
    requires Contribution(gross, k) == RowValue(dg)
    ensures GetOr(Joined(cast, rated, gross), k, []) == [dc[0]] + dc[3..] + [dr[0], dr[3]] + [dg[0], dg[3]]
  {
    JoinedValue(cast, rated, gross, k);
    assert RowValue(dr) == [dr[0], dr[3]];
    assert RowValue(dg) == [dg[0], dg[3]];
  }

  /** The dictionary `processData` fills in place. */
  class Dict {
    var items: Items

    ghost predicate Valid()
      reads this
    {
      DistinctKeys(items)
    }

    /** `{}` */
    constructor ()
      ensures Valid() && items == []
    {
      items := [];
    }

    /** `k in d` */
    predicate Contains(k: Key)
      reads this
    {
      k in Keys(items)
    }

    /** `d[k] = v` */
    method Put(k: Key, v: Record)
      requires Valid()
      modifies this
      ensures Valid() && items == Assign(old(items), k, v)
      ensures Contains(k) && GetOr(items, k, []) == v
    {
      AssignSpec(items, k, v);
      items := Assign(items, k, v);
    }

    /** `d[k] += v`, for a key already present: the list grows in place. */
    method Extend(k: Key, v: Record)
      requires Valid() && Contains(k)
      modifies this
      ensures Valid() && items == Assign(old(items), k, GetOr(old(items), k, []) + v)
    {
      AssignSpec(items, k, GetOr(items, k, []) + v);
      items := Assign(items, k, GetOr(items, k, []) + v);
    }
  }

  /**
   `processData(data, result)`: files every row into `result` and returns
   that same dict.
   */
  method ProcessData(data: seq<Row>, result: Dict) returns (r: Dict)
    requires result.Valid() && AllRows(data)
    modifies result
    ensures r == result && result.Valid()
    ensures result.items == Join(old(result.items), data)
  {
    for i := 0 to |data|
      invariant result.Valid()
      invariant result.items == Join(old(result.items), data[..i])
    {
      var d := data[i];
      var key := (Strip(d[1]), Strip(d[2]));
      var value := d[0..1] + d[3..];
      ghost var before := result.items;
      if !result.Contains(key) {
        result.Put(key, []);
      }
      result.Extend(key, value);
      assert data[..i + 1][..i] == data[..i];
      if key in Keys(before) {
        assert result.items == AddRow(before, d);
      } else {
        AssignTwice(before, key, [], [] + value);
        assert result.items == AddRow(before, d);
      }
    }
    TakeAll(data);
    r := result;
  }
}
