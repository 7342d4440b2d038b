# movie-analyzer: the join-and-aggregate core in Dafny

`movie-analyzer.py` reads three IMDB lists. The cast list has rows
`rank, title, year, director, actor1 … actor5`. The top-rated and
top-grossing lists have rows `rank, title, year, value`. It joins them into one
dict keyed by `(title, year)`, then answers a fixed set of queries over
that dict. This project models the join (`processData`) and the queries
`bothTopRatedAndGrossing`, `uniqueDirectors`, `directorsOfMostMovies`,
`castFilmography`, `uniqueCastMembers`, `mostProfitableDirectors`,
`mostMoviesPerDecades`, `mostTopBilled` and `actorDirectorPairs`. It proves
what each one returns.

Modules (one file each):

- `Order` (`order.dfy`): strict total orders as function values, and
  Python's tuple and list comparisons built from them.
- `PySeq` (`pyseq.dfy`): Python's slicing, `s[:n]` (including negative
  `n`), `list.count`, `set(...)`, and grouping a list of pairs by first
  component.
- `Strings` (`strings.dfy`): `str.strip()` and Python's string order
  (code points from the left, a proper prefix first).
- `Sorting` (`sorting.dfy`): `sorted` as an insertion sort on a strict total
  order, and the stable `sorted(key=itemgetter(0), reverse=True)`.
- `Tally` (`tally.dfy`): a counting dict seen as the fold of the
  `(key, amount)` entries added to it. Its items are turned into
  `(total, key)` pairs and ranked with either of the two sort idioms the
  program uses.
- `Joiner` (`joiner.dfy`): the dict (a sequence of items with distinct
  keys, in insertion order), the mutable `Dict` class `processData`
  fills, and the layout of the three-list join.
- `Queries` (`queries.dfy`): `bothTopRatedAndGrossing`, `uniqueDirectors`,
  `castFilmography`, `uniqueCastMembers`.
- `Rankings` (`rankings.dfy`): `directorsOfMostMovies`, `mostMoviesPerDecades`,
  `mostTopBilled`, `mostProfitableDirectors`, `actorDirectorPairs`.
- `Scenarios` (`scenarios.dfy`): two worked inputs.

Each loop-based query is a `method` whose loops build the same
dictionaries as the Python; a nested loop or a loop body is a method of
its own, proved against the same invariant. The query's `ensures`
equates the result with a specification function. A `…Spec` lemma then states what that function
means: which pairs occur, their counts, the order, the length after
`[:count]`, and that nothing left out outranks what is kept.
`uniqueDirectors` and `uniqueCastMembers` are only a comprehension plus
`sorted`, so they are functions.

A dict with mutable lists inside a query (`actors`, `directorsDict`) is a
Dafny `map` plus a `seq` of its keys in insertion order. Python 3.7+
iterates over dicts in that order; older versions iterate in an arbitrary
order, which changes the order of the keys inside each `castFilmography` row
and the order of the dict `bothTopRatedAndGrossing` returns, and nothing else
the model states.

Places where the code and its own comments disagree. The model follows the
code in each case:

- The comment at `movie-analyzer.py:67-68` counts 7 fields for a cast
  row and 2 each for the other lists. So a movie in the cast list and
  one other list has 9 fields, and no record has 10. The 10-field branch
  of `mostProfitableDirectors` is therefore never taken on the script's
  dict (`Joiner.JoinedLayout`).
- The comment `# director's name` at `movie-analyzer.py:166` labels
  `movieInfo[0]`. That field is the cast rank; the director is field 1
  (see Findings).

## Model

| member | source | states |
|---|---|---|
| Joiner.AssignSpec | movie-analyzer.py:44-46 | `d[k] = v` keeps an existing key in place with the new value, or appends a new key; no other item changes; keys stay distinct and `d[k]` is then `v` |
| Joiner.AssignTwice | movie-analyzer.py:44-46 | `result[key] = []` followed by `result[key] += value` on a new key is one assignment of `value` |
| Joiner.AddRowEffect | movie-analyzer.py:38-46 | one row: the record under `(strip(d[1]), strip(d[2]))` becomes the old record (or `[]`) followed by `d[0]` and `d[3:]`; every other key keeps its presence, record and position |
| Joiner.JoinValue | movie-analyzer.py:38-49 | after all rows, a key is present iff it was before or some row carries it, and its record is the old record followed by its rows' contributions in row order |
| Joiner.JoinKeepsOrder | movie-analyzer.py:38-46 | items already in the dict keep their positions; new keys come after them |
| Joiner.ContributionOfUnique | movie-analyzer.py:38-46 | in a list where each key occurs once, a key contributes exactly its row's `width - 2` fields, or nothing |
| Joiner.ContributionOfRow | movie-analyzer.py:38-46 | in a list where each key occurs once, a row's key collects exactly that row's fields `d[0]` and `d[3:]` |
| Joiner.Dict.Put | movie-analyzer.py:45 | `result[key] = []` updates the dict in place as `Assign` does and keeps it a dict |
| Joiner.Dict.Extend | movie-analyzer.py:46 | `result[key] += value` appends to the key's list in place |
| Joiner.ProcessData | movie-analyzer.py:36-49 | mutates the given dict to the join of its old items with the rows, and returns that same dict |
| Joiner.JoinedValue | movie-analyzer.py:269-272 | in the script's dict a movie's record is its cast contribution, then its top-rated one, then its top-grossing one |
| Joiner.JoinedLayout | movie-analyzer.py:67-68 | with 9-field cast rows and 4-field other rows, a record has 7 + 2 + 2 fields for the lists the movie is in: 11 iff in all three, never 10 |
| Joiner.JoinedFields | movie-analyzer.py:254-268 | a movie in all three lists has record `[rank, director, actor1..5, rank, rating, rank, gross]` taken from its three rows |
| Strings.StripTrims | movie-analyzer.py:40 | `strip()` yields the middle part of the string, with no whitespace at either end; everything cut away is whitespace |
| Strings.StripIdempotent | movie-analyzer.py:40 | stripping twice is stripping once |
| Strings.LtStrictTotal | movie-analyzer.py:80 | Python's string comparison is a strict total order |
| Strings.PairOrderStrictTotal | movie-analyzer.py:233 | Python's comparison of `(director, actor)` tuples is a strict total order |
| Order.LexicographicStrictTotal | movie-analyzer.py:111 | Python's comparison of lists is a strict total order when its element order is one |
| PySeq.Slice | movie-analyzer.py:109 | `v[lo:hi]` clamps to the list: its length and elements are Python's |
| PySeq.Dedup | movie-analyzer.py:80 | `set(s)` iterated: exactly the elements of `s`, nothing else |
| PySeq.DedupDistinct | movie-analyzer.py:80 | that iteration lists each element once |
| PySeq.OccPositive | movie-analyzer.py:232 | `s.count(x) > 0` iff `x in s` |
| PySeq.LookupSpec | movie-analyzer.py:227-228 | the values collected under a key are one per pair carrying that key, and exactly the values paired with it |
| PySeq.LookupOcc | movie-analyzer.py:232 | the number of times a value is collected under a key is the number of times that pair occurs |
| Sorting.Sort | movie-analyzer.py:80 | `sorted` returns a permutation of its input |
| Sorting.SortSorted | movie-analyzer.py:80 | `sorted` on distinct elements returns them in strictly increasing order |
| Sorting.SortElems | movie-analyzer.py:80 | `sorted` keeps exactly the input's elements |
| Sorting.SortedUnique | movie-analyzer.py:80 | two strictly increasing lists with the same elements are equal, so sorting does not depend on input order |
| Sorting.SortSameElements | movie-analyzer.py:233 | sorting two duplicate-free lists with the same elements gives the same list |
| Sorting.SortByKeyDescStable | movie-analyzer.py:212 | the stable `sorted(key=itemgetter(0), reverse=True)` of an increasing list is descending by key and keeps the earlier order among equal keys |
| Sorting.TopK | movie-analyzer.py:95 | `[:count]` of a sorted ranking keeps its order, has `TakeLen` elements, and every element dropped ranks after every one kept |
| Tally.WeightOnes | movie-analyzer.py:92-94 | adding 1 per occurrence totals to `list.count` |
| Tally.TallyStep | movie-analyzer.py:92-94 | one `d[k] = d.get(k, 0) + w` keeps the dict equal to the fold of the amounts added, with keys in first-insertion order |
| Tally.Add | movie-analyzer.py:92-94 | the counting loops' body `if k not in d: d[k] = 0; d[k] += w` keeps the dict equal to the fold of the amounts added, keys in first-insertion order |
| Tally.TallyItems | movie-analyzer.py:95 | `[(v, k) for (k, v) in d.items()]` of such a dict is the list of (total, key) pairs in first-insertion order |
| Tally.TotalsSpec | movie-analyzer.py:95 | the (total, key) pairs are distinct, one per key added, each with its total |
| Tally.DescendingThenAscendingMeans | movie-analyzer.py:210-212 | the composed order is count descending, then key ascending |
| Tally.RankingSpec | movie-analyzer.py:95 | `sorted((v, k) …, reverse=True)[:count]`: true totals, strictly descending by total then key, `TakeLen` many, nothing left out ranks higher |
| Tally.StableRankingSpec | movie-analyzer.py:207-212 | ascending pre-sort, swap, stable sort by count descending, `[:count]`: true totals, count descending then key ascending, `TakeLen` many, nothing left out ranks higher |
| Queries.CompleteSpec | movie-analyzer.py:65-71 | exactly the items whose record has 11 fields are kept, unchanged and in dict order |
| Queries.CompleteKeys | movie-analyzer.py:65-71 | the selection's keys are keys of the dict |
| Queries.BothTopRatedAndGrossing | movie-analyzer.py:65-71 | the loop returns a dict holding exactly the entries with 11 fields, keys and values unchanged, in dict order |
| Queries.SelectedIffInAllLists | movie-analyzer.py:67-69 | in the script's dict a movie is selected iff it is in all three lists |
| Queries.CompleteIff | movie-analyzer.py:65-71 | a key is selected iff it is a key of the dict and its record has 11 fields |
| Queries.UniqueDirectorsSpec | movie-analyzer.py:80 | strictly ascending; a name is in it iff it is field 1 of some record; one entry per distinct name |
| Queries.CreditsSpec | movie-analyzer.py:108-110 | a (name, key) pair is visited iff that movie names that person in an actor field |
| Queries.AppearancesSpec | movie-analyzer.py:108-110 | a cast member's list has one entry per actor field naming them and holds exactly the keys of their movies; how often each key appears is `Queries.AppearancesOcc` |
| Queries.AppearancesOcc | movie-analyzer.py:108-110 | each movie key appears in a cast member's list once per actor field `v[2:7]` of that movie naming them, so a movie naming them in two fields appears twice; a key the dict does not hold never appears |
| Queries.CreditsOcc | movie-analyzer.py:108-110 | the loops visit the pair (name, key) once per actor field naming that person in the records with that key |
| Queries.CastMemberListed | movie-analyzer.py:110 | a name is in some actor field iff its list is non-empty |
| Queries.CollectStep | movie-analyzer.py:110 | one `actors[a] = actors.get(a, []) + [k]` keeps the dict equal to the grouping of the pairs seen so far |
| Queries.CollectMovie | movie-analyzer.py:109-110 | the inner loop over `v[2:7]` extends the dict by that movie's credits, keeping it the grouping of all credits seen |
| Queries.ListFilms | movie-analyzer.py:111 | the comprehension over `actors.items()` yields the rows of the names with at least `m` entries, in dict order |
| Queries.FilmOrderStrictTotal | movie-analyzer.py:111 | Python's comparison of `[name] + keys` rows is a strict total order |
| Queries.FilmsSpec | movie-analyzer.py:111 | the comprehension keeps exactly the names with at least `minAppearances` entries, each with its list |
| Queries.FilmsByName | movie-analyzer.py:111 | sorted rows with distinct names are in strictly ascending name order |
| Queries.FilmographySpec | movie-analyzer.py:107-111 | one row per cast member with at least `m` entries, holding all their keys; rows strictly ascending by name |
| Queries.CastFilmography | movie-analyzer.py:107-111 | the nested loops and final sort return that filmography |
| Queries.FilmographyNames | movie-analyzer.py:119-120 | the names of `castFilmography(movies, 1)` are distinct and are exactly the names in actor fields |
| Queries.UniqueCastMembersSpec | movie-analyzer.py:119-120 | strictly ascending; a name is in it iff it appears in an actor field, i.e. exactly the names of `castFilmography(movies, 1)` |
| Rankings.DirectorRankingSpec | movie-analyzer.py:89-95 | each `(n, d)` has `n` = number of records with field 1 equal to `d`, `n >= 1`; strictly descending by count then name; `min(count, #directors)` entries; nothing left out ranks higher |
| Rankings.DirectorsOfMostMovies | movie-analyzer.py:89-95 | the counting loop and sort return that ranking |
| Rankings.LabelledDistinct | movie-analyzer.py:187 | labelling keeps distinct pairs distinct |
| Rankings.LabelledDecades | movie-analyzer.py:186-187 | the labelled pairs are distinct, each is `stem + "0s"` with the number of movies of that stem, and every stem has one |
| Rankings.DecadeCountsSum | movie-analyzer.py:183-187 | the counts add up to the number of movies |
| Rankings.DecadeRankingOrdered | movie-analyzer.py:187 | strictly descending by count, then by label |
| Rankings.DecadeRankingSpec | movie-analyzer.py:183-187 | labels are `year[:3] + "0s"` with their counts, every decade present, labels distinct, descending order, counts sum to the number of movies |
| Rankings.MostMoviesPerDecades | movie-analyzer.py:183-187 | the counting loop and sort return that ranking |
| Rankings.TopBilledRankingSpec | movie-analyzer.py:202-213 | each count is how often the name is at index 2, `>= 1`; count descending, ties ascending by name; `min(count, #names)` entries; nothing left out ranks higher |
| Rankings.MostTopBilled | movie-analyzer.py:202-213 | the counting loop, list building, sort, swap and stable sort return that ranking |
| Rankings.ProfitEntriesSpec | movie-analyzer.py:164-174 | every entry is `(movieInfo[0], int(value))` of a record whose value is over 100, so at least 100; conversely every such record files an entry under `movieInfo[0]` |
| Rankings.WeightAtLeast | movie-analyzer.py:171-174 | a key with contributions each at least 100 totals at least 100 |
| Rankings.ProfitRankingSpec | movie-analyzer.py:164-175 | (total, key) pairs with true totals `>= 100`; every kept key is `movieInfo[0]` of a record whose value is over 100, and every such key a candidate; strictly descending by total then key; `TakeLen` many; nothing left out ranks higher |
| Rankings.MostProfitableDirectors | movie-analyzer.py:164-175 | the loop and sort return that ranking |
| Rankings.TallyProfits | movie-analyzer.py:164-174 | the loop leaves `directors` equal to the fold of the entries `(movieInfo[0], int(value))` with `value > 100` |
| Rankings.FileProfit | movie-analyzer.py:165-174 | one record: the value is read from field 9 of a 10-field record and field 7 otherwise, and added under `movieInfo[0]` only when over 100 |
| Rankings.ProfitReadsRanksAsWritten | movie-analyzer.py:166-170 | for a movie in all three lists, the key read is the cast rank and the value read is the top-rated rank, not the director and the gross |
| Rankings.IntendedProfitEntriesSpec | movie-analyzer.py:160-174 | corrected: every entry is the director and truncated last field of a record whose last field is over 100, so at least 100; conversely every such record files an entry under its director |
| Rankings.IntendedProfitReadsProfit | movie-analyzer.py:160-170 | corrected: for a movie in all three lists, the key is its director and the value its gross |
| Rankings.IntendedProfitRankingSpec | movie-analyzer.py:160-175 | corrected: (total profit, director) pairs with true totals `>= 100`, each kept director having a record whose last field is over 100, every such director a candidate, strictly descending, `TakeLen` many, nothing left out ranks higher |
| Rankings.LookupMoviePairs | movie-analyzer.py:227-228 | a record adds its `v[2:6]` under its own director and nothing under any other |
| Rankings.DirectorCreditsDirectors | movie-analyzer.py:224-228 | every collected pair's director is field 1 of some record |
| Rankings.GroupedStep | movie-analyzer.py:225-228 | one record keeps `directorsDict` equal to the grouping of the pairs seen, with directors in first-record order |
| Rankings.GroupedRecord | movie-analyzer.py:224-228 | the same, one dict record further |
| Rankings.GroupDirectors | movie-analyzer.py:224-228 | the first loop leaves `directorsDict` equal to the grouping of every record's `v[2:6]` under its director, in first-record order |
| Rankings.AppendAll | movie-analyzer.py:227-228 | `for a in v[2:6]: d[v[1]] += [a]` appends the slice to the director's list and changes nothing else |
| Rankings.CountedStep | movie-analyzer.py:231-232 | appending one `((director, actor), count)` keeps the list duplicate-free and equal to the pairs counted so far |
| Rankings.CountActors | movie-analyzer.py:231-232 | the inner loop over `set(directorsDict[director])` adds one counted pair per distinct actor of that director, keeping the list duplicate-free |
| Rankings.CountedAll | movie-analyzer.py:229-232 | after the loops the list holds exactly the distinct (director, actor) pairs, each with its number of occurrences |
| Rankings.PairsSortAlike | movie-analyzer.py:233 | that list sorts to the same list as the pairs listed in any other order |
| Rankings.PairRankingSpec | movie-analyzer.py:223-235 | each count is how often the actor is in the director's `v[2:6]` slots, `>= 1`; count descending, ties ascending by (director, actor); `TakeLen` many; nothing left out ranks higher |
| Rankings.ActorDirectorPairs | movie-analyzer.py:223-235 | the two loops, sort, swap and stable sort return that ranking |
| Scenarios.DecadesExample | movie-analyzer.py:183-187 | years 1995, 1999, 2001 give `[(2, "1990s"), (1, "2000s")]` |
| Scenarios.TopBilledExample | movie-analyzer.py:202-213 | X billed first three times and Y once: `mostTopBilled(movies, 1)` is `[(3, "X")]`, derived from the ranking's specification |
| Scenarios.TopBilledOfTwo | movie-analyzer.py:202-213 | for any dict whose billed-first column holds X three times, Y once and nothing else, `mostTopBilled(movies, 1)` is `[(3, "X")]` |

## Left out

- `readFile`, `printData` and the top-level script are file I/O, console output and wiring. The three calls the script makes to `processData` on one dict are modelled as `Joiner.Joined`.
- `mostHighlyRatedCastMembers` and `getAverage` work with floating-point averages and sort on float keys. No float arithmetic is modelled.
- Records are values: `Joiner.Dict.Extend` and `Joiner.ProcessData` model `result[key] += value` (movie-analyzer.py:46) as replacing the stored record with a longer one. The in-place extension of the list object that Python performs, and the aliasing it would show if that list were shared elsewhere, is not modelled; the script never shares these lists.
- `float(s)` is the parameter `num: string -> real` of the profit queries. The `ValueError` it raises on text that is not a number is not modelled.
- `int(value)` is `.Floor`. That matches truncation only for values over 100, the only ones it is applied to.
- `str.strip()` is modelled on the ASCII characters it removes: space, `\t`, `\n`, `\x0b`, `\x0c`, `\r` and `\x1c` to `\x1f`. Non-ASCII whitespace (`\x85`, `\xa0`, the Unicode spaces) is not modelled, because the model has no Unicode character tables.
- `sorted` is modelled as an insertion sort over a strict total order. Sortedness is proved for duplicate-free inputs, which every list the program sorts is: dict items, or rows with distinct names.
- The `[name] + keys` rows of `castFilmography` are the pair `(name, keys)`. Python compares the lists element by element, and the model compares the pairs by name and then key by key. The two orders are the same on every input.
- Iterating over a set picks elements in Python's hash order. `uniqueDirectors` uses first-occurrence order, and `actorDirectorPairs` picks any remaining actor. Both are sorted afterwards, so the result does not depend on the choice (`Sorting.SortSameElements`).
- The queries require what the code indexes. `HasField(movies, j)` means every record has a field `j`. Without it the source raises `IndexError`: `mostProfitableDirectors` reads field 7, so a cast-only record of 7 fields would raise.
- `Joiner.ProcessData` requires every row to have at least 3 fields (`AllRows`). A shorter row makes `d[1]` or `d[2]` raise `IndexError` at `movie-analyzer.py:40`, and that error path is not modelled.
- The commented-out `# OR:` alternatives are not executed code.
- `Rankings.MostProfitableDirectors` models the code as written. The corrected behaviour is offered as `Rankings.IntendedProfitRanking` with its lemmas, rather than replacing the query.

## Findings

| source | as written | input that shows it | evidently intended | confidence | as-written member | corrected member |
|---|---|---|---|---|---|---|
| movie-analyzer.py:166-170 | key `movieInfo[0]`; value field 9 if the record has 10 fields, else field 7 | cast row `1, Alpha, 1999, D1, A1, A2, A3, A4, A5`, top-rated row `150, Alpha, 1999, 9.0`, top-grossing row `3, Alpha, 1999, 500.0`: the record has 11 fields, so field 7 (`"150"`, the top-rated rank) is read and filed under `"1"` (the cast rank) | the director (field 1) credited with the profit (the last field, which the `> 100` test separates from a rating) | not executed | Rankings.ProfitReadsRanksAsWritten | Rankings.IntendedProfitRankingSpec |
