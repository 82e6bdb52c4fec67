# A verified model of the q-gram index for fuzzy prefix search

This project models the core of `lecture-05/qgram_index.py`. That file builds an
inverted q-gram index over a text file with one record per line. A fuzzy
prefix search uses the index to find candidate records and then ranks them by
prefix edit distance. The model covers:

- **Normalisation of a record** (module `Text`). Every non-word character is
  deleted and upper-case letters are lower-cased. The order of what remains is
  kept. Word characters are the ASCII letters, the digits and the underscore.
  The code's `\W` keeps `_`, so the model keeps it as well.
- **Q-grams** (module `Qgrams`). The record is padded with q - 1 copies of `$`
  on each side, and every window of length q is taken from left to right.
- **Building the index** (module `Index`). `QgramIndex` is a class: its field
  `invertedLists`, a map from q-gram to a list of record IDs, is updated in
  place.
  - `ReadFromLines` numbers the lines 1, 2, … .
  - It appends the record's ID to the list of each of its non-empty q-grams,
    once per occurrence.
  - It is proved against the functional specification `Extend`/`BuildIndex`.
  - The specification's properties are proved as lemmas: lists sorted, IDs in
    1..N, counts equal occurrences, keys exactly the occurring q-grams, and
    the documented example.
- **Merging posting lists** (module `Merging`).
  - `MergeTwo` is the two-cursor merge loop.
  - `Merge` folds it over the given lists and counts the IDs, as
    `sorted(Counter(...).most_common())` does.
  - Both are proved against the recursive specifications `MergeSpec`,
    `FoldMerge` and `Tally`.
- **Prefix edit distance** (module `PrefixDistance`). The docstring defines
  PED(p, s) as the smallest Levenshtein distance between p and a prefix of s.
  - `Dist`/`Ped` is the recursive specification.
  - `ComputePed` fills the (|p| + 1) x (|s| + 1) table in a two-dimensional
    array and returns the minimum of its last row. It is proved equal to
    `Ped`.

Where the code and its documentation differ, the code is followed, with two
exceptions:

- `merge` reads a global variable instead of its argument.
- `compute_ped` returns a constant.

The model gives these two functions the documented behaviour. The behaviour as
written is under "Findings".

## Model

| member | source | states |
|---|---|---|
| Text.Lower | lecture-05/qgram_index.py:38 | the k-th upper-case letter 'A'..'Z' becomes the k-th lower-case letter 'a'..'z'; the result is never upper-case; word characters stay word characters and non-word characters stay non-word; anything that is not upper-case is unchanged |
| Text.Normalize | lecture-05/qgram_index.py:38 | the result holds only word characters and no upper-case letter, and is no longer than the record |
| Text.NormalizeAppend | lecture-05/qgram_index.py:38 | normalisation works character by character: normalising a concatenation concatenates the normalised parts, so the original order is kept |
| Text.NormalizeChar | lecture-05/qgram_index.py:38 | a word character becomes its lower-case form, a non-word character is deleted |
| Text.NormalizeFixedPoint | lecture-05/qgram_index.py:38 | a string is left unchanged exactly when it already has no non-word and no upper-case character |
| Text.NormalizeIdempotent | lecture-05/qgram_index.py:38 | normalising twice is normalising once |
| Qgrams.QgramsOf | lecture-05/qgram_index.py:55-60 | there are \|s\| + q - 1 q-grams (\|s\| + 1 empty ones when q = 0), each of length exactly q, also for the empty record |
| Qgrams.QgramsPadding | lecture-05/qgram_index.py:56-60 | for q >= 2 the first q-gram starts with q - 1 `$` and the last one ends with q - 1 `$` |
| Qgrams.QgramsOverlap | lecture-05/qgram_index.py:59-60 | consecutive q-grams are consecutive windows: they overlap in q - 1 characters |
| Qgrams.QgramsRoundTrip | lecture-05/qgram_index.py:55-60 | the q-grams determine the record: chaining the windows gives the padded record, and removing the padding gives the record back |
| Qgrams.QgramsBana | lecture-05/qgram_index.py:50-52 | the q-grams of "bana" for q = 3 are `$$b`, `$ba`, `ban`, `ana`, `na$`, `a$$` |
| Index.QgramIndex.constructor | lecture-05/qgram_index.py:17-21 | a new index has the given q and no lists |
| Index.QgramIndex.Qgrams | lecture-05/qgram_index.py:55-62 | the append loop collects exactly the windows of the padded record, in order |
| Index.QgramIndex.ReadFromLines | lecture-05/qgram_index.py:34-45 | after reading the lines, the lists are the old lists extended record by record, with IDs 1..N, skipping empty q-grams and creating a list on a q-gram's first occurrence |
| Index.QgramIndex.AddQgrams | lecture-05/qgram_index.py:39-45 | the inner loop leaves the lists equal to the old lists with the record's ID appended once per non-empty q-gram, in q-gram order |
| Index.AddRecord | lecture-05/qgram_index.py:39-45 | indexing one record only adds keys and only appends to lists: every existing key stays, and its old list is a prefix of its new one |
| Index.Extend | lecture-05/qgram_index.py:34-45 | reading lines on top of existing lists only adds keys and only appends: every existing key stays, and its old list is a prefix of its new one |
| Index.AddRecordPostings | lecture-05/qgram_index.py:39-45 | one record appends its ID to g's list once per non-empty occurrence of g and changes no other list |
| Index.AddRecordKeys | lecture-05/qgram_index.py:40-44 | one record adds a key exactly for the non-empty q-grams it contains and removes none |
| Index.ExtendPostings | lecture-05/qgram_index.py:34-45 | reading lines appends to each list exactly the reference posting list of those lines; other keys are untouched |
| Index.ExtendKeys | lecture-05/qgram_index.py:34-45 | after reading lines, g has a list exactly when it had one before or its reference posting list is non-empty |
| Index.ExpectedPostingsSorted | lecture-05/qgram_index.py:35-45 | the IDs appended for a q-gram are in non-decreasing order and lie in 1..N |
| Index.ExpectedPostingsCount | lecture-05/qgram_index.py:39-45 | ID r is appended as often as g occurs among record r's q-grams, and no other ID is appended |
| Index.ExpectedPostingsNonEmpty | lecture-05/qgram_index.py:40-45 | a q-gram gets a non-empty list exactly when it occurs in some record |
| Index.BuildIndexPostings | lecture-05/qgram_index.py:34-45 | the list a fresh index holds for g equals the reference definition: each record's ID, in order, once per occurrence |
| Index.BuildIndexSorted | lecture-05/qgram_index.py:35-45 | every list of a freshly built index is sorted and holds only IDs 1..N |
| Index.BuildIndexCounts | lecture-05/qgram_index.py:39-45 | record r occurs in g's list exactly as often as g occurs in q-grams(normalise(line r)): no deduplication |
| Index.BuildIndexKeys | lecture-05/qgram_index.py:40-44 | a q-gram has a list exactly when it is non-empty and occurs in some record, and that list is non-empty |
| Index.AddRecordBana | lecture-05/qgram_index.py:27-31 | indexing record 1, "bana", gives one list per q-gram, each holding [1] |
| Index.AddRecordAna | lecture-05/qgram_index.py:27-31 | indexing record 2, "ana", on top of it appends 2 to the lists of `ana`, `na$`, `a$$` and creates `$$a` and `$an` |
| Index.BuildIndexBanaAna | lecture-05/qgram_index.py:27-31 | the index of the lines "bana" and "ana" for q = 3 is the documented one |
| Merging.MergeSpecPermutation | lecture-05/qgram_index.py:77-88 | one merge step is a permutation of l1 ++ l2 |
| Merging.MergeSpecFacts | lecture-05/qgram_index.py:77-88 | one merge step is a permutation of l1 ++ l2, has length \|l1\| + \|l2\|, and is sorted when both inputs are |
| Merging.MergeSpecSorted | lecture-05/qgram_index.py:77-88 | merging two sorted lists gives a sorted list |
| Merging.MergeTwo | lecture-05/qgram_index.py:75-88 | the cursor loop computes the merge specification; its result is a permutation of l1 ++ l2 of length \|l1\| + \|l2\|, sorted when both inputs are |
| Merging.MergeSpecRest | lecture-05/qgram_index.py:85-88 | once one cursor is at its end, the rest of the merge is the remainder of l1 followed by the remainder of l2 |
| Merging.FoldMergePermutation | lecture-05/qgram_index.py:73-88 | merging all lists in turn yields every ID of every list, as often as it occurs in total |
| Merging.FoldMergeSorted | lecture-05/qgram_index.py:73-88 | merging sorted lists in turn gives a sorted list |
| Merging.TallyCounts | lecture-05/qgram_index.py:90 | the counted pairs are strictly ascending by ID, every count is positive and is the number of occurrences of the ID, and exactly the occurring IDs appear |
| Merging.TallyPairs | lecture-05/qgram_index.py:90 | each pair's count is positive and equals the number of occurrences of its ID |
| Merging.Tally | lecture-05/qgram_index.py:90 | counting gives at most one pair per occurrence, and no pairs exactly when there is nothing to count |
| Merging.TallyMultiset | lecture-05/qgram_index.py:90 | two lists with the same multiset of IDs give the same counted pairs, whatever their order |
| Merging.AscendingPairsUnique | lecture-05/qgram_index.py:90 | pairs in strictly ascending order of ID with positive counts are determined by the count they record for each ID |
| Merging.FoldTallyCounts | lecture-05/qgram_index.py:73-90 | counting the fold of the lists gives each ID of the lists once, in ascending order, with its total number of occurrences across the lists |
| Merging.Merge | lecture-05/qgram_index.py:64-90 | merge returns pairs strictly ascending by ID; each count is positive and is the total number of occurrences of the ID across the input lists; exactly the IDs that occur appear |
| Merging.FoldMergeExample | lecture-05/qgram_index.py:69-70 | merging [1,2,3], [2,3,4], [3,4,5] in turn gives [1,2,2,3,3,3,4,4,5] |
| Merging.TallyExample | lecture-05/qgram_index.py:70 | counting [1,2,2,3,3,3,4,4,5] gives [(1,1), (2,2), (3,3), (4,2), (5,1)] |
| Merging.MergeExample | lecture-05/qgram_index.py:69-70 | merge([[1,2,3],[2,3,4],[3,4,5]]) = [(1,1), (2,2), (3,3), (4,2), (5,1)] |
| Merging.MergeAsWritten | lecture-05/qgram_index.py:73-90 | the loop as written ignores `lists` and folds the global lists: its pairs are ascending and count exactly the IDs of the global lists, whatever `lists` holds |
| Merging.MergeAsWrittenExample | lecture-05/qgram_index.py:74 | the loop as written ignores its argument: with no global lists the documented example merges to [] |
| PrefixDistance.DistPrefixes | lecture-05/qgram_index.py:93-94 | entry (i, j) of the recurrence is the edit distance between p[..i] and s[..j] |
| PrefixDistance.PrefixMin | lecture-05/qgram_index.py:93-94 | the running minimum is at most the distance to every prefix considered, and equals one of them |
| PrefixDistance.PedIsMinimum | lecture-05/qgram_index.py:93-94 | PED(p, s) is at most the edit distance between p and every prefix of s, and equals it for some prefix |
| PrefixDistance.PedZero | lecture-05/qgram_index.py:93-94 | PED(p, s) = 0 exactly when p is a prefix of s |
| PrefixDistance.PedAtMostLength | lecture-05/qgram_index.py:93-94 | PED(p, s) <= \|p\|, by the empty prefix |
| PrefixDistance.PedAtMostEditDistance | lecture-05/qgram_index.py:93-94 | PED(p, s) is at most the edit distance between p and the whole of s |
| PrefixDistance.FillRow | lecture-05/qgram_index.py:93-94 | from a correct row i - 1, the loop fills row i with the edit distances between p[..i] and every prefix of s, and leaves every other row of the table as it was |
| PrefixDistance.ComputePed | lecture-05/qgram_index.py:92-98 | the table method returns exactly PED(p, s) |
| PrefixDistance.LastRowMin | lecture-05/qgram_index.py:93-94 | the scan of a correctly filled last row returns PED(p, s) |
| PrefixDistance.NextRow | lecture-05/qgram_index.py:93-94 | a row that follows the recurrence from a correct row is the next row of the table |
| PrefixDistance.PedFromLastRow | lecture-05/qgram_index.py:93-94 | PED is the smallest entry of the last row of the table |
| PrefixDistance.PedExample | lecture-05/qgram_index.py:96-97 | PED(p, "schwarzenegger") = 2 for p spelled "shwartz" |
| PrefixDistance.PedShwartz | lecture-05/qgram_index.py:96-97 | PED("shwartz", "schwarzenegger") = 2 |
| PrefixDistance.ComputePedAsWritten | lecture-05/qgram_index.py:100-101 | the body as written is the constant 2, whatever p and s are, so it differs from PED whenever p is a prefix of s |
| PrefixDistance.ComputePedAsWrittenExample | lecture-05/qgram_index.py:100-101 | the body as written returns 2 for ("a", "a"), whose PED is 0 |

## Left out

- File reading (lecture-05/qgram_index.py:34): `ReadFromLines` takes the lines of the file as a sequence.
- Unicode: `\W` and `str.lower()` are modelled on ASCII only. Other characters count as non-word characters and are deleted.
- Negative q: q is a natural number. q = 0 is modelled; every q-gram is then empty and nothing is indexed.
- Dictionary order: the inverted lists are a map, so the insertion order of Python's dict is not modelled. The documented example sorts the items anyway.
- `Counter.most_common` (lecture-05/qgram_index.py:90): only the sorted result is modelled. The order of equal counts inside `most_common` does not survive the `sorted`.
- Machine integers: record IDs and counts are unbounded integers, as Python's are.
- `find_matches` (lecture-05/qgram_index.py:103-113): it has a docstring and no body, so there is no behaviour to model.
- The `__main__` block (lecture-05/qgram_index.py:115-124): command-line handling and printing.
- lecture-06/server.py: socket handling, HTTP routing, static files and JSON output are input/output around the index. It is not part of this model.

## Findings

| source | as written | input that shows it | evidently intended | confidence | as-written member | corrected member |
|---|---|---|---|---|---|---|
| lecture-05/qgram_index.py:74 | the loop iterates over the module-level `qi.inverted_lists` instead of the parameter `lists` | `merge([[1,2,3],[2,3,4],[3,4,5]])` while no global index holds lists gives `[]`; without a global `qi` at all, the name lookup fails | fold over the given lists, as the example at lines 69-70 documents | not executed | Merging.MergeAsWritten, Merging.MergeAsWrittenExample | Merging.Merge |
| lecture-05/qgram_index.py:100-101 | `compute_ped` returns the constant 2 | `compute_ped("a", "a")` gives 2, but "a" is a prefix of "a", so its PED is 0 | the smallest edit distance between p and a prefix of s, as the docstring at lines 93-94 states | not executed | PrefixDistance.ComputePedAsWritten, PrefixDistance.ComputePedAsWrittenExample | PrefixDistance.ComputePed |
