# word_count in Dafny

This project models the multi-threaded word counter `word_count`:

1. `main` reads a text file.
2. It cuts the file into at most `THREAD_COUNT` byte ranges whose inner edges are snapped to just after a space.
3. It counts the words of each range in a worker that fills one slot of a `WordCounterContainer`.
4. It absorbs all slots into one `WordCounter`.
5. It lists the tally as `FrequencyPair`s and sorts them: count descending, then word ascending.

`single_thread_solution.cpp` counts the same file in one pass and serves as the reference.

The file is a `string` in which each `char` stands for one byte, so offsets are byte offsets and its size is its length. Comparing `char`s by code is then the order `std::string` uses, by unsigned byte value. `THREAD_COUNT` is a parameter `k >= 1`. The workers run one after another in index order.

There are two character classes:
- `Text.IsSpace` is the whitespace that `operator>>` skips (the classic "C" locale `isspace`).
- `' '` alone is what boundary snapping looks for.

Modules, one per file:

- `Text` (text.dfy): word extraction as `operator>>` performs it. It has the reference word sequence `Words(s)` and the stream read `ReadWord`.
- `Counting` (counting.dfy): the tally `map<string, nat>`, with `Add`, `Merge` and the reference `Tally`. It also holds the class `WordCounter` with `Count` and `Absorb`.
- `Container` (container.dfy): the class `WordCounterContainer`. Its slots are nullable references, standing for `std::unique_ptr`.
- `Ranking` (ranking.dfy):
  - `FrequencyPair` and its `operator<` (`Less`), with the order lemmas.
  - An insertion sort `SortPairs` as the specification of `std::sort`.
  - The class `FrequencyVector`.
- `Borders` (borders.dfy): `TrySetToNearestSpace`, the chunk plan `PlanBorders`, and `CountThreadBorders`.
- `Chunks` (chunks.dfy): the worker `ProcessChunk` and the words it counts, `ChunkWords`.
- `SingleThread` (single_thread.dfy): the one-pass count and ranking.
- `Pipeline` (pipeline.dfy): `main` as `WordCount`, and the comparison with the one-pass ranking.

The worker stops at the first word whose end offset, as reported by `tellg()`, is at or past the end of its range. That word is not counted.

When a word runs up to the end of the file, the stream is at end-of-file and `tellg()` reports -1. Compared with a `size_t`, this is the largest value, so the worker stops there too. `Chunks.StopsScan` states both cases.

As a consequence, the pipeline counts every word of a file that ends in whitespace, and every word but the last of a file that does not (`Pipeline.ChunkedWords`). Files made by the project's generator always end in a space. The smallest file that shows the difference is `"a"` (`Pipeline.TrailingWordDropped`).

## Model

| member | source | states |
|---|---|---|
| Text.IsSpace | main.cpp:89 | the characters `file >> word` skips and stops at: the six whitespace characters of the classic "C" locale (definition, no contract) |
| Text.NextWordStart | main.cpp:89 | where `operator>>` begins a word: every offset skipped is whitespace and the offset reached is not, or is the end of the file |
| Text.WordEnd | main.cpp:89 | where `operator>>` stops reading a word: every offset read is non-whitespace and the offset reached is whitespace or the end of the file |
| Text.Words | single_thread_solution.cpp:8-10 | the words of the whole file, read from offset 0 (definition; `Text.WordsFrom` and `SingleThread.CountWords` state its properties) |
| Text.WordsFrom | main.cpp:89 | every item read by `file >> word` is a non-empty run of non-whitespace characters |
| Text.ReadWord | single_thread_solution.cpp:8 | `operator>>` fails exactly when only whitespace is left; otherwise it returns the maximal non-whitespace run after skipping whitespace, and the stream stands just past it |
| Text.SingleWordFile | single_thread_solution.cpp:8-10 | a non-empty file without whitespace consists of exactly one word, the whole file |
| Text.BlankFile | single_thread_solution.cpp:8-10 | an empty or all-whitespace file has no words |
| Counting.Add | lib.h:36-38 | `data_[word] += count`: the entry of `word` becomes its old count (0 if absent) plus `count`; every other entry is unchanged |
| Counting.Merge | lib.h:44-49 | the merged tally has exactly the words of either side, each with the sum of its counts |
| Counting.Tally | single_thread_solution.cpp:8-10 | the reference tally: one `Count(word)` per word, in reading order (definition; `Counting.TallyCounts` states what it holds) |
| Counting.TallyCounts | single_thread_solution.cpp:8-10 | in the tally of a word sequence, a word has an entry exactly when it occurs, and its count is its number of occurrences |
| Counting.TallyConcat | main.cpp:28-31 | tallying two runs of words separately and merging equals tallying them in one pass |
| Counting.MergeCommutative | lib.h:44-49 | merging is symmetric |
| Counting.MergeAssociative | lib.h:44-49 | merging is associative |
| Counting.AbsorbOrderIrrelevant | lib.h:36-49 | absorbing A then B gives the same tally as absorbing B then A |
| Counting.MergeEmpty | lib.h:34 | the empty counter that `WordCounter()` creates is the unit of merging |
| Counting.TallyTotal | single_thread_solution.cpp:8-10 | the counts of a tally add up to the number of words tallied |
| Counting.WordCounter.constructor | lib.h:34 | a new counter is empty |
| Counting.WordCounter.Count | lib.h:36-38 | the counter's map becomes `Add` of the old map |
| Counting.WordCounter.Absorb | lib.h:44-49 | the counter's map becomes the merge of its old map and the other counter's old map; the other counter is unchanged unless it is this one |
| Container.WordCounterContainer.constructor | lib.h:57-59 | `size` slots, all empty |
| Container.WordCounterContainer.Size | lib.h:72-74 | the number of slots, which bounds the merge loop (definition, no contract) |
| Container.WordCounterContainer.SetWordCounter | lib.h:63-66 | slot `index` (which must exist) holds the new counter; the number of slots and every other slot are unchanged |
| Ranking.LexLess | lib.h:18 | `std::string`'s `<`, by character code with a proper prefix first (definition; `Ranking.LexLessMeaning` states its meaning) |
| Ranking.Less | lib.h:16-21 | `operator<`: the higher count first, and for equal counts the smaller word first (definition; the order lemmas below state its properties) |
| Ranking.LexLessMeaning | lib.h:18 | `std::string` comparison is dictionary order: `a < b` exactly when at the first position where they differ `a` has the smaller character, or `a` is a proper prefix of `b` |
| Ranking.LessIrreflexive | lib.h:16-21 | no pair is smaller than itself |
| Ranking.LessTransitive | lib.h:16-21 | `operator<` is transitive |
| Ranking.LessConnected | lib.h:16-21 | of two different pairs, one is smaller: `operator<` is a strict total order |
| Ranking.LessAsymmetric | lib.h:16-21 | two pairs are never each smaller than the other |
| Ranking.Insert | lib.h:136 | inserting a pair adds exactly that pair to the multiset of pairs |
| Ranking.SortPairs | lib.h:136 | sorting keeps the multiset of pairs |
| Ranking.SortPairsSorted | lib.h:135-137 | the result of sorting is sorted by `operator<` |
| Ranking.SortedUnique | lib.h:135-137 | two sorted arrangements of the same pairs are equal, so any correct sort gives the same result |
| Ranking.SortIdempotent | lib.h:135-137 | sorting twice equals sorting once |
| Ranking.RankedOrder | lib.h:16-21 | in a sorted listing of a tally, counts never increase, and equal counts come in ascending word order |
| Ranking.ListsEmpty | lib.h:124-131 | the listing of an empty tally is empty |
| Ranking.SortedListingUnique | lib.h:135-137 | two sorted listings of the same tally are identical |
| Ranking.FrequencyVector.constructor | lib.h:124-131 | one pair per entry of the counter, with its word and count, and nothing else; the length is the number of entries |
| Ranking.FrequencyVector.Sort | lib.h:135-137 | the pairs become a sorted permutation of themselves |
| Borders.FirstSpaceFrom | main.cpp:105 | the first `' '` at or after the position, with no `' '` before it |
| Borders.SnapToSpace | main.cpp:100-117 | a snap succeeds exactly when a `' '` lies in `[position, fileSize - 1)`; on success the new position is just past the first such space and strictly inside the file |
| Borders.TrySetToNearestSpace | main.cpp:100-117 | returns true exactly when the snap succeeds, with the position just past the first space; on failure the position is unchanged |
| Borders.SnapOrEnd | main.cpp:64-71 | a snapped edge, replaced by the file size when the snap fails; it never lies past the end of the file |
| Borders.TentativeBorder | main.cpp:59-61 | the unsnapped range of chunk `i`: `chunkSize = fileSize / k` bytes from `i * chunkSize`, and the last chunk runs to the end of the file (definition; `Borders.ChunkWithin` bounds it within the file) |
| Borders.SnappedBorder | main.cpp:59-72 | chunk `i` after snapping both inner edges (definition; `Borders.SnappedBorderOrdered` and `Borders.SnappedStartIsFrontier` state its properties) |
| Borders.SnapMonotone | main.cpp:60-72 | snapping, with a failed snap read as the file size, never moves an edge backwards except to the file size, and preserves the order of edges |
| Borders.SnappedBorderOrdered | main.cpp:59-72 | after snapping, each chunk's start is at most its end, which lies in the file at a word-safe cut |
| Borders.SnappedStartIsFrontier | main.cpp:59-72 | each chunk after the first starts exactly where the previous one ended |
| Borders.PlanBorders | main.cpp:51-81 | the non-empty snapped chunks in index order (definition; `Borders.PlanBordersPartition` states what they cover) |
| Borders.PlanPrefixTiles | main.cpp:58-78 | the ranges kept so far are contiguous and non-empty, start at 0, end where the next chunk starts, number at most the chunks seen, and end at cuts |
| Borders.PlanBordersPartition | main.cpp:51-81 | the returned ranges partition `[0, fileSize)`: non-empty, contiguous, from 0 to the file size, at most `k`, each ending at a cut; none for an empty file |
| Borders.TilesCoverOnce | main.cpp:58-78 | in such a partition every offset of the file lies in exactly one range |
| Borders.TilesIncreasing | main.cpp:58-78 | in such a partition ranges come in increasing, non-overlapping order |
| Borders.SnapChunk | main.cpp:59-72 | one loop iteration computes the snapped chunk `i` |
| Borders.CountThreadBorders | main.cpp:51-81 | returns the planned ranges, which partition the file into at most `k` ranges ending at cuts |
| Chunks.StopsScan | main.cpp:90 | the worker stops once a word ends at or past the range's end, or runs to the end of the file, where `tellg()` reports -1 (definition, no contract) |
| Chunks.ChunkWords | main.cpp:89-94 | the words a worker counts from its start: those read before the first one that stops the scan (definition; `Chunks.ChunkWordsPrefix`, `Chunks.SplitAtCut` and `Chunks.LastChunk` state its properties) |
| Chunks.ChunkWordsPrefix | main.cpp:89-94 | a worker counts the first words read from its start and nothing else |
| Chunks.ScanChunk | main.cpp:84-95 | a fresh counter holding the tally of the words counted in the range |
| Chunks.ProcessChunk | main.cpp:83-98 | slot `index` receives a fresh counter with the range's tally; no other slot changes |
| Chunks.SplitAtCut | main.cpp:89-94 | from any start, the words read split at a cut into those a worker ending there counts and those read from the cut on: no word is split or counted twice |
| Chunks.LastChunk | main.cpp:89-92 | when the file ends in a word, the last worker counts every word from its start except that final one |
| Pipeline.TilesInit | main.cpp:58-78 | dropping the last range of a partition leaves a partition up to that range's start |
| Pipeline.TilesWords | main.cpp:11-31 | workers over a partition of `[0, hi)` count exactly the words read before `hi` |
| Pipeline.TilesWordsLast | main.cpp:11-31 | for a file ending in a word, the workers count all words but the last |
| Pipeline.ChunkedWords | main.cpp:11-31 | the workers together count every word of a file ending in whitespace, in order; otherwise every word but the last |
| Pipeline.TrailingWordDropped | main.cpp:90 | on the file `"a"` with one thread, the workers count nothing while the one-pass tally is `{a: 1}` |
| Pipeline.RunWorkers | main.cpp:9-26 | after the worker loop, slot `i` holds the tally of range `i` |
| Pipeline.MergeSlots | main.cpp:28-31 | the fresh global counter ends with the entry-wise sum of every slot's tally, in slot order |
| Pipeline.MergeAllChunks | main.cpp:28-31 | summing the workers' tallies gives the tally of all the words the workers counted, range after range |
| Pipeline.WordCount | main.cpp:6-36 | the output is sorted and lists the tally of the counted words, which is the whole file's tally when the file ends in whitespace; it is empty for an empty file |
| Pipeline.CompareWithSinglePass | main.cpp:6-36 | for every file ending in whitespace and every thread count, the multi-threaded ranking equals the one-pass ranking |
| SingleThread.CountWords | single_thread_solution.cpp:8-10 | the map after the loop is the tally of all words of the file |
| SingleThread.RankWords | single_thread_solution.cpp:14-15 | the one-pass output is sorted by `operator<` and lists the tally of all words |
| SingleThread.SingleWordTally | single_thread_solution.cpp:8-10 | a non-empty file without whitespace yields the single entry `{file: 1}` |
| SingleThread.BlankTally | single_thread_solution.cpp:8-10 | an empty or all-whitespace file yields the empty tally |

## Left out

- Threads, `join` and the mutex (main.cpp:8-26, lib.h:64, lib.h:117). The workers run one after another in index order. Each writes only its own slot, and `Counting.AbsorbOrderIrrelevant` shows that the merge order does not matter.
- File I/O. This covers `GetFileSize` (main.cpp:38-49), opening, seeking and closing `ifstream`s, and the error message on `std::cerr`. The file is a `string` and its size is its length. A file that cannot be opened is not modelled.
- Output. `print` (lib.h:23-25, lib.h:139-143) and the calls to it (main.cpp:35, single_thread_solution.cpp:16) are left out. The sorted sequence of pairs is the output.
- The `Iterator` class of `WordCounterContainer` (lib.h:76-113). Traversal is an index loop over the slots, bounded by `Size()`.
- `getWordCounter` (lib.h:68-70). `main` does not use it.
- The skip of empty ranges at main.cpp:14-16. `CountThreadBorders` has already dropped them (main.cpp:74-76), so the branch is never taken.
- Fixed-width integers. `size_t`, `int64_t` and `int16_t` are modelled as unbounded naturals. Wrap-around would need a file of 2^63 bytes or more than 32767 threads.
- The order of `std::map` iteration in the `FrequencyVector` constructor (lib.h:128). The constructor emits the entries in an unspecified order. `sort()` erases the order, and `Ranking.SortedUnique` shows that the sorted result is the same whatever the order.
- `std::sort` is specified by its result, a sorted permutation. Its algorithm is not modelled; `Ranking.SortPairs` is an insertion sort used only as a reference.
- The uninitialized `char c` of `TrySetToNearestSpace` (main.cpp:104). Its value matters only after a successful read, and the model starts it as `' '`.
- single_thread_solution.cpp:14 passes the `std::map` itself where the `FrequencyVector` constructor takes a `WordCounter&` (lib.h:124). `SingleThread.RankWords` first places the tally in a `WordCounter`.
- Pipeline.CompareWithSinglePass: equal rankings are stated only for files ending in whitespace. For other files the last word is dropped, as `Pipeline.ChunkedWords` states exactly.
- test_generator.py, the random file generator with its Python oracle, is not part of this model.
