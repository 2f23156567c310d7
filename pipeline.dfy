/**
 * `main` of main.cpp: plan the ranges, run one `ProcessChunk` per range,
 * merge the per-range tallies into one counter, then list and sort its
 * entries. The workers run one after another here; each writes only its
 * own slot of the container, so the order does not matter.
 */
module Pipeline {
  import opened Text
  import opened Counting
  import opened Container
  import opened Ranking
  import opened Borders
  import opened Chunks
  import opened SingleThread

  /** The words the workers for `bs` count, range after range. */
  function ConcatChunks(s: string, bs: seq<Border>): seq<string> {
    if bs == [] then []
    else
      var last := bs[|bs| - 1];
      ConcatChunks(s, bs[..|bs| - 1]) + ChunkWords(s, last.start, last.end)
  }

  /** The ranges of a tiling, all but the last. */
  lemma TilesInit(bs: seq<Border>, hi: nat)
    requires Tiles(bs, 0, hi) && bs != []
    ensures Tiles(bs[..|bs| - 1], 0, bs[|bs| - 1].start)
  {
    var init := bs[..|bs| - 1];
    if init != [] {
      assert init[|init| - 1].end == bs[|bs| - 1].start;
    }
  }

  /**
   * Workers over ranges that tile `[0, hi)` with cut ends count exactly the
   * words of the file read before `hi`.
   */
  lemma {:induction false} TilesWords(s: string, bs: seq<Border>, hi: nat)
    requires Tiles(bs, 0, hi) && hi <= |s|
    requires forall j :: 0 <= j < |bs| ==> IsCut(s, bs[j].end)
    requires hi < |s| || EndsWithWhitespace(s)
    ensures ConcatChunks(s, bs) + WordsFrom(s, hi) == Words(s)
    decreases |bs|
  {
    if bs != [] {
      var init := bs[..|bs| - 1];
      var last := bs[|bs| - 1];
      TilesInit(bs, hi);
      assert forall j :: 0 <= j < |init| ==> init[j] == bs[j];
      TilesWords(s, init, last.start);
      SplitAtCut(s, last.start, hi);
    }
  }

  /**
   * What the workers of a run with `k` threads count together. For a file
   * ending in whitespace it is every word of the file, in order; otherwise
   * it is every word but the last, which runs up to the end of the file and
   * is dropped by the last worker.
   */
  lemma ChunkedWords(s: string, k: nat)
    requires 1 <= k
    ensures EndsWithWhitespace(s) ==> ConcatChunks(s, PlanBorders(s, k)) == Words(s)
    ensures !EndsWithWhitespace(s) ==>
      Words(s) != [] && ConcatChunks(s, PlanBorders(s, k)) == Words(s)[..|Words(s)| - 1]
  {
    var bs := PlanBorders(s, k);
    PlanBordersPartition(s, k);
    if EndsWithWhitespace(s) {
      TilesWords(s, bs, |s|);
      assert WordsFrom(s, |s|) == [];
    } else {
      TilesWordsLast(s, bs);
    }
  }

  /** For a file ending in a word, the workers count every word but that one. */
  lemma TilesWordsLast(s: string, bs: seq<Border>)
    requires Tiles(bs, 0, |s|) && !EndsWithWhitespace(s)
    requires forall j :: 0 <= j < |bs| ==> IsCut(s, bs[j].end)
    ensures Words(s) != [] && ConcatChunks(s, bs) == Words(s)[..|Words(s)| - 1]
  {
    var init := bs[..|bs| - 1];
    var last := bs[|bs| - 1];
    TilesInit(bs, |s|);
    assert forall j :: 0 <= j < |init| ==> init[j] == bs[j];
    TilesWords(s, init, last.start);
    LastChunk(s, last.start);
    var rest := WordsFrom(s, last.start);
    assert ConcatChunks(s, bs) == ConcatChunks(s, init) + rest[..|rest| - 1];
    assert Words(s) == ConcatChunks(s, init) + rest;
    assert Words(s)[..|Words(s)| - 1] == ConcatChunks(s, init) + rest[..|rest| - 1];
  }

  /** The smallest such file: "a" run on one thread counts nothing. */
  lemma TrailingWordDropped()
    ensures ConcatChunks("a", PlanBorders("a", 1)) == []
    ensures Tally(Words("a")) == map["a" := 1]
  {
    ChunkedWords("a", 1);
    SingleWordTally("a");
  }

  /**
   * The thread loop of `main` (main.cpp:9-26): a container with one slot
   * per range, and one `ProcessChunk(i, borders[i], container)` per range.
   * Afterwards slot `i` holds the tally of range `i`.
   */
  method RunWorkers(s: string, bs: seq<Border>) returns (container: WordCounterContainer)
    ensures fresh(container) && |container.slots| == |bs|
    ensures forall j :: 0 <= j < |bs| ==> container.slots[j] != null && container.slots[j].data == ChunkTally(s, bs[j])
  {
    container := new WordCounterContainer(|bs|);
    var i := 0;
    while i < |bs|
      invariant i <= |bs| && |container.slots| == |bs|
      invariant forall j :: 0 <= j < i ==> (container.slots[j] != null && container.slots[j].data == ChunkTally(s, bs[j]))
    {
      ProcessChunk(s, i, bs[i], container);
      i := i + 1;
    }
  }

  /** The entry-wise sum of a sequence of tallies, first to last. */
  function MergeAll(ts: seq<Counts>): Counts {
    if ts == [] then map[] else Merge(MergeAll(ts[..|ts| - 1]), ts[|ts| - 1])
  }

  /** The tallies the workers for `bs` produce, range by range. */
  ghost function ChunkTallies(s: string, bs: seq<Border>): seq<Counts> {
    seq(|bs|, j requires 0 <= j < |bs| => ChunkTally(s, bs[j]))
  }

  /** Merging the workers' tallies gives the tally of all the words they counted. */
  lemma {:induction false} MergeAllChunks(s: string, bs: seq<Border>)
    ensures MergeAll(ChunkTallies(s, bs)) == Tally(ConcatChunks(s, bs))
    decreases |bs|
  {
    if bs != [] {
      var init := bs[..|bs| - 1];
      var last := bs[|bs| - 1];
      var ts := ChunkTallies(s, bs);
      assert ts[..|ts| - 1] == ChunkTallies(s, init);
      MergeAllChunks(s, init);
      TallyConcat(ConcatChunks(s, init), ChunkWords(s, last.start, last.end));
    }
  }

  /**
   * The merge loop of `main` (main.cpp:28-31): a fresh global counter
   * absorbs every slot of the container in turn, and ends up holding the
   * merge of the slots' tallies.
   */
  method MergeSlots(container: WordCounterContainer, ghost tallies: seq<Counts>) returns (global: WordCounter)
    requires |container.slots| == |tallies|
    requires forall j :: 0 <= j < |tallies| ==> container.slots[j] != null && container.slots[j].data == tallies[j]
    ensures fresh(global)
    ensures global.data == MergeAll(tallies)
  {
    global := new WordCounter();
    var i := 0;
    ghost var slots := container.slots;
    while i < container.Size()
      invariant i <= |tallies| == |slots| && container.slots == slots
      invariant forall j :: 0 <= j < |slots| ==> slots[j] != null && slots[j] != global && slots[j].data == tallies[j]
      invariant global.data == MergeAll(tallies[..i])
      decreases |slots| - i
    {
      assert tallies[..i + 1][..i] == tallies[..i];
      global.Absorb(container.slots[i]);
      i := i + 1;
    }
    assert tallies[..i] == tallies;
  }

  /**
   * `main`: plan the ranges, run the workers, merge their tallies, then
   * list and sort the entries. The result is the sorted listing of the
   * tally of the words the workers count, which for a file ending in
   * whitespace is the tally of the whole file.
   */
  method WordCount(s: string, k: nat) returns (ranked: seq<FrequencyPair>)
    requires 1 <= k
    ensures Sorted(ranked)
    ensures Lists(ranked, Tally(ConcatChunks(s, PlanBorders(s, k))))
    ensures EndsWithWhitespace(s) ==> Lists(ranked, Tally(Words(s)))
    ensures |s| == 0 ==> ranked == []
  {
    var borders := CountThreadBorders(s, k);
    var container := RunWorkers(s, borders);
    var global := MergeSlots(container, ChunkTallies(s, borders));
    MergeAllChunks(s, borders);
    var frequencyVector := new FrequencyVector(global);
    ghost var listed := frequencyVector.data;
    frequencyVector.Sort();
    ListsPermutation(listed, frequencyVector.data, global.data);
    ranked := frequencyVector.data;

    ChunkedWords(s, k);
    if |s| == 0 {
      PlanBordersPartition(s, k);
      ListsEmpty(ranked);
    }
  }

  /**
   * The multi-threaded program and single_thread_solution.cpp print the
   * same ranking for every file that ends in whitespace, for any number of
   * threads.
   */
  method CompareWithSinglePass(s: string, k: nat) returns (chunked: seq<FrequencyPair>, single: seq<FrequencyPair>)
    requires 1 <= k
    ensures EndsWithWhitespace(s) ==> chunked == single
    ensures Sorted(chunked) && Sorted(single)
  {
    chunked := WordCount(s, k);
    single := RankWords(s);
    if EndsWithWhitespace(s) {
      SortedListingUnique(chunked, single, Tally(Words(s)));
    }
  }
}
