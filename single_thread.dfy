/**
 * single_thread_solution.cpp: the one-pass word count that the chunked
 * pipeline is meant to agree with. It reads the whole file word by word
 * into one tally, then ranks the tally.
 */
module SingleThread {
  import opened Text
  import opened Counting
  import opened Ranking

  /**
   * The counting loop: every word `operator>>` reads from the start of the
   * file raises its entry by one. The result is the tally of all words of
   * the file.
   */
  method CountWords(s: string) returns (wordToCount: Counts)
    ensures wordToCount == Tally(Words(s))
  {
    wordToCount := map[];
    var pos := 0;
    ghost var read: seq<string> := [];
    while pos < |s|
      invariant pos <= |s|
      invariant read + WordsFrom(s, pos) == Words(s)
      invariant wordToCount == Tally(read)
      decreases |s| - pos
    {
      var found, word, next := ReadWord(s, pos);
      if !found {
        assert WordsFrom(s, pos) == [];
        break;
      }
      ghost var rest := WordsFrom(s, next);
      assert WordsFrom(s, pos) == [word] + rest;
      assert read + WordsFrom(s, pos) == (read + [word]) + rest;
      TallySnoc(read, word);
      wordToCount := Add(wordToCount, word, 1);
      read := read + [word];
      pos := next;
    }
    assert read == Words(s);
  }

  /**
   * The ranking step: the tally is listed as pairs and sorted. The C++
   * passes the `std::map` itself where a `WordCounter` is expected; here the
   * tally is first placed in a `WordCounter`.
   */
  method RankWords(s: string) returns (ranked: seq<FrequencyPair>)
    ensures Sorted(ranked)
    ensures Lists(ranked, Tally(Words(s)))
  {
    var wordToCount := CountWords(s);
    var counter := new WordCounter();
    counter.data := wordToCount;
    var frequencyVector := new FrequencyVector(counter);
    ghost var listed := frequencyVector.data;
    frequencyVector.Sort();
    ListsPermutation(listed, frequencyVector.data, wordToCount);
    ranked := frequencyVector.data;
  }

  /** A file holding one word and no whitespace counts that word once. */
  lemma SingleWordTally(s: string)
    requires |s| > 0 && forall i :: 0 <= i < |s| ==> !IsSpace(s[i])
    ensures Tally(Words(s)) == map[s := 1]
  {
    SingleWordFile(s);
    assert [s][..0] == [];
    assert Tally([s]) == Add(map[], s, 1);
  }

  /** An empty or all-whitespace file yields the empty tally. */
  lemma BlankTally(s: string)
    requires forall i :: 0 <= i < |s| ==> IsSpace(s[i])
    ensures Tally(Words(s)) == map[]
  {
    BlankFile(s);
  }
}
