/**
 * The chunk worker of main.cpp, `ProcessChunk`: it reads words from the
 * start of its range and counts them until a word ends at or past the
 * range's end.
 */
module Chunks {
  import opened Text
  import opened Counting
  import opened Container
  import opened Borders

  /**
   * Whether the scan stops after reading a word that ends at offset `e`.
   * The stream reports `tellg() == e`, except when the word ran up to the
   * end of the file: the stream is then at end-of-file, `tellg()` reports
   * -1, and -1 converted to `size_t` is not below any `end`.
   */
  predicate StopsScan(s: string, e: nat, end: nat) {
    e == |s| || e >= end
  }

  /**
   * The words `ProcessChunk` counts when it starts reading at `p`: the words
   * read from `p` on, up to but not including the first one that stops the
   * scan. Reading from past the end of the file yields nothing.
   */
  function ChunkWords(s: string, p: nat, end: nat): seq<string>
    decreases |s| - p
  {
    if p > |s| then []
    else
      var b := NextWordStart(s, p);
      if b == |s| then []
      else
        var e := WordEnd(s, b);
        if StopsScan(s, e, end) then []
        else [s[b..e]] + ChunkWords(s, e, end)
  }

  /**
   * A worker counts the first words read from its start and nothing else.
   */
  lemma {:induction false} ChunkWordsPrefix(s: string, p: nat, end: nat)
    requires p <= |s|
    ensures ChunkWords(s, p, end) <= WordsFrom(s, p)
    decreases |s| - p
  {
    var b := NextWordStart(s, p);
    if b < |s| {
      var e := WordEnd(s, b);
      if !StopsScan(s, e, end) {
        ChunkWordsPrefix(s, e, end);
      }
    }
  }

  /** The tally a worker produces for one range. */
  function ChunkTally(s: string, b: Border): Counts {
    Tally(ChunkWords(s, b.start, b.end))
  }

  /**
   * The reading loop of `ProcessChunk` (main.cpp:84-95): from the start of
   * the range, each word read before the scan stops is counted once into a
   * fresh `WordCounter`.
   */
  method ScanChunk(s: string, borders: Border) returns (counter: WordCounter)
    ensures fresh(counter)
    ensures counter.data == ChunkTally(s, borders)
  {
    // `seekg` past the end of the file makes every read fail.
    var pos := if borders.start <= |s| then borders.start else |s|;
    counter := new WordCounter();
    ghost var counted: seq<string> := [];
    while pos < |s|
      modifies counter
      invariant pos <= |s|
      invariant counted + ChunkWords(s, pos, borders.end) == ChunkWords(s, borders.start, borders.end)
      invariant counter.data == Tally(counted)
      decreases |s| - pos
    {
      var found, word, next := ReadWord(s, pos);
      if !found || StopsScan(s, next, borders.end) {
        assert ChunkWords(s, pos, borders.end) == [];
        break;
      }
      ghost var rest := ChunkWords(s, next, borders.end);
      assert ChunkWords(s, pos, borders.end) == [word] + rest;
      assert counted + ChunkWords(s, pos, borders.end) == (counted + [word]) + rest;
      counter.Count(word, 1);
      TallySnoc(counted, word);
      counted := counted + [word];
      pos := next;
    }
    assert counted == ChunkWords(s, borders.start, borders.end);
  }

  /**
   * `ProcessChunk(index, borders, container)`: scans the range and stores
   * the resulting counter in slot `index`; no other slot changes.
   */
  method ProcessChunk(s: string, index: nat, borders: Border, container: WordCounterContainer)
    requires index < |container.slots|
    modifies container
    ensures |container.slots| == |old(container.slots)|
    ensures forall i :: 0 <= i < |container.slots| && i != index ==> container.slots[i] == old(container.slots[i])
    ensures container.slots[index] != null && fresh(container.slots[index])
    ensures container.slots[index].data == ChunkTally(s, borders)
  {
    var counter := ScanChunk(s, borders);
    container.SetWordCounter(index, counter);
  }

  /**
   * The words from `p` split at a cut `q`: those the worker for `[p, q)`
   * counts, followed by all words from `q`. This is where the snapped
   * borders pay off: no word straddles `q`, and the scan of `[p, q)` stops
   * exactly at the first word beginning at or after `q`. When the cut is
   * the end of the file, the file must end in whitespace: otherwise the
   * final word runs up to the end of the file and stops the scan uncounted
   * (see `LastChunk`).
   */
  lemma {:induction false} SplitAtCut(s: string, p: nat, q: nat)
    requires p <= q <= |s| && IsCut(s, q) && (q < |s| || EndsWithWhitespace(s))
    ensures WordsFrom(s, p) == ChunkWords(s, p, q) + WordsFrom(s, q)
    decreases |s| - p
  {
    var b := NextWordStart(s, p);
    if b == |s| {
      assert NextWordStart(s, q) == |s|;
    } else if q <= b {
      assert NextWordStart(s, q) == b;
    } else {
      var e := WordEnd(s, b);
      assert IsSpace(s[q - 1]);
      assert e < q;
      SplitAtCut(s, e, q);
    }
  }

  /**
   * The scan of the last range of a file that ends in a word: it counts
   * every word from `p` except that final one.
   */
  lemma {:induction false} LastChunk(s: string, p: nat)
    requires p < |s| && !EndsWithWhitespace(s)
    ensures WordsFrom(s, p) != []
    ensures ChunkWords(s, p, |s|) == WordsFrom(s, p)[..|WordsFrom(s, p)| - 1]
    decreases |s| - p
  {
    var b := NextWordStart(s, p);
    assert b < |s|;
    var e := WordEnd(s, b);
    if e == |s| {
      assert WordsFrom(s, p) == [s[b..e]];
    } else {
      LastChunk(s, e);
      var rest := WordsFrom(s, e);
      assert WordsFrom(s, p) == [s[b..e]] + rest;
      assert ChunkWords(s, p, |s|) == [s[b..e]] + rest[..|rest| - 1];
      assert ([s[b..e]] + rest)[..|rest|] == [s[b..e]] + rest[..|rest| - 1];
    }
  }
}
