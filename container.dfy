/**
 * `WordCounterContainer` (lib.h): a fixed number of slots, one per chunk,
 * each holding the counter a worker produced or nothing yet. A slot is a
 * `std::unique_ptr<WordCounter>`, modelled as a nullable reference.
 */
module Container {
  import opened Counting

  class WordCounterContainer {
    var slots: seq<WordCounter?>

    /** The constructor allocates `size` empty slots. */
    constructor (size: nat)
      ensures |slots| == size
      ensures forall i :: 0 <= i < size ==> slots[i] == null
    {
      slots := seq(size, _ => null);
    }

    function Size(): nat
      reads this
    {
      |slots|
    }

    /**
     * `setWordCounter(index, counter)`: slot `index` now holds `counter`;
     * the other slots and the number of slots are as before. The vector is
     * indexed without a bounds check, so `index` must be in range.
     */
    method SetWordCounter(index: nat, counter: WordCounter)
      requires index < |slots|
      modifies this
      ensures |slots| == |old(slots)|
      ensures slots[index] == counter
      ensures forall i :: 0 <= i < |slots| && i != index ==> slots[i] == old(slots[i])
    {
      slots := slots[index := counter];
    }
  }
}
