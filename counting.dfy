/**
 * The word tally of `WordCounter` (lib.h): a map from word to occurrence
 * count, where an absent word counts 0. `Add` is one `Count` call, `Merge`
 * is what `Absorb` leaves behind, and `Tally` is the reference tally of a
 * word sequence.
 */
module Counting {

  /** `std::map<std::string, size_t>`; `size_t` is modelled by `nat`. */
  type Counts = map<string, nat>

  /** The count of `w`, 0 when `w` has no entry. */
  function Get(m: Counts, w: string): nat {
    if w in m then m[w] else 0
  }

  /** `data_[word] += count`: the entry of `word` exists afterwards. */
  function Add(m: Counts, word: string, count: nat): (r: Counts)
    ensures word in r && r[word] == Get(m, word) + count
    ensures forall v :: v != word ==> (v in r <==> v in m) && Get(r, v) == Get(m, v)
  {
    m[word := Get(m, word) + count]
  }

  /** The entry-wise sum of two tallies. */
  function Merge(a: Counts, b: Counts): (r: Counts)
    ensures forall w :: (w in r <==> w in a || w in b) && Get(r, w) == Get(a, w) + Get(b, w)
  {
    map w | w in a.Keys + b.Keys :: Get(a, w) + Get(b, w)
  }

  /**
   * The tally of a word sequence, built the way a counting loop builds it:
   * one `Add(_, w, 1)` per word, in order.
   */
  function Tally(ws: seq<string>): Counts {
    if ws == [] then map[]
    else Add(Tally(ws[..|ws| - 1]), ws[|ws| - 1], 1)
  }

  /** Every word of `ws` has an entry in its tally, and its count is the number of times it occurs. */
  lemma {:induction false} TallyCounts(ws: seq<string>)
    ensures forall w :: (w in Tally(ws) <==> w in ws) && Get(Tally(ws), w) == multiset(ws)[w]
  {
    if ws != [] {
      var init := ws[..|ws| - 1];
      TallyCounts(init);
      assert ws == init + [ws[|ws| - 1]];
    }
  }

  /** Two tallies that agree on every count and every key are the same map. */
  lemma SameEntries(a: Counts, b: Counts)
    requires forall w :: (w in a <==> w in b) && Get(a, w) == Get(b, w)
    ensures a == b
  {
    assert a.Keys == b.Keys;
    forall w | w in a ensures a[w] == b[w] {
      assert Get(a, w) == Get(b, w);
    }
  }

  /** `Count` followed by the next `Count` is the tally of the sequence one word longer. */
  lemma TallySnoc(ws: seq<string>, w: string)
    ensures Tally(ws + [w]) == Add(Tally(ws), w, 1)
  {
    assert (ws + [w])[..|ws|] == ws;
  }

  /** Tallying two runs of words separately and merging equals tallying them in one pass. */
  lemma TallyConcat(a: seq<string>, b: seq<string>)
    ensures Tally(a + b) == Merge(Tally(a), Tally(b))
  {
    assert multiset(a + b) == multiset(a) + multiset(b);
    TallyCounts(a + b);
    TallyCounts(a);
    TallyCounts(b);
    SameEntries(Tally(a + b), Merge(Tally(a), Tally(b)));
  }

  lemma MergeCommutative(a: Counts, b: Counts)
    ensures Merge(a, b) == Merge(b, a)
  {
    SameEntries(Merge(a, b), Merge(b, a));
  }

  lemma MergeAssociative(a: Counts, b: Counts, c: Counts)
    ensures Merge(Merge(a, b), c) == Merge(a, Merge(b, c))
  {
    SameEntries(Merge(Merge(a, b), c), Merge(a, Merge(b, c)));
  }

  /** Absorbing `a` then `b` into `x` gives the same tally as absorbing `b` then `a`. */
  lemma AbsorbOrderIrrelevant(x: Counts, a: Counts, b: Counts)
    ensures Merge(Merge(x, a), b) == Merge(Merge(x, b), a)
  {
    MergeAssociative(x, a, b);
    MergeAssociative(x, b, a);
    MergeCommutative(a, b);
  }

  /** The empty tally is the unit of merging. */
  lemma MergeEmpty(a: Counts)
    ensures Merge(a, map[]) == a && Merge(map[], a) == a
  {
    SameEntries(Merge(a, map[]), a);
    SameEntries(Merge(map[], a), a);
  }

  /** The entries of `m` whose words are in `keys`. */
  function Restrict(m: Counts, keys: set<string>): Counts {
    map w | w in m && w in keys :: m[w]
  }

  /** Adding one more entry of `source` to a partial merge (the step of `Absorb`'s loop). */
  lemma MergeStep(acc: Counts, source: Counts, done: set<string>, w: string)
    requires w in source && w !in done
    ensures Merge(acc, Restrict(source, done + {w})) == Add(Merge(acc, Restrict(source, done)), w, source[w])
  {
    var before := Restrict(source, done);
    var after := Restrict(source, done + {w});
    assert forall v :: (v in after <==> v in before || v == w);
    assert forall v :: v != w ==> Get(after, v) == Get(before, v);
    assert Get(after, w) == source[w] && Get(before, w) == 0;
    SameEntries(Merge(acc, after), Add(Merge(acc, before), w, source[w]));
  }

  /** The sum of all counts of a tally. */
  ghost function Total(m: Counts): nat
    decreases |m|
  {
    if m == map[] then 0
    else
      var w :| w in m;
      m[w] + Total(m - {w})
  }

  /** `Total` does not depend on which entry is taken out first. */
  lemma {:induction false} TotalRemove(m: Counts, w: string)
    requires w in m
    ensures Total(m) == m[w] + Total(m - {w})
    decreases |m|
  {
    var v :| v in m && Total(m) == m[v] + Total(m - {v});
    if v != w {
      TotalRemove(m - {v}, w);
      TotalRemove(m - {w}, v);
      assert m - {v} - {w} == m - {w} - {v};
    }
  }

  /** `Count(word, n)` raises the total by exactly `n`. */
  lemma {:induction false} TotalAdd(m: Counts, word: string, n: nat)
    ensures Total(Add(m, word, n)) == Total(m) + n
  {
    var r := Add(m, word, n);
    TotalRemove(r, word);
    if word in m {
      TotalRemove(m, word);
      assert r - {word} == m - {word};
    } else {
      assert r - {word} == m;
    }
  }

  /** The counts of a tally add up to the number of words tallied. */
  lemma {:induction false} TallyTotal(ws: seq<string>)
    ensures Total(Tally(ws)) == |ws|
  {
    if ws != [] {
      var init := ws[..|ws| - 1];
      TallyTotal(init);
      TotalAdd(Tally(init), ws[|ws| - 1], 1);
    }
  }

  /**
   * `WordCounter`: owns one tally and updates it in place.
   */
  class WordCounter {
    var data: Counts

    constructor ()
      ensures data == map[]
    {
      data := map[];
    }

    /** `Count(word, count)`: the entry of `word` grows by `count`, every other entry stays. */
    method Count(word: string, count: nat)
      modifies this
      ensures data == Add(old(data), word, count)
    {
      data := data[word := Get(data, word) + count];
    }

    /**
     * `Absorb(other)`: every entry of `other` is added into this tally.
     * When `other` is this very counter each count doubles, as in C++,
     * where each count is copied out before its own entry is updated.
     */
    method Absorb(other: WordCounter)
      modifies this
      ensures data == Merge(old(data), old(other.data))
      ensures other != this ==> other.data == old(other.data)
    {
      var source := other.data;
      ghost var start := data;
      ghost var done: set<string> := {};
      var pending := source.Keys;
      MergeEmpty(start);
      assert Restrict(source, {}) == map[];
      while pending != {}
        invariant done !! pending && done + pending == source.Keys
        invariant data == Merge(start, Restrict(source, done))
        decreases pending
      {
        var w :| w in pending;
        MergeStep(start, source, done, w);
        Count(w, source[w]);
        done := done + {w};
        pending := pending - {w};
      }
      assert done == source.Keys;
      assert Restrict(source, source.Keys) == source;
    }
  }
}
