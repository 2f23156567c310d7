/**
 * The ranking half of lib.h: `FrequencyPair` with its `operator<` (count
 * descending, then word ascending) and `FrequencyVector`, which lists the
 * entries of a tally and sorts them.
 */
module Ranking {
  import opened Counting

  /** One `(word, count)` entry of the final listing; `int64_t` is modelled by `nat`. */
  datatype FrequencyPair = FrequencyPair(word: string, count: nat)

  /**
   * `std::string::operator<`: lexicographic order by character code, where
   * a proper prefix comes first.
   */
  predicate LexLess(a: string, b: string)
    decreases |a|
  {
    if |a| == 0 then |b| > 0
    else if |b| == 0 then false
    else if a[0] != b[0] then a[0] < b[0]
    else LexLess(a[1..], b[1..])
  }

  /**
   * `a` comes first in dictionary order at position `k`: the two agree
   * before `k`, and there `a` has run out while `b` has not, or `a` has the
   * smaller character.
   */
  predicate FirstDifference(a: string, b: string, k: nat) {
    && k <= |a| && k <= |b| && a[..k] == b[..k]
    && ((k == |a| && k < |b|) || (k < |a| && k < |b| && a[k] < b[k]))
  }

  /** The recursive comparison is dictionary order: there is a first position where `a` comes first. */
  lemma LexLessMeaning(a: string, b: string)
    ensures LexLess(a, b) <==> exists k: nat :: FirstDifference(a, b, k)
  {
    if LexLess(a, b) {
      DifferenceOfLexLess(a, b);
    }
    forall k: nat | FirstDifference(a, b, k) ensures LexLess(a, b) {
      LexLessOfDifference(a, b, k);
    }
  }

  lemma {:induction false} DifferenceOfLexLess(a: string, b: string)
    requires LexLess(a, b)
    ensures exists k: nat :: FirstDifference(a, b, k)
    decreases |a|
  {
    if |a| == 0 || a[0] != b[0] {
      assert FirstDifference(a, b, 0);
    } else {
      DifferenceOfLexLess(a[1..], b[1..]);
      var k: nat :| FirstDifference(a[1..], b[1..], k);
      assert a[..k + 1] == [a[0]] + a[1..][..k];
      assert b[..k + 1] == [b[0]] + b[1..][..k];
      assert FirstDifference(a, b, k + 1);
    }
  }

  lemma {:induction false} LexLessOfDifference(a: string, b: string, k: nat)
    requires FirstDifference(a, b, k)
    ensures LexLess(a, b)
    decreases k
  {
    if k > 0 {
      assert a[..k][0] == a[0] && b[..k][0] == b[0];
      assert a[1..][..k - 1] == a[..k][1..];
      assert b[1..][..k - 1] == b[..k][1..];
      LexLessOfDifference(a[1..], b[1..], k - 1);
    }
  }

  /** `FrequencyPair::operator<`. */
  predicate Less(a: FrequencyPair, b: FrequencyPair) {
    if a.count == b.count then LexLess(a.word, b.word) else a.count > b.count
  }

  lemma {:induction false} LexIrreflexive(a: string)
    ensures !LexLess(a, a)
    decreases |a|
  {
    if |a| > 0 {
      LexIrreflexive(a[1..]);
    }
  }

  lemma {:induction false} LexTransitive(a: string, b: string, c: string)
    requires LexLess(a, b) && LexLess(b, c)
    ensures LexLess(a, c)
    decreases |a|
  {
    if |a| > 0 && a[0] == b[0] && b[0] == c[0] {
      LexTransitive(a[1..], b[1..], c[1..]);
    }
  }

  /** Of two different strings, one is smaller. */
  lemma {:induction false} LexConnected(a: string, b: string)
    requires a != b
    ensures LexLess(a, b) || LexLess(b, a)
    decreases |a|
  {
    if |a| > 0 && |b| > 0 && a[0] == b[0] {
      assert a == [a[0]] + a[1..] && b == [b[0]] + b[1..];
      LexConnected(a[1..], b[1..]);
    }
  }

  lemma LexAsymmetric(a: string, b: string)
    requires LexLess(a, b)
    ensures !LexLess(b, a)
  {
    if LexLess(b, a) {
      LexTransitive(a, b, a);
      LexIrreflexive(a);
    }
  }

  /**
   * `operator<` is a strict total order on pairs: irreflexive, transitive,
   * and of two different pairs one is smaller. In particular it orders any
   * two entries of one tally, whose words differ.
   */
  lemma LessIrreflexive(a: FrequencyPair)
    ensures !Less(a, a)
  {
    LexIrreflexive(a.word);
  }

  lemma LessTransitive(a: FrequencyPair, b: FrequencyPair, c: FrequencyPair)
    requires Less(a, b) && Less(b, c)
    ensures Less(a, c)
  {
    if a.count == b.count == c.count {
      LexTransitive(a.word, b.word, c.word);
    }
  }

  lemma LessConnected(a: FrequencyPair, b: FrequencyPair)
    requires a != b
    ensures Less(a, b) || Less(b, a)
  {
    if a.count == b.count {
      LexConnected(a.word, b.word);
    }
  }

  lemma LessAsymmetric(a: FrequencyPair, b: FrequencyPair)
    requires Less(a, b)
    ensures !Less(b, a)
  {
    if a.count == b.count {
      LexAsymmetric(a.word, b.word);
    }
  }

  /** What `std::sort` with `operator<` guarantees: no element is smaller than one before it. */
  ghost predicate Sorted(ps: seq<FrequencyPair>) {
    forall i, j :: 0 <= i < j < |ps| ==> !Less(ps[j], ps[i])
  }

  /** `p` is the entry of `word` in `m`. */
  ghost predicate IsEntry(p: FrequencyPair, m: Counts) {
    p.word in m && m[p.word] == p.count
  }

  /** `ps` lists every entry of `m` exactly once and nothing else. */
  ghost predicate Lists(ps: seq<FrequencyPair>, m: Counts) {
    forall p :: multiset(ps)[p] == if IsEntry(p, m) then 1 else 0
  }

  /** Insertion of one pair into a sorted sequence, before the first pair not smaller than it. */
  function Insert(p: FrequencyPair, ps: seq<FrequencyPair>): (r: seq<FrequencyPair>)
    ensures multiset(r) == multiset(ps) + multiset{p}
  {
    if ps == [] || !Less(ps[0], p) then [p] + ps
    else
      assert ps == [ps[0]] + ps[1..];
      [ps[0]] + Insert(p, ps[1..])
  }

  /** The sort that `FrequencyVector::sort` performs, as an insertion sort. */
  function SortPairs(ps: seq<FrequencyPair>): (r: seq<FrequencyPair>)
    ensures multiset(r) == multiset(ps)
  {
    if ps == [] then []
    else
      assert ps == [ps[0]] + ps[1..];
      Insert(ps[0], SortPairs(ps[1..]))
  }

  /** A pair that the head of a sorted sequence does not precede is preceded by none of its pairs. */
  lemma NotBeforeHead(p: FrequencyPair, ps: seq<FrequencyPair>, k: nat)
    requires Sorted(ps) && k < |ps| && !Less(ps[0], p)
    ensures !Less(ps[k], p)
  {
    if k == 0 {
    } else if ps[0] == p {
      assert !Less(ps[k], ps[0]);
    } else {
      LessConnected(ps[0], p);
      if Less(ps[k], p) {
        LessTransitive(ps[k], p, ps[0]);
      }
    }
  }

  lemma {:induction false} InsertSorted(p: FrequencyPair, ps: seq<FrequencyPair>)
    requires Sorted(ps)
    ensures Sorted(Insert(p, ps))
    decreases |ps|
  {
    if ps == [] || !Less(ps[0], p) {
      InsertAtHead(p, ps);
    } else {
      InsertSorted(p, ps[1..]);
      InsertBehindHead(p, ps);
    }
  }

  /** Putting a pair in front of a sorted sequence whose head does not precede it keeps it sorted. */
  lemma InsertAtHead(p: FrequencyPair, ps: seq<FrequencyPair>)
    requires Sorted(ps) && (ps == [] || !Less(ps[0], p))
    ensures Sorted([p] + ps)
  {
    var r := [p] + ps;
    forall i, j | 0 <= i < j < |r| ensures !Less(r[j], r[i]) {
      if i == 0 {
        NotBeforeHead(p, ps, j - 1);
      } else {
        assert r[i] == ps[i - 1] && r[j] == ps[j - 1];
      }
    }
  }

  /** The head of a sorted sequence that precedes `p` stays in front of the sorted insertion into the rest. */
  lemma InsertBehindHead(p: FrequencyPair, ps: seq<FrequencyPair>)
    requires Sorted(ps) && ps != [] && Less(ps[0], p)
    requires Sorted(Insert(p, ps[1..]))
    ensures Sorted([ps[0]] + Insert(p, ps[1..]))
  {
    var tail := Insert(p, ps[1..]);
    var r := [ps[0]] + tail;
    HeadBeforeInsertion(p, ps);
    forall i, j | 0 <= i < j < |r| ensures !Less(r[j], r[i]) {
      if i == 0 {
        assert r[j] == tail[j - 1];
      } else {
        assert r[i] == tail[i - 1] && r[j] == tail[j - 1];
      }
    }
  }

  /** No pair of the insertion into the rest precedes the head it stays behind. */
  lemma HeadBeforeInsertion(p: FrequencyPair, ps: seq<FrequencyPair>)
    requires Sorted(ps) && ps != [] && Less(ps[0], p)
    ensures forall q :: q in Insert(p, ps[1..]) ==> !Less(q, ps[0])
  {
    var tail := Insert(p, ps[1..]);
    LessAsymmetric(ps[0], p);
    forall q | q in tail ensures !Less(q, ps[0]) {
      assert q in multiset(tail);
      if q != p {
        assert q in ps[1..];
      }
    }
  }

  /** `SortPairs` returns a sorted permutation of its input. */
  lemma {:induction false} SortPairsSorted(ps: seq<FrequencyPair>)
    ensures Sorted(SortPairs(ps))
    decreases |ps|
  {
    if ps != [] {
      SortPairsSorted(ps[1..]);
      InsertSorted(ps[0], SortPairs(ps[1..]));
    }
  }

  /**
   * Because `operator<` is a strict total order, there is only one sorted
   * arrangement of a given collection of pairs: any correct sort, stable or
   * not, produces the same sequence.
   */
  lemma {:induction false} SortedUnique(a: seq<FrequencyPair>, b: seq<FrequencyPair>)
    requires Sorted(a) && Sorted(b) && multiset(a) == multiset(b)
    ensures a == b
    decreases |a|
  {
    assert |a| == |multiset(a)| == |multiset(b)| == |b|;
    if a != [] {
      SortedHeadsAgree(a, b);
      DropHead(a);
      DropHead(b);
      SortedUnique(a[1..], b[1..]);
      assert a == [a[0]] + a[1..] && b == [b[0]] + b[1..];
    }
  }

  /** Two sorted arrangements of the same pairs start with the same pair. */
  lemma SortedHeadsAgree(a: seq<FrequencyPair>, b: seq<FrequencyPair>)
    requires Sorted(a) && Sorted(b) && multiset(a) == multiset(b) && a != []
    ensures b != [] && a[0] == b[0]
  {
    assert a[0] in multiset(b);
    var j :| 0 <= j < |b| && b[j] == a[0];
    assert b[0] in multiset(a);
    var i :| 0 <= i < |a| && a[i] == b[0];
    LessIrreflexive(a[0]);
    LessIrreflexive(b[0]);
    assert !Less(b[j], b[0]) && !Less(a[i], a[0]);
    if a[0] != b[0] {
      LessConnected(a[0], b[0]);
      assert false;
    }
  }

  /** Removing the head removes one occurrence of it from the multiset. */
  lemma DropHead(a: seq<FrequencyPair>)
    requires a != []
    ensures multiset(a[1..]) == multiset(a) - multiset{a[0]}
    ensures Sorted(a) ==> Sorted(a[1..])
  {
    assert a == [a[0]] + a[1..];
  }

  /** Sorting an already sorted listing changes nothing: ranking is idempotent. */
  lemma SortIdempotent(ps: seq<FrequencyPair>)
    ensures SortPairs(SortPairs(ps)) == SortPairs(ps)
  {
    SortPairsSorted(ps);
    SortPairsSorted(SortPairs(ps));
    SortedUnique(SortPairs(SortPairs(ps)), SortPairs(ps));
  }

  /** Two pairs at different positions of a listing are different pairs. */
  lemma ListedOnce(ps: seq<FrequencyPair>, m: Counts, i: nat, j: nat)
    requires Lists(ps, m) && i < j < |ps|
    ensures ps[i] != ps[j]
  {
    var x := ps[i];
    assert ps == ps[..j] + ps[j..];
    assert multiset(ps) == multiset(ps[..j]) + multiset(ps[j..]);
    assert x == ps[..j][i] && ps[j] == ps[j..][0];
    assert multiset(ps[..j])[x] >= 1 && multiset(ps[j..])[ps[j]] >= 1;
    assert multiset(ps)[x] == 1;
  }

  /**
   * In a sorted listing of a tally, counts never increase, and entries with
   * equal counts come in ascending word order.
   */
  lemma RankedOrder(ps: seq<FrequencyPair>, m: Counts, i: nat, j: nat)
    requires Sorted(ps) && Lists(ps, m) && i < j < |ps|
    ensures Less(ps[i], ps[j])
    ensures ps[i].count >= ps[j].count
    ensures ps[i].count == ps[j].count ==> LexLess(ps[i].word, ps[j].word)
  {
    ListedOnce(ps, m, i, j);
    LessConnected(ps[i], ps[j]);
  }

  /** A listing of the empty tally is empty. */
  lemma ListsEmpty(ps: seq<FrequencyPair>)
    requires Lists(ps, map[])
    ensures ps == []
  {
    assert ps != [] ==> multiset(ps)[ps[0]] >= 1;
  }

  /** A rearrangement of a listing is a listing of the same tally. */
  lemma ListsPermutation(ps: seq<FrequencyPair>, qs: seq<FrequencyPair>, m: Counts)
    requires Lists(ps, m) && multiset(qs) == multiset(ps)
    ensures Lists(qs, m)
  {
  }

  /** Two sorted listings of the same tally are the same sequence. */
  lemma SortedListingUnique(a: seq<FrequencyPair>, b: seq<FrequencyPair>, m: Counts)
    requires Sorted(a) && Sorted(b) && Lists(a, m) && Lists(b, m)
    ensures a == b
  {
    assert multiset(a) == multiset(b);
    SortedUnique(a, b);
  }

  /**
   * `FrequencyVector`: the entries of one tally as a vector of pairs,
   * sorted in place by `sort()`.
   */
  class FrequencyVector {
    var data: seq<FrequencyPair>

    /**
     * The constructor emits one pair per entry of the counter's map, with
     * the entry's word and count. (`std::map` yields them in ascending word
     * order; the order here is left open, as `sort()` erases it.)
     */
    constructor (counter: WordCounter)
      ensures Lists(data, counter.data)
      ensures |data| == |counter.data|
    {
      var m := counter.data;
      var built: seq<FrequencyPair> := [];
      var pending := m.Keys;
      while pending != {}
        invariant pending <= m.Keys
        invariant |built| + |pending| == |m.Keys|
        invariant forall p :: multiset(built)[p] == if IsEntry(p, m) && p.word !in pending then 1 else 0
        decreases pending
      {
        var w :| w in pending;
        built := built + [FrequencyPair(w, m[w])];
        pending := pending - {w};
      }
      data := built;
    }

    /** `sort()`: the vector becomes the sorted arrangement of its own pairs. */
    method Sort()
      modifies this
      ensures Sorted(data) && multiset(data) == multiset(old(data))
    {
      SortPairsSorted(data);
      data := SortPairs(data);
    }
  }
}
