/**
 * Word extraction as `operator>>` on a text stream performs it: leading
 * whitespace is skipped, then a word is the maximal run of non-whitespace
 * characters that follows. The file is a `string` and a read position is
 * an offset into it.
 */
module Text {

  /** The characters the classic "C" locale classifies as whitespace. */
  predicate IsSpace(c: char) {
    c == ' ' || c == '\t' || c == '\n' || c == '\U{000B}' || c == '\U{000C}' || c == '\r'
  }

  /** A word as `operator>>` produces it: non-empty, without whitespace. */
  predicate IsWord(w: string) {
    |w| > 0 && forall i :: 0 <= i < |w| ==> !IsSpace(w[i])
  }

  /** True when the file is empty or its last character is whitespace. */
  predicate EndsWithWhitespace(s: string) {
    |s| == 0 || IsSpace(s[|s| - 1])
  }

  /** Where the next word begins: the first non-whitespace offset at or after `p`, or |s|. */
  function NextWordStart(s: string, p: nat): (b: nat)
    requires p <= |s|
    ensures p <= b <= |s|
    ensures forall i :: p <= i < b ==> IsSpace(s[i])
    ensures b < |s| ==> !IsSpace(s[b])
    decreases |s| - p
  {
    if p == |s| || !IsSpace(s[p]) then p else NextWordStart(s, p + 1)
  }

  /** Where the word beginning at `b` ends: the first whitespace offset at or after `b`, or |s|. */
  function WordEnd(s: string, b: nat): (e: nat)
    requires b <= |s|
    ensures b <= e <= |s|
    ensures forall i :: b <= i < e ==> !IsSpace(s[i])
    ensures e < |s| ==> IsSpace(s[e])
    decreases |s| - b
  {
    if b == |s| || IsSpace(s[b]) then b else WordEnd(s, b + 1)
  }

  /** The words `operator>>` reads one after another from offset `p` to the end of the file. */
  function WordsFrom(s: string, p: nat): (ws: seq<string>)
    requires p <= |s|
    ensures forall i :: 0 <= i < |ws| ==> IsWord(ws[i])
    decreases |s| - p
  {
    var b := NextWordStart(s, p);
    if b == |s| then []
    else
      var e := WordEnd(s, b);
      [s[b..e]] + WordsFrom(s, e)
  }

  /** The words of the whole file. */
  function Words(s: string): seq<string> {
    WordsFrom(s, 0)
  }

  /**
   * `operator>>` into a string: from read position `pos` it skips whitespace
   * and reads one word. It fails (`found` false) when only whitespace is
   * left; the read position is then the end of the file. On success `next`
   * is the offset just past the word, where the stream stands afterwards.
   */
  method ReadWord(s: string, pos: nat) returns (found: bool, word: string, next: nat)
    requires pos <= |s|
    ensures next <= |s|
    ensures found <==> NextWordStart(s, pos) < |s|
    ensures found ==> pos < next && next == WordEnd(s, NextWordStart(s, pos))
                      && word == s[NextWordStart(s, pos)..next]
    ensures !found ==> next == |s|
  {
    next := pos;
    while next < |s| && IsSpace(s[next])
      invariant pos <= next <= |s|
      invariant NextWordStart(s, next) == NextWordStart(s, pos)
    {
      next := next + 1;
    }
    if next == |s| {
      return false, [], next;
    }
    var b := next;
    while next < |s| && !IsSpace(s[next])
      invariant b <= next <= |s|
      invariant WordEnd(s, next) == WordEnd(s, b)
    {
      next := next + 1;
    }
    found, word := true, s[b..next];
  }

  /** A file without whitespace that is not empty is one word. */
  lemma {:induction false} SingleWordFile(s: string)
    requires |s| > 0 && forall i :: 0 <= i < |s| ==> !IsSpace(s[i])
    ensures Words(s) == [s]
  {
    assert NextWordStart(s, 0) == 0;
    WordEndWithoutSpace(s, 0);
    assert s[0..|s|] == s;
    assert WordsFrom(s, |s|) == [];
  }

  lemma {:induction false} WordEndWithoutSpace(s: string, b: nat)
    requires b <= |s| && forall i :: b <= i < |s| ==> !IsSpace(s[i])
    ensures WordEnd(s, b) == |s|
    decreases |s| - b
  {
    if b < |s| {
      WordEndWithoutSpace(s, b + 1);
    }
  }

  /** An empty or all-whitespace file has no words. */
  lemma {:induction false} BlankFile(s: string)
    requires forall i :: 0 <= i < |s| ==> IsSpace(s[i])
    ensures Words(s) == []
  {
    BlankSkip(s, 0);
  }

  lemma {:induction false} BlankSkip(s: string, p: nat)
    requires p <= |s| && forall i :: p <= i < |s| ==> IsSpace(s[i])
    ensures NextWordStart(s, p) == |s|
    decreases |s| - p
  {
    if p < |s| {
      BlankSkip(s, p + 1);
    }
  }
}
