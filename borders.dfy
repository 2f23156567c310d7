/**
 * Chunk planning from main.cpp: `TrySetToNearestSpace` snaps an offset
 * forward past the next `' '`, and `CountThreadBorders` cuts the file into
 * at most `k` byte ranges whose inner edges are snapped that way. The file
 * is a `string`, its size is its length, and `THREAD_COUNT` is the
 * parameter `k`.
 */
module Borders {

  /** `Borders`: the half-open byte range `[start, end)` of one chunk. */
  datatype Border = Border(start: nat, end: nat)

  datatype Option<T> = None | Some(value: T)

  /** The first offset at or after `p` holding `' '`; when there is none, `p` or |s|, whichever is larger. */
  function FirstSpaceFrom(s: string, p: nat): (j: nat)
    ensures p <= j
    ensures j <= |s| || j == p
    ensures forall i :: p <= i < j && i < |s| ==> s[i] != ' '
    ensures j < |s| ==> s[j] == ' '
    decreases |s| - p
  {
    if p >= |s| || s[p] == ' ' then p else FirstSpaceFrom(s, p + 1)
  }

  /**
   * What `TrySetToNearestSpace` achieves from position `p`: the offset just
   * past the first space at or after `p`, provided that offset is still
   * inside the file; `None` otherwise (including when the only space left
   * is the last byte).
   */
  function SnapToSpace(s: string, p: nat): (r: Option<nat>)
    ensures r.Some? <==> exists j :: p <= j < |s| - 1 && s[j] == ' '
    ensures r.Some? ==> p < r.value < |s| && s[r.value - 1] == ' '
                        && forall i :: p <= i < r.value - 1 ==> s[i] != ' '
  {
    var j := FirstSpaceFrom(s, p);
    if j + 1 < |s| then Some(j + 1) else None
  }

  /** A snapped edge, where a failed snap is replaced by the file size (main.cpp:64-71). */
  function SnapOrEnd(s: string, p: nat): (q: nat)
    ensures q <= |s|
  {
    match SnapToSpace(s, p)
    case Some(q) => q
    case None => |s|
  }

  /** An edge at which no word can straddle: the end of the file, or just after a space. */
  predicate IsCut(s: string, q: nat) {
    q == |s| || (0 < q < |s| && s[q - 1] == ' ')
  }

  /**
   * `TrySetToNearestSpace(fileSize, position)`: reads bytes from `position`
   * while they are not `' '` and the read offset stays below the file size.
   * The write through the `position` pointer is the out-parameter
   * `newPosition`, which keeps the old value on failure.
   */
  method TrySetToNearestSpace(s: string, position: nat) returns (ok: bool, newPosition: nat)
    ensures ok <==> SnapToSpace(s, position).Some?
    ensures ok ==> newPosition == SnapToSpace(s, position).value
    ensures !ok ==> newPosition == position
  {
    var cursor := position;
    // The byte last read. In C++ `c` starts uninitialized; its value only
    // matters after at least one successful read.
    var c := ' ';
    while cursor < |s|
      invariant position <= cursor
      invariant forall i :: position <= i < cursor && i < |s| ==> s[i] != ' '
      decreases |s| - cursor
    {
      c := s[cursor];
      cursor := cursor + 1;
      if c == ' ' || cursor >= |s| {
        break;
      }
    }
    // A failed read leaves the stream failed, and `tellg()` then reports -1,
    // which compares as the largest `size_t`: the test below fails either way.
    if cursor >= |s| || c != ' ' {
      return false, position;
    }
    return true, cursor;
  }

  /** A snap never moves an edge backwards, and never beyond a later snapped edge. */
  lemma SnapMonotone(s: string, p: nat, q: nat)
    requires p <= q
    ensures p <= SnapOrEnd(s, p) || SnapOrEnd(s, p) == |s|
    ensures SnapOrEnd(s, p) <= SnapOrEnd(s, q)
  {
    var jp, jq := FirstSpaceFrom(s, p), FirstSpaceFrom(s, q);
    if jq < |s| {
      assert jp <= jq;
    }
  }

  /** Snapping at the end of the file fails, so the edge stays at the end. */
  lemma SnapAtEnd(s: string)
    ensures SnapOrEnd(s, |s|) == |s|
  {
  }

  /** The tentative range of chunk `i` (main.cpp:59-61), with `chunkSize = |s| / k`. */
  function TentativeBorder(s: string, k: nat, i: nat): Border
    requires 1 <= k && i < k
  {
    var chunkSize := |s| / k;
    var start := i * chunkSize;
    Border(start, if i == k - 1 then |s| else start + chunkSize)
  }

  /** Chunk `i` after snapping: every start but the first, and every end not already at the end of the file. */
  function SnappedBorder(s: string, k: nat, i: nat): Border
    requires 1 <= k && i < k
  {
    var t := TentativeBorder(s, k, i);
    Border(if i != 0 then SnapOrEnd(s, t.start) else t.start,
           if t.end != |s| then SnapOrEnd(s, t.end) else t.end)
  }

  /** The ranges kept from chunks `0 .. i-1`: those with `start < end`, in order. */
  function PlanPrefix(s: string, k: nat, i: nat): seq<Border>
    requires 1 <= k && i <= k
  {
    if i == 0 then []
    else
      var b := SnappedBorder(s, k, i - 1);
      PlanPrefix(s, k, i - 1) + (if b.start < b.end then [b] else [])
  }

  /** The borders `CountThreadBorders` returns. */
  function PlanBorders(s: string, k: nat): seq<Border>
    requires 1 <= k
  {
    PlanPrefix(s, k, k)
  }

  /**
   * `bs` tiles `[lo, hi)`: every range is non-empty, the first starts at
   * `lo`, each next one starts where the previous one ends, and the last
   * ends at `hi`.
   */
  ghost predicate Tiles(bs: seq<Border>, lo: nat, hi: nat) {
    && (bs == [] ==> lo == hi)
    && (bs != [] ==> bs[0].start == lo && bs[|bs| - 1].end == hi)
    && (forall i :: 0 <= i < |bs| ==> bs[i].start < bs[i].end)
    && (forall i :: 0 <= i < |bs| - 1 ==> bs[i].end == bs[i + 1].start)
  }

  /** The edge reached after chunks `0 .. i-1`: where chunk `i` starts. */
  function Frontier(s: string, k: nat, i: nat): nat
    requires 1 <= k && i <= k
  {
    if i == 0 then 0 else SnappedBorder(s, k, i - 1).end
  }

  /** With `c = n / k`, chunk `i < k` of length `c` starting at `i * c` ends within `n`. */
  lemma ChunkWithin(n: nat, k: nat, i: nat)
    requires 1 <= k && i < k
    ensures i * (n / k) + n / k == (i + 1) * (n / k) <= n
  {
    var c := n / k;
    assert n == k * c + n % k;
    assert (i + 1) * c == i * c + c;
    var d := k - (i + 1);
    assert k * c == (i + 1) * c + d * c;
    assert d * c >= 0;
  }

  /** Chunk `i` starts exactly where chunk `i - 1` ended, before any range is dropped. */
  lemma SnappedStartIsFrontier(s: string, k: nat, i: nat)
    requires 1 <= k && i < k
    ensures SnappedBorder(s, k, i).start == Frontier(s, k, i)
  {
    if i > 0 {
      ChunkWithin(|s|, k, i - 1);
      SnapAtEnd(s);
    }
  }

  /** Each snapped chunk is a well-formed range: its start does not pass its end, and both lie in the file. */
  lemma SnappedBorderOrdered(s: string, k: nat, i: nat)
    requires 1 <= k && i < k
    ensures SnappedBorder(s, k, i).start <= SnappedBorder(s, k, i).end <= |s|
    ensures IsCut(s, SnappedBorder(s, k, i).end)
  {
    var t := TentativeBorder(s, k, i);
    ChunkWithin(|s|, k, i);
    if i != 0 && t.end != |s| {
      SnapMonotone(s, t.start, t.end);
    }
  }

  /** Every range of `bs` ends within the file, at a cut. */
  ghost predicate CutEnds(s: string, bs: seq<Border>) {
    forall j :: 0 <= j < |bs| ==> bs[j].end <= |s| && IsCut(s, bs[j].end)
  }

  /** The kept ranges of chunks `0 .. i-1` tile `[0, Frontier(i))`, with at most `i` of them, all ending at cuts. */
  lemma {:induction false} PlanPrefixTiles(s: string, k: nat, i: nat)
    requires 1 <= k && i <= k
    ensures Tiles(PlanPrefix(s, k, i), 0, Frontier(s, k, i))
    ensures |PlanPrefix(s, k, i)| <= i
    ensures CutEnds(s, PlanPrefix(s, k, i))
  {
    if i > 0 {
      PlanPrefixTiles(s, k, i - 1);
      SnappedStartIsFrontier(s, k, i - 1);
      SnappedBorderOrdered(s, k, i - 1);
      TilesExtend(s, PlanPrefix(s, k, i - 1), SnappedBorder(s, k, i - 1));
    }
  }

  /**
   * Adding a range that starts where a tiling ends, and ends at a cut,
   * when it is not empty extends the tiling to the range's end.
   */
  lemma TilesExtend(s: string, bs: seq<Border>, b: Border)
    requires Tiles(bs, 0, b.start) && CutEnds(s, bs)
    requires b.start <= b.end <= |s| && IsCut(s, b.end)
    ensures Tiles(bs + (if b.start < b.end then [b] else []), 0, b.end)
    ensures CutEnds(s, bs + (if b.start < b.end then [b] else []))
  {
    if b.start < b.end {
      var r := bs + [b];
      assert forall j :: 0 <= j < |bs| ==> r[j] == bs[j];
    } else {
      assert bs + [] == bs;
    }
  }

  /** The last chunk ends at the end of the file. */
  lemma FrontierAtEnd(s: string, k: nat)
    requires 1 <= k
    ensures Frontier(s, k, k) == |s|
  {
  }

  /**
   * The borders `CountThreadBorders` returns partition the file: they tile
   * `[0, |s|)` (none at all for an empty file), there are at most `k` of
   * them, and every end is a cut.
   */
  lemma PlanBordersPartition(s: string, k: nat)
    requires 1 <= k
    ensures Tiles(PlanBorders(s, k), 0, |s|)
    ensures |PlanBorders(s, k)| <= k
    ensures forall j :: 0 <= j < |PlanBorders(s, k)| ==> IsCut(s, PlanBorders(s, k)[j].end)
    ensures |s| == 0 ==> PlanBorders(s, k) == []
  {
    PlanPrefixTiles(s, k, k);
    FrontierAtEnd(s, k);
  }

  /** Within a tiling, each offset of `[lo, hi)` lies in exactly one range. */
  lemma TilesCoverOnce(bs: seq<Border>, lo: nat, hi: nat, x: nat)
    requires Tiles(bs, lo, hi) && lo <= x < hi
    ensures exists i :: 0 <= i < |bs| && bs[i].start <= x < bs[i].end
    ensures forall i, j :: (0 <= i < |bs| && 0 <= j < |bs| && bs[i].start <= x < bs[i].end
                            && bs[j].start <= x < bs[j].end) ==> i == j
  {
    TilesIncreasing(bs, lo, hi);
    var n := |bs|;
    assert n > 0;
    var i := 0;
    while i < n - 1 && bs[i].end <= x
      invariant 0 <= i < n && bs[i].start <= x
    {
      i := i + 1;
    }
  }

  /** In a tiling, a later range starts no earlier than an earlier range ends. */
  lemma TilesIncreasing(bs: seq<Border>, lo: nat, hi: nat)
    requires Tiles(bs, lo, hi)
    ensures forall i, j :: 0 <= i < j < |bs| ==> bs[i].end <= bs[j].start
    ensures bs != [] ==> lo <= bs[0].start && bs[|bs| - 1].end <= hi
  {
    forall i, j | 0 <= i < j < |bs| ensures bs[i].end <= bs[j].start {
      var m := i;
      while m < j - 1
        invariant i <= m <= j - 1
        invariant bs[i].end <= bs[m + 1].start
      {
        m := m + 1;
      }
    }
  }

  /**
   * `CountThreadBorders()`: computes `chunkSize = fileSize / THREAD_COUNT`,
   * snaps the edges of each tentative chunk, and keeps those with
   * `start < end`.
   */
  method CountThreadBorders(s: string, k: nat) returns (borders: seq<Border>)
    requires 1 <= k
    ensures borders == PlanBorders(s, k)
    ensures Tiles(borders, 0, |s|) && |borders| <= k
    ensures forall j :: 0 <= j < |borders| ==> IsCut(s, borders[j].end)
  {
    borders := [];
    for i := 0 to k
      invariant borders == PlanPrefix(s, k, i)
    {
      var currentBorder := SnapChunk(s, k, i);
      if currentBorder.start < currentBorder.end {
        borders := borders + [currentBorder];
      }
    }
    assert borders == PlanBorders(s, k);
    PlanBordersPartition(s, k);
  }

  /**
   * One iteration of the loop of `CountThreadBorders` (main.cpp:59-72):
   * the tentative range of chunk `i`, with its start snapped unless it is
   * the first chunk and its end snapped unless it is the end of the file;
   * a failed snap moves the edge to the end of the file.
   */
  method SnapChunk(s: string, k: nat, i: nat) returns (currentBorder: Border)
    requires 1 <= k && i < k
    ensures currentBorder == SnappedBorder(s, k, i)
    ensures currentBorder.start <= currentBorder.end <= |s| && IsCut(s, currentBorder.end)
  {
    var fileSize := |s|;
    var chunkSize := fileSize / k;
    var start := i * chunkSize;
    var end := if i == k - 1 then fileSize else start + chunkSize;
    ghost var snapped := SnappedBorder(s, k, i);
    assert Border(start, end) == TentativeBorder(s, k, i);
    if i != 0 {
      var ok, p := TrySetToNearestSpace(s, start);
      start := if ok then p else fileSize;
    }
    assert start == snapped.start;
    if end != fileSize {
      var ok, p := TrySetToNearestSpace(s, end);
      end := if ok then p else fileSize;
    }
    assert end == snapped.end;
    currentBorder := Border(start, end);
    SnappedBorderOrdered(s, k, i);
  }
}
