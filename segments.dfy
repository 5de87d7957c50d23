/** The workload partitioner of hw1.cpp: createSegments splits the items
    0 .. itemsToProduce-1 into one half-open range per producer. */
module Segments {

  /** A half-open work range [start, end) handed to one producer (class Segment). */
  datatype Segment = Segment(start: int, end: int)

  predicate Contains(s: Segment, x: int) {
    s.start <= x < s.end
  }

  function Length(s: Segment): int {
    s.end - s.start
  }

  /** Some range hands out item x. */
  ghost predicate Covered(segs: seq<Segment>, x: int) {
    exists i :: 0 <= i < |segs| && Contains(segs[i], x)
  }

  /** Number of items the ranges hand out altogether. */
  function SumLengths(segs: seq<Segment>): int {
    if segs == [] then 0 else SumLengths(segs[..|segs| - 1]) + Length(segs[|segs| - 1])
  }

  /** The ranges tile [0, total) in order: the first starts at 0, each one
      starts where its predecessor ends, the last ends at total, and none is
      reversed. */
  ghost predicate Tiles(segs: seq<Segment>, total: int) {
    && |segs| > 0
    && segs[0].start == 0
    && segs[|segs| - 1].end == total
    && (forall i :: 0 <= i < |segs| ==> segs[i].start <= segs[i].end)
    && (forall i :: 0 <= i < |segs| - 1 ==> segs[i].end == segs[i + 1].start)
  }

  /** createSegments: segmentLength is itemsToProduce / producersCount
      (truncating; for these non-negative operands Dafny's division agrees
      with C's); range i starts at segmentLength * i and ends at
      segmentLength * (i + 1), except the last, which ends at itemsToProduce
      and so absorbs the remainder. */
  method CreateSegments(itemsToProduce: int, producersCount: int) returns (segments: seq<Segment>)
    requires producersCount >= 1 && itemsToProduce >= 0
    ensures |segments| == producersCount
    ensures SourceShape(segments, itemsToProduce, producersCount)
    ensures Tiles(segments, itemsToProduce)
    ensures forall i :: 0 <= i < |segments| ==>
              0 <= segments[i].start <= segments[i].end <= itemsToProduce
  {
    var segmentLength := itemsToProduce / producersCount;
    segments := [];
    var i := 0;
    while i < producersCount
      invariant 0 <= i <= producersCount
      invariant |segments| == i
      invariant forall k :: 0 <= k < i ==> segments[k].start == segmentLength * k
      invariant forall k :: 0 <= k < i && k < producersCount - 1 ==>
                  segments[k].end == segmentLength * (k + 1)
      invariant i == producersCount ==> segments[i - 1].end == itemsToProduce
    {
      var s := Segment(segmentLength * i, 0);
      if i != producersCount - 1 {
        s := s.(end := segmentLength * (i + 1));
      } else {
        // the last range takes the remainder
        s := s.(end := itemsToProduce);
      }
      segments := segments + [s];
      i := i + 1;
    }
    SourceShapeTiles(segments, itemsToProduce, producersCount);
  }

  /** The ranges createSegments builds, range by range. */
  ghost predicate SourceShape(segs: seq<Segment>, items: int, count: int)
    requires count >= 1
  {
    && |segs| == count
    && (forall k :: 0 <= k < count ==> segs[k].start == (items / count) * k)
    && (forall k :: 0 <= k < count - 1 ==> segs[k].end == (items / count) * (k + 1))
    && segs[count - 1].end == items
  }

  /** With fewer items than producers, segmentLength is 0: every range but
      the last is empty and the last one is [0, items). */
  lemma FewItemsEmptyRanges(segs: seq<Segment>, items: int, count: int)
    requires count >= 1 && 0 <= items < count
    requires SourceShape(segs, items, count)
    ensures forall k :: 0 <= k < count - 1 ==> segs[k].start == segs[k].end == 0
    ensures segs[count - 1] == Segment(0, items)
  {
    assert items / count == 0;
  }

  /** The source's formulas produce a tiling of [0, items) whose every bound lies in [0, items]. */
  lemma SourceShapeTiles(segs: seq<Segment>, items: int, count: int)
    requires count >= 1 && items >= 0
    requires SourceShape(segs, items, count)
    ensures Tiles(segs, items)
    ensures forall k :: 0 <= k < count ==> 0 <= segs[k].start <= segs[k].end <= items
  {
    forall k | 0 <= k < count
      ensures 0 <= segs[k].start <= segs[k].end <= items
    {
      StartsFit(items, count, k);
      if k != count - 1 {
        StartsFit(items, count, k + 1);
      }
    }
  }

  /** No start or end computed by createSegments passes itemsToProduce, so
      none of its products overflows a C int. */
  lemma StartsFit(items: int, count: int, k: int)
    requires count >= 1 && items >= 0 && 0 <= k < count
    ensures 0 <= (items / count) * k <= (items / count) * (count - 1) <= items
  {
    var len := items / count;
    assert 0 <= len * k <= len * (count - 1) by {
      MulMonotone(len, k, count - 1);
    }
    LastStartFits(items, count);
  }

  lemma LastStartFits(items: int, count: int)
    requires count >= 1 && items >= 0
    ensures (items / count) * (count - 1) <= (items / count) * count <= items
  {
    var len := items / count;
    assert len * count + items % count == items;
    MulMonotone(len, count - 1, count);
  }

  lemma MulMonotone(a: int, j: int, k: int)
    requires a >= 0 && 0 <= j <= k
    ensures 0 <= a * j <= a * k
  {
    assert a * k == a * j + a * (k - j);
  }

  /** In a tiling, a range never starts before an earlier one ends. */
  lemma {:induction false} TilesOrdered(segs: seq<Segment>, total: int, i: int, j: int)
    requires Tiles(segs, total)
    requires 0 <= i < j < |segs|
    ensures segs[i].end <= segs[j].start
    decreases j - i
  {
    if j > i + 1 {
      TilesOrdered(segs, total, i, j - 1);
    }
  }

  /** Every item at or after the start of range k lies in range k or a later one. */
  lemma {:induction false} CoveredFrom(segs: seq<Segment>, total: int, k: int, x: int)
    requires Tiles(segs, total)
    requires 0 <= k < |segs| && segs[k].start <= x < total
    ensures exists i :: k <= i < |segs| && Contains(segs[i], x)
    decreases |segs| - k
  {
    if x >= segs[k].end {
      CoveredFrom(segs, total, k + 1, x);
    }
  }

  /** The prefix of the first n ranges hands out exactly the items up to the end of range n - 1. */
  lemma {:induction false} PrefixSum(segs: seq<Segment>, total: int, n: int)
    requires Tiles(segs, total)
    requires 1 <= n <= |segs|
    ensures SumLengths(segs[..n]) == segs[n - 1].end
  {
    var p := segs[..n];
    assert p[..n - 1] == segs[..n - 1];
    if n == 1 {
      assert p[..0] == [];
    } else {
      PrefixSum(segs, total, n - 1);
    }
  }

  /** A tiling partitions [0, total): every item is in some range, no item is
      in two ranges, no range reaches outside, and the ranges hand out total
      items altogether. */
  lemma TilesPartition(segs: seq<Segment>, total: int)
    requires Tiles(segs, total)
    ensures forall x :: 0 <= x < total ==> Covered(segs, x)
    ensures forall i, j, x ::
              0 <= i < |segs| && 0 <= j < |segs| && Contains(segs[i], x) && Contains(segs[j], x) ==> i == j
    ensures forall i :: 0 <= i < |segs| ==> 0 <= segs[i].start && segs[i].end <= total
    ensures SumLengths(segs) == total
  {
    forall x | 0 <= x < total
      ensures Covered(segs, x)
    {
      CoveredFrom(segs, total, 0, x);
    }
    forall i, j, x | 0 <= i < |segs| && 0 <= j < |segs| && Contains(segs[i], x) && Contains(segs[j], x)
      ensures i == j
    {
      if i < j {
        TilesOrdered(segs, total, i, j);
      } else if j < i {
        TilesOrdered(segs, total, j, i);
      }
    }
    forall i | 0 <= i < |segs|
      ensures 0 <= segs[i].start && segs[i].end <= total
    {
      if i > 0 {
        TilesOrdered(segs, total, 0, i);
      }
      if i < |segs| - 1 {
        TilesOrdered(segs, total, i, |segs| - 1);
      }
    }
    PrefixSum(segs, total, |segs|);
    assert segs[..|segs|] == segs;
  }
}
