/**
 * How the streaming OpenCL kernel splits the index range [start, end) of a
 * multi-device computation into one contiguous segment per device.  Each
 * device asks for a share (totalSize * partition[i], a floating-point
 * product cast to size_t; here simply the natural number shares[i]); a
 * request that would run past end, and the request of the last device, are
 * cut to what is left; then every segment is padded up to a multiple of the
 * work-group size blockSize.  The range length must itself be a multiple of
 * blockSize, so the padding never runs past end.
 */
module DevicePartition {
  import opened MixedRadix

  datatype PartitionError = BlockSizeZero | TotalSizeNotDivisible

  datatype Outcome = Ok | Failure(error: PartitionError)

  /** The segment [start, end) of one device. */
  datatype Segment = Segment(start: nat, end: nat)

  /** Padding that rounds elements up to a multiple of blockSize. */
  function Padding(elements: nat, blockSize: nat): nat
    requires blockSize > 0
  {
    var remainder := elements % blockSize;
    if remainder != 0 then blockSize - remainder else 0
  }

  /**
   * Padding rounds up to the next multiple of blockSize and adds less than
   * one block; inside a room that is itself a multiple of blockSize, what fits
   * before padding still fits after it.
   */
  lemma PaddingRoundsUp(elements: nat, blockSize: nat, room: nat)
    requires blockSize > 0
    ensures (elements + Padding(elements, blockSize)) % blockSize == 0
    ensures Padding(elements, blockSize) < blockSize
    ensures elements <= room && room % blockSize == 0 ==> elements + Padding(elements, blockSize) <= room
  {
    var q, r := elements / blockSize, elements % blockSize;
    DivMod(elements, blockSize);
    if r != 0 {
      MulSucc(q, blockSize);
      assert elements + Padding(elements, blockSize) == (q + 1) * blockSize;
      DivModUnique((q + 1) * blockSize, q + 1, 0, blockSize);
      if elements <= room && room % blockSize == 0 {
        var m := room / blockSize;
        DivMod(room, blockSize);
        if q + 1 > m {
          MulMono(m + 1, q + 1, blockSize);
          MulSucc(m, blockSize);
          assert false;
        }
        MulMono(q + 1, m, blockSize);
      }
    } else {
      DivModUnique(elements, q, 0, blockSize);
    }
  }

  /**
   * The number of elements device i receives when the previous devices end
   * at current: its share, or what is left if the share would run past end
   * or the device is the last one, padded to a multiple of blockSize.
   */
  function SegmentLength(current: nat, end: nat, blockSize: nat, share: nat, last: bool): nat
    requires blockSize > 0 && current <= end
  {
    var elements := if current + share > end || last then end - current else share;
    elements + Padding(elements, blockSize)
  }

  /** A segment fits what is left, is a whole number of blocks, and the last one reaches end. */
  lemma SegmentLengthFits(current: nat, end: nat, blockSize: nat, share: nat, last: bool)
    requires blockSize > 0 && current <= end && (end - current) % blockSize == 0
    ensures var n := SegmentLength(current, end, blockSize, share, last);
            n <= end - current && n % blockSize == 0 &&
            (end - (current + n)) % blockSize == 0 &&
            (last ==> n == end - current) &&
            (n >= share || n == end - current)
  {
    var elements := if current + share > end || last then end - current else share;
    PaddingRoundsUp(elements, blockSize, end - current);
    if elements == end - current {
      assert Padding(elements, blockSize) == 0;
    }
    ModSub(end - current, SegmentLength(current, end, blockSize, share, last), blockSize);
  }

  /** The difference of two multiples of b is a multiple of b. */
  lemma ModSub(a: nat, c: nat, b: nat)
    requires b > 0 && c <= a && a % b == 0 && c % b == 0
    ensures (a - c) % b == 0
  {
    DivMod(a, b);
    DivMod(c, b);
    var qa, qc := a / b, c / b;
    MulMono(qc, qa, b);
    if qc > qa {
      MulMono(qa + 1, qc, b);
      MulSucc(qa, b);
      assert false;
    }
    MulDistrib(qa - qc, qc, b);
    DivModUnique(a - c, qa - qc, 0, b);
  }

  /** The segments of devices i, i + 1, ..., when device i starts at current. */
  function SegmentsFrom(end: nat, blockSize: nat, shares: seq<nat>, i: nat, current: nat): (segs: seq<Segment>)
    requires blockSize > 0 && current <= end && (end - current) % blockSize == 0
    ensures |segs| == if i >= |shares| then 0 else |shares| - i
    decreases |shares| - i
  {
    if i >= |shares| then []
    else
      var n := SegmentLength(current, end, blockSize, shares[i], i == |shares| - 1);
      SegmentLengthFits(current, end, blockSize, shares[i], i == |shares| - 1);
      [Segment(current, current + n)] + SegmentsFrom(end, blockSize, shares, i + 1, current + n)
  }

  /** What getPartitionSegments computes: an error, or one segment per device. */
  function PartitionSegments(start: nat, end: nat, blockSize: nat, shares: seq<nat>): (r: Result)
    requires start <= end
  {
    if blockSize == 0 then Err(BlockSizeZero)
    else if (end - start) % blockSize != 0 then Err(TotalSizeNotDivisible)
    else Segments(SegmentsFrom(end, blockSize, shares, 0, start))
  }

  datatype Result = Segments(segments: seq<Segment>) | Err(error: PartitionError)

  /** The segments tile [current, end): contiguous, in whole blocks, never past end, the last one ending at end. */
  predicate Tiles(segments: seq<Segment>, current: nat, end: nat, blockSize: nat)
    requires blockSize > 0
  {
    (|segments| > 0 ==> segments[0].start == current && segments[|segments| - 1].end == end) &&
    (forall k :: 0 <= k < |segments| - 1 ==> segments[k].end == segments[k + 1].start) &&
    (forall k :: 0 <= k < |segments| ==> WholeBlocksWithin(segments[k], current, end, blockSize))
  }

  /** A segment inside [current, end] made of whole blocks. */
  predicate WholeBlocksWithin(segment: Segment, current: nat, end: nat, blockSize: nat)
    requires blockSize > 0
  {
    current <= segment.start <= segment.end <= end && (segment.end - segment.start) % blockSize == 0
  }

  /** One step of SegmentsFrom: device i gets [current, current + n), the rest start at current + n. */
  lemma SegmentsFromStep(end: nat, blockSize: nat, shares: seq<nat>, i: nat, current: nat)
    requires blockSize > 0 && current <= end && (end - current) % blockSize == 0 && i < |shares|
    ensures var n := SegmentLength(current, end, blockSize, shares[i], i == |shares| - 1);
            var segs := SegmentsFrom(end, blockSize, shares, i, current);
            current + n <= end && (end - (current + n)) % blockSize == 0 &&
            |segs| > 0 && segs[0] == Segment(current, current + n) &&
            segs[1..] == SegmentsFrom(end, blockSize, shares, i + 1, current + n)
  {
    var n := SegmentLength(current, end, blockSize, shares[i], i == |shares| - 1);
    SegmentLengthFits(current, end, blockSize, shares[i], i == |shares| - 1);
    var rest := SegmentsFrom(end, blockSize, shares, i + 1, current + n);
    assert SegmentsFrom(end, blockSize, shares, i, current) == [Segment(current, current + n)] + rest;
  }

  /** Segment k of the devices from i on lies in [current, end], is whole blocks, and gets its share unless it reaches end. */
  lemma {:induction false} SegmentWithin(end: nat, blockSize: nat, shares: seq<nat>, i: nat, current: nat, k: nat)
    requires blockSize > 0 && current <= end && (end - current) % blockSize == 0 && i + k < |shares|
    ensures var segs := SegmentsFrom(end, blockSize, shares, i, current);
            k < |segs| && WholeBlocksWithin(segs[k], current, end, blockSize) &&
            (segs[k].end - segs[k].start >= shares[i + k] || segs[k].end == end) &&
            (i + k == |shares| - 1 ==> segs[k].end == end)
    decreases k
  {
    var segs := SegmentsFrom(end, blockSize, shares, i, current);
    var n := SegmentLength(current, end, blockSize, shares[i], i == |shares| - 1);
    SegmentsFromStep(end, blockSize, shares, i, current);
    if k == 0 {
      SegmentLengthFits(current, end, blockSize, shares[i], i == |shares| - 1);
      assert segs[0] == Segment(current, current + n);
    } else {
      var rest := segs[1..];
      SegmentWithin(end, blockSize, shares, i + 1, current + n, k - 1);
      assert segs[k] == rest[k - 1];
      assert WholeBlocksWithin(rest[k - 1], current + n, end, blockSize);
    }
  }

  /** Segment k ends where segment k + 1 starts. */
  lemma {:induction false} SegmentsMeet(end: nat, blockSize: nat, shares: seq<nat>, i: nat, current: nat, k: nat)
    requires blockSize > 0 && current <= end && (end - current) % blockSize == 0 && i + k + 1 < |shares|
    ensures var segs := SegmentsFrom(end, blockSize, shares, i, current);
            k + 1 < |segs| && segs[k].end == segs[k + 1].start
    decreases k
  {
    var segs := SegmentsFrom(end, blockSize, shares, i, current);
    var n := SegmentLength(current, end, blockSize, shares[i], i == |shares| - 1);
    SegmentsFromStep(end, blockSize, shares, i, current);
    SegmentsFromStep(end, blockSize, shares, i + 1, current + n);
    if k == 0 {
      assert segs[1] == segs[1..][0];
    } else {
      SegmentsMeet(end, blockSize, shares, i + 1, current + n, k - 1);
      assert segs[k] == segs[1..][k - 1] && segs[k + 1] == segs[1..][k];
    }
  }

  /** The segments of all devices tile [current, end), one per device, each with its share unless it reaches end. */
  lemma {:induction false} SegmentsFromTile(end: nat, blockSize: nat, shares: seq<nat>, current: nat)
    requires blockSize > 0 && current <= end && (end - current) % blockSize == 0
    ensures |SegmentsFrom(end, blockSize, shares, 0, current)| == |shares|
    ensures Tiles(SegmentsFrom(end, blockSize, shares, 0, current), current, end, blockSize)
    ensures var segs := SegmentsFrom(end, blockSize, shares, 0, current);
            forall k :: 0 <= k < |segs| ==>
              segs[k].end - segs[k].start >= shares[k] || segs[k].end == end
  {
    var segs := SegmentsFrom(end, blockSize, shares, 0, current);
    if |shares| > 0 {
      SegmentsFromStep(end, blockSize, shares, 0, current);
    }
    forall k | 0 <= k < |segs|
      ensures WholeBlocksWithin(segs[k], current, end, blockSize)
      ensures segs[k].end - segs[k].start >= shares[k] || segs[k].end == end
      ensures k == |segs| - 1 ==> segs[k].end == end
    {
      SegmentWithin(end, blockSize, shares, 0, current, k);
    }
    forall k | 0 <= k < |segs| - 1
      ensures segs[k].end == segs[k + 1].start
    {
      SegmentsMeet(end, blockSize, shares, 0, current, k);
    }
  }


  /**
   * getPartitionSegments fails exactly on a zero block size or a range that
   * is not a whole number of blocks; otherwise every device gets a segment,
   * the segments tile [start, end) in whole blocks, and a device receives at
   * least its share unless its segment runs to end.
   */
  lemma PartitionSegmentsCorrect(start: nat, end: nat, blockSize: nat, shares: seq<nat>)
    requires start <= end
    ensures PartitionSegments(start, end, blockSize, shares).Err? <==>
              blockSize == 0 || (end - start) % blockSize != 0
    ensures blockSize == 0 ==> PartitionSegments(start, end, blockSize, shares) == Err(BlockSizeZero)
    ensures blockSize > 0 && (end - start) % blockSize != 0 ==>
              PartitionSegments(start, end, blockSize, shares) == Err(TotalSizeNotDivisible)
    ensures PartitionSegments(start, end, blockSize, shares).Segments? ==>
              var segs := PartitionSegments(start, end, blockSize, shares).segments;
              |segs| == |shares| && Tiles(segs, start, end, blockSize) &&
              forall k :: 0 <= k < |segs| ==> segs[k].end - segs[k].start >= shares[k] || segs[k].end == end
  {
    if blockSize > 0 && (end - start) % blockSize == 0 {
      SegmentsFromTile(end, blockSize, shares, start);
    }
  }

  /** The length of one device's segment: its share, clipped to what is left, padded to whole blocks. */
  method PartitionElements(currentStartIndex: nat, end: nat, blockSize: nat, share: nat, last: bool)
    returns (partitionElements: nat)
    requires blockSize > 0 && currentStartIndex <= end
    ensures partitionElements == SegmentLength(currentStartIndex, end, blockSize, share, last)
  {
    partitionElements := share;
    if currentStartIndex + partitionElements > end || last {
      partitionElements := end - currentStartIndex;
    }
    var remainder := partitionElements % blockSize;
    var padding := 0;
    if remainder != 0 {
      padding := blockSize - remainder;
    }
    partitionElements := partitionElements + padding;
  }

  /**
   * getPartitionSegments: shares[i] stands for the share of device i and
   * |shares| for the number of devices; the segments are written to
   * segmentStart and segmentEnd.  A thrown exception is returned as a
   * Failure, before anything is written.
   */
  method GetPartitionSegments(start: nat, end: nat, blockSize: nat, shares: seq<nat>,
                              segmentStart: array<nat>, segmentEnd: array<nat>)
    returns (outcome: Outcome)
    requires start <= end
    requires segmentStart.Length >= |shares| && segmentEnd.Length >= |shares| && segmentStart != segmentEnd
    modifies segmentStart, segmentEnd
    ensures var r := PartitionSegments(start, end, blockSize, shares);
            match r
            case Err(e) => outcome == Failure(e) && unchanged(segmentStart) && unchanged(segmentEnd)
            case Segments(segs) =>
              outcome == Ok &&
              (forall i :: 0 <= i < |shares| ==> segmentStart[i] == segs[i].start && segmentEnd[i] == segs[i].end) &&
              (forall j :: |shares| <= j < segmentStart.Length ==> segmentStart[j] == old(segmentStart[j])) &&
              (forall j :: |shares| <= j < segmentEnd.Length ==> segmentEnd[j] == old(segmentEnd[j]))
  {
    var totalSize := end - start;
    if blockSize == 0 {
      return Failure(BlockSizeZero);
    }
    if totalSize % blockSize != 0 {
      return Failure(TotalSizeNotDivisible);
    }
    ghost var segs := SegmentsFrom(end, blockSize, shares, 0, start);
    assert PartitionSegments(start, end, blockSize, shares) == Segments(segs);
    var currentStartIndex: nat := start;
    var i := 0;
    while i < |shares|
      invariant i <= |shares| && currentStartIndex <= end && (end - currentStartIndex) % blockSize == 0
      invariant SegmentsFrom(end, blockSize, shares, i, currentStartIndex) == segs[i..]
      invariant forall j :: 0 <= j < i ==> segmentStart[j] == segs[j].start && segmentEnd[j] == segs[j].end
      invariant forall j :: |shares| <= j < segmentStart.Length ==> segmentStart[j] == old(segmentStart[j])
      invariant forall j :: |shares| <= j < segmentEnd.Length ==> segmentEnd[j] == old(segmentEnd[j])
    {
      var partitionElements := PartitionElements(currentStartIndex, end, blockSize, shares[i], i == |shares| - 1);
      SegmentsFromStep(end, blockSize, shares, i, currentStartIndex);
      ghost var seg := segs[i..][0];
      assert segs[i + 1..] == segs[i..][1..];
      assert seg == Segment(currentStartIndex, currentStartIndex + partitionElements);
      segmentStart[i] := currentStartIndex;
      segmentEnd[i] := currentStartIndex + partitionElements;
      currentStartIndex := currentStartIndex + partitionElements;
      i := i + 1;
    }
    return Ok;
  }
}
