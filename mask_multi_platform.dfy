/**
 * The host-side preparation of the streaming multi-device evaluation of
 * modified-linear sparse grids with sign masks: the dataset is padded to a
 * whole number of work blocks plus one spare block, and the grid storage is
 * converted into four flat arrays (level, index, mask, offset) holding one
 * entry per (grid point, dimension), padded the same way.  The floating-point
 * entries are modelled as integers and the sign-bit mask as a boolean.
 */
module MaskMultiPlatform {
  import opened MixedRadix
  import DevicePartition

  /** The kernel settings of one device that the padding depends on. */
  datatype KernelConfiguration = KernelConfiguration(dataBlockSize: nat, transGridBlockSize: nat, localSize: nat)

  /** The level and index of a grid point in one dimension. */
  datatype LevelIndex = LevelIndex(level: nat, index: nat)

  /** One (point, dimension) entry of the four arrays; mask is the sign bit. */
  datatype Encoded = Encoded(level: int, index: int, mask: bool, offset: int)

  function Max(a: nat, b: nat): nat
  {
    if a < b then b else a
  }

  /** The common padding: 1, raised to every requirement in turn. */
  function CommonPadding(requirements: seq<nat>): (p: nat)
    ensures p >= 1
  {
    if |requirements| == 0 then 1
    else Max(CommonPadding(requirements[..|requirements| - 1]), requirements[|requirements| - 1])
  }

  /** The common padding is at least 1 and every requirement, and is 1 or one of them. */
  lemma {:induction false} CommonPaddingIsMaximum(requirements: seq<nat>)
    ensures CommonPadding(requirements) >= 1
    ensures forall k :: 0 <= k < |requirements| ==> requirements[k] <= CommonPadding(requirements)
    ensures CommonPadding(requirements) == 1 ||
            exists k :: 0 <= k < |requirements| && requirements[k] == CommonPadding(requirements)
    decreases |requirements|
  {
    if |requirements| > 0 {
      var n := |requirements| - 1;
      var front := requirements[..n];
      CommonPaddingIsMaximum(front);
      assert forall k :: 0 <= k < n ==> front[k] == requirements[k];
      if CommonPadding(front) != 1 && CommonPadding(front) >= requirements[n] {
        var k :| 0 <= k < n && front[k] == CommonPadding(front);
        assert requirements[k] == CommonPadding(requirements);
      }
    }
  }

  /** The data-block requirement of each device: data block size times local size. */
  function DataRequirements(devices: seq<KernelConfiguration>): (r: seq<nat>)
    ensures |r| == |devices|
  {
    seq(|devices|, k requires 0 <= k < |devices| => devices[k].dataBlockSize * devices[k].localSize)
  }

  /** The grid-block requirement of each device: transposed grid block size times local size. */
  function GridRequirements(devices: seq<KernelConfiguration>): (r: seq<nat>)
    ensures |r| == |devices|
  {
    seq(|devices|, k requires 0 <= k < |devices| => devices[k].transGridBlockSize * devices[k].localSize)
  }

  /** A grid point coordinate of a modified-linear grid: level at least 1, odd index below 2^level. */
  predicate ValidLevelIndex(li: LevelIndex)
  {
    li.level >= 1 && li.index % 2 == 1 && li.index < Pow2(li.level)
  }

  /**
   * The encoding of one coordinate, by the four cases in the order the source
   * distinguishes them: level 1 (constant), index 1 (left boundary-adjacent), index
   * 2^level - 1 (right boundary-adjacent), and the interior hat, the only one
   * with the sign mask.
   */
  function Encode(li: LevelIndex): (e: Encoded)
  {
    if li.level == 1 then Encoded(0, 0, false, 1)
    else if li.index == 1 then Encoded(-(Pow2(li.level) as int), 0, false, 2)
    else if li.index == Pow2(li.level) - 1 then Encoded(Pow2(li.level), li.index, false, 1)
    else Encoded(Pow2(li.level), li.index, true, 1)
  }

  /**
   * What the four entries of a coordinate say: the level entry is 0 only for
   * the constant hat and 2^level up to sign otherwise, it is negative exactly
   * on the mirrored left boundary-adjacent hat (offset 2), and the sign mask
   * is set only on an interior hat.
   */
  lemma EncodeShape(li: LevelIndex)
    ensures var e := Encode(li);
            (e.level == 0 <==> li.level == 1) &&
            (li.level != 1 ==> e.level == Pow2(li.level) || e.level == -(Pow2(li.level) as int)) &&
            (e.level < 0 <==> e.offset == 2) &&
            (e.mask ==> e.level > 0 && e.index == li.index && e.offset == 1)
  {
  }

  /** The entry written for padding points. */
  const Neutral := Encoded(0, 0, false, 1)

  /** The base-2 logarithm, rounded down (0 for arguments up to 1). */
  function Log2(x: int): nat
    decreases x
  {
    if x <= 1 then 0 else 1 + Log2(x / 2)
  }

  lemma {:induction false} Log2Pow2(l: nat)
    ensures Log2(Pow2(l)) == l
  {
    if l > 0 {
      Log2Pow2(l - 1);
      assert Pow2(l) / 2 == Pow2(l - 1);
    }
  }

  /** Reads a level and index back from an encoded entry. */
  function Decode(e: Encoded): (li: LevelIndex)
  {
    if e.offset == 2 then LevelIndex(Log2(-e.level), 1)
    else if e.level == 0 then LevelIndex(1, 1)
    else LevelIndex(Log2(e.level), if e.index < 0 then 0 else e.index)
  }

  /** The encoding loses nothing: every valid coordinate is read back from its entry. */
  lemma EncodeDecode(li: LevelIndex)
    requires ValidLevelIndex(li)
    ensures Decode(Encode(li)) == li
  {
    var e := Encode(li);
    var P := Pow2(li.level);
    if li.level == 1 {
      assert P == 2 * Pow2(0) == 2;
      assert li.index == 1;
      assert e == Encoded(0, 0, false, 1);
    } else {
      Log2Pow2(li.level);
      if li.index == 1 {
        assert e == Encoded(-(P as int), 0, false, 2);
        assert Log2(-e.level) == li.level;
      } else {
        assert e.level == P && e.index == li.index && e.offset == 1;
        assert Log2(e.level) == li.level;
      }
    }
  }

  /** Different valid coordinates get different entries. */
  lemma EncodeInjective(a: LevelIndex, b: LevelIndex)
    requires ValidLevelIndex(a) && ValidLevelIndex(b) && Encode(a) == Encode(b)
    ensures a == b
  {
    EncodeDecode(a);
    EncodeDecode(b);
  }

  /** n rounded up to a multiple of p, plus one more block p; oldSize % p is taken first. */
  lemma PaddedDatasetSize(n: nat, p: nat)
    requires p >= 1
    ensures var padded := n + p - n % p;
            padded % p == 0 && n < padded <= n + p
  {
    DivMod(n, p);
    var q := n / p;
    MulSucc(q, p);
    assert n + p - n % p == (q + 1) * p;
    DivModUnique((q + 1) * p, q + 1, 0, p);
  }

  /** The flat position of (point, dimension) in the four arrays. */
  function Slot(point: nat, dim: nat, dims: nat): nat
  {
    point * dims + dim
  }

  lemma SlotBound(point: nat, dim: nat, dims: nat, points: nat)
    requires point < points && dim < dims
    ensures Slot(point, dim, dims) < points * dims
  {
    MulSucc(point, dims);
    MulMono(point + 1, points, dims);
  }

  lemma SlotInjective(p: nat, d: nat, q: nat, e: nat, dims: nat)
    requires d < dims && e < dims && Slot(p, d, dims) == Slot(q, e, dims)
    ensures p == q && d == e
  {
    DivModUnique(Slot(p, d, dims), p, d, dims);
    DivModUnique(Slot(q, e, dims), q, e, dims);
  }

  /** The preparation state of the streaming operation. */
  class StreamingModMaskOperation {
    const dims: nat
    const devices: seq<KernelConfiguration>
    /** The grid points, each with one (level, index) per dimension. */
    const storage: seq<seq<LevelIndex>>
    var preparedDataset: seq<seq<real>>
    var datasetSizeUnpadded: nat
    var datasetSizePadded: nat
    var datasetSizeBuffers: nat
    var level: seq<int>
    var index: seq<int>
    var mask: seq<bool>
    var offset: seq<int>
    var gridSizeUnpadded: nat
    var gridSizePadded: nat
    var gridSizeBuffers: nat
    var overallGridBlockingSize: nat
    var overallDataBlockingSize: nat

    ghost predicate Valid()
      reads this
    {
      overallGridBlockingSize >= 1 &&
      forall p :: 0 <= p < |storage| ==> |storage[p]| == dims
    }

    /** The entry that (point, dim) must hold: its encoding, or Neutral past the grid. */
    function Entry(point: nat, dim: nat): Encoded
      requires point < |storage| ==> dim < |storage[point]|
    {
      if point < |storage| then Encode(storage[point][dim]) else Neutral
    }

    ghost predicate ArraysSized(size: nat)
      reads this
    {
      |level| == size && |index| == size && |mask| == size && |offset| == size
    }

    /** The four array entries at a flat position. */
    function Cell(j: nat): Encoded
      reads this
      requires j < |level| && j < |index| && j < |mask| && j < |offset|
    {
      Encoded(level[j], index[j], mask[j], offset[j])
    }

    /** All points below points hold their entries in every dimension. */
    ghost predicate FilledBelow(points: nat)
      reads this
      requires Valid()
    {
      ArraysSized(gridSizeBuffers * dims) && points <= gridSizeBuffers &&
      forall p, d :: 0 <= p < points && 0 <= d < dims ==>
        Slot(p, d, dims) < gridSizeBuffers * dims && Cell(Slot(p, d, dims)) == Entry(p, d)
    }

    /** calculateCommonDatasetPadding: the largest data-block requirement, at least 1. */
    method CalculateCommonDatasetPadding() returns (padding: nat)
      ensures padding == CommonPadding(DataRequirements(devices))
    {
      var requirements := DataRequirements(devices);
      padding := 1;
      var k := 0;
      while k < |devices|
        invariant k <= |devices|
        invariant padding == CommonPadding(requirements[..k])
      {
        assert requirements[..k + 1][..k] == requirements[..k];
        padding := Max(padding, devices[k].dataBlockSize * devices[k].localSize);
        k := k + 1;
      }
      assert requirements[..k] == requirements;
    }

    /** calculateCommonGridPadding: the largest grid-block requirement, at least 1. */
    method CalculateCommonGridPadding() returns (padding: nat)
      ensures padding == CommonPadding(GridRequirements(devices))
    {
      var requirements := GridRequirements(devices);
      padding := 1;
      var k := 0;
      while k < |devices|
        invariant k <= |devices|
        invariant padding == CommonPadding(requirements[..k])
      {
        assert requirements[..k + 1][..k] == requirements[..k];
        padding := Max(padding, devices[k].transGridBlockSize * devices[k].localSize);
        k := k + 1;
      }
      assert requirements[..k] == requirements;
    }

    /**
     * padDataset: rounds the row count up to a multiple of the common data
     * padding p (a whole extra block when it already is one), adds one more
     * block for irregular schedules, and fills every new row with a copy of
     * the old last row.
     */
    method PadDataset()
      requires |preparedDataset| >= 1
      modifies this`preparedDataset, this`datasetSizePadded, this`datasetSizeBuffers
      ensures var p := CommonPadding(DataRequirements(devices));
              var n := |old(preparedDataset)|;
              datasetSizePadded % p == 0 && n < datasetSizePadded <= n + p &&
              datasetSizeBuffers == datasetSizePadded + p &&
              |preparedDataset| == datasetSizeBuffers &&
              preparedDataset[..n] == old(preparedDataset) &&
              forall k :: n <= k < |preparedDataset| ==> preparedDataset[k] == old(preparedDataset)[n - 1]
    {
      var oldSize := |preparedDataset|;
      var commonDatasetPadding := CalculateCommonDatasetPadding();
      CommonPaddingIsMaximum(DataRequirements(devices));
      var remainder := oldSize % commonDatasetPadding;
      var padding := commonDatasetPadding - remainder + commonDatasetPadding;
      var lastRow := preparedDataset[oldSize - 1];
      ghost var original := preparedDataset;
      preparedDataset := preparedDataset + seq(padding, _ => seq(|lastRow|, _ => 0.0));
      var i := 0;
      while i < padding
        invariant i <= padding
        invariant |preparedDataset| == oldSize + padding
        invariant preparedDataset[..oldSize] == original
        invariant forall k :: oldSize <= k < oldSize + i ==> preparedDataset[k] == lastRow
      {
        preparedDataset := preparedDataset[oldSize + i := lastRow];
        assert preparedDataset[..oldSize] == original[..oldSize];
        i := i + 1;
      }
      datasetSizePadded := oldSize + commonDatasetPadding - remainder;
      datasetSizeBuffers := oldSize + commonDatasetPadding - remainder + commonDatasetPadding;
      PaddedDatasetSize(oldSize, commonDatasetPadding);
    }

    /** Writes one entry into the four arrays, leaving every other position alone. */
    method SetCell(j: nat, e: Encoded)
      requires j < |level| && j < |index| && j < |mask| && j < |offset|
      modifies this`level, this`index, this`mask, this`offset
      ensures |level| == old(|level|) && |index| == old(|index|)
      ensures |mask| == old(|mask|) && |offset| == old(|offset|)
      ensures Cell(j) == e
      ensures forall k :: 0 <= k < |level| && k != j ==> level[k] == old(level[k])
      ensures forall k :: 0 <= k < |index| && k != j ==> index[k] == old(index[k])
      ensures forall k :: 0 <= k < |mask| && k != j ==> mask[k] == old(mask[k])
      ensures forall k :: 0 <= k < |offset| && k != j ==> offset[k] == old(offset[k])
    {
      level := level[j := e.level];
      index := index[j := e.index];
      mask := mask[j := e.mask];
      offset := offset[j := e.offset];
    }

    /** The inner loop over dimensions: point i gets its entries, all else stays. */
    method FillPoint(i: nat)
      requires Valid() && FilledBelow(i) && i < gridSizeBuffers
      modifies this`level, this`index, this`mask, this`offset
      ensures Valid() && FilledBelow(i + 1)
      ensures forall j :: 0 <= j < |level| && (j < Slot(i, 0, dims) || Slot(i, 0, dims) + dims <= j) ==>
                Cell(j) == old(Cell(j))
    {
      var dim := 0;
      while dim < dims
        invariant dim <= dims
        invariant FilledBelow(i)
        invariant forall d :: 0 <= d < dim ==>
          Slot(i, d, dims) < gridSizeBuffers * dims && Cell(Slot(i, d, dims)) == Entry(i, d)
        invariant forall j :: 0 <= j < |level| && (j < Slot(i, 0, dims) || Slot(i, 0, dims) + dims <= j) ==>
          Cell(j) == old(Cell(j))
      {
        SlotBound(i, dim, dims, gridSizeBuffers);
        var j := Slot(i, dim, dims);
        var e := if i < |storage| then Encode(storage[i][dim]) else Neutral;
        ghost var before := (level, index, mask, offset);
        SetCell(j, e);
        forall p, d | 0 <= p < i && 0 <= d < dims
          ensures Cell(Slot(p, d, dims)) == Entry(p, d)
        {
          if Slot(p, d, dims) == j {
            SlotInjective(p, d, i, dim, dims);
          }
        }
        dim := dim + 1;
      }
    }

    /**
     * recalculateLevelIndexMask: the grid size is rounded up to a multiple of
     * the common grid padding b and one spare block is added; the four arrays
     * get one entry per (point, dimension) of that size, holding the encoding
     * of every grid point and Neutral for every padding point.
     */
    method RecalculateLevelIndexMask()
      requires Valid()
      modifies this`gridSizePadded, this`gridSizeBuffers, this`level, this`index, this`mask, this`offset
      ensures Valid()
      ensures var b := overallGridBlockingSize;
              gridSizePadded % b == 0 && |storage| <= gridSizePadded < |storage| + b &&
              gridSizeBuffers == gridSizePadded + b
      ensures ArraysSized(gridSizeBuffers * dims)
      ensures forall p, d :: 0 <= p < gridSizeBuffers && 0 <= d < dims ==>
        Slot(p, d, dims) < gridSizeBuffers * dims && Cell(Slot(p, d, dims)) == Entry(p, d)
    {
      var remainder := |storage| % overallGridBlockingSize;
      var padding := 0;
      if remainder != 0 {
        padding := overallGridBlockingSize - remainder;
      }
      assert padding == DevicePartition.Padding(|storage|, overallGridBlockingSize);
      DevicePartition.PaddingRoundsUp(|storage|, overallGridBlockingSize, 0);
      gridSizePadded := |storage| + padding;
      gridSizeBuffers := |storage| + padding + overallGridBlockingSize;
      var size := gridSizeBuffers * dims;
      level := seq(size, _ => 0);
      index := seq(size, _ => 0);
      mask := seq(size, _ => false);
      offset := seq(size, _ => 0);
      var i := 0;
      while i < |storage|
        invariant i <= |storage|
        invariant gridSizePadded == |storage| + padding
        invariant gridSizeBuffers == gridSizePadded + overallGridBlockingSize
        invariant Valid() && FilledBelow(i)
      {
        FillPoint(i);
        i := i + 1;
      }
      while i < gridSizeBuffers
        invariant |storage| <= i <= gridSizeBuffers
        invariant gridSizePadded == |storage| + padding
        invariant gridSizeBuffers == gridSizePadded + overallGridBlockingSize
        invariant Valid() && FilledBelow(i)
      {
        FillPoint(i);
        i := i + 1;
      }
    }

    /**
     * The constructor: records the unpadded sizes, pads the dataset, takes
     * the common paddings over the devices and prepares the grid arrays.
     */
    constructor (dataset: seq<seq<real>>, storage: seq<seq<LevelIndex>>, devices: seq<KernelConfiguration>)
      requires |dataset| >= 1
      requires forall p :: 0 <= p < |storage| ==> |storage[p]| == |dataset[0]|
      ensures Valid()
      ensures this.dims == |dataset[0]| && this.storage == storage && this.devices == devices
      ensures datasetSizeUnpadded == |dataset| && gridSizeUnpadded == |storage|
      ensures overallDataBlockingSize == CommonPadding(DataRequirements(devices))
      ensures overallGridBlockingSize == CommonPadding(GridRequirements(devices))
      ensures var p := overallDataBlockingSize;
              datasetSizePadded % p == 0 && |dataset| < datasetSizePadded <= |dataset| + p &&
              datasetSizeBuffers == datasetSizePadded + p &&
              |preparedDataset| == datasetSizeBuffers && preparedDataset[..|dataset|] == dataset &&
              forall k :: |dataset| <= k < |preparedDataset| ==> preparedDataset[k] == dataset[|dataset| - 1]
      ensures var b := overallGridBlockingSize;
              gridSizePadded % b == 0 && |storage| <= gridSizePadded < |storage| + b &&
              gridSizeBuffers == gridSizePadded + b
      ensures ArraysSized(gridSizeBuffers * dims)
      ensures forall p, d :: 0 <= p < gridSizeBuffers && 0 <= d < dims ==>
        Slot(p, d, dims) < gridSizeBuffers * dims && Cell(Slot(p, d, dims)) == Entry(p, d)
    {
      this.dims := |dataset[0]|;
      this.devices := devices;
      this.storage := storage;
      preparedDataset := dataset;
      gridSizeUnpadded := |storage|;
      gridSizePadded := 0;
      gridSizeBuffers := 0;
      datasetSizeUnpadded := |dataset|;
      datasetSizePadded := 0;
      datasetSizeBuffers := 0;
      level, index, mask, offset := [], [], [], [];
      overallGridBlockingSize, overallDataBlockingSize := 1, 1;
      new;
      PadDataset();
      overallGridBlockingSize := CalculateCommonGridPadding();
      overallDataBlockingSize := CalculateCommonDatasetPadding();
      CommonPaddingIsMaximum(GridRequirements(devices));
      RecalculateLevelIndexMask();
    }
  }
}
