/**
 * Geometry-aware interaction sets of the data-driven grid factory.  An image
 * is a stack of layers; layer l has extents dim[l] (first coordinate
 * fastest), its pixels are numbered consecutively after those of the earlier
 * layers, and a stencil turns neighbouring pixels into interaction terms:
 * sets of pixel numbers.  The generators insert into a set of such sets.
 *
 * Image extents are int64_t in the original; only non-negative extents
 * describe an image, so they are naturals here.  A colour index of -1 means
 * "no colour dimension"; getNextPosition receives it as a size_t, where -1
 * is the largest value and therefore never equals a coordinate number.
 */
module GridFactory {
  import opened MixedRadix
  import opened BitSubsets

  datatype StencilType = DirectNeighbour | NextHierarchicalParent | AllHierarchicalParent | NoStencil

  datatype StencilConfiguration = StencilConfiguration(
    stencilType: StencilType, colorIndex: int, applyOnLayers: seq<nat>)

  datatype GeometryConfiguration = GeometryConfiguration(
    dim: seq<seq<nat>>, stencils: seq<StencilConfiguration>)

  type Interactions = set<set<nat>>

  // ---------------------------------------------------------------------
  // Strides, offsets and the data index
  // ---------------------------------------------------------------------

  /** The multiplicators of one layer: 1 followed by the running products of its extents. */
  function Multiplicators(d: seq<nat>): seq<nat>
  {
    if |d| == 0 then [1] else seq(|d|, i requires 0 <= i < |d| => Stride(d, i))
  }

  /** Multiplicators(d)[i] is the product of the extents before coordinate i; the first is 1. */
  lemma MultiplicatorsAreStrides(d: seq<nat>)
    ensures |Multiplicators(d)| == if |d| == 0 then 1 else |d|
    ensures Multiplicators(d)[0] == 1
    ensures forall i :: 0 < i < |d| ==> Multiplicators(d)[i] == Multiplicators(d)[i - 1] * d[i - 1]
  {
    forall i | 0 < i < |d|
      ensures Multiplicators(d)[i] == Multiplicators(d)[i - 1] * d[i - 1]
    {
      ProdPrefixStep(d, i - 1);
    }
  }

  /** getMultiplicatorsPerLevel: the multiplicators of every layer. */
  method GetMultiplicatorsPerLevel(imageDimensions: seq<seq<nat>>)
    returns (multiplicatorsPerLevel: seq<seq<nat>>)
    ensures |multiplicatorsPerLevel| == |imageDimensions|
    ensures forall l :: 0 <= l < |imageDimensions| ==>
              multiplicatorsPerLevel[l] == Multiplicators(imageDimensions[l])
  {
    multiplicatorsPerLevel := [];
    var l := 0;
    while l < |imageDimensions|
      invariant l <= |imageDimensions|
      invariant |multiplicatorsPerLevel| == l
      invariant forall l' :: 0 <= l' < l ==> multiplicatorsPerLevel[l'] == Multiplicators(imageDimensions[l'])
    {
      var multiplicators := LayerMultiplicators(imageDimensions[l]);
      multiplicatorsPerLevel := multiplicatorsPerLevel + [multiplicators];
      l := l + 1;
    }
  }

  /** The inner loop of getMultiplicatorsPerLevel: the running products of one layer's extents. */
  method LayerMultiplicators(dimension: seq<nat>) returns (multiplicators: seq<nat>)
    ensures multiplicators == Multiplicators(dimension)
  {
    multiplicators := [1];
    var i := 1;
    while i < |dimension|
      invariant 1 <= i && (i <= |dimension| || i == 1)
      invariant |multiplicators| == i
      invariant forall k :: 0 <= k < i && k <= |dimension| ==> multiplicators[k] == Stride(dimension, k)
    {
      ProdPrefixStep(dimension, i - 1);
      multiplicators := multiplicators + [multiplicators[i - 1] * dimension[i - 1]];
      i := i + 1;
    }
    if |dimension| == 0 {
      assert multiplicators == [1];
    } else {
      assert |multiplicators| == |dimension|;
    }
  }

  /** The first pixel number of layer l: the pixels of all earlier layers come first. */
  function LayerOffset(dims: seq<seq<nat>>, l: nat): nat
    requires l <= |dims|
  {
    if l == 0 then 0 else LayerOffset(dims, l - 1) + Prod(dims[l - 1])
  }

  /** The number of pixels of a layer is its last multiplicator times its last extent. */
  lemma CellCount(d: seq<nat>, m: seq<nat>)
    requires |d| >= 1 && m == Multiplicators(d)
    ensures |m| == |d| && m[|m| - 1] * d[|d| - 1] == Prod(d)
  {
  }

  /** The pixel count of a layer, from its last multiplicator and last extent. */
  method LayerCells(d: seq<nat>, m: seq<nat>) returns (cells: nat)
    requires |d| >= 1 && m == Multiplicators(d)
    ensures cells == Prod(d)
  {
    CellCount(d, m);
    cells := m[|m| - 1] * d[|d| - 1];
  }

  /** The offsets of the first n layers. */
  function LayerOffsets(dims: seq<seq<nat>>, n: nat): (r: seq<nat>)
    requires n <= |dims| + 1
    ensures |r| == n && forall l :: 0 <= l < n ==> r[l] == LayerOffset(dims, l)
  {
    if n == 0 then [] else LayerOffsets(dims, n - 1) + [LayerOffset(dims, n - 1)]
  }

  /** The offsets of i + 1 layers extend those of i layers by the offset plus pixel count of layer i - 1. */
  lemma NextLayerOffset(dims: seq<seq<nat>>, i: nat, offsets: seq<nat>, childCells: nat)
    requires 0 < i <= |dims| && offsets == LayerOffsets(dims, i) && childCells == Prod(dims[i - 1])
    ensures offsets + [offsets[i - 1] + childCells] == LayerOffsets(dims, i + 1)
  {
  }

  /**
   * getOffsetPerLevel: 0 for the first layer, then the running sum of the
   * earlier layers' pixel counts.  Reading the last extent of a layer with no
   * coordinates is an out-of-range `at`, which throws; outOfRange reports it.
   */
  method GetOffsetPerLevel(imageDimensions: seq<seq<nat>>, multiplicatorsPerLevel: seq<seq<nat>>)
    returns (offsetsPerLevel: seq<nat>, outOfRange: bool)
    requires |multiplicatorsPerLevel| == |imageDimensions|
    requires forall l :: 0 <= l < |imageDimensions| ==>
               multiplicatorsPerLevel[l] == Multiplicators(imageDimensions[l])
    ensures outOfRange <==> !OffsetsDefined(imageDimensions)
    ensures !outOfRange ==>
              offsetsPerLevel == LayerOffsets(imageDimensions, if |imageDimensions| == 0 then 1 else |imageDimensions|)
  {
    offsetsPerLevel := [0];
    outOfRange := false;
    var i := 1;
    while i < |imageDimensions|
      invariant 1 <= i && (i <= |imageDimensions| || i == 1)
      invariant offsetsPerLevel == LayerOffsets(imageDimensions, i)
      invariant forall l :: 0 <= l < i - 1 ==> |imageDimensions[l]| >= 1
    {
      if |imageDimensions[i - 1]| == 0 {
        outOfRange := true;
        return;
      }
      var childDimensions := imageDimensions[i - 1];
      var childMultiplicator := multiplicatorsPerLevel[i - 1];
      var numberOfDataColumnsInChild := LayerCells(childDimensions, childMultiplicator);
      var childOffset := offsetsPerLevel[i - 1];
      NextLayerOffset(imageDimensions, i, offsetsPerLevel, numberOfDataColumnsInChild);
      offsetsPerLevel := offsetsPerLevel + [childOffset + numberOfDataColumnsInChild];
      i := i + 1;
    }
  }

  /** The layers occupy consecutive, non-overlapping ranges of pixel numbers. */
  lemma {:induction false} LayerOffsetsIncrease(dims: seq<seq<nat>>, l1: nat, l2: nat)
    requires l1 < l2 <= |dims|
    ensures LayerOffset(dims, l1) + Prod(dims[l1]) <= LayerOffset(dims, l2)
    decreases l2
  {
    if l1 < l2 - 1 {
      LayerOffsetsIncrease(dims, l1, l2 - 1);
    }
  }

  /** Sum of multiplicators[i] * position[i] over the first n coordinates. */
  function Dot(multiplicators: seq<nat>, position: seq<nat>, n: nat): nat
    requires n <= |multiplicators| && n <= |position|
  {
    if n == 0 then 0 else Dot(multiplicators, position, n - 1) + multiplicators[n - 1] * position[n - 1]
  }

  /** getDataIndex: the weighted sum of the position's coordinates. */
  method GetDataIndex(numberOfDimensions: nat, multiplicators: seq<nat>, position: seq<nat>)
    returns (index: nat)
    requires numberOfDimensions <= |multiplicators| && numberOfDimensions <= |position|
    ensures index == Dot(multiplicators, position, numberOfDimensions)
  {
    index := 0;
    var i := 0;
    while i < numberOfDimensions
      invariant i <= numberOfDimensions
      invariant index == Dot(multiplicators, position, i)
    {
      index := index + multiplicators[i] * position[i];
      i := i + 1;
    }
  }

  /** With a layer's own multiplicators the data index is the mixed-radix index Flat. */
  lemma {:induction false} DataIndexIsFlat(d: seq<nat>, p: seq<nat>, n: nat)
    requires |p| == |d| && n <= |d|
    ensures Dot(Multiplicators(d), p, n) == Flat(p[..n], d[..n])
    decreases n
  {
    if n > 0 {
      DataIndexIsFlat(d, p, n - 1);
      var m := Multiplicators(d)[n - 1];
      assert m == Prod(d[..n - 1]);
      FlatPrefixStep(p, d, n);
      MulComm(m, p[n - 1]);
    }
  }

  /** The data index of a layer: a bijection from its box of positions onto [0, Prod(d)). */
  lemma DataIndexBijection(d: seq<nat>, p: seq<nat>, q: seq<nat>, k: nat)
    requires InBox(p, d) && InBox(q, d)
    ensures Dot(Multiplicators(d), p, |d|) == Flat(p, d) < Prod(d)
    ensures Dot(Multiplicators(d), p, |d|) == Dot(Multiplicators(d), q, |d|) ==> p == q
    ensures k < Prod(d) ==> InBox(Unflatten(k, d), d) && Dot(Multiplicators(d), Unflatten(k, d), |d|) == k
  {
    DataIndexIsFlat(d, p, |d|);
    DataIndexIsFlat(d, q, |d|);
    assert p[..|d|] == p && q[..|d|] == q && d[..|d|] == d;
    FlatBound(p, d);
    if Flat(p, d) == Flat(q, d) {
      FlatInjective(p, q, d);
    }
    if k < Prod(d) {
      FlatUnflatten(k, d);
      DataIndexIsFlat(d, Unflatten(k, d), |d|);
      assert Unflatten(k, d)[..|d|] == Unflatten(k, d);
    }
  }

  /** Pixel numbers of different layers (offset plus data index) never collide. */
  lemma PixelNumbersDistinct(dims: seq<seq<nat>>, l1: nat, l2: nat, p: seq<nat>, q: seq<nat>)
    requires l1 < |dims| && l2 < |dims|
    requires InBox(p, dims[l1]) && InBox(q, dims[l2])
    requires LayerOffset(dims, l1) + Flat(p, dims[l1]) == LayerOffset(dims, l2) + Flat(q, dims[l2])
    ensures l1 == l2 && p == q
  {
    FlatBound(p, dims[l1]);
    FlatBound(q, dims[l2]);
    if l1 < l2 {
      LayerOffsetsIncrease(dims, l1, l2);
      assert false;
    } else if l2 < l1 {
      LayerOffsetsIncrease(dims, l2, l1);
      assert false;
    }
    FlatInjective(p, q, dims[l1]);
  }

  // ---------------------------------------------------------------------
  // The odometer getNextPosition
  // ---------------------------------------------------------------------

  /**
   * getNextPosition from coordinate i on: skip the colour coordinate; the
   * first other coordinate that can grow grows and the scan stops; a
   * coordinate at its maximum is reset to 0, except the last one, where the
   * whole position is cleared instead (the end of the box).
   */
  function NextPosFrom(dimension: seq<nat>, position: seq<nat>, colorIndex: int, i: nat): (r: seq<nat>)
    requires |position| <= |dimension|
    ensures |r| == |position| || r == []
    decreases |position| - i
  {
    if i >= |position| then position
    else if i == colorIndex then NextPosFrom(dimension, position, colorIndex, i + 1)
    else if position[i] + 1 < dimension[i] then position[i := position[i] + 1]
    else if i == |position| - 1 then []
    else NextPosFrom(dimension, position[i := 0], colorIndex, i + 1)
  }

  function NextPosition(dimension: seq<nat>, position: seq<nat>, colorIndex: int): seq<nat>
    requires |position| <= |dimension|
  {
    NextPosFrom(dimension, position, colorIndex, 0)
  }

  /** getNextPosition, updating the position in place (or clearing it). */
  method GetNextPosition(dimension: seq<nat>, position: seq<nat>, colorIndex: int)
    returns (position': seq<nat>)
    requires |position| <= |dimension|
    ensures position' == NextPosition(dimension, position, colorIndex)
  {
    position' := position;
    var i := 0;
    while i < |position'|
      invariant |position'| <= |dimension|
      invariant position' == [] || i <= |position'|
      invariant NextPosFrom(dimension, position', colorIndex, i) == NextPosition(dimension, position, colorIndex)
      decreases |position'| - i
    {
      if i == colorIndex {
        i := i + 1;
        continue;
      }
      if position'[i] + 1 < dimension[i] {
        position' := position'[i := position'[i] + 1];
        break;
      } else {
        if i == |position'| - 1 {
          position' := [];
        } else {
          position' := position'[i := 0];
        }
      }
      i := i + 1;
    }
  }

  /**
   * Without a skipped coordinate the scan from i finishes adding Stride(d, i)
   * to the position: it stops at the mixed-radix successor of p0, or clears
   * the position when p0 was the last position of the box.
   */
  lemma {:induction false} NextPosFromIsSuccessor(d: seq<nat>, p0: seq<nat>, p: seq<nat>, colorIndex: int, i: nat)
    requires colorIndex < 0
    requires InBox(p0, d) && InBox(p, d) && (i < |p| || i == |p| == 0)
    requires Flat(p0, d) + 1 == Flat(p, d) + Stride(d, i)
    ensures var r := NextPosFrom(d, p, colorIndex, i);
            (r == [] && Flat(p0, d) + 1 == Prod(d)) || (InBox(r, d) && Flat(r, d) == Flat(p0, d) + 1)
    decreases |p| - i
  {
    FlatBound(p0, d);
    if |p| == 0 {
      assert d == [];
    } else if p[i] + 1 < d[i] {
      FlatIncrement(p, d, i);
    } else {
      CarryStep(d, p, i);
      if i == |p| - 1 {
        assert d[..i + 1] == d;
      } else {
        NextPosFromIsSuccessor(d, p0, p[i := 0], colorIndex, i + 1);
      }
    }
  }

  /** With nothing skipped, getNextPosition steps to the position with the next data index, or clears after the last. */
  lemma NextPositionIsSuccessor(d: seq<nat>, p: seq<nat>)
    requires InBox(p, d)
    ensures Flat(p, d) < Prod(d)
    ensures NextPosition(d, p, -1) == if Flat(p, d) + 1 < Prod(d) then Unflatten(Flat(p, d) + 1, d) else []
  {
    FlatBound(p, d);
    NextPosFromIsSuccessor(d, p, p, -1, 0);
    var r := NextPosition(d, p, -1);
    if r != [] {
      FlatBound(r, d);
      UnflattenFlat(r, d);
    }
  }

  /** getNextPosition never changes the skipped coordinate. */
  lemma {:induction false} NextPosFromKeepsColor(d: seq<nat>, p: seq<nat>, colorIndex: nat, i: nat)
    requires |p| <= |d| && colorIndex < |p|
    ensures var r := NextPosFrom(d, p, colorIndex, i); r == [] || r[colorIndex] == p[colorIndex]
    decreases |p| - i
  {
    if i < |p| && i != colorIndex && p[i] + 1 >= d[i] && i != |p| - 1 {
      NextPosFromKeepsColor(d, p[i := 0], colorIndex, i + 1);
    } else if i < |p| && i == colorIndex {
      NextPosFromKeepsColor(d, p, colorIndex, i + 1);
    }
  }

  /**
   * When the last coordinate is the skipped one the position is never
   * cleared, so a loop "while the position is not empty" around it would
   * not terminate; addColorInteractions must not be called that way.
   */
  lemma {:induction false} SkippingLastNeverClears(d: seq<nat>, p: seq<nat>, i: nat)
    requires 1 <= |p| <= |d|
    ensures NextPosFrom(d, p, |p| - 1, i) != []
    decreases |p| - i
  {
    if i < |p| - 1 {
      if p[i] + 1 >= d[i] {
        SkippingLastNeverClears(d, p[i := 0], i + 1);
      }
    } else if i == |p| - 1 {
      SkippingLastNeverClears(d, p, i + 1);
    }
  }

  /**
   * Skipping coordinate c (not the last one) is the plain odometer on the
   * box whose extent c is 1, with coordinate c carried along unchanged.
   */
  lemma {:induction false} SkipIsSlice(d: seq<nat>, p: seq<nat>, c: nat, i: nat)
    requires |p| == |d| && c < |p| - 1
    ensures var r := NextPosFrom(d[c := 1], p[c := 0], -1, i);
            NextPosFrom(d, p, c, i) == if r == [] then [] else r[c := p[c]]
    decreases |p| - i
  {
    var d', p' := d[c := 1], p[c := 0];
    if i < |p| {
      if i == c {
        assert p'[c := 0] == p';
        SkipIsSlice(d, p, c, i + 1);
      } else if p[i] + 1 < d[i] {
        assert p'[i := p'[i] + 1][c := p[c]] == p[i := p[i] + 1];
      } else if i < |p| - 1 {
        assert p'[i := 0] == p[i := 0][c := 0];
        SkipIsSlice(d, p[i := 0], c, i + 1);
      }
    } else {
      assert p'[c := p[c]] == p;
    }
  }

  /** The sequence of positions the do-while loops visit: getNextPosition applied k times. */
  function Iterate(d: seq<nat>, p: seq<nat>, colorIndex: int, k: nat): seq<nat>
    requires |p| <= |d|
    decreases k
  {
    if k == 0 || p == [] then p else Iterate(d, NextPosition(d, p, colorIndex), colorIndex, k - 1)
  }

  /**
   * Starting from all zeros with nothing skipped, step k is the position with
   * data index k, and the position is cleared exactly after Prod(d) steps:
   * every position of the box is visited once, in data-index order.
   */
  lemma {:induction false} OdometerVisitsBox(d: seq<nat>, k: nat)
    requires |d| >= 1 && Prod(d) > 0
    ensures k < Prod(d) ==> Iterate(d, Zeros(|d|), -1, k) == Unflatten(k, d)
    ensures k >= Prod(d) ==> Iterate(d, Zeros(|d|), -1, k) == []
  {
    UnflattenZero(d);
    OdometerFrom(d, 0, k);
  }

  lemma {:induction false} OdometerFrom(d: seq<nat>, j: nat, k: nat)
    requires |d| >= 1 && j < Prod(d)
    ensures j + k < Prod(d) ==> Iterate(d, Unflatten(j, d), -1, k) == Unflatten(j + k, d)
    ensures j + k >= Prod(d) ==> Iterate(d, Unflatten(j, d), -1, k) == []
    decreases k
  {
    if k > 0 {
      var p := Unflatten(j, d);
      NextOfUnflatten(d, j);
      assert Iterate(d, p, -1, k) == Iterate(d, NextPosition(d, p, -1), -1, k - 1);
      if j + 1 < Prod(d) {
        var q := Unflatten(j + 1, d);
        assert NextPosition(d, p, -1) == q;
        OdometerFrom(d, j + 1, k - 1);
        assert j + 1 + (k - 1) == j + k;
      } else {
        assert Iterate(d, [], -1, k - 1) == [];
      }
    }
  }

  /** The odometer step from the position with data index j. */
  lemma NextOfUnflatten(d: seq<nat>, j: nat)
    requires j < Prod(d)
    ensures |d| >= 1 ==> Unflatten(j, d) != []
    ensures NextPosition(d, Unflatten(j, d), -1) == if j + 1 < Prod(d) then Unflatten(j + 1, d) else []
  {
    FlatUnflatten(j, d);
    NextPositionIsSuccessor(d, Unflatten(j, d));
  }

  /** Distinct steps before the end visit distinct positions. */
  lemma OdometerVisitsOnce(d: seq<nat>, k1: nat, k2: nat)
    requires |d| >= 1 && k1 < k2 < Prod(d)
    ensures Iterate(d, Zeros(|d|), -1, k1) != Iterate(d, Zeros(|d|), -1, k2)
  {
    OdometerVisitsBox(d, k1);
    OdometerVisitsBox(d, k2);
    FlatUnflatten(k1, d);
    FlatUnflatten(k2, d);
  }

  /** The all-zero position is the first position of a box without empty extents. */
  lemma ZerosFirst(d: seq<nat>)
    requires PositiveExtents(d)
    ensures Prod(d) > 0 && Unflatten(0, d) == Zeros(|d|)
  {
    ProdPositive(d);
    FlatZeros(Zeros(|d|), d);
    UnflattenFlat(Zeros(|d|), d);
  }

  /** The data index computed with the layer's multiplicators, for a full position. */
  lemma FlatIndex(d: seq<nat>, p: seq<nat>)
    requires |p| == |d|
    ensures Dot(Multiplicators(d), p, |d|) == Flat(p, d)
  {
    DataIndexIsFlat(d, p, |d|);
    assert p[..|d|] == p && d[..|d|] == d;
  }

  // ---------------------------------------------------------------------
  // Interaction generators
  // ---------------------------------------------------------------------

  /** Every extent of the layer is at least 1. */
  predicate PositiveExtents(d: seq<nat>)
  {
    forall k :: 0 <= k < |d| ==> d[k] > 0
  }

  /** addOneDimensionalInteractions: the singleton of every pixel of the layer. */
  function OneDimensional(d: seq<nat>, offset: nat): Interactions
  {
    set i | offset <= i < offset + Prod(d) :: {i}
  }

  /** addOneDimensionalInteractions, inserting into vec. */
  method AddOneDimensionalInteractions(imageDimensions: seq<nat>, offset: nat, vec: Interactions)
    returns (vec': Interactions)
    ensures vec' == vec + OneDimensional(imageDimensions, offset)
  {
    var factor := 1;
    var n := 0;
    while n < |imageDimensions|
      invariant n <= |imageDimensions|
      invariant factor == Prod(imageDimensions[..n])
    {
      ProdPrefixStep(imageDimensions, n);
      factor := factor * imageDimensions[n];
      n := n + 1;
    }
    assert imageDimensions[..n] == imageDimensions;
    vec' := vec;
    var i := offset;
    while i < factor + offset
      invariant offset <= i <= factor + offset
      invariant vec' == vec + set i' | offset <= i' < i :: {i'}
    {
      vec' := vec' + {{i}};
      i := i + 1;
    }
  }

  /** The probe of getDirectNeighbours: pixel p and its successor along axis j. */
  function NeighbourPair(d: seq<nat>, offset: nat, p: seq<nat>, j: nat): set<nat>
    requires |p| == |d| && j < |d|
  {
    {offset + Flat(p, d), offset + Flat(p[j := p[j] + 1], d)}
  }

  /** The pairs inserted at position p: one per axis along which p can still grow. */
  function NeighboursAt(d: seq<nat>, offset: nat, p: seq<nat>): Interactions
    requires |p| == |d|
  {
    set j | 0 <= j < |d| && p[j] + 1 < d[j] :: NeighbourPair(d, offset, p, j)
  }

  /** The pairs of the first k positions in data-index order. */
  function NeighboursUpTo(d: seq<nat>, offset: nat, k: nat): Interactions
    requires k <= Prod(d)
  {
    set i, j | 0 <= i < k && 0 <= j < |d| && Unflatten(i, d)[j] + 1 < d[j] :: NeighbourPair(d, offset, Unflatten(i, d), j)
  }

  /** All direct-neighbour pairs of a layer. */
  function Neighbours(d: seq<nat>, offset: nat): Interactions
  {
    NeighboursUpTo(d, offset, Prod(d))
  }

  lemma NeighboursUpToStep(d: seq<nat>, offset: nat, k: nat)
    requires k < Prod(d)
    ensures NeighboursUpTo(d, offset, k + 1) == NeighboursUpTo(d, offset, k) + NeighboursAt(d, offset, Unflatten(k, d))
  {
  }

  /** A probe is the pair {a, a + Stride(d, j)} of two pixels of the layer. */
  lemma NeighbourPairIsStep(d: seq<nat>, offset: nat, p: seq<nat>, j: nat)
    requires InBox(p, d) && j < |d| && p[j] + 1 < d[j]
    ensures InBox(p[j := p[j] + 1], d)
    ensures NeighbourPair(d, offset, p, j) ==
              {offset + Flat(p, d), offset + Flat(p, d) + Stride(d, j)}
  {
    FlatIncrement(p, d, j);
  }

  /** x is the probe of pixel p along axis j. */
  predicate IsProbe(d: seq<nat>, offset: nat, p: seq<nat>, j: nat, x: set<nat>)
  {
    InBox(p, d) && j < |d| && p[j] + 1 < d[j] && x == NeighbourPair(d, offset, p, j)
  }

  lemma NeighboursSound(d: seq<nat>, offset: nat, x: set<nat>) returns (p: seq<nat>, j: nat)
    requires x in Neighbours(d, offset)
    ensures IsProbe(d, offset, p, j, x)
  {
    var i, j' :| 0 <= i < Prod(d) && 0 <= j' < |d| && Unflatten(i, d)[j'] + 1 < d[j'] && x == NeighbourPair(d, offset, Unflatten(i, d), j');
    p, j := Unflatten(i, d), j';
  }

  lemma NeighboursComplete(d: seq<nat>, offset: nat, p: seq<nat>, j: nat)
    requires InBox(p, d) && j < |d| && p[j] + 1 < d[j]
    ensures NeighbourPair(d, offset, p, j) in Neighbours(d, offset)
  {
    UnflattenFlat(p, d);
    var i := Flat(p, d);
    assert Unflatten(i, d) == p;
  }

  /**
   * getDirectNeighbours inserts exactly the probes of all pixels: for each
   * position p of the layer and each axis j with p[j] + 1 < d[j], the pair
   * {offset + index(p), offset + index(p + e_j)}, and nothing else.
   */
  lemma NeighboursMembership(d: seq<nat>, offset: nat, x: set<nat>)
    ensures x in Neighbours(d, offset) <==> exists p, j :: IsProbe(d, offset, p, j, x)
  {
    if x in Neighbours(d, offset) {
      var p, j := NeighboursSound(d, offset, x);
    }
    if exists p, j :: IsProbe(d, offset, p, j, x) {
      var p, j :| IsProbe(d, offset, p, j, x);
      NeighboursComplete(d, offset, p, j);
    }
  }

  /** The pairs of position p along the axes below j. */
  function ProbesBelow(d: seq<nat>, offset: nat, p: seq<nat>, j: nat): Interactions
    requires |p| == |d| && j <= |d|
  {
    set j' | 0 <= j' < j && p[j'] + 1 < d[j'] :: NeighbourPair(d, offset, p, j')
  }

  lemma ProbesBelowStep(d: seq<nat>, offset: nat, p: seq<nat>, j: nat)
    requires |p| == |d| && j < |d|
    ensures ProbesBelow(d, offset, p, j + 1) ==
              ProbesBelow(d, offset, p, j) + (if p[j] + 1 < d[j] then {NeighbourPair(d, offset, p, j)} else {})
  {
  }

  /** One probe of getDirectNeighbours: the pixel and its successor along axis j, restoring the position afterwards. */
  method Probe(d: seq<nat>, offset: nat, multiplicators: seq<nat>, position: seq<nat>, j: nat)
    returns (position': seq<nat>, tmp: set<nat>)
    requires |position| == |d| && j < |d| && multiplicators == Multiplicators(d)
    ensures position' == position
    ensures tmp == NeighbourPair(d, offset, position, j)
  {
    position' := position;
    tmp := {};
    var a := GetDataIndex(|d|, multiplicators, position');
    FlatIndex(d, position');
    tmp := tmp + {offset + a};
    position' := position'[j := position'[j] + 1];
    var b := GetDataIndex(|d|, multiplicators, position');
    FlatIndex(d, position');
    tmp := tmp + {offset + b};
    position' := position'[j := position'[j] - 1];
    assert position' == position;
  }

  /** The body of the do-while loop of getDirectNeighbours: probe every axis at one position, restoring it each time. */
  method AddProbes(d: seq<nat>, offset: nat, multiplicators: seq<nat>, position: seq<nat>,
                   interactions: Interactions)
    returns (position': seq<nat>, interactions': Interactions)
    requires |position| == |d| && multiplicators == Multiplicators(d)
    ensures position' == position
    ensures interactions' == interactions + NeighboursAt(d, offset, position)
  {
    position' := position;
    interactions' := interactions;
    var j := 0;
    while j < |d|
      invariant j <= |d| && position' == position
      invariant interactions' == interactions + ProbesBelow(d, offset, position, j)
    {
      ProbesBelowStep(d, offset, position, j);
      if position'[j] + 1 < d[j] {
        var tmp;
        position', tmp := Probe(d, offset, multiplicators, position', j);
        interactions' := interactions' + {tmp};
      }
      j := j + 1;
    }
  }

  /** The do-while loop of getDirectNeighbours over the positions of one layer. */
  method AddNeighbourPairs(d: seq<nat>, offset: nat, multiplicators: seq<nat>, interactions: Interactions)
    returns (interactions': Interactions)
    requires PositiveExtents(d) && multiplicators == Multiplicators(d)
    ensures interactions' == interactions + Neighbours(d, offset)
  {
    ZerosFirst(d);
    var position := Zeros(|d|);
    ghost var k := 0;
    interactions' := interactions;
    var done := false;
    while !done
      invariant k <= Prod(d)
      invariant !done ==> k < Prod(d) && position == Unflatten(k, d)
      invariant done ==> k == Prod(d)
      invariant interactions' == interactions + NeighboursUpTo(d, offset, k)
      decreases Prod(d) - k
    {
      position, interactions' := AddProbes(d, offset, multiplicators, position, interactions');
      NeighboursUpToStep(d, offset, k);
      NextOfUnflatten(d, k);
      position := GetNextPosition(d, position, -1);
      k := k + 1;
      done := |position| == 0;
    }
  }

  // ---------------------------------------------------------------------
  // Colour stencil
  // ---------------------------------------------------------------------

  /**
   * The positions addColorInteractions walks: the layer with the colour
   * extent collapsed to 1, since getNextPosition never moves that coordinate.
   */
  function Slice(d: seq<nat>, c: nat): (d': seq<nat>)
    requires c < |d|
    ensures |d'| == |d| && d'[c] == 1
  {
    d[c := 1]
  }

  /** The pixels at position q on the channels of mask j: the set tmp built for j. */
  function ColorSet(d: seq<nat>, offset: nat, q: seq<nat>, c: nat, j: nat): set<nat>
    requires |q| == |d| && c < |d|
  {
    set t | 0 <= t < d[c] && Bit(j, t) :: offset + Flat(q[c := t], d)
  }

  /** The pixels at position q on the channels in T. */
  function ChannelImage(d: seq<nat>, offset: nat, q: seq<nat>, c: nat, T: set<nat>): set<nat>
    requires |q| == |d| && c < |d|
  {
    set t | t in T :: offset + Flat(q[c := t], d)
  }

  /** The sets inserted at position q for the masks 1, ..., j - 1. */
  function MasksBelow(d: seq<nat>, offset: nat, q: seq<nat>, c: nat, j: nat): Interactions
    requires |q| == |d| && c < |d|
  {
    set j' | 1 <= j' < j :: ColorSet(d, offset, q, c, j')
  }

  /** The sets inserted at the first k positions of the slice. */
  function ColoursUpTo(d: seq<nat>, offset: nat, c: nat, k: nat): Interactions
    requires c < |d| && k <= Prod(Slice(d, c))
  {
    set i, j | 0 <= i < k && 1 <= j < Pow2(d[c]) :: ColorSet(d, offset, Unflatten(i, Slice(d, c)), c, j)
  }

  /** Everything addColorInteractions inserts for layer extents d and colour coordinate c. */
  function Colours(d: seq<nat>, offset: nat, c: nat): Interactions
    requires c < |d|
  {
    ColoursUpTo(d, offset, c, Prod(Slice(d, c)))
  }

  lemma ColoursUpToStep(d: seq<nat>, offset: nat, c: nat, k: nat)
    requires c < |d| && k < Prod(Slice(d, c))
    ensures ColoursUpTo(d, offset, c, k + 1) ==
              ColoursUpTo(d, offset, c, k) + MasksBelow(d, offset, Unflatten(k, Slice(d, c)), c, Pow2(d[c]))
  {
  }

  lemma MasksBelowStep(d: seq<nat>, offset: nat, q: seq<nat>, c: nat, j: nat)
    requires |q| == |d| && c < |d| && j >= 1
    ensures MasksBelow(d, offset, q, c, j + 1) == MasksBelow(d, offset, q, c, j) + {ColorSet(d, offset, q, c, j)}
  {
  }

  /** The mask j selects the channels BitsBelow(j, d[c]). */
  lemma ColorSetIsImage(d: seq<nat>, offset: nat, q: seq<nat>, c: nat, j: nat)
    requires |q| == |d| && c < |d|
    ensures ColorSet(d, offset, q, c, j) == ChannelImage(d, offset, q, c, BitsBelow(j, d[c]))
  {
    forall y | y in ChannelImage(d, offset, q, c, BitsBelow(j, d[c]))
      ensures y in ColorSet(d, offset, q, c, j)
    {
      var t :| t in BitsBelow(j, d[c]) && y == offset + Flat(q[c := t], d);
    }
    forall y | y in ColorSet(d, offset, q, c, j)
      ensures y in ChannelImage(d, offset, q, c, BitsBelow(j, d[c]))
    {
      var t :| 0 <= t < d[c] && Bit(j, t) && y == offset + Flat(q[c := t], d);
      assert t in BitsBelow(j, d[c]);
    }
  }

  /** x is the set of the pixels at slice position q on a non-empty set T of channels. */
  predicate IsColourGroup(d: seq<nat>, offset: nat, c: nat, q: seq<nat>, T: set<nat>, x: set<nat>)
    requires c < |d|
  {
    InBox(q, Slice(d, c)) && T != {} && Below(T, d[c]) && x == ChannelImage(d, offset, q, c, T)
  }

  lemma ColoursSound(d: seq<nat>, offset: nat, c: nat, x: set<nat>) returns (q: seq<nat>, T: set<nat>)
    requires c < |d| && x in Colours(d, offset, c)
    ensures IsColourGroup(d, offset, c, q, T, x)
  {
    var i, j :| 0 <= i < Prod(Slice(d, c)) && 1 <= j < Pow2(d[c]) &&
                x == ColorSet(d, offset, Unflatten(i, Slice(d, c)), c, j);
    q, T := Unflatten(i, Slice(d, c)), BitsBelow(j, d[c]);
    ColorSetIsImage(d, offset, q, c, j);
    MaskIsNonemptySubset(j, d[c]);
  }

  lemma ColoursComplete(d: seq<nat>, offset: nat, c: nat, q: seq<nat>, T: set<nat>)
    requires c < |d| && InBox(q, Slice(d, c)) && T != {} && Below(T, d[c])
    ensures ChannelImage(d, offset, q, c, T) in Colours(d, offset, c)
  {
    var d' := Slice(d, c);
    UnflattenFlat(q, d');
    var i := Flat(q, d');
    SubsetHasUniqueMask(T, d[c], 0);
    var j := Encode(T, d[c]);
    ColorSetIsImage(d, offset, q, c, j);
    assert Unflatten(i, d') == q;
    assert ColorSet(d, offset, Unflatten(i, d'), c, j) in ColoursUpTo(d, offset, c, Prod(d'));
  }

  /**
   * addColorInteractions inserts exactly the channel groups: for each
   * position q of the layer outside the colour coordinate and each
   * non-empty set T of channels, the pixels of q on the channels in T.
   */
  lemma ColoursMembership(d: seq<nat>, offset: nat, c: nat, x: set<nat>)
    requires c < |d|
    ensures x in Colours(d, offset, c) <==> exists q, T :: IsColourGroup(d, offset, c, q, T, x)
  {
    if x in Colours(d, offset, c) {
      var q, T := ColoursSound(d, offset, c, x);
    }
    if exists q, T :: IsColourGroup(d, offset, c, q, T, x) {
      var q, T :| IsColourGroup(d, offset, c, q, T, x);
      ColoursComplete(d, offset, c, q, T);
    }
  }

  /** Different channel sets at one position give different sets of pixels (2^d[c] - 1 groups per position). */
  lemma ChannelImageInjective(d: seq<nat>, offset: nat, c: nat, q: seq<nat>, T1: set<nat>, T2: set<nat>)
    requires c < |d| && InBox(q, Slice(d, c)) && Below(T1, d[c]) && Below(T2, d[c])
    requires ChannelImage(d, offset, q, c, T1) == ChannelImage(d, offset, q, c, T2)
    ensures T1 == T2
  {
    forall t | t in T1
      ensures t in T2
    {
      ChannelImageMember(d, offset, c, q, T1, T2, t);
    }
    forall t | t in T2
      ensures t in T1
    {
      ChannelImageMember(d, offset, c, q, T2, T1, t);
    }
  }

  lemma ChannelImageMember(d: seq<nat>, offset: nat, c: nat, q: seq<nat>, T1: set<nat>, T2: set<nat>, t: nat)
    requires c < |d| && InBox(q, Slice(d, c)) && Below(T1, d[c]) && Below(T2, d[c])
    requires ChannelImage(d, offset, q, c, T1) == ChannelImage(d, offset, q, c, T2)
    requires t in T1
    ensures t in T2
  {
    assert offset + Flat(q[c := t], d) in ChannelImage(d, offset, q, c, T1);
    var t2 :| t2 in T2 && offset + Flat(q[c := t2], d) == offset + Flat(q[c := t], d);
    assert InBox(q[c := t], d) && InBox(q[c := t2], d);
    FlatInjective(q[c := t], q[c := t2], d);
    assert q[c := t][c] == t;
  }

  /** One step of getNextPosition skipping c moves to the next slice position, or clears after the last. */
  lemma SkipStep(d: seq<nat>, c: nat, p: seq<nat>, k: nat)
    requires c < |d| - 1 && |p| == |d| && k < Prod(Slice(d, c)) && p[c := 0] == Unflatten(k, Slice(d, c))
    ensures var r := NextPosition(d, p, c);
            if k + 1 < Prod(Slice(d, c)) then |r| == |d| && r[c := 0] == Unflatten(k + 1, Slice(d, c)) else r == []
  {
    var d' := Slice(d, c);
    SkipIsSlice(d, p, c, 0);
    NextOfUnflatten(d', k);
    if k + 1 < Prod(d') {
      var r' := Unflatten(k + 1, d');
      assert r'[c] == 0;
      assert r'[c := p[c]][c := 0] == r';
    }
  }

  /** The pixels at position q of the channels below t selected by mask j. */
  function MaskPrefix(d: seq<nat>, offset: nat, q: seq<nat>, c: nat, j: nat, t: nat): set<nat>
    requires |q| == |d| && c < |d| && t <= d[c]
  {
    set t' | 0 <= t' < t && Bit(j, t') :: offset + Flat(q[c := t'], d)
  }

  lemma MaskPrefixStep(d: seq<nat>, offset: nat, q: seq<nat>, c: nat, j: nat, t: nat)
    requires |q| == |d| && c < |d| && t < d[c]
    ensures MaskPrefix(d, offset, q, c, j, t + 1) ==
              MaskPrefix(d, offset, q, c, j, t) + (if Bit(j, t) then {offset + Flat(q[c := t], d)} else {})
    ensures t + 1 == d[c] ==> MaskPrefix(d, offset, q, c, j, t + 1) == ColorSet(d, offset, q, c, j)
  {
  }

  /** The innermost loop of addColorInteractions: the pixels of the channels selected by mask j. */
  method CollectMask(d: seq<nat>, c: nat, offset: nat, multiplicators: seq<nat>, position: seq<nat>, j: nat)
    returns (position': seq<nat>, tmp: set<nat>)
    requires |position| == |d| && c < |d| && multiplicators == Multiplicators(d)
    ensures |position'| == |d| && position'[c := 0] == position[c := 0]
    ensures tmp == ColorSet(d, offset, position[c := 0], c, j)
  {
    ghost var q := position[c := 0];
    position' := position;
    tmp := {};
    var colorChannels := d[c];
    var t := 0;
    while t < colorChannels
      invariant t <= colorChannels && |position'| == |d| && position'[c := 0] == q
      invariant tmp == MaskPrefix(d, offset, q, c, j, t)
    {
      MaskPrefixStep(d, offset, q, c, j, t);
      if Bit(j, t) {
        position' := position'[c := t];
        var index := GetDataIndex(|d|, multiplicators, position');
        FlatIndex(d, position');
        assert position' == q[c := t];
        tmp := tmp + {offset + index};
      }
      t := t + 1;
    }
  }

  /** The loop over the masks 1 <= j < 2^d[c] at one position of addColorInteractions. */
  method AddMasks(d: seq<nat>, c: nat, offset: nat, multiplicators: seq<nat>, position: seq<nat>,
                  interactions: Interactions)
    returns (position': seq<nat>, interactions': Interactions)
    requires |position| == |d| && c < |d| && multiplicators == Multiplicators(d)
    ensures |position'| == |d| && position'[c := 0] == position[c := 0]
    ensures interactions' == interactions + MasksBelow(d, offset, position[c := 0], c, Pow2(d[c]))
  {
    ghost var q := position[c := 0];
    position' := position;
    interactions' := interactions;
    var colorChannels := d[c];
    var j := 1;
    while j < Pow2(colorChannels)
      invariant 1 <= j <= Pow2(colorChannels) && |position'| == |d| && position'[c := 0] == q
      invariant interactions' == interactions + MasksBelow(d, offset, q, c, j)
    {
      var tmp;
      position', tmp := CollectMask(d, c, offset, multiplicators, position', j);
      MasksBelowStep(d, offset, q, c, j);
      interactions' := interactions' + {tmp};
      j := j + 1;
    }
  }

  /** addColorInteractions: the sets of all channel masks at every slice position. */
  method AddColorInteractions(d: seq<nat>, c: nat, offset: nat, multiplicators: seq<nat>, interactions: Interactions)
    returns (interactions': Interactions)
    requires PositiveExtents(d) && c < |d| - 1 && multiplicators == Multiplicators(d)
    ensures interactions' == interactions + Colours(d, offset, c)
  {
    var d' := Slice(d, c);
    ProdPositive(d');
    var position := Zeros(|d|);
    ghost var k := 0;
    FlatZeros(position, d');
    UnflattenFlat(position, d');
    assert position[c := 0] == position;
    interactions' := interactions;
    while |position| != 0
      invariant k <= Prod(d')
      invariant |position| != 0 ==> k < Prod(d') && |position| == |d| && position[c := 0] == Unflatten(k, d')
      invariant |position| == 0 ==> k == Prod(d')
      invariant interactions' == interactions + ColoursUpTo(d, offset, c, k)
      decreases Prod(d') - k
    {
      position, interactions' := AddMasks(d, c, offset, multiplicators, position, interactions');
      ColoursUpToStep(d, offset, c, k);
      SkipStep(d, c, position, k);
      position := GetNextPosition(d, position, c);
      k := k + 1;
    }
  }

  // ---------------------------------------------------------------------
  // Stencils over layers
  // ---------------------------------------------------------------------

  /**
   * getOffsetPerLevel reads the last extent of every layer but the last one,
   * so those layers must have at least one coordinate.
   */
  predicate OffsetsDefined(dims: seq<seq<nat>>)
  {
    forall l :: 0 <= l < |dims| - 1 ==> |dims[l]| >= 1
  }

  /** The colour index is -1 (none) or a coordinate of the layer other than its last one. */
  predicate ColorIndexFits(d: seq<nat>, colorIndex: int)
  {
    colorIndex == -1 || 0 <= colorIndex < |d| - 1
  }

  /** Layer i exists, has no empty extent, and the stencil's colour index fits it. */
  predicate LayerFits(dims: seq<seq<nat>>, i: nat, colorIndex: int)
  {
    i < |dims| && PositiveExtents(dims[i]) && ColorIndexFits(dims[i], colorIndex)
  }

  /** Every layer the stencil applies to fits it. */
  predicate StencilFits(dims: seq<seq<nat>>, s: StencilConfiguration)
  {
    forall n :: 0 <= n < |s.applyOnLayers| ==> LayerFits(dims, s.applyOnLayers[n], s.colorIndex)
  }

  /** The colour sets of a layer, when the stencil has a colour coordinate. */
  function ColourPart(d: seq<nat>, offset: nat, colorIndex: int): Interactions
    requires ColorIndexFits(d, colorIndex)
  {
    if colorIndex == -1 then {} else Colours(d, offset, colorIndex)
  }

  /** What both stencil generators add for a layer after their own pairs: its colour sets and its singletons. */
  function LayerExtras(dims: seq<seq<nat>>, i: nat, colorIndex: int): Interactions
    requires LayerFits(dims, i, colorIndex)
  {
    ColourPart(dims[i], LayerOffset(dims, i), colorIndex) + OneDimensional(dims[i], LayerOffset(dims, i))
  }

  /** The sets getDirectNeighbours adds for layer i. */
  function DirectNeighbourLayer(dims: seq<seq<nat>>, i: nat, colorIndex: int): Interactions
    requires LayerFits(dims, i, colorIndex)
  {
    Neighbours(dims[i], LayerOffset(dims, i)) + LayerExtras(dims, i, colorIndex)
  }

  /** The sets getDirectNeighbours adds for the first n layers of the stencil. */
  function DirectNeighbourLayers(dims: seq<seq<nat>>, s: StencilConfiguration, n: nat): Interactions
    requires StencilFits(dims, s) && n <= |s.applyOnLayers|
  {
    if n == 0 then {}
    else DirectNeighbourLayers(dims, s, n - 1) + DirectNeighbourLayer(dims, s.applyOnLayers[n - 1], s.colorIndex)
  }

  /** Everything getDirectNeighbours inserts, the empty set included. */
  function DirectNeighbours(dims: seq<seq<nat>>, s: StencilConfiguration): Interactions
    requires StencilFits(dims, s)
  {
    DirectNeighbourLayers(dims, s, |s.applyOnLayers|) + {{}}
  }

  /** Union is associative (stated once so that loops need not unfold the sets involved). */
  lemma UnionAssoc(a: Interactions, b: Interactions, x: Interactions)
    ensures a + b + x == a + (b + x)
  {
  }

  /** The tail shared by both generators for layer i: addColorInteractions if there is a colour coordinate, then addOneDimensionalInteractions. */
  method AddLayerExtras(dims: seq<seq<nat>>, i: nat, colorIndex: int, offset: nat, multiplicators: seq<nat>,
                        interactions: Interactions)
    returns (interactions': Interactions)
    requires LayerFits(dims, i, colorIndex)
    requires offset == LayerOffset(dims, i) && multiplicators == Multiplicators(dims[i])
    ensures interactions' == interactions + LayerExtras(dims, i, colorIndex)
  {
    interactions' := interactions;
    if colorIndex != -1 {
      interactions' := AddColorInteractions(dims[i], colorIndex, offset, multiplicators, interactions');
    }
    interactions' := AddOneDimensionalInteractions(dims[i], offset, interactions');
  }

  /** The body of the layer loop of getDirectNeighbours for layer i. */
  method AddDirectNeighbourLayer(dims: seq<seq<nat>>, i: nat, colorIndex: int, offset: nat, multiplicators: seq<nat>,
                                 interactions: Interactions)
    returns (interactions': Interactions)
    requires LayerFits(dims, i, colorIndex)
    requires offset == LayerOffset(dims, i) && multiplicators == Multiplicators(dims[i])
    ensures interactions' == interactions + DirectNeighbourLayer(dims, i, colorIndex)
  {
    interactions' := AddNeighbourPairs(dims[i], offset, multiplicators, interactions);
    interactions' := AddLayerExtras(dims, i, colorIndex, offset, multiplicators, interactions');
    UnionAssoc(interactions, Neighbours(dims[i], offset), LayerExtras(dims, i, colorIndex));
  }

  /** One more layer of getDirectNeighbours. */
  lemma DirectNeighbourLayersStep(dims: seq<seq<nat>>, s: StencilConfiguration, n: nat,
                                  start: Interactions, before: Interactions, after: Interactions)
    requires StencilFits(dims, s) && n < |s.applyOnLayers|
    requires before == start + DirectNeighbourLayers(dims, s, n)
    requires after == before + DirectNeighbourLayer(dims, s.applyOnLayers[n], s.colorIndex)
    ensures after == start + DirectNeighbourLayers(dims, s, n + 1)
  {
    UnionAssoc(start, DirectNeighbourLayers(dims, s, n), DirectNeighbourLayer(dims, s.applyOnLayers[n], s.colorIndex));
  }

  /** The multiplicators and offsets of every layer, as getMultiplicatorsPerLevel and getOffsetPerLevel compute them. */
  predicate Tables(dims: seq<seq<nat>>, multiplicatorsPerLevel: seq<seq<nat>>, offsetsPerLevel: seq<nat>)
  {
    |multiplicatorsPerLevel| == |dims| && |offsetsPerLevel| >= |dims| &&
    (forall l :: 0 <= l < |dims| ==> multiplicatorsPerLevel[l] == Multiplicators(dims[l])) &&
    (forall l :: 0 <= l < |dims| ==> offsetsPerLevel[l] == LayerOffset(dims, l))
  }

  /** getMultiplicatorsPerLevel followed by getOffsetPerLevel. */
  method GetTables(dims: seq<seq<nat>>) returns (multiplicatorsPerLevel: seq<seq<nat>>, offsetsPerLevel: seq<nat>)
    requires OffsetsDefined(dims)
    ensures Tables(dims, multiplicatorsPerLevel, offsetsPerLevel)
  {
    multiplicatorsPerLevel := GetMultiplicatorsPerLevel(dims);
    var outOfRange;
    offsetsPerLevel, outOfRange := GetOffsetPerLevel(dims, multiplicatorsPerLevel);
  }

  /** The layer loop of getDirectNeighbours. */
  method AddDirectNeighbourLayers(dims: seq<seq<nat>>, stencilConf: StencilConfiguration,
                                  multiplicatorsPerLevel: seq<seq<nat>>, offsetsPerLevel: seq<nat>,
                                  interactions: Interactions)
    returns (interactions': Interactions)
    requires StencilFits(dims, stencilConf) && Tables(dims, multiplicatorsPerLevel, offsetsPerLevel)
    ensures interactions' == interactions + DirectNeighbourLayers(dims, stencilConf, |stencilConf.applyOnLayers|)
  {
    interactions' := interactions;
    var n := 0;
    while n < |stencilConf.applyOnLayers|
      invariant n <= |stencilConf.applyOnLayers|
      invariant interactions' == interactions + DirectNeighbourLayers(dims, stencilConf, n)
    {
      ghost var before := interactions';
      interactions' := AddListedNeighbourLayer(dims, stencilConf, n, multiplicatorsPerLevel, offsetsPerLevel,
                                               interactions');
      DirectNeighbourLayersStep(dims, stencilConf, n, interactions, before, interactions');
      n := n + 1;
    }
  }

  /** One pass of the layer loop of getDirectNeighbours: the n-th listed layer, with its tables. */
  method AddListedNeighbourLayer(dims: seq<seq<nat>>, stencilConf: StencilConfiguration, n: nat,
                                 multiplicatorsPerLevel: seq<seq<nat>>, offsetsPerLevel: seq<nat>,
                                 interactions: Interactions)
    returns (interactions': Interactions)
    requires StencilFits(dims, stencilConf) && Tables(dims, multiplicatorsPerLevel, offsetsPerLevel)
    requires n < |stencilConf.applyOnLayers|
    ensures interactions' ==
              interactions + DirectNeighbourLayer(dims, stencilConf.applyOnLayers[n], stencilConf.colorIndex)
  {
    var i := stencilConf.applyOnLayers[n];
    assert LayerFits(dims, i, stencilConf.colorIndex);
    interactions' := AddDirectNeighbourLayer(dims, i, stencilConf.colorIndex, offsetsPerLevel[i],
                                             multiplicatorsPerLevel[i], interactions);
  }

  /** getDirectNeighbours: pairs, colour sets and singletons of every listed layer, then the empty set. */
  method GetDirectNeighbours(interactions: Interactions, geometryConf: GeometryConfiguration,
                             stencilConf: StencilConfiguration)
    returns (interactions': Interactions)
    requires OffsetsDefined(geometryConf.dim) && StencilFits(geometryConf.dim, stencilConf)
    ensures interactions' == interactions + DirectNeighbours(geometryConf.dim, stencilConf)
  {
    var dims := geometryConf.dim;
    var multiplicatorsPerLevel, offsetsPerLevel := GetTables(dims);
    interactions' := AddDirectNeighbourLayers(dims, stencilConf, multiplicatorsPerLevel, offsetsPerLevel, interactions);
    UnionAssoc(interactions, DirectNeighbourLayers(dims, stencilConf, |stencilConf.applyOnLayers|), {{}});
    interactions' := interactions' + {{}};
  }

  /**
   * The child-parent pairs between child layer i and parent layer j come from
   * the real-valued rescaling of addChildParentInteractionRecursive; they are
   * the parameter parentPairs(i, j) here.  The sets getHierarchicalParents
   * adds for child layer i: the pairs with the next layer only, or with every
   * later layer, then the layer's colour sets and singletons.
   */
  function HierarchicalLayer(dims: seq<seq<nat>>, i: nat, s: StencilConfiguration,
                             parentPairs: (nat, nat) -> Interactions): Interactions
    requires LayerFits(dims, i, s.colorIndex)
  {
    (if s.stencilType == NextHierarchicalParent then ParentsBetween(i, i + 2, |dims|, parentPairs)
     else ParentsBetween(i, |dims|, |dims|, parentPairs))
    + LayerExtras(dims, i, s.colorIndex)
  }

  /** The pairs of child layer i with the parent layers i + 1, ..., min(m, n) - 1. */
  function ParentsBetween(i: nat, m: nat, n: nat, parentPairs: (nat, nat) -> Interactions): Interactions
    decreases m
  {
    if m <= i + 1 then {}
    else ParentsBetween(i, m - 1, n, parentPairs) + (if m - 1 < n then parentPairs(i, m - 1) else {})
  }

  function HierarchicalLayers(dims: seq<seq<nat>>, s: StencilConfiguration,
                              parentPairs: (nat, nat) -> Interactions, n: nat): Interactions
    requires StencilFits(dims, s) && n <= |s.applyOnLayers|
  {
    if n == 0 then {}
    else HierarchicalLayers(dims, s, parentPairs, n - 1) + HierarchicalLayer(dims, s.applyOnLayers[n - 1], s, parentPairs)
  }

  /** Everything getHierarchicalParents inserts, the empty set included. */
  function HierarchicalParents(dims: seq<seq<nat>>, s: StencilConfiguration,
                               parentPairs: (nat, nat) -> Interactions): Interactions
    requires StencilFits(dims, s)
  {
    HierarchicalLayers(dims, s, parentPairs, |s.applyOnLayers|) + {{}}
  }

  /** The loop over the parent layers j = i + 1, ... of getHierarchicalParents, with its break. */
  method AddParentPairs(layers: nat, i: nat, stencilType: StencilType, parentPairs: (nat, nat) -> Interactions,
                        interactions: Interactions)
    returns (interactions': Interactions)
    ensures interactions' == interactions +
              (if stencilType == NextHierarchicalParent then ParentsBetween(i, i + 2, layers, parentPairs)
               else ParentsBetween(i, layers, layers, parentPairs))
  {
    interactions' := interactions;
    var j := i + 1;
    while j < layers
      invariant i + 1 <= j && (j <= layers || j == i + 1)
      invariant stencilType == NextHierarchicalParent ==> j == i + 1
      invariant interactions' == interactions + ParentsBetween(i, j, layers, parentPairs)
    {
      interactions' := interactions' + parentPairs(i, j);
      assert interactions' == interactions + ParentsBetween(i, j + 1, layers, parentPairs);
      if stencilType == NextHierarchicalParent {
        break;
      }
      j := j + 1;
    }
  }

  /** The body of the layer loop of getHierarchicalParents for child layer i. */
  method AddHierarchicalLayer(dims: seq<seq<nat>>, i: nat, s: StencilConfiguration,
                              parentPairs: (nat, nat) -> Interactions, offset: nat, multiplicators: seq<nat>,
                              interactions: Interactions)
    returns (interactions': Interactions)
    requires LayerFits(dims, i, s.colorIndex)
    requires offset == LayerOffset(dims, i) && multiplicators == Multiplicators(dims[i])
    ensures interactions' == interactions + HierarchicalLayer(dims, i, s, parentPairs)
  {
    ghost var parents := if s.stencilType == NextHierarchicalParent
                         then ParentsBetween(i, i + 2, |dims|, parentPairs)
                         else ParentsBetween(i, |dims|, |dims|, parentPairs);
    interactions' := AddParentPairs(|dims|, i, s.stencilType, parentPairs, interactions);
    interactions' := AddLayerExtras(dims, i, s.colorIndex, offset, multiplicators, interactions');
    UnionAssoc(interactions, parents, LayerExtras(dims, i, s.colorIndex));
  }

  /** The layer loop of getHierarchicalParents. */
  method AddHierarchicalLayers(dims: seq<seq<nat>>, stencilConf: StencilConfiguration,
                               parentPairs: (nat, nat) -> Interactions,
                               multiplicatorsPerLevel: seq<seq<nat>>, offsetsPerLevel: seq<nat>,
                               interactions: Interactions)
    returns (interactions': Interactions)
    requires StencilFits(dims, stencilConf) && Tables(dims, multiplicatorsPerLevel, offsetsPerLevel)
    ensures interactions' == interactions + HierarchicalLayers(dims, stencilConf, parentPairs, |stencilConf.applyOnLayers|)
  {
    interactions' := interactions;
    var n := 0;
    while n < |stencilConf.applyOnLayers|
      invariant n <= |stencilConf.applyOnLayers|
      invariant interactions' == interactions + HierarchicalLayers(dims, stencilConf, parentPairs, n)
    {
      ghost var before := interactions';
      interactions' := AddListedHierarchicalLayer(dims, stencilConf, parentPairs, n, multiplicatorsPerLevel,
                                                  offsetsPerLevel, interactions');
      HierarchicalLayersStep(dims, stencilConf, parentPairs, n, interactions, before, interactions');
      n := n + 1;
    }
  }

  /** One more child layer of getHierarchicalParents. */
  lemma HierarchicalLayersStep(dims: seq<seq<nat>>, s: StencilConfiguration, parentPairs: (nat, nat) -> Interactions,
                               n: nat, start: Interactions, before: Interactions, after: Interactions)
    requires StencilFits(dims, s) && n < |s.applyOnLayers|
    requires before == start + HierarchicalLayers(dims, s, parentPairs, n)
    requires after == before + HierarchicalLayer(dims, s.applyOnLayers[n], s, parentPairs)
    ensures after == start + HierarchicalLayers(dims, s, parentPairs, n + 1)
  {
    UnionAssoc(start, HierarchicalLayers(dims, s, parentPairs, n),
               HierarchicalLayer(dims, s.applyOnLayers[n], s, parentPairs));
  }

  /** One pass of the layer loop of getHierarchicalParents: the n-th listed child layer, with its tables. */
  method AddListedHierarchicalLayer(dims: seq<seq<nat>>, stencilConf: StencilConfiguration,
                                    parentPairs: (nat, nat) -> Interactions, n: nat,
                                    multiplicatorsPerLevel: seq<seq<nat>>, offsetsPerLevel: seq<nat>,
                                    interactions: Interactions)
    returns (interactions': Interactions)
    requires StencilFits(dims, stencilConf) && Tables(dims, multiplicatorsPerLevel, offsetsPerLevel)
    requires n < |stencilConf.applyOnLayers|
    ensures interactions' ==
              interactions + HierarchicalLayer(dims, stencilConf.applyOnLayers[n], stencilConf, parentPairs)
  {
    var i := stencilConf.applyOnLayers[n];
    assert LayerFits(dims, i, stencilConf.colorIndex);
    interactions' := AddHierarchicalLayer(dims, i, stencilConf, parentPairs, offsetsPerLevel[i],
                                          multiplicatorsPerLevel[i], interactions);
  }

  /**
   * getHierarchicalParents: for each listed layer i, the pairs with the
   * parent layers j = i + 1, ... (stopping after the first for
   * NextHierarchicalParent), then colour sets and singletons; finally the
   * empty set.
   */
  method GetHierarchicalParents(interactions: Interactions, geometryConf: GeometryConfiguration,
                                stencilConf: StencilConfiguration, parentPairs: (nat, nat) -> Interactions)
    returns (interactions': Interactions)
    requires OffsetsDefined(geometryConf.dim) && StencilFits(geometryConf.dim, stencilConf)
    ensures interactions' == interactions + HierarchicalParents(geometryConf.dim, stencilConf, parentPairs)
  {
    var dims := geometryConf.dim;
    var multiplicatorsPerLevel, offsetsPerLevel := GetTables(dims);
    interactions' := AddHierarchicalLayers(dims, stencilConf, parentPairs, multiplicatorsPerLevel, offsetsPerLevel,
                                           interactions);
    UnionAssoc(interactions, HierarchicalLayers(dims, stencilConf, parentPairs, |stencilConf.applyOnLayers|), {{}});
    interactions' := interactions' + {{}};
  }

  // ---------------------------------------------------------------------
  // getInteractions
  // ---------------------------------------------------------------------

  /** What the stencil switch of getInteractions demands of a stencil it does not skip. */
  predicate StencilUsable(config: GeometryConfiguration, s: StencilConfiguration)
  {
    s.stencilType != NoStencil ==> OffsetsDefined(config.dim) && StencilFits(config.dim, s)
  }

  /** Every stencil of the configuration is usable. */
  predicate ConfigFits(config: GeometryConfiguration)
  {
    forall n :: 0 <= n < |config.stencils| ==> StencilUsable(config, config.stencils[n])
  }

  /** The sets one stencil contributes: its generator's sets, or none for NoStencil. */
  function StencilInteractions(config: GeometryConfiguration, s: StencilConfiguration,
                               parentPairs: (nat, nat) -> Interactions): Interactions
    requires StencilUsable(config, s)
  {
    match s.stencilType
    case DirectNeighbour => DirectNeighbours(config.dim, s)
    case NextHierarchicalParent => HierarchicalParents(config.dim, s, parentPairs)
    case AllHierarchicalParent => HierarchicalParents(config.dim, s, parentPairs)
    case NoStencil => {}
  }

  /** What each of the first n stencils contributes, in order. */
  function StencilParts(config: GeometryConfiguration, parentPairs: (nat, nat) -> Interactions, n: nat)
    : (parts: seq<Interactions>)
    requires ConfigFits(config) && n <= |config.stencils|
    ensures |parts| == n
  {
    if n == 0 then []
    else StencilParts(config, parentPairs, n - 1) + [StencilInteractions(config, config.stencils[n - 1], parentPairs)]
  }

  /** Part m is what stencil m contributes. */
  lemma {:induction false} StencilPart(config: GeometryConfiguration, parentPairs: (nat, nat) -> Interactions,
                                       n: nat, m: nat)
    requires ConfigFits(config) && m < n <= |config.stencils|
    ensures StencilParts(config, parentPairs, n)[m] == StencilInteractions(config, config.stencils[m], parentPairs)
  {
    if m < n - 1 {
      StencilPart(config, parentPairs, n - 1, m);
    }
  }

  /** The union of the first n parts. */
  function UnionUpTo(parts: seq<Interactions>, n: nat): Interactions
    requires n <= |parts|
  {
    if n == 0 then {} else UnionUpTo(parts, n - 1) + parts[n - 1]
  }

  /** Adding part n to the union of the first n parts gives the union of the first n + 1. */
  lemma UnionUpToStep(parts: seq<Interactions>, n: nat, before: Interactions, after: Interactions)
    requires n < |parts| && before == UnionUpTo(parts, n) && after == before + parts[n]
    ensures after == UnionUpTo(parts, n + 1)
  {
  }

  /** A set is in the union of the first n parts exactly when one of them holds it. */
  lemma {:induction false} UnionUpToMembership(parts: seq<Interactions>, n: nat, x: set<nat>)
    requires n <= |parts|
    ensures x in UnionUpTo(parts, n) <==> exists m :: 0 <= m < n && x in parts[m]
  {
    if n > 0 {
      UnionUpToMembership(parts, n - 1, x);
    }
  }

  /** The interaction set getInteractions returns. */
  function AllInteractions(config: GeometryConfiguration, parentPairs: (nat, nat) -> Interactions): Interactions
    requires ConfigFits(config)
  {
    UnionUpTo(StencilParts(config, parentPairs, |config.stencils|), |config.stencils|)
  }

  /** The body of the stencil loop of getInteractions: the switch on the stencil type. */
  method ApplyStencil(interactions: Interactions, config: GeometryConfiguration, stencil: StencilConfiguration,
                      parentPairs: (nat, nat) -> Interactions)
    returns (interactions': Interactions)
    requires StencilUsable(config, stencil)
    ensures interactions' == interactions + StencilInteractions(config, stencil, parentPairs)
  {
    match stencil.stencilType
    case DirectNeighbour =>
      interactions' := GetDirectNeighbours(interactions, config, stencil);
    case NextHierarchicalParent =>
      interactions' := GetHierarchicalParents(interactions, config, stencil, parentPairs);
    case AllHierarchicalParent =>
      interactions' := GetHierarchicalParents(interactions, config, stencil, parentPairs);
    case NoStencil =>
      interactions' := interactions;
  }

  /** getInteractions: the union of the sets of every stencil of the configuration, in order. */
  method GetInteractions(config: GeometryConfiguration, parentPairs: (nat, nat) -> Interactions)
    returns (interactions: Interactions)
    requires ConfigFits(config)
    ensures interactions == AllInteractions(config, parentPairs)
  {
    ghost var parts := StencilParts(config, parentPairs, |config.stencils|);
    interactions := {};
    var n := 0;
    while n < |config.stencils|
      invariant n <= |config.stencils|
      invariant interactions == UnionUpTo(parts, n)
    {
      ghost var before := interactions;
      interactions := ApplyListedStencil(config, parentPairs, n, interactions);
      UnionUpToStep(parts, n, before, interactions);
      n := n + 1;
    }
  }

  /** One pass of the stencil loop of getInteractions: stencil n of the configuration. */
  method ApplyListedStencil(config: GeometryConfiguration, parentPairs: (nat, nat) -> Interactions, n: nat,
                            interactions: Interactions)
    returns (interactions': Interactions)
    requires ConfigFits(config) && n < |config.stencils|
    ensures interactions' == interactions + StencilParts(config, parentPairs, |config.stencils|)[n]
  {
    var stencil := config.stencils[n];
    assert StencilUsable(config, stencil);
    interactions' := ApplyStencil(interactions, config, stencil, parentPairs);
    StencilPart(config, parentPairs, |config.stencils|, n);
  }

  /** Every set getInteractions returns comes from one of its stencils. */
  lemma InteractionsSound(config: GeometryConfiguration, parentPairs: (nat, nat) -> Interactions, x: set<nat>)
    returns (m: nat)
    requires ConfigFits(config) && x in AllInteractions(config, parentPairs)
    ensures m < |config.stencils| && x in StencilInteractions(config, config.stencils[m], parentPairs)
  {
    var parts := StencilParts(config, parentPairs, |config.stencils|);
    UnionUpToMembership(parts, |parts|, x);
    m :| 0 <= m < |parts| && x in parts[m];
    StencilPart(config, parentPairs, |config.stencils|, m);
  }

  /** Every set a stencil contributes is returned by getInteractions, whatever the order of the stencils. */
  lemma InteractionsComplete(config: GeometryConfiguration, parentPairs: (nat, nat) -> Interactions,
                             m: nat, x: set<nat>)
    requires ConfigFits(config) && m < |config.stencils|
    requires x in StencilInteractions(config, config.stencils[m], parentPairs)
    ensures x in AllInteractions(config, parentPairs)
  {
    var parts := StencilParts(config, parentPairs, |config.stencils|);
    StencilPart(config, parentPairs, |config.stencils|, m);
    UnionUpToMembership(parts, |parts|, x);
  }

  /** The empty interaction is there exactly when some stencil is not NoStencil. */
  lemma InteractionsHaveEmpty(config: GeometryConfiguration, parentPairs: (nat, nat) -> Interactions)
    requires ConfigFits(config)
    ensures {} in AllInteractions(config, parentPairs) <==>
              exists m :: 0 <= m < |config.stencils| && config.stencils[m].stencilType != NoStencil
  {
    if {} in AllInteractions(config, parentPairs) {
      var m := InteractionsSound(config, parentPairs, {});
      assert config.stencils[m].stencilType != NoStencil;
    }
    if exists m :: 0 <= m < |config.stencils| && config.stencils[m].stencilType != NoStencil {
      var m :| 0 <= m < |config.stencils| && config.stencils[m].stencilType != NoStencil;
      assert {} in StencilInteractions(config, config.stencils[m], parentPairs);
      InteractionsComplete(config, parentPairs, m, {});
    }
  }

  /** Only NoStencil stencils (or none at all) give the empty interaction set. */
  lemma InteractionsEmpty(config: GeometryConfiguration, parentPairs: (nat, nat) -> Interactions)
    requires ConfigFits(config)
    ensures AllInteractions(config, parentPairs) == {} <==>
              forall m :: 0 <= m < |config.stencils| ==> config.stencils[m].stencilType == NoStencil
  {
    InteractionsHaveEmpty(config, parentPairs);
    if AllInteractions(config, parentPairs) != {} {
      var x :| x in AllInteractions(config, parentPairs);
      var m := InteractionsSound(config, parentPairs, x);
      assert config.stencils[m].stencilType != NoStencil;
    }
  }

  /** Layer extras hold every pixel singleton of the layer. */
  lemma LayerExtrasHaveSingletons(dims: seq<seq<nat>>, i: nat, colorIndex: int, t: nat)
    requires LayerFits(dims, i, colorIndex)
    requires LayerOffset(dims, i) <= t < LayerOffset(dims, i) + Prod(dims[i])
    ensures {t} in LayerExtras(dims, i, colorIndex)
  {
    assert {t} in OneDimensional(dims[i], LayerOffset(dims, i));
  }

  /** Appending a part leaves the union of the earlier parts unchanged. */
  lemma {:induction false} UnionUpToPrefix(parts: seq<Interactions>, extra: Interactions, n: nat)
    requires n <= |parts|
    ensures UnionUpTo(parts + [extra], n) == UnionUpTo(parts, n)
  {
    if n > 0 {
      UnionUpToPrefix(parts, extra, n - 1);
      assert (parts + [extra])[n - 1] == parts[n - 1];
    }
  }

  /** The sets of each of the first n layers of a direct-neighbour stencil, in order. */
  function DirectNeighbourParts(dims: seq<seq<nat>>, s: StencilConfiguration, n: nat): (parts: seq<Interactions>)
    requires StencilFits(dims, s) && n <= |s.applyOnLayers|
    ensures |parts| == n
  {
    if n == 0 then []
    else DirectNeighbourParts(dims, s, n - 1) + [DirectNeighbourLayer(dims, s.applyOnLayers[n - 1], s.colorIndex)]
  }

  /** Part k is the sets of layer k of the stencil. */
  lemma {:induction false} DirectNeighbourPart(dims: seq<seq<nat>>, s: StencilConfiguration, n: nat, k: nat)
    requires StencilFits(dims, s) && k < n <= |s.applyOnLayers|
    ensures DirectNeighbourParts(dims, s, n)[k] == DirectNeighbourLayer(dims, s.applyOnLayers[k], s.colorIndex)
  {
    if k < n - 1 {
      DirectNeighbourPart(dims, s, n - 1, k);
    }
  }

  /** DirectNeighbourLayers is the union of the parts. */
  lemma {:induction false} DirectNeighbourLayersAsUnion(dims: seq<seq<nat>>, s: StencilConfiguration, n: nat)
    requires StencilFits(dims, s) && n <= |s.applyOnLayers|
    ensures DirectNeighbourLayers(dims, s, n) == UnionUpTo(DirectNeighbourParts(dims, s, n), n)
  {
    if n > 0 {
      var parts := DirectNeighbourParts(dims, s, n - 1);
      var layer := DirectNeighbourLayer(dims, s.applyOnLayers[n - 1], s.colorIndex);
      DirectNeighbourLayersAsUnion(dims, s, n - 1);
      UnionUpToPrefix(parts, layer, n - 1);
      assert DirectNeighbourParts(dims, s, n) == parts + [layer];
    }
  }

  /** The first n layers of a direct-neighbour stencil contain the sets of each of those layers. */
  lemma DirectNeighbourLayersMember(dims: seq<seq<nat>>, s: StencilConfiguration, n: nat, k: nat, x: set<nat>)
    requires StencilFits(dims, s) && k < n <= |s.applyOnLayers|
    requires x in DirectNeighbourLayer(dims, s.applyOnLayers[k], s.colorIndex)
    ensures x in DirectNeighbourLayers(dims, s, n)
  {
    DirectNeighbourLayersAsUnion(dims, s, n);
    DirectNeighbourPart(dims, s, n, k);
    UnionUpToMembership(DirectNeighbourParts(dims, s, n), n, x);
  }

  /** The sets of each of the first n child layers of a hierarchical stencil, in order. */
  function HierarchicalParts(dims: seq<seq<nat>>, s: StencilConfiguration,
                             parentPairs: (nat, nat) -> Interactions, n: nat): (parts: seq<Interactions>)
    requires StencilFits(dims, s) && n <= |s.applyOnLayers|
    ensures |parts| == n
  {
    if n == 0 then []
    else HierarchicalParts(dims, s, parentPairs, n - 1) + [HierarchicalLayer(dims, s.applyOnLayers[n - 1], s, parentPairs)]
  }

  /** Part k is the sets of child layer k of the stencil. */
  lemma {:induction false} HierarchicalPart(dims: seq<seq<nat>>, s: StencilConfiguration,
                                            parentPairs: (nat, nat) -> Interactions, n: nat, k: nat)
    requires StencilFits(dims, s) && k < n <= |s.applyOnLayers|
    ensures HierarchicalParts(dims, s, parentPairs, n)[k] == HierarchicalLayer(dims, s.applyOnLayers[k], s, parentPairs)
  {
    if k < n - 1 {
      HierarchicalPart(dims, s, parentPairs, n - 1, k);
    }
  }

  /** HierarchicalLayers is the union of the parts. */
  lemma {:induction false} HierarchicalLayersAsUnion(dims: seq<seq<nat>>, s: StencilConfiguration,
                                                     parentPairs: (nat, nat) -> Interactions, n: nat)
    requires StencilFits(dims, s) && n <= |s.applyOnLayers|
    ensures HierarchicalLayers(dims, s, parentPairs, n) == UnionUpTo(HierarchicalParts(dims, s, parentPairs, n), n)
  {
    if n > 0 {
      var parts := HierarchicalParts(dims, s, parentPairs, n - 1);
      var layer := HierarchicalLayer(dims, s.applyOnLayers[n - 1], s, parentPairs);
      HierarchicalLayersAsUnion(dims, s, parentPairs, n - 1);
      UnionUpToPrefix(parts, layer, n - 1);
      assert HierarchicalParts(dims, s, parentPairs, n) == parts + [layer];
    }
  }

  /** The first n child layers of a hierarchical stencil contain the sets of each of those layers. */
  lemma HierarchicalLayersMember(dims: seq<seq<nat>>, s: StencilConfiguration,
                                 parentPairs: (nat, nat) -> Interactions, n: nat, k: nat, x: set<nat>)
    requires StencilFits(dims, s) && k < n <= |s.applyOnLayers|
    requires x in HierarchicalLayer(dims, s.applyOnLayers[k], s, parentPairs)
    ensures x in HierarchicalLayers(dims, s, parentPairs, n)
  {
    HierarchicalLayersAsUnion(dims, s, parentPairs, n);
    HierarchicalPart(dims, s, parentPairs, n, k);
    UnionUpToMembership(HierarchicalParts(dims, s, parentPairs, n), n, x);
  }

  /**
   * Every pixel of every layer a stencil (other than NoStencil) applies to is
   * an interaction of its own, so the grid keeps its one-dimensional terms.
   */
  lemma InteractionsHaveSingletons(config: GeometryConfiguration, parentPairs: (nat, nat) -> Interactions,
                                   m: nat, k: nat, t: nat)
    requires ConfigFits(config) && m < |config.stencils|
    requires config.stencils[m].stencilType != NoStencil
    requires k < |config.stencils[m].applyOnLayers|
    requires config.stencils[m].applyOnLayers[k] < |config.dim|
    requires var i := config.stencils[m].applyOnLayers[k];
             LayerOffset(config.dim, i) <= t < LayerOffset(config.dim, i) + Prod(config.dim[i])
    ensures {t} in AllInteractions(config, parentPairs)
  {
    var s := config.stencils[m];
    var i := s.applyOnLayers[k];
    LayerExtrasHaveSingletons(config.dim, i, s.colorIndex, t);
    if s.stencilType == DirectNeighbour {
      DirectNeighbourLayersMember(config.dim, s, |s.applyOnLayers|, k, {t});
    } else {
      HierarchicalLayersMember(config.dim, s, parentPairs, |s.applyOnLayers|, k, {t});
    }
    InteractionsComplete(config, parentPairs, m, {t});
  }
}
