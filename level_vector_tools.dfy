/**
 * Level-vector combinatorics of the combination technique: the hypercube of
 * level vectors between a minimum and a maximum, the "diagonal" of level
 * vectors with a fixed level sum, and the downward closure of a set of level
 * vectors.  Each generator is specified by a recursive function; the methods
 * follow the original loops and are proved to compute those functions, and
 * the lemmas state what the functions mean (membership, order, size).
 */
module LevelVectorTools {
  import opened LexOrder
  import opened MixedRadix

  // ---------------------------------------------------------------------
  // Hypercube
  // ---------------------------------------------------------------------

  /**
   * The assertion min.back() <= max.back() in generateHyperCubeRecursiveLastDim
   * holds whenever it is reached: the last dimension is reached only when all
   * dimensions from `from` on before it have a non-empty range.
   */
  predicate LastDimAssertHolds(minLevel: LevelVector, maxLevel: LevelVector, from: nat)
    requires |minLevel| == |maxLevel| >= 1
  {
    (forall i :: from <= i < |minLevel| - 1 ==> minLevel[i] <= maxLevel[i]) ==>
      minLevel[|minLevel| - 1] <= maxLevel[|maxLevel| - 1]
  }

  /** What generateHyperCubeRecursive demands of its arguments. */
  predicate CubeArgs(minLevel: LevelVector, maxLevel: LevelVector, prefix: LevelVector)
  {
    |minLevel| == |maxLevel| >= 1 && |prefix| <= |minLevel| - 1 &&
    LastDimAssertHolds(minLevel, maxLevel, |prefix|)
  }

  /** v lies between minLevel and maxLevel in every dimension from `from` on. */
  predicate InCubeFrom(v: LevelVector, minLevel: LevelVector, maxLevel: LevelVector, from: nat)
  {
    |v| == |minLevel| == |maxLevel| &&
    forall i :: from <= i < |v| ==> minLevel[i] <= v[i] <= maxLevel[i]
  }

  /** v lies between minLevel and maxLevel component-wise. */
  predicate InCube(v: LevelVector, minLevel: LevelVector, maxLevel: LevelVector)
  {
    InCubeFrom(v, minLevel, maxLevel, 0)
  }

  /** The one-dimensional row prefix + [l] for l from the last minimum to the last maximum. */
  function HyperCubeLastDim(minLevel: LevelVector, maxLevel: LevelVector, prefix: LevelVector)
    : seq<LevelVector>
    requires |minLevel| == |maxLevel| >= 1 && |prefix| == |minLevel| - 1
    requires minLevel[|minLevel| - 1] <= maxLevel[|maxLevel| - 1]
  {
    var lo, hi := minLevel[|minLevel| - 1], maxLevel[|maxLevel| - 1];
    seq(hi - lo + 1, k => prefix + [lo + k])
  }

  /** All completions of prefix inside the hypercube, last dimension fastest. */
  function HyperCubeRec(minLevel: LevelVector, maxLevel: LevelVector, prefix: LevelVector)
    : seq<LevelVector>
    requires CubeArgs(minLevel, maxLevel, prefix)
    decreases |minLevel| - |prefix|, 1, 0
  {
    if |prefix| == |minLevel| - 1 then HyperCubeLastDim(minLevel, maxLevel, prefix)
    else CubeRange(minLevel, maxLevel, prefix, minLevel[|prefix|])
  }

  /** The rows for prefix + [l], prefix + [l + 1], ..., up to the maximum of that dimension. */
  function CubeRange(minLevel: LevelVector, maxLevel: LevelVector, prefix: LevelVector, l: nat)
    : seq<LevelVector>
    requires CubeArgs(minLevel, maxLevel, prefix) && |prefix| < |minLevel| - 1
    requires minLevel[|prefix|] <= l
    decreases |minLevel| - |prefix|, 0, maxLevel[|prefix|] + 1 - l
  {
    if l > maxLevel[|prefix|] then []
    else HyperCubeRec(minLevel, maxLevel, prefix + [l]) + CubeRange(minLevel, maxLevel, prefix, l + 1)
  }

  /** generateHyperCube(minLevel, maxLevel). */
  function HyperCube(minLevel: LevelVector, maxLevel: LevelVector): seq<LevelVector>
    requires CubeArgs(minLevel, maxLevel, [])
  {
    HyperCubeRec(minLevel, maxLevel, [])
  }

  /** Number of values of dimension i inside the hypercube. */
  function Width(minLevel: LevelVector, maxLevel: LevelVector, i: nat): nat
    requires i < |minLevel| && i < |maxLevel|
  {
    if maxLevel[i] >= minLevel[i] then maxLevel[i] - minLevel[i] + 1 else 0
  }

  /** Product of the widths of dimensions from `from` on. */
  function CubeCount(minLevel: LevelVector, maxLevel: LevelVector, from: nat): nat
    requires |minLevel| == |maxLevel|
    decreases |minLevel| - from
  {
    if from >= |minLevel| then 1
    else Width(minLevel, maxLevel, from) * CubeCount(minLevel, maxLevel, from + 1)
  }

  /** Membership: the row holds exactly the completions of prefix inside the last range. */
  lemma LastDimMembership(minLevel: LevelVector, maxLevel: LevelVector, prefix: LevelVector, v: LevelVector)
    requires |minLevel| == |maxLevel| >= 1 && |prefix| == |minLevel| - 1
    requires minLevel[|minLevel| - 1] <= maxLevel[|maxLevel| - 1]
    ensures v in HyperCubeLastDim(minLevel, maxLevel, prefix) <==>
              |v| >= |prefix| && v[..|prefix|] == prefix && InCubeFrom(v, minLevel, maxLevel, |prefix|)
  {
    var n := |prefix|;
    var r := HyperCubeLastDim(minLevel, maxLevel, prefix);
    if |v| >= n && v[..n] == prefix && InCubeFrom(v, minLevel, maxLevel, n) {
      var k := v[n] - minLevel[n];
      assert v == prefix + [v[n]];
      assert r[k] == v;
    }
  }

  /**
   * Membership: HyperCubeRec(prefix) holds exactly the vectors that start with
   * prefix and lie inside the hypercube in all later dimensions.
   */
  lemma {:induction false} HyperCubeRecMembership(
    minLevel: LevelVector, maxLevel: LevelVector, prefix: LevelVector, v: LevelVector)
    requires CubeArgs(minLevel, maxLevel, prefix)
    ensures v in HyperCubeRec(minLevel, maxLevel, prefix) <==>
              |v| >= |prefix| && v[..|prefix|] == prefix && InCubeFrom(v, minLevel, maxLevel, |prefix|)
    decreases |minLevel| - |prefix|, 1, 0
  {
    if |prefix| == |minLevel| - 1 {
      LastDimMembership(minLevel, maxLevel, prefix, v);
    } else {
      CubeRangeMembership(minLevel, maxLevel, prefix, minLevel[|prefix|], v);
    }
  }

  /** Being inside from dimension n on is being inside at n and from n + 1 on. */
  lemma InCubeFromStep(v: LevelVector, minLevel: LevelVector, maxLevel: LevelVector, n: nat)
    requires n < |v|
    ensures InCubeFrom(v, minLevel, maxLevel, n) <==>
              |v| == |minLevel| == |maxLevel| &&
              minLevel[n] <= v[n] <= maxLevel[n] && InCubeFrom(v, minLevel, maxLevel, n + 1)
  {
  }

  lemma {:induction false} CubeRangeMembership(
    minLevel: LevelVector, maxLevel: LevelVector, prefix: LevelVector, l: nat, v: LevelVector)
    requires CubeArgs(minLevel, maxLevel, prefix) && |prefix| < |minLevel| - 1
    requires minLevel[|prefix|] <= l
    ensures v in CubeRange(minLevel, maxLevel, prefix, l) <==>
              |v| > |prefix| && v[..|prefix|] == prefix && l <= v[|prefix|] &&
              InCubeFrom(v, minLevel, maxLevel, |prefix|)
    decreases |minLevel| - |prefix|, 0, maxLevel[|prefix|] + 1 - l
  {
    var n := |prefix|;
    if |v| > n {
      InCubeFromStep(v, minLevel, maxLevel, n);
    }
    if l <= maxLevel[n] {
      var p' := prefix + [l];
      HyperCubeRecMembership(minLevel, maxLevel, p', v);
      CubeRangeMembership(minLevel, maxLevel, prefix, l + 1, v);
      if |v| > n && v[..n] == prefix {
        assert v[..n + 1] == p' <==> v[n] == l by {
          if v[n] == l {
            assert v[..n + 1] == v[..n] + [v[n]];
          }
        }
      }
      if |v| > n + 1 && v[..n + 1] == p' {
        assert v[..n] == v[..n + 1][..n];
      }
    }
  }

  /** generateHyperCube returns exactly the level vectors between minLevel and maxLevel. */
  lemma HyperCubeMembership(minLevel: LevelVector, maxLevel: LevelVector, v: LevelVector)
    requires CubeArgs(minLevel, maxLevel, [])
    ensures v in HyperCube(minLevel, maxLevel) <==> InCube(v, minLevel, maxLevel)
  {
    HyperCubeRecMembership(minLevel, maxLevel, [], v);
  }

  /** Size: the product of the widths of the remaining dimensions. */
  lemma {:induction false} HyperCubeRecSize(minLevel: LevelVector, maxLevel: LevelVector, prefix: LevelVector)
    requires CubeArgs(minLevel, maxLevel, prefix)
    ensures |HyperCubeRec(minLevel, maxLevel, prefix)| == CubeCount(minLevel, maxLevel, |prefix|)
    decreases |minLevel| - |prefix|, 1, 0
  {
    var n := |prefix|;
    if n == |minLevel| - 1 {
      assert CubeCount(minLevel, maxLevel, n + 1) == 1;
    } else {
      CubeRangeSize(minLevel, maxLevel, prefix, minLevel[n]);
    }
  }

  lemma {:induction false} CubeRangeSize(minLevel: LevelVector, maxLevel: LevelVector, prefix: LevelVector, l: nat)
    requires CubeArgs(minLevel, maxLevel, prefix) && |prefix| < |minLevel| - 1
    requires minLevel[|prefix|] <= l
    ensures |CubeRange(minLevel, maxLevel, prefix, l)| ==
              (if l <= maxLevel[|prefix|] then maxLevel[|prefix|] + 1 - l else 0) *
              CubeCount(minLevel, maxLevel, |prefix| + 1)
    decreases |minLevel| - |prefix|, 0, maxLevel[|prefix|] + 1 - l
  {
    var n := |prefix|;
    if l <= maxLevel[n] {
      CubeArgsExtend(minLevel, maxLevel, prefix, l);
      HyperCubeRecSize(minLevel, maxLevel, prefix + [l]);
      CubeRangeSize(minLevel, maxLevel, prefix, l + 1);
      MulSucc(maxLevel[n] - l, CubeCount(minLevel, maxLevel, n + 1));
    }
  }

  /** A prefix extended by one more value still meets what generateHyperCubeRecursive demands. */
  lemma CubeArgsExtend(minLevel: LevelVector, maxLevel: LevelVector, prefix: LevelVector, l: nat)
    requires CubeArgs(minLevel, maxLevel, prefix) && |prefix| < |minLevel| - 1
    requires minLevel[|prefix|] <= l <= maxLevel[|prefix|]
    ensures CubeArgs(minLevel, maxLevel, prefix + [l])
  {
  }

  /** generateHyperCube returns prod_i (max[i] - min[i] + 1) vectors (0 if some range is empty). */
  lemma HyperCubeSize(minLevel: LevelVector, maxLevel: LevelVector)
    requires CubeArgs(minLevel, maxLevel, [])
    ensures |HyperCube(minLevel, maxLevel)| == CubeCount(minLevel, maxLevel, 0)
  {
    HyperCubeRecSize(minLevel, maxLevel, []);
  }

  /** The hypercube is listed in strictly increasing lexicographic order (last dimension fastest). */
  lemma {:induction false} HyperCubeRecSorted(minLevel: LevelVector, maxLevel: LevelVector, prefix: LevelVector)
    requires CubeArgs(minLevel, maxLevel, prefix)
    ensures StrictlySorted(HyperCubeRec(minLevel, maxLevel, prefix))
    decreases |minLevel| - |prefix|, 1, 0
  {
    var n := |prefix|;
    if n == |minLevel| - 1 {
      var r := HyperCubeRec(minLevel, maxLevel, prefix);
      forall i, j | 0 <= i < j < |r|
        ensures LexLess(r[i], r[j])
      {
        assert r[i][..n] == prefix == r[j][..n];
        LexAtFirstDifference(r[i], r[j], n);
      }
    } else {
      CubeRangeSorted(minLevel, maxLevel, prefix, minLevel[n]);
    }
  }

  lemma {:induction false} CubeRangeSorted(minLevel: LevelVector, maxLevel: LevelVector, prefix: LevelVector, l: nat)
    requires CubeArgs(minLevel, maxLevel, prefix) && |prefix| < |minLevel| - 1
    requires minLevel[|prefix|] <= l
    ensures StrictlySorted(CubeRange(minLevel, maxLevel, prefix, l))
    decreases |minLevel| - |prefix|, 0, maxLevel[|prefix|] + 1 - l
  {
    var n := |prefix|;
    if l <= maxLevel[n] {
      var p' := prefix + [l];
      var a := HyperCubeRec(minLevel, maxLevel, p');
      var b := CubeRange(minLevel, maxLevel, prefix, l + 1);
      HyperCubeRecSorted(minLevel, maxLevel, p');
      CubeRangeSorted(minLevel, maxLevel, prefix, l + 1);
      forall x, y | x in a && y in b
        ensures LexLess(x, y)
      {
        HyperCubeRecMembership(minLevel, maxLevel, p', x);
        CubeRangeMembership(minLevel, maxLevel, prefix, l + 1, y);
        assert x[..n] == x[..n + 1][..n] == prefix;
        assert x[n] == x[..n + 1][n] == l;
        LexAtFirstDifference(x, y, n);
      }
      StrictlySortedConcat(a, b);
    }
  }

  /** generateHyperCube lists each vector once, in strictly increasing lexicographic order. */
  lemma HyperCubeSorted(minLevel: LevelVector, maxLevel: LevelVector)
    requires CubeArgs(minLevel, maxLevel, [])
    ensures StrictlySorted(HyperCube(minLevel, maxLevel))
    ensures NoDuplicates(HyperCube(minLevel, maxLevel))
  {
    HyperCubeRecSorted(minLevel, maxLevel, []);
    StrictIsDistinct(HyperCube(minLevel, maxLevel));
  }

  /** generateHyperCubeRecursiveLastDim: one row of the hypercube. */
  method GenerateHyperCubeRecursiveLastDim(minLevel: LevelVector, maxLevel: LevelVector, prefix: LevelVector)
    returns (oneDRange: seq<LevelVector>)
    requires |minLevel| == |maxLevel| >= 1 && |prefix| == |minLevel| - 1
    requires minLevel[|minLevel| - 1] <= maxLevel[|maxLevel| - 1]
    ensures oneDRange == HyperCubeLastDim(minLevel, maxLevel, prefix)
  {
    var n := |prefix|;
    var lo, hi := minLevel[n], maxLevel[n];
    oneDRange := [];
    var current := prefix + [0];
    var l := lo;
    while l <= hi
      invariant lo <= l <= hi + 1
      invariant |current| == n + 1 && current[..n] == prefix
      invariant oneDRange == seq(l - lo, k => prefix + [lo + k])
    {
      current := current[n := l];
      assert current == prefix + [l];
      oneDRange := oneDRange + [current];
      l := l + 1;
    }
  }

  /** generateHyperCubeRecursive: recursion over the dimensions after prefix. */
  method GenerateHyperCubeRecursive(minLevel: LevelVector, maxLevel: LevelVector, prefix: LevelVector)
    returns (currentVector: seq<LevelVector>)
    requires CubeArgs(minLevel, maxLevel, prefix)
    ensures currentVector == HyperCubeRec(minLevel, maxLevel, prefix)
    decreases |minLevel| - |prefix|
  {
    currentVector := [];
    var currentDim := |prefix|;
    if currentDim == |minLevel| - 1 {
      var newPole := GenerateHyperCubeRecursiveLastDim(minLevel, maxLevel, prefix);
      currentVector := currentVector + newPole;
    } else {
      var newPrefix := prefix + [0];
      var l := minLevel[currentDim];
      while l <= maxLevel[currentDim]
        invariant minLevel[currentDim] <= l
        invariant |newPrefix| == currentDim + 1 && newPrefix[..currentDim] == prefix
        invariant currentVector + CubeRange(minLevel, maxLevel, prefix, l) ==
                  CubeRange(minLevel, maxLevel, prefix, minLevel[currentDim])
      {
        newPrefix := newPrefix[currentDim := l];
        assert newPrefix == prefix + [l];
        var newHypercube := GenerateHyperCubeRecursive(minLevel, maxLevel, newPrefix);
        currentVector := currentVector + newHypercube;
        l := l + 1;
      }
    }
  }

  /** generateHyperCube: all level vectors between minLevel and maxLevel. */
  method GenerateHyperCube(minLevel: LevelVector, maxLevel: LevelVector) returns (r: seq<LevelVector>)
    requires CubeArgs(minLevel, maxLevel, [])
    ensures r == HyperCube(minLevel, maxLevel)
    ensures forall v :: v in r <==> InCube(v, minLevel, maxLevel)
  {
    r := GenerateHyperCubeRecursive(minLevel, maxLevel, []);
    forall v {
      HyperCubeMembership(minLevel, maxLevel, v);
    }
  }

  // ---------------------------------------------------------------------
  // Diagonal
  // ---------------------------------------------------------------------

  /** Sum of the entries. */
  function Sum(v: LevelVector): nat
  {
    if |v| == 0 then 0 else Sum(v[..|v| - 1]) + v[|v| - 1]
  }

  /** v >= minLevel component-wise on the first n dimensions. */
  predicate AtLeastUpTo(v: LevelVector, minLevel: LevelVector, n: nat)
    requires n <= |v| && n <= |minLevel|
  {
    forall i :: 0 <= i < n ==> v[i] >= minLevel[i]
  }

  /** What generateDiagonalRecursive demands: minLevelSum is the sum of the still free minima. */
  predicate DiagonalArgs(minLevel: LevelVector, minLevelSum: nat, suffix: LevelVector)
  {
    |suffix| < |minLevel| && minLevelSum == Sum(minLevel[..|minLevel| - |suffix|])
  }

  lemma SumStep(v: LevelVector, n: nat)
    requires n < |v|
    ensures Sum(v[..n + 1]) == Sum(v[..n]) + v[n]
  {
    assert v[..n + 1][..n] == v[..n];
  }

  /** The sum of a vector above minLevel is at least the sum of minLevel. */
  lemma {:induction false} SumMonotone(v: LevelVector, minLevel: LevelVector, n: nat)
    requires n <= |v| && n <= |minLevel| && AtLeastUpTo(v, minLevel, n)
    ensures Sum(v[..n]) >= Sum(minLevel[..n])
    decreases n
  {
    if n > 0 {
      SumMonotone(v, minLevel, n - 1);
      SumStep(v, n - 1);
      SumStep(minLevel, n - 1);
    }
  }

  /**
   * All level vectors w + suffix with w >= minLevel[..|w|] component-wise and
   * sum(w) == levelSum; the free dimension nearest the suffix varies slowest.
   */
  function DiagonalRec(minLevel: LevelVector, minLevelSum: nat, levelSum: nat, suffix: LevelVector)
    : seq<LevelVector>
    requires DiagonalArgs(minLevel, minLevelSum, suffix)
    decreases |minLevel| - |suffix|, 1, 0
  {
    var currentDim := |minLevel| - |suffix|;
    if levelSum < minLevelSum then []
    else if currentDim == 1 then [[levelSum] + suffix]
    else
      SumStep(minLevel, currentDim - 1);
      DiagonalRange(minLevel, minLevelSum - minLevel[currentDim - 1], levelSum, suffix,
                    minLevel[currentDim - 1])
  }

  /**
   * The loop of generateDiagonalRecursive from value l of the current
   * dimension on.  Every recursive call receives levelSum - l >= newMinLevelSum,
   * so none of the unsigned subtractions can wrap.
   */
  function DiagonalRange(minLevel: LevelVector, newMinLevelSum: nat, levelSum: nat,
                         suffix: LevelVector, l: nat): seq<LevelVector>
    requires |suffix| + 1 < |minLevel|
    requires newMinLevelSum == Sum(minLevel[..|minLevel| - |suffix| - 1])
    requires newMinLevelSum <= levelSum
    decreases |minLevel| - |suffix|, 0, levelSum - newMinLevelSum + 1 - l
  {
    if l > levelSum - newMinLevelSum then []
    else
      DiagonalRec(minLevel, newMinLevelSum, levelSum - l, [l] + suffix) +
      DiagonalRange(minLevel, newMinLevelSum, levelSum, suffix, l + 1)
  }

  /** One value of the loop: its vectors come first, then those of the later values. */
  lemma DiagonalRangeStep(minLevel: LevelVector, newMinLevelSum: nat, levelSum: nat, suffix: LevelVector, l: nat)
    requires |suffix| + 1 < |minLevel|
    requires newMinLevelSum == Sum(minLevel[..|minLevel| - |suffix| - 1])
    requires l <= levelSum - newMinLevelSum
    ensures DiagonalArgs(minLevel, newMinLevelSum, [l] + suffix)
    ensures DiagonalRange(minLevel, newMinLevelSum, levelSum, suffix, l) ==
            DiagonalRec(minLevel, newMinLevelSum, levelSum - l, [l] + suffix) +
            DiagonalRange(minLevel, newMinLevelSum, levelSum, suffix, l + 1)
  {
  }

  /** generateDiagonal(minLevel, levelSum). */
  function Diagonal(minLevel: LevelVector, levelSum: nat): seq<LevelVector>
  {
    if |minLevel| == 0 then (if levelSum == 0 then [[]] else [])
    else
      assert minLevel[..|minLevel|] == minLevel;
      DiagonalRec(minLevel, Sum(minLevel), levelSum, [])
  }

  /** v is on the diagonal of minLevel with the given level sum. */
  predicate OnDiagonal(v: LevelVector, minLevel: LevelVector, levelSum: nat)
  {
    |v| == |minLevel| && AtLeastUpTo(v, minLevel, |v|) && Sum(v) == levelSum
  }

  /** Membership of DiagonalRec: exactly the completions w + suffix described above. */
  lemma {:induction false} DiagonalRecMembership(
    minLevel: LevelVector, minLevelSum: nat, levelSum: nat, suffix: LevelVector, v: LevelVector)
    requires DiagonalArgs(minLevel, minLevelSum, suffix)
    ensures var c := |minLevel| - |suffix|;
            v in DiagonalRec(minLevel, minLevelSum, levelSum, suffix) <==>
              |v| == |minLevel| && v[c..] == suffix && AtLeastUpTo(v, minLevel, c) && Sum(v[..c]) == levelSum
    decreases |minLevel| - |suffix|, 1, 0
  {
    var c := |minLevel| - |suffix|;
    var r := DiagonalRec(minLevel, minLevelSum, levelSum, suffix);
    var rhs := |v| == |minLevel| && v[c..] == suffix && AtLeastUpTo(v, minLevel, c) && Sum(v[..c]) == levelSum;
    if levelSum < minLevelSum {
      if rhs {
        SumMonotone(v, minLevel, c);
        assert false;
      }
    } else if c == 1 {
      if rhs {
        assert v[..1] == [v[0]];
        assert Sum(v[..1]) == v[0];
        assert v == [v[0]] + v[1..];
      }
      if v in r {
        assert v == [levelSum] + suffix;
        assert v[..1] == [levelSum];
        assert Sum(v[..1]) == levelSum;
        assert Sum(minLevel[..1]) == minLevel[0];
        assert minLevel[..1][..0] == [];
      }
    } else {
      SumStep(minLevel, c - 1);
      DiagonalRangeMembership(minLevel, minLevelSum - minLevel[c - 1], levelSum, suffix, minLevel[c - 1], v);
    }
  }

  /** Being at least minLevel on the first n dimensions is being so on n - 1 and at n - 1. */
  lemma AtLeastUpToStep(v: LevelVector, minLevel: LevelVector, n: nat)
    requires 0 < n <= |v| && n <= |minLevel|
    ensures AtLeastUpTo(v, minLevel, n) <==> AtLeastUpTo(v, minLevel, n - 1) && v[n - 1] >= minLevel[n - 1]
  {
  }

  /** v ends in [l] + suffix exactly when it ends in suffix with l just before. */
  lemma SuffixSplit(v: LevelVector, suffix: LevelVector, l: nat)
    requires |suffix| < |v|
    ensures var c := |v| - |suffix|;
            v[c - 1..] == [l] + suffix <==> v[c..] == suffix && v[c - 1] == l
  {
    var c := |v| - |suffix|;
    assert v[c - 1..] == [v[c - 1]] + v[c..];
  }

  lemma {:induction false} DiagonalRangeMembership(minLevel: LevelVector, newMinLevelSum: nat,
    levelSum: nat, suffix: LevelVector, l: nat, v: LevelVector)
    requires |suffix| + 1 < |minLevel|
    requires newMinLevelSum == Sum(minLevel[..|minLevel| - |suffix| - 1])
    requires newMinLevelSum <= levelSum
    requires minLevel[|minLevel| - |suffix| - 1] <= l
    ensures var c := |minLevel| - |suffix|;
            v in DiagonalRange(minLevel, newMinLevelSum, levelSum, suffix, l) <==>
              |v| == |minLevel| && v[c..] == suffix && l <= v[c - 1] &&
              AtLeastUpTo(v, minLevel, c) && Sum(v[..c]) == levelSum
    decreases |minLevel| - |suffix|, 0, levelSum - newMinLevelSum + 1 - l
  {
    var c := |minLevel| - |suffix|;
    var rhs := |v| == |minLevel| && v[c..] == suffix && l <= v[c - 1] &&
               AtLeastUpTo(v, minLevel, c) && Sum(v[..c]) == levelSum;
    if l > levelSum - newMinLevelSum {
      if rhs {
        SumStep(v, c - 1);
        SumMonotone(v, minLevel, c - 1);
        assert false;
      }
    } else {
      var s' := [l] + suffix;
      DiagonalRangeStep(minLevel, newMinLevelSum, levelSum, suffix, l);
      DiagonalRecMembership(minLevel, newMinLevelSum, levelSum - l, s', v);
      DiagonalRangeMembership(minLevel, newMinLevelSum, levelSum, suffix, l + 1, v);
      if |v| == |minLevel| {
        SumStep(v, c - 1);
        AtLeastUpToStep(v, minLevel, c);
        SuffixSplit(v, suffix, l);
        assert v in DiagonalRec(minLevel, newMinLevelSum, levelSum - l, s') <==> rhs && v[c - 1] == l;
      }
    }
  }

  /** generateDiagonal returns exactly the vectors >= minLevel whose entries sum to levelSum. */
  lemma DiagonalMembership(minLevel: LevelVector, levelSum: nat, v: LevelVector)
    ensures v in Diagonal(minLevel, levelSum) <==> OnDiagonal(v, minLevel, levelSum)
  {
    if |minLevel| > 0 {
      assert minLevel[..|minLevel|] == minLevel;
      DiagonalRecMembership(minLevel, Sum(minLevel), levelSum, [], v);
      if |v| == |minLevel| {
        assert v[..|v|] == v;
      }
    }
  }

  /** Diagonal entries built on distinct suffixes, each exactly once. */
  lemma {:induction false} DiagonalRecDistinct(
    minLevel: LevelVector, minLevelSum: nat, levelSum: nat, suffix: LevelVector)
    requires DiagonalArgs(minLevel, minLevelSum, suffix)
    ensures NoDuplicates(DiagonalRec(minLevel, minLevelSum, levelSum, suffix))
    decreases |minLevel| - |suffix|, 1, 0
  {
    var c := |minLevel| - |suffix|;
    if levelSum >= minLevelSum && c > 1 {
      SumStep(minLevel, c - 1);
      DiagonalRangeDistinct(minLevel, minLevelSum - minLevel[c - 1], levelSum, suffix, minLevel[c - 1]);
    }
  }

  lemma {:induction false} DiagonalRangeDistinct(minLevel: LevelVector, newMinLevelSum: nat,
    levelSum: nat, suffix: LevelVector, l: nat)
    requires |suffix| + 1 < |minLevel|
    requires newMinLevelSum == Sum(minLevel[..|minLevel| - |suffix| - 1])
    requires newMinLevelSum <= levelSum
    requires minLevel[|minLevel| - |suffix| - 1] <= l
    ensures NoDuplicates(DiagonalRange(minLevel, newMinLevelSum, levelSum, suffix, l))
    decreases |minLevel| - |suffix|, 0, levelSum - newMinLevelSum + 1 - l
  {
    var c := |minLevel| - |suffix|;
    if l <= levelSum - newMinLevelSum {
      var s' := [l] + suffix;
      var a := DiagonalRec(minLevel, newMinLevelSum, levelSum - l, s');
      var b := DiagonalRange(minLevel, newMinLevelSum, levelSum, suffix, l + 1);
      DiagonalRecDistinct(minLevel, newMinLevelSum, levelSum - l, s');
      DiagonalRangeDistinct(minLevel, newMinLevelSum, levelSum, suffix, l + 1);
      forall x
        ensures multiset(a + b)[x] <= 1
      {
        assert multiset(a + b) == multiset(a) + multiset(b);
        if x in a && x in b {
          DiagonalRecMembership(minLevel, newMinLevelSum, levelSum - l, s', x);
          DiagonalRangeMembership(minLevel, newMinLevelSum, levelSum, suffix, l + 1, x);
          assert false;
        }
      }
    }
  }

  /** generateDiagonal lists every vector of the diagonal exactly once. */
  lemma DiagonalDistinct(minLevel: LevelVector, levelSum: nat)
    ensures NoDuplicates(Diagonal(minLevel, levelSum))
  {
    if |minLevel| > 0 {
      assert minLevel[..|minLevel|] == minLevel;
      DiagonalRecDistinct(minLevel, Sum(minLevel), levelSum, []);
    }
  }

  /**
   * Number of d-tuples of naturals with sum n (d >= 1), by Pascal's rule:
   * either the last entry is 0, or subtracting one from it gives a tuple with sum n - 1.
   */
  function Compositions(d: nat, n: nat): nat
    requires d >= 1
  {
    if d == 1 || n == 0 then 1 else Compositions(d, n - 1) + Compositions(d - 1, n)
  }

  lemma {:induction false} DiagonalRecSize(minLevel: LevelVector, minLevelSum: nat, levelSum: nat, suffix: LevelVector)
    requires DiagonalArgs(minLevel, minLevelSum, suffix)
    ensures |DiagonalRec(minLevel, minLevelSum, levelSum, suffix)| ==
              if levelSum < minLevelSum then 0
              else Compositions(|minLevel| - |suffix|, levelSum - minLevelSum)
    decreases |minLevel| - |suffix|, 1, 0
  {
    var c := |minLevel| - |suffix|;
    if levelSum >= minLevelSum && c > 1 {
      SumStep(minLevel, c - 1);
      DiagonalRangeSize(minLevel, minLevelSum - minLevel[c - 1], levelSum, suffix, minLevel[c - 1]);
    }
  }

  lemma {:induction false} DiagonalRangeSize(minLevel: LevelVector, newMinLevelSum: nat,
    levelSum: nat, suffix: LevelVector, l: nat)
    requires |suffix| + 1 < |minLevel|
    requires newMinLevelSum == Sum(minLevel[..|minLevel| - |suffix| - 1])
    requires newMinLevelSum <= levelSum
    ensures var top := levelSum - newMinLevelSum;
            |DiagonalRange(minLevel, newMinLevelSum, levelSum, suffix, l)| ==
              if l > top then 0 else Compositions(|minLevel| - |suffix|, top - l)
    decreases |minLevel| - |suffix|, 0, levelSum - newMinLevelSum + 1 - l
  {
    var top := levelSum - newMinLevelSum;
    if l <= top {
      DiagonalRecSize(minLevel, newMinLevelSum, levelSum - l, [l] + suffix);
      DiagonalRangeSize(minLevel, newMinLevelSum, levelSum, suffix, l + 1);
    }
  }

  /** generateDiagonal(minLevel, levelSum) has Compositions(d, levelSum - sum(minLevel)) entries. */
  lemma DiagonalSize(minLevel: LevelVector, levelSum: nat)
    requires |minLevel| >= 1
    ensures |Diagonal(minLevel, levelSum)| ==
              if levelSum < Sum(minLevel) then 0 else Compositions(|minLevel|, levelSum - Sum(minLevel))
  {
    assert minLevel[..|minLevel|] == minLevel;
    DiagonalRecSize(minLevel, Sum(minLevel), levelSum, []);
  }

  /** Boundary cases of generateDiagonal: no dimensions, or a level sum below the minimum sum. */
  lemma DiagonalEdgeCases(minLevel: LevelVector, levelSum: nat)
    ensures |minLevel| == 0 ==> Diagonal(minLevel, levelSum) == (if levelSum == 0 then [[]] else [])
    ensures levelSum < Sum(minLevel) ==> Diagonal(minLevel, levelSum) == []
  {
    if |minLevel| > 0 {
      assert minLevel[..|minLevel|] == minLevel;
    }
  }

  /** generateDiagonalRecursive: appends DiagonalRec(...) to result. */
  method GenerateDiagonalRecursive(minLevel: LevelVector, minLevelSum: nat, levelSum: nat,
                                   suffix: LevelVector, result: seq<LevelVector>)
    returns (result': seq<LevelVector>)
    requires DiagonalArgs(minLevel, minLevelSum, suffix)
    ensures result' == result + DiagonalRec(minLevel, minLevelSum, levelSum, suffix)
    decreases |minLevel| - |suffix|, 1
  {
    var dim := |minLevel|;
    var currentDim := dim - |suffix|;
    result' := result;
    if levelSum < minLevelSum {
      return;
    } else if currentDim == 1 {
      var l := [levelSum] + suffix;
      result' := result' + [l];
    } else {
      SumStep(minLevel, currentDim - 1);
      var newMinLevelSum := minLevelSum - minLevel[currentDim - 1];
      result' := GenerateDiagonalLevels(minLevel, newMinLevelSum, levelSum, suffix, result');
    }
  }

  /** The loop of generateDiagonalRecursive over the values of the current dimension. */
  method GenerateDiagonalLevels(minLevel: LevelVector, newMinLevelSum: nat, levelSum: nat,
                                suffix: LevelVector, result: seq<LevelVector>)
    returns (result': seq<LevelVector>)
    requires |suffix| + 1 < |minLevel|
    requires newMinLevelSum == Sum(minLevel[..|minLevel| - |suffix| - 1])
    requires newMinLevelSum + minLevel[|minLevel| - |suffix| - 1] <= levelSum
    ensures result' == result + DiagonalRange(minLevel, newMinLevelSum, levelSum, suffix,
                                              minLevel[|minLevel| - |suffix| - 1])
    decreases |minLevel| - |suffix|, 0
  {
    var currentDim := |minLevel| - |suffix|;
    result' := result;
    var newSuffix := [0] + suffix;
    var l := minLevel[currentDim - 1];
    while l <= levelSum - newMinLevelSum
      invariant minLevel[currentDim - 1] <= l <= levelSum - newMinLevelSum + 1
      invariant |newSuffix| == |suffix| + 1 && newSuffix[1..] == suffix
      invariant result' + DiagonalRange(minLevel, newMinLevelSum, levelSum, suffix, l) ==
                result + DiagonalRange(minLevel, newMinLevelSum, levelSum, suffix, minLevel[currentDim - 1])
    {
      newSuffix := newSuffix[0 := l];
      assert newSuffix == [l] + suffix;
      DiagonalRangeStep(minLevel, newMinLevelSum, levelSum, suffix, l);
      ghost var before := result';
      result' := GenerateDiagonalRecursive(minLevel, newMinLevelSum, levelSum - l, newSuffix, result');
      assert result' + DiagonalRange(minLevel, newMinLevelSum, levelSum, suffix, l + 1) ==
             before + DiagonalRange(minLevel, newMinLevelSum, levelSum, suffix, l);
      l := l + 1;
    }
  }

  /** generateDiagonal: all vectors >= minLevel with the given level sum, each once. */
  method GenerateDiagonal(minLevel: LevelVector, levelSum: nat) returns (r: seq<LevelVector>)
    ensures r == Diagonal(minLevel, levelSum)
    ensures forall v :: v in r <==> OnDiagonal(v, minLevel, levelSum)
  {
    if |minLevel| == 0 {
      if levelSum == 0 {
        r := [[]];
      } else {
        r := [];
      }
    } else {
      var minLevelSum := Sum(minLevel);
      assert minLevel[..|minLevel|] == minLevel;
      r := GenerateDiagonalRecursive(minLevel, minLevelSum, levelSum, [], []);
    }
    forall v {
      DiagonalMembership(minLevel, levelSum, v);
    }
  }

  /** generateDiagonalWithBoundary: minimum level 0 in every dimension. */
  method GenerateDiagonalWithBoundary(dim: nat, levelSum: nat) returns (r: seq<LevelVector>)
    ensures r == Diagonal(seq(dim, _ => 0), levelSum)
    ensures forall v :: v in r <==> |v| == dim && Sum(v) == levelSum
  {
    r := GenerateDiagonal(seq(dim, _ => 0), levelSum);
  }

  /** generateDiagonalWithoutBoundary: minimum level 1 in every dimension. */
  method GenerateDiagonalWithoutBoundary(dim: nat, levelSum: nat) returns (r: seq<LevelVector>)
    ensures r == Diagonal(seq(dim, _ => 1), levelSum)
    ensures forall v :: v in r <==>
              |v| == dim && (forall i :: 0 <= i < dim ==> v[i] >= 1) && Sum(v) == levelSum
  {
    r := GenerateDiagonal(seq(dim, _ => 1), levelSum);
  }

  /** The diagonal counts of the combination-grid enumeration for d = 3. */
  lemma DiagonalCountsThreeDimensions()
    ensures |Diagonal([0, 0, 0], 5)| == 21
    ensures |Diagonal([1, 1, 1], 7)| == 15
  {
    DiagonalSize([0, 0, 0], 5);
    DiagonalSize([1, 1, 1], 7);
    assert Sum([0, 0, 0]) == 0 by {
      assert [0, 0, 0][..2] == [0, 0];
      assert [0, 0][..1] == [0];
      assert [0][..0] == [];
    }
    assert Sum([1, 1, 1]) == 3 by {
      assert [1, 1, 1][..2] == [1, 1];
      assert [1, 1][..1] == [1];
      assert [1][..0] == [];
    }
    assert Compositions(3, 5) == 21;
    assert Compositions(3, 4) == 15;
  }

  // ---------------------------------------------------------------------
  // Downward closure
  // ---------------------------------------------------------------------

  /**
   * What makeDownwardClosed demands: at least one subspace level (it reads the
   * first one), and every subspace level is a valid maximum for
   * generateHyperCube with the lowest level vector as minimum.
   */
  predicate ClosureArgs(subspaceLevels: seq<LevelVector>, lowestLevelVector: LevelVector)
  {
    |subspaceLevels| >= 1 &&
    forall i :: 0 <= i < |subspaceLevels| ==> CubeArgs(lowestLevelVector, subspaceLevels[i], [])
  }

  /** Push every level of candidates, in order, that is not yet in acc (std::find then push_back). */
  function AddMissing(acc: seq<LevelVector>, candidates: seq<LevelVector>): seq<LevelVector>
  {
    if |candidates| == 0 then acc
    else
      var a := AddMissing(acc, candidates[..|candidates| - 1]);
      var level := candidates[|candidates| - 1];
      if level in a then a else a + [level]
  }

  /** The outer loop of makeDownwardClosed after its first n subspace levels. */
  function AddHyperCubes(acc: seq<LevelVector>, subspaceLevels: seq<LevelVector>,
                         lowestLevelVector: LevelVector, n: nat): seq<LevelVector>
    requires n <= |subspaceLevels|
    requires forall i :: 0 <= i < |subspaceLevels| ==> CubeArgs(lowestLevelVector, subspaceLevels[i], [])
  {
    if n == 0 then acc
    else AddMissing(AddHyperCubes(acc, subspaceLevels, lowestLevelVector, n - 1),
                    HyperCube(lowestLevelVector, subspaceLevels[n - 1]))
  }

  /** makeDownwardClosed(subspaceLevels, lowestLevelVector). */
  function DownwardClosed(subspaceLevels: seq<LevelVector>, lowestLevelVector: LevelVector)
    : seq<LevelVector>
    requires ClosureArgs(subspaceLevels, lowestLevelVector)
  {
    SortLex(AddHyperCubes(subspaceLevels, subspaceLevels, lowestLevelVector, |subspaceLevels|))
  }

  /** Multiplicities after AddMissing: levels of acc keep theirs, new levels occur once. */
  lemma {:induction false} AddMissingCount(acc: seq<LevelVector>, candidates: seq<LevelVector>, x: LevelVector)
    ensures multiset(AddMissing(acc, candidates))[x] ==
              if x in acc then multiset(acc)[x] else if x in candidates then 1 else 0
    decreases |candidates|
  {
    if |candidates| > 0 {
      var c' := candidates[..|candidates| - 1];
      var level := candidates[|candidates| - 1];
      assert candidates == c' + [level];
      AddMissingCount(acc, c', x);
      AddMissingCount(acc, c', level);
    }
  }

  /** AddMissing adds exactly the candidates that were missing. */
  lemma AddMissingMembership(acc: seq<LevelVector>, candidates: seq<LevelVector>, x: LevelVector)
    ensures x in AddMissing(acc, candidates) <==> x in acc || x in candidates
  {
    AddMissingCount(acc, candidates, x);
  }

  /** AddMissing changes nothing when every candidate is already present. */
  lemma {:induction false} AddMissingPresent(acc: seq<LevelVector>, candidates: seq<LevelVector>)
    requires forall x :: x in candidates ==> x in acc
    ensures AddMissing(acc, candidates) == acc
    decreases |candidates|
  {
    if |candidates| > 0 {
      var c' := candidates[..|candidates| - 1];
      assert forall x :: x in c' ==> x in candidates;
      AddMissingPresent(acc, c');
    }
  }

  /** Membership after the outer loop: acc, and the hypercubes below the first n subspace levels. */
  lemma {:induction false} AddHyperCubesMembership(acc: seq<LevelVector>, subspaceLevels: seq<LevelVector>,
    lowestLevelVector: LevelVector, n: nat, x: LevelVector)
    requires n <= |subspaceLevels|
    requires forall i :: 0 <= i < |subspaceLevels| ==> CubeArgs(lowestLevelVector, subspaceLevels[i], [])
    ensures x in AddHyperCubes(acc, subspaceLevels, lowestLevelVector, n) <==>
              x in acc || exists i :: 0 <= i < n && InCube(x, lowestLevelVector, subspaceLevels[i])
  {
    if n > 0 {
      AddHyperCubesMembership(acc, subspaceLevels, lowestLevelVector, n - 1, x);
      AddMissingMembership(AddHyperCubes(acc, subspaceLevels, lowestLevelVector, n - 1),
                           HyperCube(lowestLevelVector, subspaceLevels[n - 1]), x);
      HyperCubeMembership(lowestLevelVector, subspaceLevels[n - 1], x);
    }
  }

  /** Multiplicities after the outer loop: levels of acc keep theirs, every other level occurs at most once. */
  lemma {:induction false} AddHyperCubesCount(acc: seq<LevelVector>, subspaceLevels: seq<LevelVector>,
    lowestLevelVector: LevelVector, n: nat, x: LevelVector)
    requires n <= |subspaceLevels|
    requires forall i :: 0 <= i < |subspaceLevels| ==> CubeArgs(lowestLevelVector, subspaceLevels[i], [])
    ensures var m := multiset(AddHyperCubes(acc, subspaceLevels, lowestLevelVector, n))[x];
            if x in acc then m == multiset(acc)[x] else m <= 1
  {
    if n > 0 {
      var a := AddHyperCubes(acc, subspaceLevels, lowestLevelVector, n - 1);
      AddHyperCubesCount(acc, subspaceLevels, lowestLevelVector, n - 1, x);
      AddHyperCubesMembership(acc, subspaceLevels, lowestLevelVector, n - 1, x);
      AddMissingCount(a, HyperCube(lowestLevelVector, subspaceLevels[n - 1]), x);
      if x in acc {
        assert x in a;
      }
    }
  }

  /**
   * makeDownwardClosed returns exactly the subspace levels together with every
   * level vector between the lowest level vector and one of them.
   */
  lemma DownwardClosedMembership(subspaceLevels: seq<LevelVector>, lowestLevelVector: LevelVector, x: LevelVector)
    requires ClosureArgs(subspaceLevels, lowestLevelVector)
    ensures x in DownwardClosed(subspaceLevels, lowestLevelVector) <==>
              x in subspaceLevels ||
              exists i :: 0 <= i < |subspaceLevels| && InCube(x, lowestLevelVector, subspaceLevels[i])
  {
    var a := AddHyperCubes(subspaceLevels, subspaceLevels, lowestLevelVector, |subspaceLevels|);
    AddHyperCubesMembership(subspaceLevels, subspaceLevels, lowestLevelVector, |subspaceLevels|, x);
    assert x in SortLex(a) <==> x in multiset(SortLex(a));
  }

  /** The result is sorted, and it is closed downwards: below a member (and above the lowest level) is a member. */
  lemma DownwardClosedIsClosed(subspaceLevels: seq<LevelVector>, lowestLevelVector: LevelVector,
                               w: LevelVector, u: LevelVector)
    requires ClosureArgs(subspaceLevels, lowestLevelVector)
    requires w in DownwardClosed(subspaceLevels, lowestLevelVector)
    requires InCube(u, lowestLevelVector, w)
    ensures u in DownwardClosed(subspaceLevels, lowestLevelVector)
    ensures Sorted(DownwardClosed(subspaceLevels, lowestLevelVector))
  {
    DownwardClosedMembership(subspaceLevels, lowestLevelVector, w);
    DownwardClosedMembership(subspaceLevels, lowestLevelVector, u);
    if w in subspaceLevels {
      var i :| 0 <= i < |subspaceLevels| && subspaceLevels[i] == w;
      assert InCube(u, lowestLevelVector, subspaceLevels[i]);
    } else {
      var i :| 0 <= i < |subspaceLevels| && InCube(w, lowestLevelVector, subspaceLevels[i]);
      assert InCube(u, lowestLevelVector, subspaceLevels[i]);
    }
  }

  /** Input levels without duplicates give a strictly increasing result: every level once. */
  lemma DownwardClosedStrict(subspaceLevels: seq<LevelVector>, lowestLevelVector: LevelVector)
    requires ClosureArgs(subspaceLevels, lowestLevelVector)
    requires NoDuplicates(subspaceLevels)
    ensures StrictlySorted(DownwardClosed(subspaceLevels, lowestLevelVector))
  {
    var a := AddHyperCubes(subspaceLevels, subspaceLevels, lowestLevelVector, |subspaceLevels|);
    forall x
      ensures multiset(a)[x] <= 1
    {
      AddHyperCubesCount(subspaceLevels, subspaceLevels, lowestLevelVector, |subspaceLevels|, x);
    }
    SortedDistinctIsStrict(SortLex(a));
  }

  /** Closing a downward-closed set again changes nothing. */
  lemma DownwardClosedIdempotent(subspaceLevels: seq<LevelVector>, lowestLevelVector: LevelVector)
    requires ClosureArgs(subspaceLevels, lowestLevelVector)
    ensures ClosureArgs(DownwardClosed(subspaceLevels, lowestLevelVector), lowestLevelVector)
    ensures DownwardClosed(DownwardClosed(subspaceLevels, lowestLevelVector), lowestLevelVector) ==
            DownwardClosed(subspaceLevels, lowestLevelVector)
  {
    var r := DownwardClosed(subspaceLevels, lowestLevelVector);
    var low := lowestLevelVector;
    DownwardClosedMembership(subspaceLevels, low, subspaceLevels[0]);
    forall i | 0 <= i < |r|
      ensures CubeArgs(low, r[i], [])
    {
      ClosureMemberArgs(subspaceLevels, low, r[i]);
    }
    forall v, x | v in r && InCube(x, low, v)
      ensures x in r
    {
      DownwardClosedIsClosed(subspaceLevels, low, v, x);
    }
    AddHyperCubesIdle(r, low, |r|);
    SortSortedIsIdentity(r);
  }

  /** Every member of the closure is again a valid maximum for generateHyperCube. */
  lemma ClosureMemberArgs(subspaceLevels: seq<LevelVector>, low: LevelVector, v: LevelVector)
    requires ClosureArgs(subspaceLevels, low)
    requires v in DownwardClosed(subspaceLevels, low)
    ensures CubeArgs(low, v, [])
  {
    DownwardClosedMembership(subspaceLevels, low, v);
    if v !in subspaceLevels {
      var k :| 0 <= k < |subspaceLevels| && InCube(v, low, subspaceLevels[k]);
      assert low[|low| - 1] <= v[|low| - 1];
    } else {
      var k :| 0 <= k < |subspaceLevels| && subspaceLevels[k] == v;
      assert CubeArgs(low, subspaceLevels[k], []);
    }
  }

  /** Every level vector between the lowest one and a member of r is in r. */
  ghost predicate ClosedBelow(r: seq<LevelVector>, low: LevelVector)
  {
    forall v, x :: v in r && InCube(x, low, v) ==> x in r
  }

  /** Helper of DownwardClosedIdempotent: the hypercubes below members of a closed set add nothing. */
  lemma {:induction false} AddHyperCubesIdle(r: seq<LevelVector>, low: LevelVector, n: nat)
    requires ClosedBelow(r, low)
    requires n <= |r|
    requires forall i :: 0 <= i < |r| ==> CubeArgs(low, r[i], [])
    ensures AddHyperCubes(r, r, low, n) == r
  {
    if n > 0 {
      AddHyperCubesIdle(r, low, n - 1);
      var cube := HyperCube(low, r[n - 1]);
      forall x | x in cube
        ensures x in r
      {
        HyperCubeMembership(low, r[n - 1], x);
      }
      AddMissingPresent(r, cube);
    }
  }

  /** makeDownwardClosed: add each missing hypercube level, then sort. */
  method MakeDownwardClosed(subspaceLevels: seq<LevelVector>, lowestLevelVector: LevelVector)
    returns (downwardClosedSet: seq<LevelVector>)
    requires ClosureArgs(subspaceLevels, lowestLevelVector)
    ensures downwardClosedSet == DownwardClosed(subspaceLevels, lowestLevelVector)
  {
    downwardClosedSet := subspaceLevels;
    var i := 0;
    while i < |subspaceLevels|
      invariant i <= |subspaceLevels|
      invariant downwardClosedSet == AddHyperCubes(subspaceLevels, subspaceLevels, lowestLevelVector, i)
    {
      var cube := GenerateHyperCube(lowestLevelVector, subspaceLevels[i]);
      ghost var before := downwardClosedSet;
      var j := 0;
      while j < |cube|
        invariant j <= |cube|
        invariant downwardClosedSet == AddMissing(before, cube[..j])
      {
        var level := cube[j];
        if level !in downwardClosedSet {
          downwardClosedSet := downwardClosedSet + [level];
        }
        assert cube[..j + 1][..j] == cube[..j];
        j := j + 1;
      }
      assert cube[..|cube|] == cube;
      i := i + 1;
    }
    downwardClosedSet := SortLex(downwardClosedSet);
  }
}
