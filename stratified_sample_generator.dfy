/**
 * The stratified Monte Carlo sample generator.  Every dimension i is cut into
 * numberOfStrata[i] strata of equal width; the generator keeps the stratum
 * it uses next in each dimension and, after every sample, advances these
 * counters like an odometer with the FIRST dimension turning fastest.  So the
 * counters run through every combination of strata once, in the mixed-radix
 * order of MixedRadix, and then start again at all zeros.
 *
 * Counts arrive as signed 64-bit integers and are cast to the unsigned 64-bit
 * size_t before a count below 1 is raised to 1.  The cast maps a negative
 * count x to x + 2^64, so only a requested 0 becomes 1.
 */
module StratifiedSampling {
  import opened MixedRadix

  /** 2^64: size_t is an unsigned 64-bit integer. */
  const SizeTModulus: nat := 0x1_0000_0000_0000_0000

  /** A value of the signed 64-bit type long long. */
  predicate IsLongLong(x: int)
  {
    -0x8000_0000_0000_0000 <= x < 0x8000_0000_0000_0000
  }

  /** The count of strata a request becomes: cast to size_t, then raised to at least 1. */
  function StratumCount(request: int): nat
  {
    var n := request % SizeTModulus;
    if n < 1 then 1 else n
  }

  /** The counts of the first `dimensions` requests. */
  function StratumCounts(requests: seq<int>, dimensions: nat): (counts: seq<nat>)
    requires dimensions <= |requests|
    ensures |counts| == dimensions
    ensures forall i :: 0 <= i < dimensions ==> counts[i] == StratumCount(requests[i])
  {
    seq(dimensions, i requires 0 <= i < dimensions => StratumCount(requests[i]))
  }

  /**
   * A request of 0 becomes one stratum, a positive request is kept, and a
   * negative one wraps to x + 2^64 strata; every count is at least 1 and
   * fits size_t.
   */
  lemma StratumCountCases(request: int)
    requires IsLongLong(request)
    ensures 1 <= StratumCount(request) < SizeTModulus
    ensures request == 0 ==> StratumCount(request) == 1
    ensures request > 0 ==> StratumCount(request) == request
    ensures request < 0 ==> StratumCount(request) == request + SizeTModulus >= SizeTModulus / 2
  {
    if request < 0 {
      DivModUnique(request + SizeTModulus, 0, request + SizeTModulus, SizeTModulus);
      assert request % SizeTModulus == request + SizeTModulus;
    }
  }

  // ---------------------------------------------------------------------
  // The counter step getNextStrata
  // ---------------------------------------------------------------------

  /**
   * getNextStrata from dimension i on: the first dimension whose counter is
   * below its last stratum advances and the scan stops; a counter at its last
   * stratum is reset to 0 and the scan goes on.  Past the last dimension the
   * counters are left as they are (all zero after a full carry).
   */
  function NextStrataFrom(numberOfStrata: seq<nat>, current: seq<nat>, i: nat): (r: seq<nat>)
    requires |current| == |numberOfStrata|
    ensures |r| == |current|
    decreases |current| - i
  {
    if i >= |current| then current
    else if current[i] < numberOfStrata[i] as int - 1 then current[i := current[i] + 1]
    else NextStrataFrom(numberOfStrata, current[i := 0], i + 1)
  }

  function NextStrata(numberOfStrata: seq<nat>, current: seq<nat>): seq<nat>
    requires |current| == |numberOfStrata|
  {
    NextStrataFrom(numberOfStrata, current, 0)
  }

  /** Index of the first dimension, from i on, whose counter can still advance (|c| if none). */
  function FirstAdvancing(numberOfStrata: seq<nat>, current: seq<nat>, i: nat): (k: nat)
    requires |current| == |numberOfStrata| && i <= |current|
    ensures i <= k <= |current|
    decreases |current| - i
  {
    if i == |current| || current[i] < numberOfStrata[i] as int - 1 then i
    else FirstAdvancing(numberOfStrata, current, i + 1)
  }

  /**
   * The step, dimension by dimension: the first dimension k that can advance
   * is incremented, every dimension before it is reset to 0, every dimension
   * after it is unchanged.
   */
  lemma {:induction false} NextStrataShape(numberOfStrata: seq<nat>, current: seq<nat>, i: nat)
    requires |current| == |numberOfStrata| && i <= |current|
    ensures var k := FirstAdvancing(numberOfStrata, current, i);
            var r := NextStrataFrom(numberOfStrata, current, i);
            (forall j :: i <= j < k ==> r[j] == 0) &&
            (k < |current| ==> r[k] == current[k] + 1) &&
            (forall j :: k < j < |current| ==> r[j] == current[j]) &&
            (forall j :: 0 <= j < i ==> r[j] == current[j])
    ensures forall j :: i <= j < FirstAdvancing(numberOfStrata, current, i) ==>
              current[j] >= numberOfStrata[j] as int - 1
    decreases |current| - i
  {
    if i < |current| && current[i] >= numberOfStrata[i] as int - 1 {
      var reset := current[i := 0];
      var k := FirstAdvancing(numberOfStrata, current, i);
      var r := NextStrataFrom(numberOfStrata, current, i);
      assert k == FirstAdvancing(numberOfStrata, current, i + 1);
      assert r == NextStrataFrom(numberOfStrata, reset, i + 1);
      FirstAdvancingIgnoresPrefix(numberOfStrata, current, reset, i + 1);
      assert k == FirstAdvancing(numberOfStrata, reset, i + 1);
      NextStrataShape(numberOfStrata, reset, i + 1);
      assert r[i] == reset[i] == 0;
      forall j | i <= j < k
        ensures current[j] >= numberOfStrata[j] as int - 1
      {
        if j > i {
          assert reset[j] == current[j];
        }
      }
    }
  }

  /** FirstAdvancing from i looks only at the counters from i on. */
  lemma {:induction false} FirstAdvancingIgnoresPrefix(numberOfStrata: seq<nat>, a: seq<nat>, b: seq<nat>, i: nat)
    requires |a| == |b| == |numberOfStrata| && i <= |a|
    requires forall j :: i <= j < |a| ==> a[j] == b[j]
    ensures FirstAdvancing(numberOfStrata, a, i) == FirstAdvancing(numberOfStrata, b, i)
    decreases |a| - i
  {
    if i < |a| {
      FirstAdvancingIgnoresPrefix(numberOfStrata, a, b, i + 1);
    }
  }

  /** Every count is at least 1: each dimension has a stratum. */
  predicate CountsPositive(numberOfStrata: seq<nat>)
  {
    forall i :: 0 <= i < |numberOfStrata| ==> numberOfStrata[i] >= 1
  }

  /**
   * From dimension i on, the scan completes adding Stride(n, i) to the
   * counters: the result is the counter state whose mixed-radix index is one
   * more than that of c0, modulo the number of combinations.
   */
  lemma {:induction false} NextStrataFromIsSuccessor(n: seq<nat>, c0: seq<nat>, c: seq<nat>, i: nat)
    requires InBox(c0, n) && InBox(c, n) && i <= |c|
    requires Flat(c0, n) + 1 == Flat(c, n) + Stride(n, i)
    ensures Prod(n) > 0
    ensures var r := NextStrataFrom(n, c, i);
            InBox(r, n) && Flat(r, n) == (Flat(c0, n) + 1) % Prod(n)
    decreases |c| - i
  {
    FlatBound(c0, n);
    if i == |c| {
      assert n[..i] == n;
      DivModUnique(Flat(c0, n) + 1, 1, 0, Prod(n));
    } else if c[i] < n[i] as int - 1 {
      FlatIncrement(c, n, i);
      var r := c[i := c[i] + 1];
      assert InBox(r, n);
      FlatBound(r, n);
      DivModUnique(Flat(c0, n) + 1, 0, Flat(r, n), Prod(n));
    } else {
      CarryStep(n, c, i);
      NextStrataFromIsSuccessor(n, c0, c[i := 0], i + 1);
    }
  }

  /** getNextStrata keeps the counters in range and steps to the next combination, wrapping after the last. */
  lemma NextStrataIsSuccessor(n: seq<nat>, c: seq<nat>)
    requires InBox(c, n)
    ensures Prod(n) > 0
    ensures InBox(NextStrata(n, c), n)
    ensures Flat(NextStrata(n, c), n) == (Flat(c, n) + 1) % Prod(n)
  {
    NextStrataFromIsSuccessor(n, c, c, 0);
  }

  /** The counters after k calls of getNextStrata. */
  function Advance(n: seq<nat>, c: seq<nat>, k: nat): seq<nat>
    requires |c| == |n|
    decreases k
  {
    if k == 0 then c else
      var c' := NextStrataFrom(n, c, 0);
      Advance(n, c', k - 1)
  }

  /** One call moves the combination with index j to the one with index (j + 1) mod Prod(n). */
  lemma UnflattenSuccessor(n: seq<nat>, j: nat)
    requires j < Prod(n)
    ensures NextStrataFrom(n, Unflatten(j, n), 0) == Unflatten((j + 1) % Prod(n), n)
  {
    var c := Unflatten(j, n);
    FlatUnflatten(j, n);
    NextStrataIsSuccessor(n, c);
    var c' := NextStrata(n, c);
    UnflattenFlat(c', n);
  }

  /** From the combination with index j, k calls reach the combination with index (j + k) mod Prod(n). */
  lemma {:induction false} AdvanceFrom(n: seq<nat>, j: nat, k: nat)
    requires j < Prod(n)
    ensures Advance(n, Unflatten(j, n), k) == Unflatten((j + k) % Prod(n), n)
    decreases k
  {
    var P := Prod(n);
    if k == 0 {
      DivModUnique(j, 0, j, P);
    } else {
      var j' := (j + 1) % P;
      UnflattenSuccessor(n, j);
      assert Advance(n, Unflatten(j, n), k) == Advance(n, Unflatten(j', n), k - 1);
      AdvanceFrom(n, j', k - 1);
      ModAddOne(j, k, P);
    }
  }

  /** ((j + 1) mod P + k - 1) mod P == (j + k) mod P for k >= 1. */
  lemma ModAddOne(j: nat, k: nat, P: nat)
    requires P > 0 && k >= 1
    ensures ((j + 1) % P + (k - 1)) % P == (j + k) % P
  {
    var q := (j + 1) / P;
    DivMod(j + 1, P);
    var s := (j + 1) % P + (k - 1);
    var t := s / P;
    DivMod(s, P);
    assert j + k == s % P + t * P + q * P;
    MulDistrib(t, q, P);
    DivModUnique(j + k, t + q, s % P, P);
  }

  /**
   * Starting from all zeros, call k lands on the combination with index
   * k mod Prod(n).
   */
  lemma StrataCycle(n: seq<nat>, k: nat)
    requires CountsPositive(n)
    ensures Prod(n) > 0
    ensures Advance(n, Zeros(|n|), k) == Unflatten(k % Prod(n), n)
  {
    ProdPositive(n);
    var P := Prod(n);
    UnflattenZero(n);
    AdvanceFrom(n, 0, k);
    assert 0 + k == k;
  }

  /** After Prod(n) calls from all zeros the counters are all zero again. */
  lemma StrataRound(n: seq<nat>)
    requires CountsPositive(n)
    ensures Prod(n) > 0
    ensures Advance(n, Zeros(|n|), Prod(n)) == Zeros(|n|)
  {
    var P := Prod(n);
    StrataCycle(n, P);
    DivModUnique(P, 1, 0, P);
    UnflattenZero(n);
  }

  /** Two calls within one round from all zeros reach different combinations. */
  lemma StrataVisitedOnce(n: seq<nat>, k1: nat, k2: nat)
    requires CountsPositive(n) && k1 < k2 < Prod(n)
    ensures Advance(n, Zeros(|n|), k1) != Advance(n, Zeros(|n|), k2)
  {
    StrataCycle(n, k1);
    StrataCycle(n, k2);
    DivModUnique(k1, 0, k1, Prod(n));
    DivModUnique(k2, 0, k2, Prod(n));
    FlatUnflatten(k1, n);
    FlatUnflatten(k2, n);
  }

  /** The sample value of one dimension: a point of its current stratum, at relative position u. */
  function SampleValue(stratum: nat, count: nat, u: real): real
    requires count >= 1
  {
    (stratum as real + u) * (1.0 / count as real)
  }

  /** For 0 <= u < 1 the sample lies inside the stratum: [stratum / count, (stratum + 1) / count). */
  lemma SampleInStratum(stratum: nat, count: nat, u: real)
    requires count >= 1 && 0.0 <= u < 1.0
    ensures stratum as real / count as real <= SampleValue(stratum, count, u) < (stratum + 1) as real / count as real
  {
    var w := 1.0 / count as real;
    assert w > 0.0;
    assert stratum as real / count as real == stratum as real * w;
    assert (stratum + 1) as real / count as real == (stratum as real + 1.0) * w;
  }

  class StratifiedSampleGenerator {
    const dimensions: nat
    /** The number of strata per dimension, each at least 1. */
    const numberOfStrata: array<nat>
    /** The stratum the next sample uses, per dimension. */
    const currentStrata: array<nat>

    ghost predicate Valid()
      reads this, numberOfStrata, currentStrata
    {
      numberOfStrata.Length == dimensions && currentStrata.Length == dimensions &&
      numberOfStrata != currentStrata &&
      CountsPositive(numberOfStrata[..]) && InBox(currentStrata[..], numberOfStrata[..])
    }

    /** Casts and clamps the requested counts, and starts every dimension at its first stratum. */
    constructor(dimensions: nat, strataPerDimension: seq<int>)
      requires dimensions <= |strataPerDimension|
      ensures Valid()
      ensures this.dimensions == dimensions
      ensures numberOfStrata[..] == StratumCounts(strataPerDimension, dimensions)
      ensures currentStrata[..] == Zeros(dimensions)
    {
      this.dimensions := dimensions;
      var counts := new nat[dimensions];
      var i := 0;
      while i < dimensions
        invariant i <= dimensions
        invariant forall j :: 0 <= j < i ==> counts[j] == strataPerDimension[j] % SizeTModulus
      {
        counts[i] := strataPerDimension[i] % SizeTModulus;
        i := i + 1;
      }
      var current := new nat[dimensions];
      i := 0;
      while i < dimensions
        invariant i <= dimensions
        invariant forall j :: 0 <= j < i ==> counts[j] == StratumCount(strataPerDimension[j])
        invariant forall j :: i <= j < dimensions ==> counts[j] == strataPerDimension[j] % SizeTModulus
        invariant forall j :: 0 <= j < i ==> current[j] == 0
      {
        if counts[i] < 1 {
          counts[i] := 1;
        }
        current[i] := 0;
        i := i + 1;
      }
      numberOfStrata := counts;
      currentStrata := current;
    }

    /** getNextStrata: the odometer step on the stratum counters. */
    method GetNextStrata()
      requires Valid()
      modifies currentStrata
      ensures Valid()
      ensures currentStrata[..] == NextStrata(numberOfStrata[..], old(currentStrata[..]))
    {
      ghost var n := numberOfStrata[..];
      ghost var target := NextStrata(n, currentStrata[..]);
      NextStrataIsSuccessor(n, currentStrata[..]);
      var i := 0;
      while i < dimensions
        invariant i <= dimensions
        invariant NextStrataFrom(n, currentStrata[..], i) == target
      {
        if currentStrata[i] < numberOfStrata[i] as int - 1 {
          currentStrata[i] := currentStrata[i] + 1;
          break;
        } else {
          currentStrata[i] := 0;
        }
        i := i + 1;
      }
    }

    /**
     * getSample: with a vector of the wrong length nothing happens; otherwise
     * dimension i gets a point of its current stratum at the relative
     * position random[i] (a draw of the random number generator), and the
     * counters advance once.
     */
    method GetSample(dv: array<real>, random: seq<real>)
      requires Valid() && |random| == dimensions
      requires dv != numberOfStrata as object && dv != currentStrata as object
      modifies dv, currentStrata
      ensures Valid()
      ensures dv.Length != dimensions ==> dv[..] == old(dv[..]) && currentStrata[..] == old(currentStrata[..])
      ensures dv.Length == dimensions ==>
                (forall i :: 0 <= i < dimensions ==>
                   dv[i] == SampleValue(old(currentStrata[i]), numberOfStrata[i], random[i])) &&
                currentStrata[..] == NextStrata(numberOfStrata[..], old(currentStrata[..]))
    {
      if dv.Length != dimensions {
        return;
      }
      var i := 0;
      while i < dimensions
        invariant i <= dimensions
        invariant currentStrata[..] == old(currentStrata[..])
        invariant forall j :: 0 <= j < i ==> dv[j] == SampleValue(currentStrata[j], numberOfStrata[j], random[j])
      {
        dv[i] := (currentStrata[i] as real + random[i]) * (1.0 / numberOfStrata[i] as real);
        i := i + 1;
      }
      GetNextStrata();
    }
  }
}
