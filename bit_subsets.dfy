/**
 * Bit masks as subsets.  The colour stencil of the interaction generator
 * enumerates j = 1, ..., 2^n - 1 and, for each j, takes the channels k < n
 * with j & (1 << k) != 0.  This module shows that these masks are exactly
 * the non-empty subsets of the n channels, each met once.
 */
module BitSubsets {
  import opened MixedRadix

  /** Bit t of j is set, i.e. j & (1 << t) != 0. */
  predicate Bit(j: nat, t: nat)
    decreases t
  {
    if t == 0 then j % 2 == 1 else Bit(j / 2, t - 1)
  }

  /** The channels below n selected by mask j. */
  function BitsBelow(j: nat, n: nat): set<nat>
  {
    set t | 0 <= t < n && Bit(j, t)
  }

  /** Every member of T is a channel below n. */
  predicate Below(T: set<nat>, n: nat)
  {
    forall t :: t in T ==> t < n
  }

  /** The members of T below n, shifted down by one (the channels of j / 2). */
  function ShiftDown(T: set<nat>, n: nat): set<nat>
  {
    set t | t in T && 1 <= t < n :: t - 1
  }

  /** The mask of the members of T below n: the sum of 2^t over them. */
  function Encode(T: set<nat>, n: nat): nat
    decreases n
  {
    if n == 0 then 0 else (if 0 in T then 1 else 0) + 2 * Encode(ShiftDown(T, n), n - 1)
  }

  /** Bit t of Encode(T, n) is set exactly when t is in T. */
  lemma {:induction false} EncodeBits(T: set<nat>, n: nat, t: nat)
    requires t < n
    ensures Bit(Encode(T, n), t) <==> t in T
    decreases n
  {
    var b := if 0 in T then 1 else 0;
    var e := Encode(ShiftDown(T, n), n - 1);
    LowBitAndHalf(b, e);
    if t > 0 {
      EncodeBits(ShiftDown(T, n), n - 1, t - 1);
      assert t - 1 in ShiftDown(T, n) <==> t in T;
    }
  }

  /** The low bit of b + 2e is b and the rest is e. */
  lemma LowBitAndHalf(b: nat, e: nat)
    requires b < 2
    ensures (b + 2 * e) % 2 == b && (b + 2 * e) / 2 == e
  {
  }

  /** Encode(T, n) is an n-bit mask. */
  lemma {:induction false} EncodeBound(T: set<nat>, n: nat)
    ensures Encode(T, n) < Pow2(n)
    decreases n
  {
    if n > 0 {
      EncodeBound(ShiftDown(T, n), n - 1);
    }
  }

  /** A non-empty subset of the channels has a non-zero mask. */
  lemma {:induction false} EncodePositive(T: set<nat>, n: nat)
    requires Below(T, n) && T != {}
    ensures Encode(T, n) >= 1
    decreases n
  {
    if 0 !in T {
      var t :| t in T;
      assert 0 < t < n;
      assert t - 1 in ShiftDown(T, n);
      assert Below(ShiftDown(T, n), n - 1);
      EncodePositive(ShiftDown(T, n), n - 1);
    }
  }

  /** An n-bit mask is the mask of its own channels. */
  lemma {:induction false} EncodeOfBits(j: nat, n: nat)
    requires j < Pow2(n)
    ensures Encode(BitsBelow(j, n), n) == j
    decreases n
  {
    if n > 0 {
      var T := BitsBelow(j, n);
      assert ShiftDown(T, n) == BitsBelow(j / 2, n - 1) by {
        forall t | 0 <= t < n - 1
          ensures t + 1 in T <==> Bit(j / 2, t)
        {
          assert Bit(j, t + 1) == Bit(j / 2, t);
        }
      }
      EncodeOfBits(j / 2, n - 1);
      assert 0 in T <==> j % 2 == 1;
    }
  }

  /** Every mask 1 <= j < 2^n selects a non-empty set of channels below n. */
  lemma MaskIsNonemptySubset(j: nat, n: nat)
    requires 1 <= j < Pow2(n)
    ensures BitsBelow(j, n) != {} && Below(BitsBelow(j, n), n)
  {
    EncodeOfBits(j, n);
    if BitsBelow(j, n) == {} {
      assert Encode({}, n) == 0 by {
        EncodeEmpty(n);
      }
      assert false;
    }
  }

  lemma {:induction false} EncodeEmpty(n: nat)
    ensures Encode({}, n) == 0
    decreases n
  {
    if n > 0 {
      assert ShiftDown({}, n) == {};
      EncodeEmpty(n - 1);
    }
  }

  /** Every non-empty set of channels below n is selected by exactly one mask 1 <= j < 2^n. */
  lemma SubsetHasUniqueMask(T: set<nat>, n: nat, j: nat)
    requires Below(T, n) && T != {}
    ensures 1 <= Encode(T, n) < Pow2(n) && BitsBelow(Encode(T, n), n) == T
    ensures j < Pow2(n) && BitsBelow(j, n) == T ==> j == Encode(T, n)
  {
    EncodePositive(T, n);
    EncodeBound(T, n);
    forall t | 0 <= t < n
      ensures Bit(Encode(T, n), t) <==> t in T
    {
      EncodeBits(T, n, t);
    }
    if j < Pow2(n) && BitsBelow(j, n) == T {
      EncodeOfBits(j, n);
    }
  }
}
