/**
 * Mixed-radix positions in a box of extents d[0], ..., d[n-1] with the FIRST
 * coordinate varying fastest.  This is the index scheme shared by the
 * geometry-aware interaction generator (a pixel position inside an image
 * layer) and by the stratified sampler (the current stratum of each
 * dimension).  Products and flattened indices are defined by peeling off the
 * LAST coordinate, so that a loop running i = 0, 1, ... extends them one
 * coordinate at a time.
 */
module MixedRadix {

  /** Product of all extents: the number of positions of the box. */
  function Prod(d: seq<nat>): nat
  {
    if |d| == 0 then 1 else Prod(d[..|d| - 1]) * d[|d| - 1]
  }

  /** The stride of coordinate k: the product of the extents before it. */
  function Stride(d: seq<nat>, k: nat): nat
    requires k <= |d|
  {
    Prod(d[..k])
  }

  /** p is a position of the box with extents d. */
  predicate InBox(p: seq<nat>, d: seq<nat>)
  {
    |p| == |d| && forall k :: 0 <= k < |p| ==> p[k] < d[k]
  }

  /** The all-zero position of dimension n. */
  function Zeros(n: nat): (z: seq<nat>)
    ensures |z| == n && forall k :: 0 <= k < n ==> z[k] == 0
  {
    seq(n, _ => 0)
  }

  /** Flattened index of a position: the sum of p[k] * Stride(d, k). */
  function Flat(p: seq<nat>, d: seq<nat>): nat
    requires |p| == |d|
  {
    if |p| == 0 then 0
    else Flat(p[..|p| - 1], d[..|d| - 1]) + p[|p| - 1] * Prod(d[..|d| - 1])
  }

  /** The index of a prefix of length n extends the index of the prefix of length n - 1. */
  lemma FlatPrefixStep(p: seq<nat>, d: seq<nat>, n: nat)
    requires |p| == |d| && 0 < n <= |d|
    ensures Flat(p[..n], d[..n]) == Flat(p[..n - 1], d[..n - 1]) + p[n - 1] * Prod(d[..n - 1])
  {
    assert p[..n][..n - 1] == p[..n - 1];
    assert d[..n][..n - 1] == d[..n - 1];
  }

  /** Euclidean division is unique: the only quotient/remainder pair. */
  lemma DivModUnique(k: nat, q: nat, r: nat, m: nat)
    requires 0 <= r < m && k == q * m + r
    ensures k / m == q && k % m == r
  {
    var q' := k / m;
    MulMono(q + 1, q', m);
    MulMono(q' + 1, q, m);
    if q' != q {
      assert false;
    }
  }

  /** Multiplication by a natural number is monotonic. */
  lemma MulMono(a: nat, b: nat, c: nat)
    ensures a <= b ==> a * c <= b * c
  {
  }

  /** k < P * e forces k / P < e (and P > 0). */
  lemma DivBelow(k: nat, P: nat, e: nat)
    requires k < P * e
    ensures P > 0 && k / P < e
  {
    if P == 0 {
      assert false;
    }
    MulMono(e, k / P, P);
    if k / P >= e {
      assert false;
    }
  }

  /** The box position whose flattened index is k: the inverse of Flat. */
  function Unflatten(k: nat, d: seq<nat>): (p: seq<nat>)
    requires k < Prod(d)
    ensures InBox(p, d)
    decreases |d|
  {
    if |d| == 0 then []
    else
      var P := Prod(d[..|d| - 1]);
      DivBelow(k, P, d[|d| - 1]);
      Unflatten(k % P, d[..|d| - 1]) + [k / P]
  }

  /** Index 0 is the all-zero position. */
  lemma {:induction false} UnflattenZero(d: seq<nat>)
    requires Prod(d) > 0
    ensures Unflatten(0, d) == Zeros(|d|)
    decreases |d|
  {
    if |d| > 0 {
      var n := |d| - 1;
      var P := Prod(d[..n]);
      DivBelow(0, P, d[n]);
      UnflattenZero(d[..n]);
      DivModUnique(0, 0, 0, P);
      assert Zeros(n + 1) == Zeros(n) + [0];
    }
  }

  /** Unflatten followed by Flat is the identity on [0, Prod(d)). */
  lemma {:induction false} FlatUnflatten(k: nat, d: seq<nat>)
    requires k < Prod(d)
    ensures Flat(Unflatten(k, d), d) == k
    decreases |d|
  {
    if |d| > 0 {
      var n := |d| - 1;
      var P := Prod(d[..n]);
      DivBelow(k, P, d[n]);
      FlatUnflatten(k % P, d[..n]);
      FlatUnflattenStep(k, d);
      DivMod(k, P);
    }
  }

  /** The last coordinate of Unflatten(k, d) is k / P, the others those of Unflatten(k % P, ...). */
  lemma FlatUnflattenStep(k: nat, d: seq<nat>)
    requires k < Prod(d) && |d| > 0
    ensures Prod(d[..|d| - 1]) > 0
    ensures Flat(Unflatten(k, d), d) ==
              Flat(Unflatten(k % Prod(d[..|d| - 1]), d[..|d| - 1]), d[..|d| - 1]) + (k / Prod(d[..|d| - 1])) * Prod(d[..|d| - 1])
  {
    var n := |d| - 1;
    var P := Prod(d[..n]);
    DivBelow(k, P, d[n]);
    var q := Unflatten(k % P, d[..n]);
    var p := q + [k / P];
    assert Unflatten(k, d) == p;
    assert Flat(p, d) == Flat(p[..n], d[..n]) + p[n] * P;
    assert p[..n] == q && p[n] == k / P;
  }

  /** Euclidean division: k == (k / P) * P + k % P. */
  lemma DivMod(k: nat, P: nat)
    requires P > 0
    ensures k == k % P + (k / P) * P
  {
  }

  /** Every position of the box has an index below Prod(d). */
  lemma {:induction false} FlatBound(p: seq<nat>, d: seq<nat>)
    requires InBox(p, d)
    ensures Flat(p, d) < Prod(d)
    decreases |p|
  {
    if |p| > 0 {
      var n := |p| - 1;
      var P := Prod(d[..n]);
      assert InBox(p[..n], d[..n]);
      FlatBound(p[..n], d[..n]);
      assert Flat(p, d) == Flat(p[..n], d[..n]) + p[n] * P;
      assert Prod(d) == P * d[n];
      MulMono(p[n] + 1, d[n], P);
      assert (p[n] + 1) * P == p[n] * P + P;
    }
  }

  /** Flat followed by Unflatten is the identity on the box. */
  lemma {:induction false} UnflattenFlat(p: seq<nat>, d: seq<nat>)
    requires InBox(p, d)
    ensures Flat(p, d) < Prod(d) && Unflatten(Flat(p, d), d) == p
    decreases |p|
  {
    FlatBound(p, d);
    if |p| > 0 {
      var n := |p| - 1;
      var P := Prod(d[..n]);
      var p', d' := p[..n], d[..n];
      assert InBox(p', d');
      FlatBound(p', d');
      UnflattenFlat(p', d');
      var k := Flat(p, d);
      assert k == Flat(p', d') + p[n] * P;
      DivModUnique(k, p[n], Flat(p', d'), P);
      assert Unflatten(k, d) == Unflatten(k % P, d') + [k / P];
      assert p == p' + [p[n]];
    }
  }

  /** The flattened index is injective on the box. */
  lemma FlatInjective(p: seq<nat>, q: seq<nat>, d: seq<nat>)
    requires InBox(p, d) && InBox(q, d) && Flat(p, d) == Flat(q, d)
    ensures p == q
  {
    UnflattenFlat(p, d);
    UnflattenFlat(q, d);
  }

  /** Changing coordinate i moves the flattened index by the change times Stride(d, i). */
  lemma {:induction false} FlatUpdate(p: seq<nat>, d: seq<nat>, i: nat, x: nat)
    requires |p| == |d| && i < |p|
    ensures Flat(p[i := x], d) + p[i] * Stride(d, i) == Flat(p, d) + x * Stride(d, i)
    decreases |p|
  {
    var n := |p| - 1;
    var p' := p[i := x];
    if i == n {
      assert p'[..n] == p[..n];
    } else {
      assert p'[..n] == p[..n][i := x];
      assert d[..n][..i] == d[..i];
      FlatUpdate(p[..n], d[..n], i, x);
    }
  }

  /** Multiplication commutes. */
  lemma MulComm(a: nat, b: nat)
    ensures a * b == b * a
  {
  }

  /** Distributing a product over a successor. */
  lemma MulSucc(a: nat, s: nat)
    ensures (a + 1) * s == a * s + s
  {
  }

  /** Multiplication distributes over addition. */
  lemma MulDistrib(a: nat, b: nat, c: nat)
    ensures (a + b) * c == a * c + b * c
  {
  }

  /** Incrementing coordinate i adds Stride(d, i) to the flattened index. */
  lemma FlatIncrement(p: seq<nat>, d: seq<nat>, i: nat)
    requires |p| == |d| && i < |p|
    ensures Flat(p[i := p[i] + 1], d) == Flat(p, d) + Stride(d, i)
  {
    FlatUpdate(p, d, i, p[i] + 1);
    MulSucc(p[i], Stride(d, i));
  }

  /** Resetting coordinate i to 0 removes p[i] * Stride(d, i) from the flattened index. */
  lemma FlatReset(p: seq<nat>, d: seq<nat>, i: nat)
    requires |p| == |d| && i < |p|
    ensures Flat(p[i := 0], d) + p[i] * Stride(d, i) == Flat(p, d)
  {
    FlatUpdate(p, d, i, 0);
  }

  /** Resetting a coordinate at its maximum to 0 carries one unit of its stride into the next coordinate. */
  lemma CarryStep(d: seq<nat>, p: seq<nat>, i: nat)
    requires InBox(p, d) && i < |p| && p[i] + 1 >= d[i]
    ensures Flat(p[i := 0], d) + Stride(d, i + 1) == Flat(p, d) + Stride(d, i)
  {
    FlatReset(p, d, i);
    ProdPrefixStep(d, i);
    CarryArith(Flat(p[i := 0], d), Flat(p, d), Stride(d, i + 1), Stride(d, i), p[i], d[i]);
  }

  /** The arithmetic of a carry: a + x * s == f and t == s * (x + 1) give a + t == f + s. */
  lemma CarryArith(a: nat, f: nat, t: nat, s: nat, x: nat, e: nat)
    requires a + x * s == f && t == s * e && e == x + 1
    ensures a + t == f + s
  {
    MulSucc(x, s);
  }

  /** The all-zero position has index 0. */
  lemma {:induction false} FlatZeros(p: seq<nat>, d: seq<nat>)
    requires |p| == |d| && forall k :: 0 <= k < |p| ==> p[k] == 0
    ensures Flat(p, d) == 0
    decreases |p|
  {
    if |p| > 0 {
      FlatZeros(p[..|p| - 1], d[..|d| - 1]);
    }
  }

  /** The product of a one-longer prefix. */
  lemma ProdPrefixStep(d: seq<nat>, i: nat)
    requires i < |d|
    ensures Prod(d[..i + 1]) == Prod(d[..i]) * d[i]
  {
    assert d[..i + 1][..i] == d[..i];
  }

  /** The box has positions exactly when no extent is zero. */
  lemma {:induction false} ProdPositive(d: seq<nat>)
    ensures Prod(d) > 0 <==> forall k :: 0 <= k < |d| ==> d[k] > 0
    decreases |d|
  {
    if |d| > 0 {
      var n := |d| - 1;
      ProdPositive(d[..n]);
      if Prod(d[..n]) > 0 && d[n] > 0 {
        assert Prod(d) == Prod(d[..n]) * d[n] > 0;
      }
    }
  }

  /** The set of all positions of the box (each is Unflatten of its index). */
  function Box(d: seq<nat>): set<seq<nat>>
  {
    set k | 0 <= k < Prod(d) :: Unflatten(k, d)
  }

  /** Box(d) holds exactly the positions of the box. */
  lemma BoxMembership(p: seq<nat>, d: seq<nat>)
    ensures p in Box(d) <==> InBox(p, d)
  {
    if InBox(p, d) {
      FlatBound(p, d);
      UnflattenFlat(p, d);
    }
  }

  /** 2 to the power k. */
  function Pow2(k: nat): (r: nat)
    ensures r >= 1
  {
    if k == 0 then 1 else 2 * Pow2(k - 1)
  }
}
