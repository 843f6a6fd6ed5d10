/**
 * The ordering std::vector's operator< puts on level vectors
 * (std::lexicographical_compare), and the sort that orders a list of level
 * vectors by it.  std::sort is a library call.  It is modelled by an
 * insertion sort proved to return a sorted permutation of its input; the
 * order is total, so that permutation is unique (SortLexUnique) and any
 * correct sort yields the same sequence.
 */
module LexOrder {

  type LevelVector = seq<nat>

  /** a < b in lexicographic order; a proper prefix is smaller. */
  predicate LexLess(a: LevelVector, b: LevelVector)
    decreases |a|
  {
    if |a| == 0 then |b| > 0
    else |b| > 0 && (a[0] < b[0] || (a[0] == b[0] && LexLess(a[1..], b[1..])))
  }

  predicate LexLeq(a: LevelVector, b: LevelVector)
  {
    a == b || LexLess(a, b)
  }

  lemma {:induction false} LexIrreflexive(a: LevelVector)
    ensures !LexLess(a, a)
    decreases |a|
  {
    if |a| > 0 {
      LexIrreflexive(a[1..]);
    }
  }

  lemma {:induction false} LexTransitive(a: LevelVector, b: LevelVector, c: LevelVector)
    requires LexLess(a, b) && LexLess(b, c)
    ensures LexLess(a, c)
    decreases |a|
  {
    if |a| > 0 && a[0] == b[0] && b[0] == c[0] {
      LexTransitive(a[1..], b[1..], c[1..]);
    }
  }

  lemma {:induction false} LexTotal(a: LevelVector, b: LevelVector)
    ensures a == b || LexLess(a, b) || LexLess(b, a)
    decreases |a|
  {
    if |a| > 0 && |b| > 0 && a[0] == b[0] {
      LexTotal(a[1..], b[1..]);
      if a[1..] == b[1..] {
        assert a == [a[0]] + a[1..] && b == [b[0]] + b[1..];
      }
    }
  }

  lemma LexAsymmetric(a: LevelVector, b: LevelVector)
    requires LexLess(a, b)
    ensures !LexLess(b, a)
  {
    if LexLess(b, a) {
      LexTransitive(a, b, a);
      LexIrreflexive(a);
    }
  }

  lemma LexLeqTransitive(a: LevelVector, b: LevelVector, c: LevelVector)
    requires LexLeq(a, b) && LexLeq(b, c)
    ensures LexLeq(a, c)
  {
    if a != b && b != c {
      LexTransitive(a, b, c);
    }
  }

  /** Two vectors that agree before position n and differ first at n are ordered by that entry. */
  lemma {:induction false} LexAtFirstDifference(a: LevelVector, b: LevelVector, n: nat)
    requires n < |a| && n < |b| && a[..n] == b[..n] && a[n] < b[n]
    ensures LexLess(a, b)
    decreases n
  {
    if n > 0 {
      assert a[1..][..n - 1] == a[..n][1..] == b[..n][1..] == b[1..][..n - 1];
      LexAtFirstDifference(a[1..], b[1..], n - 1);
      assert a[0] == a[..n][0] == b[..n][0] == b[0];
    }
  }

  /** Non-decreasing in lexicographic order. */
  predicate Sorted(s: seq<LevelVector>)
  {
    forall i, j :: 0 <= i < j < |s| ==> LexLeq(s[i], s[j])
  }

  /** Strictly increasing in lexicographic order. */
  predicate StrictlySorted(s: seq<LevelVector>)
  {
    forall i, j :: 0 <= i < j < |s| ==> LexLess(s[i], s[j])
  }

  /** Every value occurs at most once. */
  ghost predicate NoDuplicates(s: seq<LevelVector>)
  {
    forall x :: multiset(s)[x] <= 1
  }

  /** Two strictly sorted runs, every element of the first below every element of the second. */
  lemma StrictlySortedConcat(a: seq<LevelVector>, b: seq<LevelVector>)
    requires StrictlySorted(a) && StrictlySorted(b)
    requires forall x, y :: x in a && y in b ==> LexLess(x, y)
    ensures StrictlySorted(a + b)
  {
    var c := a + b;
    forall i, j | 0 <= i < j < |c|
      ensures LexLess(c[i], c[j])
    {
      if j < |a| {
        assert c[i] == a[i] && c[j] == a[j];
      } else if i >= |a| {
        assert c[i] == b[i - |a|] && c[j] == b[j - |a|];
      } else {
        assert c[i] in a && c[j] in b;
      }
    }
  }

  /** A value occurring at two indices occurs at least twice. */
  lemma TwoIndices<T>(s: seq<T>, i: nat, j: nat)
    requires i < j < |s| && s[i] == s[j]
    ensures multiset(s)[s[i]] >= 2
  {
    assert s == s[..j] + s[j..];
    assert s[i] in s[..j];
    assert s[j] in s[j..];
    assert multiset(s) == multiset(s[..j]) + multiset(s[j..]);
  }

  /** A sorted sequence without duplicates is strictly sorted. */
  lemma SortedDistinctIsStrict(s: seq<LevelVector>)
    requires Sorted(s) && NoDuplicates(s)
    ensures StrictlySorted(s)
  {
    forall i, j | 0 <= i < j < |s|
      ensures LexLess(s[i], s[j])
    {
      if s[i] == s[j] {
        TwoIndices(s, i, j);
        assert false;
      }
    }
  }

  /** A strictly sorted sequence has no duplicates. */
  lemma {:induction false} StrictIsDistinct(s: seq<LevelVector>)
    requires StrictlySorted(s)
    ensures NoDuplicates(s)
    decreases |s|
  {
    if |s| > 0 {
      StrictIsDistinct(s[1..]);
      assert s == [s[0]] + s[1..];
      assert s[0] !in s[1..] by {
        forall j | 0 <= j < |s[1..]|
          ensures s[1..][j] != s[0]
        {
          assert LexLess(s[0], s[j + 1]);
          LexIrreflexive(s[0]);
        }
      }
    }
  }

  /** Insert x in front of the first element it does not exceed. */
  function Insert(x: LevelVector, s: seq<LevelVector>): seq<LevelVector>
  {
    if |s| == 0 then [x]
    else if LexLeq(x, s[0]) then [x] + s
    else [s[0]] + Insert(x, s[1..])
  }

  /** Insert adds exactly one occurrence of x. */
  lemma {:induction false} InsertPermutes(x: LevelVector, s: seq<LevelVector>)
    ensures multiset(Insert(x, s)) == multiset(s) + multiset{x}
    decreases |s|
  {
    if |s| > 0 && !LexLeq(x, s[0]) {
      InsertPermutes(x, s[1..]);
      assert s == [s[0]] + s[1..];
    }
  }

  /** Every member of a sorted sequence is at least its first element. */
  lemma SortedHead(s: seq<LevelVector>, y: LevelVector)
    requires Sorted(s) && |s| > 0 && y in s
    ensures LexLeq(s[0], y)
  {
    var k :| 0 <= k < |s| && s[k] == y;
    if k > 0 {
      assert LexLeq(s[0], s[k]);
    }
  }

  /** A sorted sequence stays sorted behind a head that is at most each of its elements. */
  lemma ConsSorted(h: LevelVector, t: seq<LevelVector>)
    requires Sorted(t) && forall k :: 0 <= k < |t| ==> LexLeq(h, t[k])
    ensures Sorted([h] + t)
  {
    var r := [h] + t;
    forall i, j | 0 <= i < j < |r|
      ensures LexLeq(r[i], r[j])
    {
      if i > 0 {
        assert r[i] == t[i - 1] && r[j] == t[j - 1];
      }
    }
  }

  /** Inserting into a sorted sequence keeps it sorted and adds exactly one occurrence of x. */
  lemma {:induction false} InsertSorted(x: LevelVector, s: seq<LevelVector>)
    requires Sorted(s)
    ensures Sorted(Insert(x, s)) && multiset(Insert(x, s)) == multiset(s) + multiset{x}
    decreases |s|
  {
    InsertPermutes(x, s);
    if |s| == 0 {
    } else if LexLeq(x, s[0]) {
      forall k | 0 <= k < |s|
        ensures LexLeq(x, s[k])
      {
        SortedHead(s, s[k]);
        LexLeqTransitive(x, s[0], s[k]);
      }
      ConsSorted(x, s);
    } else {
      var t := Insert(x, s[1..]);
      InsertSorted(x, s[1..]);
      LexTotal(x, s[0]);
      forall k | 0 <= k < |t|
        ensures LexLeq(s[0], t[k])
      {
        assert t[k] in multiset(t);
        if t[k] != x {
          assert t[k] in s[1..];
          SortedHead(s, t[k]);
        }
      }
      ConsSorted(s[0], t);
    }
  }

  /** The lexicographically sorted permutation of s. */
  function SortLex(s: seq<LevelVector>): (r: seq<LevelVector>)
    ensures Sorted(r) && multiset(r) == multiset(s)
    decreases |s|
  {
    if |s| == 0 then []
    else
      var t := SortLex(s[1..]);
      InsertSorted(s[0], t);
      HeadTailMultiset(s);
      Insert(s[0], t)
  }

  /** Sorting an already sorted sequence changes nothing. */
  lemma {:induction false} SortSortedIsIdentity(s: seq<LevelVector>)
    requires Sorted(s)
    ensures SortLex(s) == s
    decreases |s|
  {
    if |s| > 0 {
      SortSortedIsIdentity(s[1..]);
      assert s == [s[0]] + s[1..];
    }
  }

  /** A non-empty sequence holds its head once more than its tail does. */
  lemma HeadTailMultiset(s: seq<LevelVector>)
    requires |s| > 0
    ensures multiset(s) == multiset(s[1..]) + multiset{s[0]}
  {
    assert s == [s[0]] + s[1..];
  }

  /** Two sorted permutations of the same values start with the same element. */
  lemma SortedHeadsEqual(a: seq<LevelVector>, b: seq<LevelVector>)
    requires Sorted(a) && Sorted(b) && multiset(a) == multiset(b) && |a| > 0 && |b| > 0
    ensures a[0] == b[0]
  {
    assert a[0] in multiset(b) && b[0] in multiset(a);
    SortedHead(a, b[0]);
    SortedHead(b, a[0]);
    if a[0] != b[0] {
      LexAsymmetric(a[0], b[0]);
    }
  }

  /** Two sorted permutations of the same values are equal: the sorted order is unique. */
  lemma {:induction false} SortedPermutationUnique(a: seq<LevelVector>, b: seq<LevelVector>)
    requires Sorted(a) && Sorted(b) && multiset(a) == multiset(b)
    ensures a == b
    decreases |a|
  {
    assert |a| == |multiset(a)| == |multiset(b)| == |b|;
    if |a| > 0 {
      SortedHeadsEqual(a, b);
      HeadTailMultiset(a);
      HeadTailMultiset(b);
      assert multiset(a[1..]) == multiset(a) - multiset{a[0]} == multiset(b[1..]);
      SortedPermutationUnique(a[1..], b[1..]);
      assert a == [a[0]] + a[1..] && b == [b[0]] + b[1..];
    }
  }

  /** Every sorted permutation of s is SortLex(s), so any correct sort returns the same sequence. */
  lemma SortLexUnique(s: seq<LevelVector>, r: seq<LevelVector>)
    requires Sorted(r) && multiset(r) == multiset(s)
    ensures r == SortLex(s)
  {
    SortedPermutationUnique(r, SortLex(s));
  }
}
