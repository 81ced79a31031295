/**
 * The bubble sort run by the engine, stated as pure functions on the sequence
 * of numbers: one compare-and-swap, one inner pass, and the sequence of outer
 * passes. The engine's in-place method is proved against these functions, and
 * the properties of the sort (sorted result, permutation, idempotence) are
 * proved here once.
 */
module Sorting {
  import opened Sequences

  /** Every pair of positions is in non-decreasing order. */
  ghost predicate IsSorted(s: seq<int>) {
    forall i, j :: 0 <= i < j < |s| ==> s[i] <= s[j]
  }

  /** The linear check: every adjacent pair is non-decreasing. */
  predicate AdjacentSorted(s: seq<int>) {
    forall k :: 0 <= k && k + 1 < |s| ==> s[k] <= s[k + 1]
  }

  /** Positions `b` onwards are in non-decreasing order. */
  ghost predicate SortedFrom(s: seq<int>, b: nat) {
    forall i, j :: b <= i < j < |s| ==> s[i] <= s[j]
  }

  /** No element at or before position `b` exceeds an element after it. */
  ghost predicate Partitioned(s: seq<int>, b: int) {
    forall i, j :: 0 <= i <= b < j < |s| ==> s[i] <= s[j]
  }

  lemma {:induction false} SortedChain(s: seq<int>, i: nat, j: nat)
    requires AdjacentSorted(s) && i <= j < |s|
    ensures s[i] <= s[j]
    decreases j - i
  {
    if i < j {
      SortedChain(s, i, j - 1);
    }
  }

  /** The adjacent-pairs check and the all-pairs definition agree, both ways. */
  lemma AdjacentSortedIffSorted(s: seq<int>)
    ensures AdjacentSorted(s) <==> IsSorted(s)
  {
    if AdjacentSorted(s) {
      forall i, j | 0 <= i < j < |s| ensures s[i] <= s[j] {
        SortedChain(s, i, j);
      }
    }
  }

  /** One comparison of the inner loop: swap positions `j` and `j + 1` when they are out of order. */
  function CompareSwap(s: seq<int>, j: nat): (r: seq<int>)
    requires j + 1 < |s|
    ensures |r| == |s|
    ensures r[j] <= r[j + 1]
    ensures (r[j] == s[j] && r[j + 1] == s[j + 1]) || (r[j] == s[j + 1] && r[j + 1] == s[j])
    ensures forall k :: 0 <= k < |s| && k != j && k != j + 1 ==> r[k] == s[k]
  {
    if s[j] > s[j + 1] then s[j := s[j + 1]][j + 1 := s[j]] else s
  }

  /** The rest of one inner pass, from comparison `j` up to the last comparison `b - 1`. */
  function Pass(s: seq<int>, j: nat, b: nat): (r: seq<int>)
    requires j <= b < |s|
    ensures |r| == |s|
    ensures forall k :: 0 <= k < |s| && (k < j || b < k) ==> r[k] == s[k]
    decreases b - j
  {
    if j == b then s else Pass(CompareSwap(s, j), j + 1, b)
  }

  /** The sequence after the first `i` outer passes; pass `k` compares positions up to `|s| - k - 1`. */
  function Passes(s: seq<int>, i: nat): (r: seq<int>)
    requires i <= |s|
    ensures |r| == |s|
    decreases i
  {
    if i == 0 then s else Pass(Passes(s, i - 1), 0, |s| - i)
  }

  /** The whole bubble sort, as it runs when no quit request arrives: `|s| - 1` outer passes. */
  function BubbleSorted(s: seq<int>): (r: seq<int>)
    ensures |r| == |s|
    ensures |s| < 2 ==> r == s
  {
    if |s| == 0 then s else Passes(s, |s| - 1)
  }

  /**
   * Running a pass one comparison further is one more CompareSwap at the end:
   * the comparisons of a pass are made from left to right.
   */
  lemma {:induction false} PassSnoc(s: seq<int>, j: nat, b: nat)
    requires j <= b && b + 1 < |s|
    ensures Pass(s, j, b + 1) == CompareSwap(Pass(s, j, b), b)
    decreases b - j
  {
    if j < b {
      var t := CompareSwap(s, j);
      assert Pass(s, j, b + 1) == Pass(t, j + 1, b + 1);
      assert Pass(s, j, b) == Pass(t, j + 1, b);
      PassSnoc(t, j + 1, b);
    }
  }

  lemma {:induction false} PassPermutes(s: seq<int>, j: nat, b: nat)
    requires j <= b < |s|
    ensures multiset(Pass(s, j, b)) == multiset(s)
    decreases b - j
  {
    if j < b {
      var t := CompareSwap(s, j);
      if s[j] > s[j + 1] {
        SwapPermutes(s, j, j + 1);
        assert t == s[j := s[j + 1]][j + 1 := s[j]];
      } else {
        assert t == s;
      }
      assert multiset(t) == multiset(s);
      assert Pass(s, j, b) == Pass(t, j + 1, b);
      PassPermutes(t, j + 1, b);
    }
  }

  lemma {:induction false} PassesPermute(s: seq<int>, i: nat)
    requires i <= |s|
    ensures multiset(Passes(s, i)) == multiset(s)
    decreases i
  {
    if i > 0 {
      var prev := Passes(s, i - 1);
      assert Passes(s, i) == Pass(prev, 0, |s| - i);
      PassesPermute(s, i - 1);
      PassPermutes(prev, 0, |s| - i);
    }
  }

  /** A pass carries the largest of positions `0..b` to position `b`. */
  lemma {:induction false} PassCarriesMaximum(s: seq<int>, j: nat, b: nat)
    requires j <= b < |s|
    requires forall k :: 0 <= k < j ==> s[k] <= s[j]
    ensures forall k :: 0 <= k <= b ==> Pass(s, j, b)[k] <= Pass(s, j, b)[b]
    decreases b - j
  {
    if j < b {
      var t := CompareSwap(s, j);
      assert Pass(s, j, b) == Pass(t, j + 1, b);
      forall k | 0 <= k < j + 1 ensures t[k] <= t[j + 1] {
        if k < j {
          assert t[k] == s[k] <= s[j];
        }
      }
      PassCarriesMaximum(t, j + 1, b);
    }
  }

  /** A pass with bound `b` only reorders positions `0..b`, so a partition at `b` survives it. */
  lemma {:induction false} PassKeepsPartition(s: seq<int>, j: nat, b: nat)
    requires j <= b < |s| && Partitioned(s, b)
    ensures Partitioned(Pass(s, j, b), b)
    decreases b - j
  {
    if j < b {
      var t := CompareSwap(s, j);
      assert Pass(s, j, b) == Pass(t, j + 1, b);
      forall p, q | 0 <= p <= b < q < |t| ensures t[p] <= t[q] {
        assert t[q] == s[q];
        if p != j && p != j + 1 {
          assert t[p] == s[p];
        }
      }
      PassKeepsPartition(t, j + 1, b);
    }
  }

  /** One more pass, with bound `b`, extends the sorted, dominating suffix down to position `b`. */
  lemma PassExtendsSortedSuffix(s: seq<int>, b: nat)
    requires b < |s|
    requires SortedFrom(s, b + 1) && Partitioned(s, b)
    ensures SortedFrom(Pass(s, 0, b), b) && Partitioned(Pass(s, 0, b), b - 1)
  {
    PassCarriesMaximum(s, 0, b);
    PassKeepsPartition(s, 0, b);
  }

  /**
   * After `i` outer passes the last `i` positions hold the `i` largest values
   * in non-decreasing order: the invariant that lets pass `i` stop its
   * comparisons at position `|s| - i - 1`.
   */
  lemma {:induction false} PassesPlaceSuffix(s: seq<int>, i: nat)
    requires i <= |s|
    ensures SortedFrom(Passes(s, i), |s| - i) && Partitioned(Passes(s, i), |s| - i - 1)
    decreases i
  {
    if i > 0 {
      PassesPlaceSuffix(s, i - 1);
      PassExtendsSortedSuffix(Passes(s, i - 1), |s| - i);
    }
  }

  /** A full run of bubble sort yields a non-decreasing permutation of its input. */
  lemma BubbleSortSorts(s: seq<int>)
    ensures IsSorted(BubbleSorted(s)) && AdjacentSorted(BubbleSorted(s))
    ensures |BubbleSorted(s)| == |s| && multiset(BubbleSorted(s)) == multiset(s)
  {
    if |s| > 0 {
      var r := BubbleSorted(s);
      PassesPlaceSuffix(s, |s| - 1);
      PassesPermute(s, |s| - 1);
      forall p, q | 0 <= p < q < |r| ensures r[p] <= r[q] {
        if p == 0 {
          assert Partitioned(r, 0);
        }
      }
    }
    AdjacentSortedIffSorted(BubbleSorted(s));
  }

  lemma {:induction false} PassKeepsSorted(s: seq<int>, j: nat, b: nat)
    requires j <= b < |s| && IsSorted(s)
    ensures Pass(s, j, b) == s
    decreases b - j
  {
    if j < b {
      assert CompareSwap(s, j) == s;
      PassKeepsSorted(s, j + 1, b);
    }
  }

  lemma {:induction false} PassesKeepSorted(s: seq<int>, i: nat)
    requires i <= |s| && IsSorted(s)
    ensures Passes(s, i) == s
    decreases i
  {
    if i > 0 {
      PassesKeepSorted(s, i - 1);
      PassKeepsSorted(s, 0, |s| - i);
    }
  }

  /** Bubble sort leaves a sorted sequence unchanged, so sorting twice is sorting once. */
  lemma BubbleSortIdempotent(s: seq<int>)
    ensures BubbleSorted(BubbleSorted(s)) == BubbleSorted(s)
  {
    BubbleSortSorts(s);
    if |s| > 0 {
      PassesKeepSorted(BubbleSorted(s), |s| - 1);
    }
  }

  /** The first pass over `[5, 4, 3, 2, 1]` carries 5 to the end. */
  lemma FirstPassExample()
    ensures Pass([5, 4, 3, 2, 1], 0, 4) == [4, 3, 2, 1, 5]
  {
    var s0 := [5, 4, 3, 2, 1];
    var s1 := [4, 5, 3, 2, 1];
    var s2 := [4, 3, 5, 2, 1];
    var s3 := [4, 3, 2, 5, 1];
    var s4 := [4, 3, 2, 1, 5];
    assert s0[0 := s0[1]][1 := s0[0]] == s1;
    assert s1[1 := s1[2]][2 := s1[1]] == s2;
    assert s2[2 := s2[3]][3 := s2[2]] == s3;
    assert s3[3 := s3[4]][4 := s3[3]] == s4;
    calc {
      Pass(s0, 0, 4);
      Pass(s1, 1, 4);
      Pass(s2, 2, 4);
      Pass(s3, 3, 4);
      Pass(s4, 4, 4);
    }
  }
}
