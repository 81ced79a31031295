/**
 * Facts about the values the engine sorts: the population `0..n-1` that a
 * generated sequence is a permutation of, and the maximum element that the
 * display metadata records.
 */
module Sequences {

  /** `[0, 1, ..., n - 1]`, what std::iota writes into a vector of size `n`. */
  function Iota(n: nat): (r: seq<int>)
    ensures |r| == n && forall k :: 0 <= k < n ==> r[k] == k
  {
    seq(n, k => k)
  }

  /** `s` holds each of `0..n-1` exactly once. */
  ghost predicate IsPermutationOfRange(s: seq<int>, n: nat) {
    multiset(s) == multiset(Iota(n))
  }

  /** `m` is an element of `s` and no element of `s` exceeds it. */
  ghost predicate IsMaximum(m: int, s: seq<int>) {
    m in s && forall v :: v in s ==> v <= m
  }

  /** Exchanging two positions keeps the multiset of values. */
  lemma SwapPermutes(s: seq<int>, p: nat, q: nat)
    requires p < |s| && q < |s|
    ensures multiset(s[p := s[q]][q := s[p]]) == multiset(s)
  {
    var t := s[p := s[q]];
    assert multiset(t) == multiset(s) - multiset{s[p]} + multiset{s[q]};
    assert multiset(t[q := s[p]]) == multiset(t) - multiset{t[q]} + multiset{s[p]};
  }

  /** A permutation of `0..n-1` has length `n`, holds only values in `[0, n)`, and contains each of them. */
  lemma PermutationOfRangeValues(s: seq<int>, n: nat)
    requires IsPermutationOfRange(s, n)
    ensures |s| == n
    ensures forall v :: v in s <==> 0 <= v < n
  {
    assert |multiset(s)| == |multiset(Iota(n))|;
    forall v ensures v in s <==> 0 <= v < n {
      if 0 <= v < n {
        assert Iota(n)[v] == v;
      }
      assert v in s <==> v in multiset(s);
      assert v in Iota(n) <==> v in multiset(Iota(n));
    }
  }

  /** The maximum of a generated sequence of `n >= 1` numbers is `n - 1`. */
  lemma PermutationOfRangeMaximum(s: seq<int>, n: nat)
    requires n >= 1 && IsPermutationOfRange(s, n)
    ensures IsMaximum(n - 1, s)
  {
    PermutationOfRangeValues(s, n);
  }

  /** Reordering the elements does not change the maximum. */
  lemma MaximumOfPermutation(m: int, a: seq<int>, b: seq<int>)
    requires multiset(a) == multiset(b) && IsMaximum(m, a)
    ensures IsMaximum(m, b)
  {
    assert m in multiset(a);
    forall v | v in b ensures v <= m {
      assert v in multiset(b);
      assert v in multiset(a);
      assert v in a;
    }
  }

  /**
   * The index std::max_element returns: the first position holding the
   * greatest element of a non-empty sequence.
   */
  method MaxElement(s: seq<int>) returns (k: nat)
    requires |s| > 0
    ensures k < |s| && IsMaximum(s[k], s)
    ensures forall i :: 0 <= i < k ==> s[i] < s[k]
  {
    k := 0;
    var i := 1;
    while i < |s|
      invariant 0 <= k < i <= |s|
      invariant forall p :: 0 <= p < i ==> s[p] <= s[k]
      invariant forall p :: 0 <= p < k ==> s[p] < s[k]
    {
      if s[k] < s[i] {
        k := i;
      }
      i := i + 1;
    }
  }
}
