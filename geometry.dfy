/**
 * The integer arithmetic that places one column on the window: its left edge,
 * width, height and top edge, computed with C++ `int` division, which
 * truncates toward zero.
 */
module Geometry {
  import opened Sequences

  /** An SDL_Rect: left edge, top edge, width and height in pixels. */
  datatype Rect = Rect(x: int, y: int, w: int, h: int)

  function Abs(a: int): nat {
    if a < 0 then -a else a
  }

  /** C++ `a / b` on `int`: the quotient rounded toward zero. */
  function TruncDiv(a: int, b: int): (q: int)
    requires b != 0
    ensures 0 <= a && 0 < b ==> q == a / b
  {
    var m := Abs(a) / Abs(b);
    if (a < 0) == (b < 0) then m else -m
  }

  /**
   * TruncDiv is division rounded toward zero: its magnitude is that of the
   * exact quotient rounded down, and it is negative only when `a` and `b`
   * have opposite signs.
   */
  lemma TruncDivRoundsTowardZero(a: int, b: int)
    requires b != 0
    ensures Abs(TruncDiv(a, b)) * Abs(b) <= Abs(a) < Abs(TruncDiv(a, b)) * Abs(b) + Abs(b)
    ensures TruncDiv(a, b) < 0 ==> (a < 0) != (b < 0)
    ensures TruncDiv(a, b) > 0 ==> (a < 0) == (b < 0)
  {
  }

  /** `v * Y / M` lies in `[0, Y]` when `0 <= v <= M` and `M > 0`. */
  lemma ScaledWithin(v: int, windowY: nat, maxValue: int)
    requires 0 <= v <= maxValue && 0 < maxValue
    ensures 0 <= (v * windowY) / maxValue <= windowY
  {
  }

  /**
   * Column height exactly as drawColumns computes it: `v * Y / maxValue`.
   * It divides by `maxValue`, so it has no value when `maxValue == 0`.
   */
  function ColumnHeight(v: int, windowY: nat, maxValue: int): (h: int)
    requires maxValue != 0
    ensures 0 <= v <= maxValue ==> 0 <= h <= windowY
  {
    if 0 <= v <= maxValue then ScaledWithin(v, windowY, maxValue); TruncDiv(v * windowY, maxValue)
    else TruncDiv(v * windowY, maxValue)
  }

  /**
   * A sequence generated from a count of one is `[0]`, so the maximum stored
   * in the display metadata is `0` and ColumnHeight cannot be evaluated.
   */
  lemma SingleNumberMaximumIsZero(s: seq<int>)
    requires IsPermutationOfRange(s, 1)
    ensures s == [0]
    ensures forall m :: IsMaximum(m, s) ==> m == 0
  {
    PermutationOfRangeValues(s, 1);
    assert s[0] in s;
    assert s == [s[0]];
  }

  /**
   * Column height with the zero maximum guarded: a sequence whose maximum is
   * `0` draws flat columns instead of dividing by zero.
   */
  function SafeColumnHeight(v: int, windowY: nat, maxValue: int): (h: int)
    ensures maxValue != 0 ==> h == ColumnHeight(v, windowY, maxValue)
    ensures 0 <= v <= maxValue ==> 0 <= h <= windowY
  {
    if maxValue == 0 then 0 else ColumnHeight(v, windowY, maxValue)
  }

  /** The rectangle for the element `v` at position `index`, standing on the bottom edge. */
  function Column(index: nat, v: int, columnWidth: int, windowY: nat, maxValue: int): (r: Rect)
    ensures r.x == index * columnWidth && r.w == columnWidth
    ensures r.y + r.h == windowY
    ensures maxValue != 0 ==> r.h == ColumnHeight(v, windowY, maxValue)
    ensures maxValue == 0 ==> r.h == 0
    ensures 0 <= v <= maxValue ==> 0 <= r.h <= windowY && 0 <= r.y <= windowY
  {
    var h := SafeColumnHeight(v, windowY, maxValue);
    Rect(index * columnWidth, windowY - h, columnWidth, h)
  }

  /** With `columnWidth == X / n`, the columns at positions `0..n-1` lie side by side within `[0, X]`. */
  lemma ColumnsFitWindow(k: nat, n: nat, windowX: nat)
    requires k < n
    ensures 0 <= k * (windowX / n)
    ensures k * (windowX / n) + windowX / n <= n * (windowX / n) <= windowX
  {
    var w := windowX / n;
    assert (k + 1) * w == k * w + w;
    assert n * w + windowX % n == windowX;
  }
}
