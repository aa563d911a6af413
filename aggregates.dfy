/** The arithmetic over lists of amounts: the `reduce` total, the count of
    positive amounts, and `Math.max` / `Math.min` over a spread list.
    Amounts are reals; floating-point rounding is not modelled. */
module Aggregates {

  /** `amounts.reduce((sum, a) => sum + a, 0)`, folded from the left. */
  function Sum(s: seq<real>): real {
    if s == [] then 0.0 else Sum(s[..|s| - 1]) + s[|s| - 1]
  }

  lemma {:induction false} SumAppend(a: seq<real>, b: seq<real>)
    ensures Sum(a + b) == Sum(a) + Sum(b)
  {
    if b != [] {
      assert (a + b)[..|a + b| - 1] == a + b[..|b| - 1];
      SumAppend(a, b[..|b| - 1]);
    } else {
      assert a + b == a;
    }
  }

  /** The positions of the positive amounts. */
  function PositiveIndices(s: seq<real>): set<int> {
    set i | 0 <= i < |s| && s[i] > 0.0
  }

  /** The positive positions of a list are those of all but its last amount,
      plus the last position when that amount is positive. */
  lemma PositiveIndicesSnoc(s: seq<real>)
    requires |s| > 0
    ensures var last := if s[|s| - 1] > 0.0 then {|s| - 1} else {};
            && PositiveIndices(s) == PositiveIndices(s[..|s| - 1]) + last
            && PositiveIndices(s[..|s| - 1]) * last == {}
  {
    var init := s[..|s| - 1];
    assert forall i :: 0 <= i < |init| ==> init[i] == s[i];
  }

  /** `amounts.filter(a => a > 0).length`: how many positions hold a positive amount. */
  function CountPositive(s: seq<real>): (n: nat)
    ensures n == |PositiveIndices(s)|
    ensures n <= |s|
    ensures n == |s| <==> forall i :: 0 <= i < |s| ==> s[i] > 0.0
  {
    if s == [] then
      assert PositiveIndices(s) == {};
      0
    else
      var init := s[..|s| - 1];
      assert forall i :: 0 <= i < |init| ==> init[i] == s[i];
      PositiveIndicesSnoc(s);
      CountPositive(init) + (if s[|s| - 1] > 0.0 then 1 else 0)
  }

  /** Counting distributes over concatenation, as the filter does. */
  lemma {:induction false} CountPositiveAppend(a: seq<real>, b: seq<real>)
    ensures CountPositive(a + b) == CountPositive(a) + CountPositive(b)
  {
    if b != [] {
      assert (a + b)[..|a + b| - 1] == a + b[..|b| - 1];
      CountPositiveAppend(a, b[..|b| - 1]);
    } else {
      assert a + b == a;
    }
  }

  /** `Math.max(...s)` for a non-empty list. */
  function Max(s: seq<real>): (r: real)
    requires |s| > 0
    ensures r in s
    ensures forall i :: 0 <= i < |s| ==> s[i] <= r
  {
    if |s| == 1 then s[0]
    else
      var m := Max(s[..|s| - 1]);
      if s[|s| - 1] > m then s[|s| - 1] else m
  }

  /** `Math.min(...s)` for a non-empty list. */
  function Min(s: seq<real>): (r: real)
    requires |s| > 0
    ensures r in s
    ensures forall i :: 0 <= i < |s| ==> r <= s[i]
  {
    if |s| == 1 then s[0]
    else
      var m := Min(s[..|s| - 1]);
      if s[|s| - 1] < m then s[|s| - 1] else m
  }

  /** A bound on every amount bounds the total by that many times the bound. */
  lemma {:induction false} SumAtMost(s: seq<real>, b: real)
    requires forall i :: 0 <= i < |s| ==> s[i] <= b
    ensures Sum(s) <= b * |s| as real
  {
    if s != [] {
      SumAtMost(s[..|s| - 1], b);
      assert b * (|s| - 1) as real + b == b * |s| as real;
    }
  }

  lemma {:induction false} SumAtLeast(s: seq<real>, b: real)
    requires forall i :: 0 <= i < |s| ==> b <= s[i]
    ensures b * |s| as real <= Sum(s)
  {
    if s != [] {
      SumAtLeast(s[..|s| - 1], b);
      assert b * (|s| - 1) as real + b == b * |s| as real;
    }
  }

  lemma QuotientAtMost(x: real, b: real, n: real)
    requires n > 0.0 && x <= b * n
    ensures x / n <= b
  {
    assert x / n - b == (x - b * n) / n;
  }

  lemma QuotientAtLeast(x: real, b: real, n: real)
    requires n > 0.0 && b * n <= x
    ensures b <= x / n
  {
    assert x / n - b == (x - b * n) / n;
  }

  /** Bounds on every amount of a non-empty list bound its mean; with Min and Max
      as the bounds: the mean lies between the smallest and the largest amount. */
  lemma MeanWithinBounds(s: seq<real>, lo: real, hi: real)
    requires |s| > 0
    requires forall i :: 0 <= i < |s| ==> lo <= s[i] <= hi
    ensures lo <= Sum(s) / |s| as real <= hi
  {
    SumAtMost(s, hi);
    SumAtLeast(s, lo);
    QuotientAtMost(Sum(s), hi, |s| as real);
    QuotientAtLeast(Sum(s), lo, |s| as real);
  }
}
