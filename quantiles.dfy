/**
 * `Series.quantile(q)` with pandas' default linear interpolation: the
 * non-missing values are sorted and the quantile is read at position
 * `(n - 1) * q`, interpolating between its two neighbours.
 */
module Quantiles {
  import opened Wrappers

  predicate Ascending(s: seq<real>) {
    forall i, j :: 0 <= i <= j < |s| ==> s[i] <= s[j]
  }

  function Insert(x: real, s: seq<real>): (r: seq<real>)
    requires Ascending(s)
    ensures Ascending(r) && multiset(r) == multiset(s) + multiset{x}
    ensures r[0] == x || (s != [] && r[0] == s[0])
  {
    if s == [] || x <= s[0] then
      PrependAscending(x, s);
      [x] + s
    else
      var t := Insert(x, s[1..]);
      assert s == [s[0]] + s[1..];
      assert s[0] <= t[0];
      PrependAscending(s[0], t);
      [s[0]] + t
  }

  lemma PrependAscending(a: real, t: seq<real>)
    requires Ascending(t) && (t == [] || a <= t[0])
    ensures Ascending([a] + t)
  {
    var r := [a] + t;
    forall i, j | 0 <= i <= j < |r| ensures r[i] <= r[j] {
      if i == 0 && j > 0 { assert t[0] <= t[j - 1]; }
      else if i > 0 { assert r[i] == t[i - 1] && r[j] == t[j - 1]; }
    }
  }

  /** The values in ascending order (as numpy sorts them before reading a quantile). */
  function Sort(xs: seq<real>): (r: seq<real>)
    ensures Ascending(r) && multiset(r) == multiset(xs)
  {
    if xs == [] then []
    else
      assert xs == [xs[0]] + xs[1..];
      Insert(xs[0], Sort(xs[1..]))
  }

  /** Sorting values that are already ascending leaves them as they are. */
  lemma {:induction false} SortAscending(xs: seq<real>)
    requires Ascending(xs)
    ensures Sort(xs) == xs
  {
    if xs != [] {
      SortAscending(xs[1..]);
      assert xs == [xs[0]] + xs[1..];
    }
  }

  /** Every quantile of values that are all `x` is `x`. */
  lemma QuantileOfConstant(xs: seq<real>, x: real, q: real)
    requires 0.0 <= q <= 1.0 && x in xs && forall y :: y in xs ==> y == x
    ensures Quantile(xs, q) == Some(x)
  {
  }

  /**
   * The `q`-quantile of `xs`, or none (`NaN`) when `xs` is empty. The result
   * lies between two of the values, so between the minimum and the maximum.
   */
  function Quantile(xs: seq<real>, q: real): (r: Option<real>)
    requires 0.0 <= q <= 1.0
    ensures r.None? <==> xs == []
    ensures r.Some? ==> (exists x :: x in xs && x <= r.value) && (exists y :: y in xs && r.value <= y)
  {
    if xs == [] then None
    else
      var s := Sort(xs);
      PositionInRange(|s|, q);
      var v := ReadAt(s, Position(|s|, q));
      assert s[0] in multiset(s) && s[|s| - 1] in multiset(s);
      assert s[0] in xs && s[0] <= v;
      assert s[|s| - 1] in xs && v <= s[|s| - 1];
      Some(v)
  }

  /** The position `(n - 1) * q` at which the quantile is read. */
  function Position(n: nat, q: real): real {
    (n - 1) as real * q
  }

  lemma PositionInRange(n: nat, q: real)
    requires n >= 1 && 0.0 <= q <= 1.0
    ensures 0.0 <= Position(n, q) <= (n - 1) as real
  {
    var c := (n - 1) as real;
    var h := Position(n, q);
    assert h == c * q;
    MulMonotone(c, 0.0, q);
    MulMonotone(c, q, 1.0);
    assert c * 0.0 == 0.0 && c * 1.0 == c;
    assert 0.0 <= h <= c;
  }

  /** The value of an ascending sequence at the fractional position `h`, interpolated linearly. */
  function ReadAt(s: seq<real>, h: real): (r: real)
    requires s != [] && Ascending(s) && 0.0 <= h <= (|s| - 1) as real
    ensures s[0] <= r <= s[|s| - 1]
  {
    var lo := h.Floor;
    if lo + 1 < |s| then
      Interpolated(s[lo], s[lo + 1], h - lo as real);
      Lerp(s[lo], s[lo + 1], h - lo as real)
    else s[lo]
  }

  /** The value a fraction `t` of the way from `a` to `b`. */
  function Lerp(a: real, b: real, t: real): real {
    a + (b - a) * t
  }

  lemma MulMonotone(c: real, x: real, y: real)
    requires 0.0 <= c && x <= y
    ensures c * x <= c * y
  {
    assert c * y - c * x == c * (y - x);
    NonNegativeProduct(c, y - x);
  }

  lemma FloorMonotone(a: real, b: real)
    requires a <= b
    ensures a.Floor <= b.Floor
  {
  }

  lemma NonNegativeProduct(a: real, b: real)
    requires 0.0 <= a && 0.0 <= b
    ensures 0.0 <= a * b
  {
  }

  lemma Interpolated(a: real, b: real, t: real)
    requires a <= b && 0.0 <= t < 1.0
    ensures a <= Lerp(a, b, t) <= b
  {
    MulMonotone(b - a, 0.0, t);
    MulMonotone(b - a, t, 1.0);
  }

  /** A larger `q` never gives a smaller quantile, so the low bound never exceeds the high one. */
  lemma QuantileMonotone(xs: seq<real>, q1: real, q2: real)
    requires 0.0 <= q1 <= q2 <= 1.0 && xs != []
    ensures Quantile(xs, q1).value <= Quantile(xs, q2).value
  {
    var s := Sort(xs);
    PositionMonotone(|s|, q1, q2);
    PositionInRange(|s|, q1);
    PositionInRange(|s|, q2);
    ReadAtMonotone(s, Position(|s|, q1), Position(|s|, q2));
  }

  lemma PositionMonotone(n: nat, q1: real, q2: real)
    requires n >= 1 && q1 <= q2
    ensures Position(n, q1) <= Position(n, q2)
  {
    var c := (n - 1) as real;
    MulMonotone(c, q1, q2);
    assert Position(n, q1) == c * q1 && Position(n, q2) == c * q2;
  }

  lemma LerpMonotone(a: real, b: real, t1: real, t2: real)
    requires a <= b && t1 <= t2
    ensures Lerp(a, b, t1) <= Lerp(a, b, t2)
  {
    MulMonotone(b - a, t1, t2);
  }

  lemma ReadAtMonotone(s: seq<real>, h1: real, h2: real)
    requires s != [] && Ascending(s) && 0.0 <= h1 <= h2 <= (|s| - 1) as real
    ensures ReadAt(s, h1) <= ReadAt(s, h2)
  {
    var lo1, lo2 := h1.Floor, h2.Floor;
    FloorMonotone(h1, h2);
    if lo1 == lo2 {
      if lo1 + 1 < |s| {
        assert s[lo1] <= s[lo1 + 1];
        var a, b := s[lo1], s[lo1 + 1];
        var t1, t2 := h1 - lo1 as real, h2 - lo2 as real;
        LerpMonotone(a, b, t1, t2);
        assert ReadAt(s, h1) == Lerp(a, b, t1);
        assert ReadAt(s, h2) == Lerp(a, b, t2);
      }
    } else {
      Interpolated(s[lo1], s[lo1 + 1], h1 - lo1 as real);
      assert s[lo1 + 1] <= s[lo2];
      if lo2 + 1 < |s| {
        Interpolated(s[lo2], s[lo2 + 1], h2 - lo2 as real);
      }
    }
  }
}
