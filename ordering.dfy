/**
 * Strict total orders and the canonical "sorted distinct values" of a
 * sequence (what `np.unique` returns and what pandas' `groupby` iterates over).
 */
module Ordering {

  /** `lt` is a strict total order on `T`. */
  ghost predicate StrictTotalOrder<T(!new)>(lt: (T, T) -> bool) {
    && (forall a :: !lt(a, a))
    && (forall a, b, c :: lt(a, b) && lt(b, c) ==> lt(a, c))
    && (forall a, b :: a == b || lt(a, b) || lt(b, a))
  }

  ghost predicate StrictlySorted<T>(lt: (T, T) -> bool, s: seq<T>) {
    forall i, j :: 0 <= i < j < |s| ==> lt(s[i], s[j])
  }

  /** Inserts `x` into a strictly sorted sequence unless it is already there. */
  function InsertUnique<T(==)>(lt: (T, T) -> bool, x: T, s: seq<T>): seq<T> {
    if s == [] then [x]
    else if x == s[0] then s
    else if lt(x, s[0]) then [x] + s
    else [s[0]] + InsertUnique(lt, x, s[1..])
  }

  /** The distinct values of `xs` in ascending order. */
  function SortedUnique<T(==)>(lt: (T, T) -> bool, xs: seq<T>): seq<T> {
    if xs == [] then [] else InsertUnique(lt, xs[0], SortedUnique(lt, xs[1..]))
  }

  lemma {:induction false} InsertUniqueCorrect<T(!new)>(lt: (T, T) -> bool, x: T, s: seq<T>)
    requires StrictTotalOrder(lt) && StrictlySorted(lt, s)
    ensures StrictlySorted(lt, InsertUnique(lt, x, s))
    ensures forall y :: y in InsertUnique(lt, x, s) <==> y == x || y in s
  {
    if s != [] && x != s[0] && !lt(x, s[0]) {
      var t := s[1..];
      assert StrictlySorted(lt, t) by {
        forall i, j | 0 <= i < j < |t| ensures lt(t[i], t[j]) { assert t[i] == s[i + 1] && t[j] == s[j + 1]; }
      }
      InsertUniqueCorrect(lt, x, t);
      var r := InsertUnique(lt, x, t);
      assert lt(s[0], x);
      forall k | 0 <= k < |r| ensures lt(s[0], r[k]) {
        assert r[k] in r;
        if r[k] != x {
          assert r[k] in t;
          var m :| 0 <= m < |t| && t[m] == r[k];
          assert s[m + 1] == r[k];
        }
      }
      var full := [s[0]] + r;
      forall i, j | 0 <= i < j < |full| ensures lt(full[i], full[j]) {
        if i > 0 { assert full[i] == r[i - 1] && full[j] == r[j - 1]; }
        else { assert full[j] == r[j - 1]; }
      }
      assert InsertUnique(lt, x, s) == full;
      forall y ensures y in full <==> y == x || y in s {
        assert y in s <==> y == s[0] || y in t by { assert s == [s[0]] + t; }
      }
    } else if s != [] && x != s[0] {
      var full := [x] + s;
      forall i, j | 0 <= i < j < |full| ensures lt(full[i], full[j]) {
        if i > 0 { assert full[i] == s[i - 1] && full[j] == s[j - 1]; }
        else { assert full[j] == s[j - 1]; if j > 1 { assert lt(s[0], s[j - 1]); } }
      }
    }
  }

  /** The result of `SortedUnique` is strictly sorted and holds exactly the values of `xs`. */
  lemma {:induction false} SortedUniqueCorrect<T(!new)>(lt: (T, T) -> bool, xs: seq<T>)
    requires StrictTotalOrder(lt)
    ensures StrictlySorted(lt, SortedUnique(lt, xs))
    ensures forall y :: y in SortedUnique(lt, xs) <==> y in xs
  {
    if xs != [] {
      SortedUniqueCorrect(lt, xs[1..]);
      InsertUniqueCorrect(lt, xs[0], SortedUnique(lt, xs[1..]));
      forall y ensures y in xs <==> y == xs[0] || y in xs[1..] {
        assert xs == [xs[0]] + xs[1..];
      }
    }
  }

  /** In a strictly sorted sequence, positions are determined by values. */
  lemma StrictlySortedDistinct<T(!new)>(lt: (T, T) -> bool, s: seq<T>, i: int, j: int)
    requires StrictTotalOrder(lt) && StrictlySorted(lt, s)
    requires 0 <= i < |s| && 0 <= j < |s| && s[i] == s[j]
    ensures i == j
  {
  }

  /** Python's `<` on `str`: lexicographic by code point, a proper prefix first. */
  predicate StrLt(a: string, b: string) {
    if a == [] then b != []
    else if b == [] then false
    else if a[0] != b[0] then a[0] < b[0]
    else StrLt(a[1..], b[1..])
  }

  lemma {:induction false} StrLtIrreflexive(a: string)
    ensures !StrLt(a, a)
  {
    if a != [] { StrLtIrreflexive(a[1..]); }
  }

  lemma {:induction false} StrLtTransitive(a: string, b: string, c: string)
    requires StrLt(a, b) && StrLt(b, c)
    ensures StrLt(a, c)
  {
    if a != [] && b != [] && c != [] && a[0] == b[0] && b[0] == c[0] {
      StrLtTransitive(a[1..], b[1..], c[1..]);
    }
  }

  lemma {:induction false} StrLtTotal(a: string, b: string)
    ensures a == b || StrLt(a, b) || StrLt(b, a)
  {
    if a != [] && b != [] && a[0] == b[0] {
      StrLtTotal(a[1..], b[1..]);
      if a[1..] == b[1..] { assert a == [a[0]] + a[1..] && b == [b[0]] + b[1..]; }
    }
  }

  /** Python's string comparison is a strict total order. */
  lemma StrLtIsStrictTotalOrder()
    ensures StrictTotalOrder(StrLt)
  {
    forall a ensures !StrLt(a, a) { StrLtIrreflexive(a); }
    forall a, b, c | StrLt(a, b) && StrLt(b, c) ensures StrLt(a, c) { StrLtTransitive(a, b, c); }
    forall a, b ensures a == b || StrLt(a, b) || StrLt(b, a) { StrLtTotal(a, b); }
  }

  predicate IntLt(a: int, b: int) { a < b }

  lemma IntLtIsStrictTotalOrder()
    ensures StrictTotalOrder(IntLt)
  {
  }
}
