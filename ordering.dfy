/** Orderings used by the ORDER BY clauses of the calc searches: SQLite's
    default (binary) collation on text, which compares character by
    character, and sorting with duplicate rows grouped into one. */
module Ordering {

  /** Lexicographic order on strings: a proper prefix comes first,
      otherwise the first differing character decides. */
  predicate StringLess(a: string, b: string) {
    if a == [] then b != []
    else if b == [] then false
    else if a[0] != b[0] then a[0] < b[0]
    else StringLess(a[1..], b[1..])
  }

  lemma {:induction false} StringLessIrreflexive(a: string)
    ensures !StringLess(a, a)
  {
    if a != [] {
      StringLessIrreflexive(a[1..]);
    }
  }

  lemma {:induction false} StringLessTransitive(a: string, b: string, c: string)
    requires StringLess(a, b) && StringLess(b, c)
    ensures StringLess(a, c)
  {
    if a != [] && b != [] && c != [] && a[0] == b[0] && b[0] == c[0] {
      StringLessTransitive(a[1..], b[1..], c[1..]);
    }
  }

  lemma {:induction false} StringLessTotal(a: string, b: string)
    requires a != b
    ensures StringLess(a, b) || StringLess(b, a)
  {
    if a != [] && b != [] && a[0] == b[0] {
      assert a == [a[0]] + a[1..] && b == [b[0]] + b[1..];
      StringLessTotal(a[1..], b[1..]);
    }
  }

  /** `lt` is irreflexive, transitive and relates any two distinct values. */
  ghost predicate StrictTotalOrder<T(!new)>(lt: (T, T) -> bool) {
    (forall a :: !lt(a, a))
    && (forall a, b, c :: lt(a, b) && lt(b, c) ==> lt(a, c))
    && (forall a, b :: a != b ==> lt(a, b) || lt(b, a))
  }

  /** Lexicographic order on strings is a strict total order. */
  lemma StringLessIsStrictTotalOrder()
    ensures StrictTotalOrder(StringLess)
  {
    forall a: string ensures !StringLess(a, a) {
      StringLessIrreflexive(a);
    }
    forall a: string, b: string, c: string | StringLess(a, b) && StringLess(b, c)
      ensures StringLess(a, c)
    {
      StringLessTransitive(a, b, c);
    }
    forall a: string, b: string | a != b
      ensures StringLess(a, b) || StringLess(b, a)
    {
      StringLessTotal(a, b);
    }
  }

  /** Every element precedes every later one; in particular there are no
      duplicates. */
  ghost predicate SortedBy<T>(xs: seq<T>, lt: (T, T) -> bool) {
    forall i, j :: 0 <= i < j < |xs| ==> lt(xs[i], xs[j])
  }

  /** `x` inserted at its place in a sorted list, unless already there. */
  function Insert<T(==)>(xs: seq<T>, x: T, lt: (T, T) -> bool): seq<T> {
    if xs == [] then [x]
    else if x == xs[0] then xs
    else if lt(x, xs[0]) then [x] + xs
    else [xs[0]] + Insert(xs[1..], x, lt)
  }

  /** The distinct elements of `xs` in increasing order: what ORDER BY
      returns after GROUP BY has merged equal rows. */
  function SortDistinct<T(==)>(xs: seq<T>, lt: (T, T) -> bool): seq<T> {
    if xs == [] then [] else Insert(SortDistinct(xs[..|xs| - 1], lt), xs[|xs| - 1], lt)
  }

  lemma {:induction false} InsertSorted<T(!new)>(xs: seq<T>, x: T, lt: (T, T) -> bool)
    requires StrictTotalOrder(lt) && SortedBy(xs, lt)
    ensures SortedBy(Insert(xs, x, lt), lt)
    ensures forall y :: y in Insert(xs, x, lt) <==> y in xs || y == x
  {
    if xs == [] || x == xs[0] {
    } else if lt(x, xs[0]) {
      var ys := [x] + xs;
      forall i, j | 0 <= i < j < |ys| ensures lt(ys[i], ys[j]) {
        if i == 0 && j > 1 {
          assert lt(xs[0], xs[j - 1]);
        }
      }
    } else {
      InsertSorted(xs[1..], x, lt);
      var rest := Insert(xs[1..], x, lt);
      var ys := [xs[0]] + rest;
      assert lt(xs[0], x);
      forall i, j | 0 <= i < j < |ys| ensures lt(ys[i], ys[j]) {
        if i == 0 {
          assert ys[j] in rest;
          if ys[j] != x {
            var k :| 0 <= k < |xs[1..]| && xs[1..][k] == ys[j];
            assert lt(xs[0], xs[k + 1]);
          }
        }
      }
      assert forall y :: y in xs <==> y == xs[0] || y in xs[1..];
    }
  }

  /** SortDistinct yields a sorted list holding exactly the elements of
      its input. */
  lemma {:induction false} SortDistinctSpec<T(!new)>(xs: seq<T>, lt: (T, T) -> bool)
    requires StrictTotalOrder(lt)
    ensures SortedBy(SortDistinct(xs, lt), lt)
    ensures forall y :: y in SortDistinct(xs, lt) <==> y in xs
  {
    if xs != [] {
      var init, last := xs[..|xs| - 1], xs[|xs| - 1];
      SortDistinctSpec(init, lt);
      InsertSorted(SortDistinct(init, lt), last, lt);
      assert xs == init + [last];
    }
  }

  /** Two sorted lists with the same elements are equal: a sorted,
      duplicate-free listing of a set of values is unique. */
  lemma {:induction false} SortedUnique<T(!new)>(xs: seq<T>, ys: seq<T>, lt: (T, T) -> bool)
    requires StrictTotalOrder(lt) && SortedBy(xs, lt) && SortedBy(ys, lt)
    requires forall y :: y in xs <==> y in ys
    ensures xs == ys
  {
    assert xs != [] <==> ys != [] by {
      if xs != [] { assert xs[0] in xs; }
      if ys != [] { assert ys[0] in ys; }
    }
    if xs != [] {
      assert xs[0] in ys && ys[0] in xs;
      assert xs[0] == ys[0];
      forall y ensures y in xs[1..] <==> y in ys[1..] {
        if y in xs[1..] {
          var k :| 0 <= k < |xs[1..]| && xs[1..][k] == y;
          assert lt(xs[0], xs[k + 1]);
          assert y in ys && y != ys[0];
        }
        if y in ys[1..] {
          var k :| 0 <= k < |ys[1..]| && ys[1..][k] == y;
          assert lt(ys[0], ys[k + 1]);
          assert y in xs && y != xs[0];
        }
      }
      SortedUnique(xs[1..], ys[1..], lt);
      assert xs == [xs[0]] + xs[1..] && ys == [ys[0]] + ys[1..];
    }
  }
}
