/** Python's `sorted` on elements that a strict order tells apart, and the string order
    Python compares `str` values with. */
module Sorting {
  import opened Seqs

  /** `lt` is irreflexive and transitive. */
  ghost predicate StrictOrder<T(!new)>(lt: (T, T) -> bool) {
    (forall a :: !lt(a, a)) && (forall a, b, c :: lt(a, b) && lt(b, c) ==> lt(a, c))
  }

  /** Any two different elements of `xs` are comparable. */
  predicate Comparable<T(==)>(xs: seq<T>, lt: (T, T) -> bool) {
    forall i, j :: 0 <= i < |xs| && 0 <= j < |xs| && xs[i] != xs[j] ==>
      lt(xs[i], xs[j]) || lt(xs[j], xs[i])
  }

  /** Every element comes strictly before the ones after it. */
  predicate SortedBy<T>(xs: seq<T>, lt: (T, T) -> bool) {
    forall i, j :: 0 <= i < j < |xs| ==> lt(xs[i], xs[j])
  }

  /** Puts `x` at its place in a sorted sequence; an element already present is kept once. */
  function Insert<T(==,!new)>(x: T, xs: seq<T>, lt: (T, T) -> bool): (r: seq<T>)
    requires StrictOrder(lt) && SortedBy(xs, lt)
    requires forall y :: y in xs && y != x ==> lt(x, y) || lt(y, x)
    ensures SortedBy(r, lt)
    ensures forall z :: z in r <==> z == x || z in xs
    ensures |r| == if x in xs then |xs| else |xs| + 1
  {
    if |xs| == 0 then [x]
    else if x == xs[0] then xs
    else if lt(x, xs[0]) then
      assert x !in xs by {
        forall k | 0 <= k < |xs| ensures xs[k] != x {
          if k > 0 {
            assert lt(xs[0], xs[k]);
          }
        }
      }
      [x] + xs
    else
      assert xs == [xs[0]] + xs[1..];
      var rest := Insert(x, xs[1..], lt);
      assert forall z :: z in rest ==> lt(xs[0], z) by {
        forall z | z in rest ensures lt(xs[0], z) {
          if z != x {
            var k :| 0 <= k < |xs[1..]| && xs[1..][k] == z;
            assert lt(xs[0], xs[k + 1]);
          }
        }
      }
      assert SortedBy([xs[0]] + rest, lt) by {
        forall i, j | 0 <= i < j < |rest| + 1 ensures lt(([xs[0]] + rest)[i], ([xs[0]] + rest)[j]) {
          if i == 0 {
            assert rest[j - 1] in rest;
          }
        }
      }
      [xs[0]] + rest
  }

  /** `sorted(xs)` for elements that the order tells apart; repeated elements are kept
      once. */
  function Sort<T(==,!new)>(xs: seq<T>, lt: (T, T) -> bool): (r: seq<T>)
    requires StrictOrder(lt) && Comparable(xs, lt)
    ensures SortedBy(r, lt)
    ensures forall z :: z in r <==> z in xs
    ensures NoDuplicates(xs) ==> |r| == |xs|
  {
    if |xs| == 0 then []
    else
      var init := xs[..|xs| - 1];
      var last := xs[|xs| - 1];
      assert forall z :: z in xs <==> z in init || z == last by {
        assert xs == init + [last];
      }
      Insert(last, Sort(init, lt), lt)
  }

  lemma SortedHasNoDuplicates<T(!new)>(xs: seq<T>, lt: (T, T) -> bool)
    requires StrictOrder(lt) && SortedBy(xs, lt)
    ensures NoDuplicates(xs)
  {
    forall i, j | 0 <= i < j < |xs| ensures xs[i] != xs[j] {
      assert lt(xs[i], xs[j]);
    }
  }

  /** The first element of a sorted sequence comes before all the others. */
  lemma SortedLeast<T(!new)>(xs: seq<T>, z: T, lt: (T, T) -> bool)
    requires SortedBy(xs, lt) && z in xs
    ensures z == xs[0] || lt(xs[0], z)
  {
    var k :| 0 <= k < |xs| && xs[k] == z;
    if k > 0 {
      assert lt(xs[0], xs[k]);
    }
  }

  /** Two sorted sequences holding the same elements are the same sequence. */
  lemma {:induction false} SortedUnique<T(!new)>(xs: seq<T>, ys: seq<T>, lt: (T, T) -> bool)
    requires StrictOrder(lt) && SortedBy(xs, lt) && SortedBy(ys, lt)
    requires forall z :: z in xs <==> z in ys
    ensures xs == ys
    decreases |xs|
  {
    if |xs| > 0 {
      assert xs[0] in ys && ys[0] in xs;
      SortedLeast(xs, ys[0], lt);
      SortedLeast(ys, xs[0], lt);
      forall z ensures z in xs[1..] <==> z in ys[1..] {
        if z in xs[1..] {
          var k :| 1 <= k < |xs| && xs[k] == z;
          assert lt(xs[0], z);
          assert z != ys[0];
          assert z in ys;
        }
        if z in ys[1..] {
          var k :| 1 <= k < |ys| && ys[k] == z;
          assert lt(ys[0], z);
          assert z != xs[0];
          assert z in xs;
        }
      }
      SortedUnique(xs[1..], ys[1..], lt);
      assert xs == [xs[0]] + xs[1..] && ys == [ys[0]] + ys[1..];
    }
  }

  /** Python's `<` on `str`: code point by code point, a proper prefix first. */
  predicate LexLess(a: string, b: string)
    decreases |a|
  {
    if |a| == 0 then |b| > 0
    else if |b| == 0 then false
    else if a[0] != b[0] then a[0] < b[0]
    else LexLess(a[1..], b[1..])
  }

  lemma {:induction false} LexIrreflexive(a: string)
    ensures !LexLess(a, a)
    decreases |a|
  {
    if |a| > 0 {
      LexIrreflexive(a[1..]);
    }
  }

  lemma {:induction false} LexTransitive(a: string, b: string, c: string)
    requires LexLess(a, b) && LexLess(b, c)
    ensures LexLess(a, c)
    decreases |a|
  {
    if |a| > 0 && a[0] == b[0] && b[0] == c[0] {
      LexTransitive(a[1..], b[1..], c[1..]);
    }
  }

  lemma {:induction false} LexTotal(a: string, b: string)
    requires a != b
    ensures LexLess(a, b) || LexLess(b, a)
    decreases |a|
  {
    if |a| > 0 && |b| > 0 && a[0] == b[0] {
      assert a == [a[0]] + a[1..] && b == [b[0]] + b[1..];
      LexTotal(a[1..], b[1..]);
    }
  }
}
