/** Sorted, duplicate-free sequences, as pandas builds an index from a set of keys. */
module Ordering {

  ghost predicate IsStrictTotalOrder<T(!new)>(less: (T, T) -> bool) {
    && (forall a :: !less(a, a))
    && (forall a, b, c :: less(a, b) && less(b, c) ==> less(a, c))
    && (forall a, b :: a != b ==> less(a, b) || less(b, a))
  }

  predicate StrictlyIncreasing<T>(s: seq<T>, less: (T, T) -> bool) {
    forall i, j :: 0 <= i < j < |s| ==> less(s[i], s[j])
  }

  /** Adds `x` to a sorted sequence unless it is already there. */
  function Insert<T(==,!new)>(s: seq<T>, x: T, less: (T, T) -> bool): (r: seq<T>)
    requires IsStrictTotalOrder(less) && StrictlyIncreasing(s, less)
    ensures StrictlyIncreasing(r, less)
    ensures forall y :: y in r <==> y in s || y == x
  {
    if s == [] then [x]
    else if x == s[0] then s
    else if less(x, s[0]) then [x] + s
    else
      var rest := Insert(s[1..], x, less);
      assert forall y :: y in rest ==> less(s[0], y);
      [s[0]] + rest
  }

  /** The distinct elements of `xs`, in ascending order. */
  function SortedUnique<T(==,!new)>(xs: seq<T>, less: (T, T) -> bool): (r: seq<T>)
    requires IsStrictTotalOrder(less)
    ensures StrictlyIncreasing(r, less)
    ensures forall y :: y in r <==> y in xs
  {
    if xs == [] then []
    else Insert(SortedUnique(xs[..|xs| - 1], less), xs[|xs| - 1], less)
  }
}
