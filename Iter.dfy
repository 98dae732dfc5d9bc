/** Rust's `iter().flat_map(f).collect()` over a sequence, the shape every
    item walk of the plugin takes. Defined from the back, so that a loop that
    has handled a prefix extends its result by one element's contribution. */
module Iter {

  function FlatMap<T, U>(xs: seq<T>, f: T -> seq<U>): seq<U>
  {
    if xs == [] then [] else FlatMap(xs[..|xs| - 1], f) + f(xs[|xs| - 1])
  }

  /** Flat-mapping a concatenation is concatenating the flat-maps. */
  lemma {:induction false} FlatMapAppend<T, U>(xs: seq<T>, ys: seq<T>, f: T -> seq<U>)
    ensures FlatMap(xs + ys, f) == FlatMap(xs, f) + FlatMap(ys, f)
  {
    if ys != [] {
      var ys' := ys[..|ys| - 1];
      assert (xs + ys)[..|xs + ys| - 1] == xs + ys';
      FlatMapAppend(xs, ys', f);
    } else {
      assert xs + ys == xs;
    }
  }

  /** What one element at any position contributes, in place. */
  lemma FlatMapSplit<T, U>(xs: seq<T>, x: T, ys: seq<T>, f: T -> seq<U>)
    ensures FlatMap(xs + [x] + ys, f) == FlatMap(xs, f) + f(x) + FlatMap(ys, f)
  {
    FlatMapAppend(xs + [x], ys, f);
    assert (xs + [x])[..|xs + [x]| - 1] == xs;
  }

  /** When every element contributes exactly one value, the flat-map is a
      map: one value per element, in order. */
  lemma {:induction false} FlatMapOfSingletons<T, U>(xs: seq<T>, f: T -> seq<U>)
    requires forall k :: 0 <= k < |xs| ==> |f(xs[k])| == 1
    ensures |FlatMap(xs, f)| == |xs|
    ensures forall k :: 0 <= k < |xs| ==> FlatMap(xs, f)[k] == f(xs[k])[0]
  {
    if xs != [] {
      var xs' := xs[..|xs| - 1];
      FlatMapOfSingletons(xs', f);
    }
  }
}
