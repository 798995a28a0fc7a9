/**
 What several modules need of values and sequences.
 */
module Collections {

  datatype Option<+T> = None | Some(value: T)

  ghost predicate Distinct<T>(xs: seq<T>) {
    forall i, j :: 0 <= i < j < |xs| ==> xs[i] != xs[j]
  }

  /** Distinct elements of a set are at most as many as the set has, and just as many when
      they are all of it. */
  lemma {:induction false} DistinctCount<T>(xs: seq<T>, all: set<T>)
    requires Distinct(xs) && forall i :: 0 <= i < |xs| ==> xs[i] in all
    ensures |xs| <= |all|
    ensures (forall x :: x in all ==> x in xs) ==> |xs| == |all|
  {
    if xs == [] {
      assert (forall x :: x in all ==> x in xs) ==> all == {};
    } else {
      var rest, last := xs[..|xs| - 1], xs[|xs| - 1];
      assert xs == rest + [last];
      DistinctCount(rest, all - {last});
    }
  }
}
