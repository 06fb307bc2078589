/** Finite sets, and sequences that list each of their elements once. */
module Sets {
  predicate Distinct<T(==)>(s: seq<T>) {
    forall j, k {:trigger s[j], s[k]} :: 0 <= j < k < |s| ==> s[j] != s[k]
  }

  /** A proper subset has fewer elements. */
  lemma Fewer<T>(a: set<T>, b: set<T>)
    requires a < b
    ensures |a| < |b|
  {
    var x :| x in b && x !in a;
    assert |b - {x}| == |b| - 1;
    if a != b - {x} {
      Fewer(a, b - {x});
    }
  }
}
