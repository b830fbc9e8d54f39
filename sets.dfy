/** Choosing an element of a finite set, and set cardinality facts used by
    the sums over targets. */
module Sets {

  /** Some element of a non-empty set (for specifications). */
  ghost function Pick<T>(s: set<T>): (x: T)
    requires s != {}
    ensures x in s
  {
    var x :| x in s; x
  }

  /** Some element of a non-empty set, as the iteration order of a Python
      dict or set would deliver it. */
  method Choose<T>(s: set<T>) returns (x: T)
    requires s != {}
    ensures x in s
  {
    x :| x in s;
  }

  lemma SubsetCard<T>(a: set<T>, b: set<T>)
    requires a <= b
    ensures |a| <= |b|
  {
    assert b == a + (b - a);
  }
}
