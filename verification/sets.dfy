/** Facts about finite sets shared by the route walk and the services. */
module Sets {
  /** A subset is never larger than its superset. */
  lemma SubsetCardinality<T>(a: set<T>, b: set<T>)
    requires a <= b
    ensures |a| <= |b|
  {
    assert b == a + (b - a);
  }
}
