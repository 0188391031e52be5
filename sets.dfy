/** A fact about finite sets of integers that the loops over table keys use. */
module Sets {

  /** A non-empty set has an element, which a loop can pick. */
  lemma {:induction false} NonEmptyHasElement(s: set<int>)
    ensures s != {} ==> exists y :: y in s
  {
    if forall y :: y !in s {
      assert forall y :: y in s <==> y in {};
    }
  }
}
