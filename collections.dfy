/** Small facts about Dafny's collections used by the loops over keys. */
module Collections {

  /** A non-empty set has an element (so `var x :| x in s` can pick one). */
  lemma NonEmpty<T>(s: set<T>)
    requires s != {}
    ensures exists x :: x in s
  {
    assert (forall x :: x !in s) ==> s == {};
  }
}
