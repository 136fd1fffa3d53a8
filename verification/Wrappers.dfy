/** The optional and result values and the facts about sets the other modules share. */
module Wrappers {

  datatype Option<+T> = None | Some(value: T)

  datatype Result<+T, +E> = Success(value: T) | Failure(error: E)

  lemma AnyOf<T>(s: set<T>) returns (element: T)
    requires s != {}
    ensures element in s
  {
    element :| element in s;
  }

  lemma SubsetsAreSmaller<T>(a: set<T>, b: set<T>)
    requires a <= b
    ensures |a| <= |b|
  {
    assert b == a + (b - a);
  }
}
