/** The optional value used wherever the source returns `None` or raises an exception. */
module Wrappers {

  datatype Option<+T> = None | Some(value: T)

  /** Some element of a non-empty set, for walking over a dictionary's keys in no particular order. */
  lemma Pick<T>(s: set<T>) returns (x: T)
    requires s != {}
    ensures x in s
  {
    if forall y :: y !in s {
      assert false;
    }
    x :| x in s;
  }
}
