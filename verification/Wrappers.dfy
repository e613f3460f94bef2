/** Optional values, and choosing from a set. */
module Wrappers {
  datatype Option<+T> = None | Some(value: T)

  lemma Inhabited<T>(s: set<T>)
    requires s != {}
    ensures exists x :: x in s
  {
  }

  method Pick<T>(s: set<T>) returns (x: T)
    requires s != {}
    ensures x in s
  {
    Inhabited(s);
    x :| x in s;
  }
}
