/** What several modules need: values that may be absent, and the members of a list. */
module Wrappers {
  datatype Option<+T> = None | Some(value: T)

  function Elements<T(!new)>(s: seq<T>): (r: set<T>)
    ensures forall x :: x in r <==> x in s
  {
    set x | x in s
  }
}
