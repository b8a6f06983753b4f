/** Result shapes and small facts shared by every module. */
module Prelude {

  datatype Option<+T> = None | Some(value: T)

  /** `Raised` stands for a Python exception that leaves the modelled function. */
  datatype Outcome<+T> = Ok(value: T) | Raised

  lemma SomeElement<T>(s: set<T>) returns (x: T)
    requires s != {}
    ensures x in s
  {
    x :| x in s;
  }

  /** Some element of a set: Python iterates its sets in no particular order. */
  method Pick<T(==)>(s: set<T>) returns (x: T)
    requires s != {}
    ensures x in s
  {
    x :| x in s;
  }

  function OrElse<T>(o: Option<T>, default: T): T {
    match o
    case Some(x) => x
    case None => default
  }

  /** No element occurs twice. */
  ghost predicate Distinct<T>(s: seq<T>) {
    forall i, j :: 0 <= i < j < |s| ==> s[i] != s[j]
  }
}
