/** An optional value, for what is missing or fails, and two properties of sequences. */
module Wrappers {
  datatype Option<+T> = None | Some(value: T)

  ghost function Elements<T>(s: seq<T>): set<T> { set x | x in s }

  ghost predicate Distinct<T>(s: seq<T>) {
    forall i, j :: 0 <= i < j < |s| ==> s[i] != s[j]
  }
}
