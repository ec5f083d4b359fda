/** What several modules share. */
module Wrappers {
  /** A value that may be missing. */
  datatype Option<+X> = None | Some(value: X)

  type Byte = b: int | 0 <= b < 256

  /** No element twice. */
  ghost predicate Distinct<X>(s: seq<X>) {
    forall i, j :: 0 <= i < j < |s| ==> s[i] != s[j]
  }
}
