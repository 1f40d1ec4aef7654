/** Small vocabulary shared by the other modules. */
module Prelude {

  /** Go's nil-able value. */
  datatype Option<+T> = None | Some(value: T)

  /** Go's `(value, error)` pair; the error carries what the model needs of it. */
  datatype Result<+T, +E> = Ok(value: T) | Err(error: E)

  predicate Distinct<T(==)>(s: seq<T>) {
    forall i, j :: 0 <= i < j < |s| ==> s[i] != s[j]
  }

  /** Where c first occurs; the length where it does not. */
  function IndexOf(s: string, c: char): (i: nat)
    ensures i <= |s| && (i < |s| ==> s[i] == c) && forall j :: 0 <= j < i ==> s[j] != c
  {
    if s == [] || s[0] == c then 0 else 1 + IndexOf(s[1..], c)
  }

  lemma FirstAt(s: string, c: char, i: nat)
    requires i < |s| && s[i] == c && forall j :: 0 <= j < i ==> s[j] != c
    ensures IndexOf(s, c) == i
  {}

  lemma NotIn(s: string, c: char)
    requires forall j :: 0 <= j < |s| ==> s[j] != c
    ensures IndexOf(s, c) == |s|
  {}
}
