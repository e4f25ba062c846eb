/** Types shared by the models of the POS components. */
module Common {

  /** A nullable column, an absent map entry, an omitted reply. */
  datatype Option<+T> = None | Some(value: T)

  /** A source error return next to its success value. */
  datatype Result<+T, +E> = Ok(value: T) | Err(error: E)

  /** No element occurs twice. */
  ghost predicate Distinct<T>(s: seq<T>) {
    forall i, j :: 0 <= i < j < |s| ==> s[i] != s[j]
  }

  lemma MulMonotone(a: int, b: int, c: int)
    requires a <= b && c >= 0
    ensures a * c <= b * c
  {
  }

  lemma Distribute(a: int, b: int, c: int)
    ensures (a - b) * c == a * c - c * b
    ensures (a + b) * c == a * c + b * c
  {
  }
}
