/** Values shared by every stage of the incident-table pipeline. */
module Cells {

  /** One cell of the incident table: a missing value (NaN), a piece of text,
      or an integer (the 0/1 indicator flags the encoder writes). */
  datatype Cell = Missing | Str(s: string) | Num(n: int)

  /** The errors the pipeline raises: a column label that the table does not have,
      and a column without text under the `.str` accessor. */
  datatype Error = KeyError(name: string) | AttributeError(name: string)

  datatype Result<T> = Ok(value: T) | Err(error: Error)

  /** A flag is an indicator value: 0 or 1. */
  predicate IsFlag(x: int) {
    x == 0 || x == 1
  }

  predicate AllFlags(xs: seq<int>) {
    forall i :: 0 <= i < |xs| ==> IsFlag(xs[i])
  }

  /** The row positions 0, 1, ..., n - 1: the labels of a freshly built table. */
  function Range(n: nat): (r: seq<int>)
    ensures |r| == n
    ensures forall i :: 0 <= i < n ==> r[i] == i
  {
    seq(n, i => i)
  }

  /** The first element of a non-empty list is one of its elements. */
  lemma FirstIsMember<T>(xs: seq<T>)
    ensures xs != [] ==> xs[0] in xs
  {
  }

  /** No element occurs twice. */
  predicate Distinct<T(==)>(xs: seq<T>) {
    forall i, j :: 0 <= i < j < |xs| ==> xs[i] != xs[j]
  }
}
