/** Small shared vocabulary: failure-carrying results and facts about string sequences. */
module Util {

  datatype Option<+T> = None | Some(value: T)

  /** The outcome of an operation that returns nothing but may raise. */
  datatype Outcome<+E> = Pass | Fail(error: E)

  /** The outcome of an operation that returns a value or raises. */
  datatype Result<+T, +E> = Success(value: T) | Failure(error: E)

  /** No name occurs twice (the keys of a Python dict, in insertion order). */
  ghost predicate Distinct(xs: seq<string>)
  {
    forall i, j :: 0 <= i < j < |xs| ==> xs[i] != xs[j]
  }

  /** Index of the first element of `xs` that is not in `k`, or `|xs|` when there is none. */
  function FirstOutside(xs: seq<string>, k: set<string>): (n: nat)
    ensures n <= |xs|
    ensures forall i :: 0 <= i < n ==> xs[i] in k
    ensures n < |xs| ==> xs[n] !in k
  {
    if xs == [] then 0
    else if xs[0] !in k then 0
    else 1 + FirstOutside(xs[1..], k)
  }

  /** Index of the first element of `xs` that is in `k`, or `|xs|` when there is none. */
  function FirstIn(xs: seq<string>, k: set<string>): (n: nat)
    ensures n <= |xs|
    ensures forall i :: 0 <= i < n ==> xs[i] !in k
    ensures n < |xs| ==> xs[n] in k
  {
    if xs == [] then 0
    else if xs[0] in k then 0
    else 1 + FirstIn(xs[1..], k)
  }
}
