/** Options, and results carrying the reason of a refusal. */
module Basics {
  datatype Option<+T> = None | Some(value: T)

  datatype Result<+T, +E> = Ok(value: T) | Err(error: E)

  lemma SubsetSize<T>(a: set<T>, b: set<T>)
    requires a <= b
    ensures |a| <= |b|
  {
    assert b == a + (b - a);
  }

  /** The largest of the numbers, or zero. */
  function MaxOf(numbers: seq<nat>): nat {
    if numbers == [] then 0
    else
      var rest, last := MaxOf(numbers[..|numbers| - 1]), numbers[|numbers| - 1];
      if last > rest then last else rest
  }

  lemma {:induction false} MaxOfCounting(numbers: seq<nat>)
    requires forall i :: 0 <= i < |numbers| ==> numbers[i] == i + 1
    ensures MaxOf(numbers) == |numbers|
    decreases |numbers|
  {
    if numbers != [] {
      MaxOfCounting(numbers[..|numbers| - 1]);
    }
  }
}
