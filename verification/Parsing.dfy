/** What a parser function over tokens returns. */
module Parsing {
  /** Failure, or what was read and the tokens after it. */
  datatype Reading<+T, +K> = Fail | Ok(value: T, rest: seq<K>) {
    predicate IsFailure() { Fail? }
    function PropagateFailure<U>(): Reading<U, K>
      requires Fail?
    {
      Fail
    }
    function Extract(): (T, seq<K>)
      requires Ok?
    {
      (value, rest)
    }
  }
}
