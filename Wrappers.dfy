/** Option and Result values, and one sequence fact, shared by every module of the model. */
module Wrappers {
  datatype Option<T> = None | Some(value: T)

  /** The Ruby exceptions the modelled code can raise. */
  datatype Error = ArgumentError | NoMethodError

  /** The outcome of an operation that may raise instead of returning. */
  datatype Result<T> = Success(value: T) | Failure(error: Error)

  /** A non-empty sequence is its prefix followed by its last element. */
  lemma SplitLast<T>(s: seq<T>)
    requires |s| > 0
    ensures s == s[..|s| - 1] + [s[|s| - 1]]
  {
  }
}
