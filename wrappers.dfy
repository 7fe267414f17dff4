/** Option and Result, the two failure-carrying types the model uses. */
module Wrappers {

  /** A value that may be missing (an empty spreadsheet cell, a skipped block). */
  datatype Option<+T> = None | Some(value: T)

  /** The outcome of an operation that the program can abort with an exception. */
  datatype Result<+R, +E> = Success(value: R) | Failure(error: E)

  /** The zero- or one-element sequence holding the value of `o`. */
  function OptionToSeq<T>(o: Option<T>): (s: seq<T>)
    ensures |s| <= 1
    ensures o.Some? <==> |s| == 1
    ensures o.Some? ==> s[0] == o.value
  {
    match o
    case None => []
    case Some(v) => [v]
  }
}
