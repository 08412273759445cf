// Option and Result, used for Java's null returns and thrown exceptions.
module Wrappers {

  datatype Option<T> = None | Some(value: T)

  /** The Java exceptions that the modelled code can raise. */
  datatype Error =
    | NullPointer
    | IndexOutOfBounds
    | StringIndexOutOfBounds
    | NegativeArraySize
    | Arithmetic
    | MissingParameter
    | NoSuchElement
    | StackOverflow
    | ClassCast
    | NumberFormat
    | Unclassified(nthMessage: int)

  datatype Result<T> = Ok(value: T) | Err(error: Error)

  /** Every element of `s`, none of them null. */
  function Present<T>(s: seq<T>): seq<Option<T>>
  {
    seq(|s|, k requires 0 <= k < |s| => Some(s[k]))
  }

  /** `count` nulls. */
  function Nulls<T>(count: nat): seq<Option<T>>
  {
    seq(count, _ => None)
  }
}
