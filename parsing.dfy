/**
 * The outcome of one parser-combinator step over a character stream.
 * A parser either succeeds with a value and the unconsumed input, or fails;
 * a failure is `committed` when the parser consumed input before failing.
 * The distinction decides what `many`, `sep_by`, `sep_end_by`, `optional`
 * and `choice` do next: they recover from an uncommitted failure only.
 */
module Parsing {

  datatype Parsed<+T> = Done(value: T, rest: string) | Fail(committed: bool)

  /** The error-or-value return type of the top-level parse functions and of `fetch`. */
  datatype Result<+T, +E> = Ok(value: T) | Err(error: E)

  /** An optional value. */
  datatype Option<+T> = None | Some(value: T)
}
