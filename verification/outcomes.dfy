/** Failure values for the two commit-graph scripts.

    Neither script catches anything: every error below is an exception that
    ends the run. The model returns it as a value instead, so that each
    operation states exactly which inputs make the script fail.
 */
module Outcomes {

  /** Why a run of a script ends with an exception. */
  datatype Error =
      /** A non-empty log line with fewer than two whitespace-separated
          tokens: indexing `commit[0]` or `commit[1]` raises IndexError. */
    | MissingField(line: string)
      /** A date text that `pd.to_datetime` cannot parse. */
    | UnparsableDate(text: string)
      /** A well-formed date outside the range of a pandas Timestamp. */
    | OutOfBoundsDate(text: string)
      /** No commit at all: the minimum of an empty column is missing and
          `range` refuses it. */
    | EmptyHistory

  /** The outcome of an operation that may raise. */
  datatype Result<+T> = Ok(value: T) | Err(error: Error) {

    predicate IsFailure() {
      Err?
    }

    function PropagateFailure<U>(): Result<U>
      requires Err?
    {
      Err(error)
    }

    function Extract(): T
      requires Ok?
    {
      value
    }
  }
}
