/** Failure-compatible wrappers and the error cases of the protocol codec. */
module Outcomes {

  datatype Option<+T> = None | Some(value: T)

  /** The ways in which decoding a record (or reading one of its fields) fails in this model.
      An OverflowError from `timedelta` on a duration field is not among them. */
  datatype Error =
    | NoFrame                    // the frame grammar did not match the record
    | ChecksumMismatch           // the frame matched, but its two hex digits are not the payload's checksum
    | NoComma                    // the payload has no comma separating the keyword from the fields
    | PartCount(count: nat)      // a move token did not split into exactly four '^'-separated parts
    | NotAnInteger(text: string) // a field that must be an integer is not one
    | UnknownColor(color: string) // a colour field is neither "B" nor "W"
    | IndexOutOfRange(index: nat) // a field index beyond the end of the field list

  datatype Result<+T> = Ok(value: T) | Err(error: Error) {

    predicate IsFailure() {
      Err?
    }

    function PropagateFailure<U>(): Result<U>
      requires Err?
    {
      Err(error)
    }

    function Extract(): T
      requires Ok?
    {
      value
    }
  }
}
