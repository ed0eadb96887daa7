/** Outcomes of the operations that throw in the C++ source. */
module Results {

  /** The exceptions of nlohmann::detail with their identifiers, those of std::stoi, and a failed assert. */
  datatype Error =
    | ParseError(id: nat)
    | OutOfRange(id: nat)
    | OtherError(id: nat)
    | StdInvalidArgument
    | StdOutOfRange
    | AssertionFailed

  datatype Result<+T> = Ok(value: T) | Err(error: Error) {
    predicate IsFailure() { Err? }

    function PropagateFailure<U>(): Result<U>
      requires Err?
    {
      Err(error)
    }

    function Extract(): T
      requires Ok?
    {
      value
    }
  }

  datatype Option<+T> = None | Some(value: T)
}
