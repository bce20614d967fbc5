/** Types shared by the codec and the download core. */
module Base {
  newtype byte = b: int | 0 <= b < 0x100
  type Bytes = seq<byte>

  const TWO_TO_THE_32: int := 0x1_0000_0000
  const TWO_TO_THE_63: int := 0x8000_0000_0000_0000
  const TWO_TO_THE_64: int := 0x1_0000_0000_0000_0000

  type int64 = n: int | -TWO_TO_THE_63 <= n < TWO_TO_THE_63

  datatype Option<+T> = None | Some(value: T)

  /** The exceptions the source throws, one constructor per C++ class. */
  datatype Error =
    | InvalidArgument // std::invalid_argument
    | RuntimeError    // std::runtime_error
    | OutOfRange      // std::out_of_range

  datatype Result<+T> = Ok(value: T) | Err(error: Error) {
    predicate IsFailure() {
      Err?
    }

    function PropagateFailure<U>(): Result<U>
      requires Err?
    {
      Err(error)
    }

    function Extract(): T
      requires Ok?
    {
      value
    }
  }
}
