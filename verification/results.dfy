/** The outcome of an operation that may throw, and the exceptions the
    component throws. Every exception of the component is a BinlinerException;
    the variants carry the number or type name its message mentions. */
module Results {

  /** Either the value an operation returns or the exception it throws. */
  datatype Result<+T, +E> = Ok(value: T) | Err(error: E)

  datatype BinlinerException =
    | /** "Invalid validation type: <type>" */
      InvalidValidationType(typeName: string)
    | /** "Too many arguments for size: <size>" */
      TooManyArguments(size: nat)
    | /** "Illegal position: <pos>" */
      IllegalPosition(pos: nat)
}
