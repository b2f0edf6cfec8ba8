/** Values shared by every part of the key manager: optional values, the
    crate-wide error enum and its Result type, and raw bytes. */
module Common {

  datatype Option<+T> = None | Some(value: T)

  /** The error kinds of the key manager (one constructor per variant of the
      crate's error enum); the payload is the message the variant carries. */
  datatype SkmError =
    | Io(msg: string)
    | SshKey(msg: string)
    | Encryption(msg: string)
    | InvalidPassphrase
    | KeyNotFound(msg: string)
    | KeyAlreadyExists(msg: string)
    | InvalidKeyFormat(msg: string)
    | ImportExport(msg: string)
    | Tui(msg: string)
    | Config(msg: string)
    | Unknown(msg: string)

  /** The crate's `Result<T>`: a value or an `SkmError`. */
  datatype Result<+T> = Ok(value: T) | Err(error: SkmError) {
    predicate IsFailure() { Err? }

    function PropagateFailure<U>(): Result<U>
      requires Err?
    {
      Err(error)
    }

    function Extract(): T
      requires Ok?
    {
      value
    }
  }

  newtype byte = b: int | 0 <= b < 256

  type Bytes = seq<byte>
}
