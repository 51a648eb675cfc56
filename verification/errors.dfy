/** The error kinds of the library and the Result/Option wrappers every module uses. */
module Errors {

  /** The OS error kinds the abstract filesystem can report. */
  datatype IoKind = NotFound | AlreadyExists | IsADirectory | NotADirectory | DirectoryNotEmpty | ResourceBusy

  /** The library's error enum. `WidthOverflow` stands for the panic the source raises when a
      `:digits` width does not fit in a u8; it is not a variant of the source's enum. */
  datatype Error =
    | NotSupported
    | EmptyComments
    | InvalidParent(child: string)
    | InvalidRoot(path: string)
    | MissingTag(tag: string)
    | InvalidConfig(reason: string)
    | FailedToParse
    | OptionalInDir
    | RequiredInFile
    | IoError(kind: IoKind)
    | Id3Error
    | MetaflacError
    | WidthOverflow

  datatype Option<+T> = None | Some(value: T)

  datatype Result<+T> = Success(value: T) | Failure(error: Error) {
    predicate IsFailure() { Failure? }

    function PropagateFailure<U>(): Result<U>
      requires Failure?
    {
      Failure(error)
    }

    function Extract(): T
      requires Success?
    {
      value
    }
  }
}
