/** Option and Result, the two failure-carrying shapes the model returns
    where the Go code returns a pointer that may be nil or a value with an
    error. */
module Wrappers {

  datatype Option<+T> = None | Some(value: T)

  datatype Result<+T, +E> = Success(value: T) | Failure(error: E) {
    predicate IsFailure() { Failure? }
  }
}

/** The errors the repository's code returns. The sentinels are the
    package-level error values; `Wrap` is `errors.Wrap(cause, message)`,
    whose cause `errors.Cause` recovers; `Message` is an error made with
    `errors.New` or `errors.Errorf`; `IO` is an error the operating system
    reports. */
module Errors {

  datatype IOFailure =
    | NotExist      // os.IsNotExist holds of it
    | AlreadyExists // os.IsExist holds of it
    | NotDirectory
    | IsDirectory
    | OtherFailure(op: string)

  datatype Error =
    | LayerExists
    | InvalidLayer
    | MountCannotProceed
    | ImageCannotBeComposed
    | Wrap(cause: Error, message: string)
    | Message(text: string)
    | IO(failure: IOFailure)
    | Panic(reason: string)

  /** errors.Cause: strip every Wrap. */
  function Cause(e: Error): (c: Error)
    ensures !c.Wrap?
  {
    if e.Wrap? then Cause(e.cause) else e
  }

  /** os.IsExist. */
  predicate IsExist(e: Error) {
    e == IO(AlreadyExists)
  }
}
