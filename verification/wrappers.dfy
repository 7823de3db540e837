/** Option and Result values shared by the whole model. A `Failure` stands for a
    Python exception raised by the modelled code; its payload names the exception. */
module Wrappers {

  datatype Option<+T> = None | Some(value: T)

  /** The exceptions the modelled code can raise. */
  datatype Error =
    | ValueError(msg: string)
    | IndexError(msg: string)
    | KeyError(key: string)
    | IslError(msg: string)
    | LoopyError(msg: string)
    | AssertionError
    | AttributeError(msg: string)
    | ImportError(name: string)
    | TypeError(msg: string)

  datatype Result<+R> = Success(value: R) | Failure(error: Error)
}
