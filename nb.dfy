/** The non-blocking result convention of the `nb` crate that the serial and
    timer drivers return. */
module Nb {

  /** `nb::Error<E>`: either "try again later" or a real error. */
  datatype Error<E> = WouldBlock | Other(error: E)

  /** `nb::Result<T, E>`. */
  datatype Result<T, E> = Ok(value: T) | Err(error: Error<E>)

  /** `nb::Result<(), Void>`: `Void` has no values, so the only possible
      failure is `WouldBlock`; `Pending` stands for `Err(WouldBlock)`. */
  datatype Poll = Ready | Pending
}
