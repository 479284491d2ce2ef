/** Small value types shared by every part of the backup agent model. */
module Common {

  /** A byte of a file read in binary mode. */
  newtype byte = x: int | 0 <= x < 256

  datatype Option<+T> = None | Some(value: T)

  /** A Python exception, identified by its message. */
  datatype Error = Error(message: string)

  /** Either the value a Python call returned or the exception it raised. */
  datatype Result<+T> = Success(value: T) | Failure(error: Error)

  /** 2^k, used for the doubling retry delay. */
  function Pow2(k: nat): nat
  {
    if k == 0 then 1 else 2 * Pow2(k - 1)
  }
}
