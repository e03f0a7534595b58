/** Basic COM-style vocabulary shared by the Zip "add" pipeline model:
    bytes, HRESULT codes and the two failure-compatible wrappers. */
module Types {

  /** An octet, as `Byte` in the C++ sources. */
  newtype Byte = x: int | 0 <= x < 0x100

  /** A COM status code. Only `S_OK` means success; every other value is an error
      that `RINOK` hands straight back to the caller. */
  type HResult = int

  const S_OK: HResult := 0
  const E_NOTIMPL: HResult := 0x8000_4001

  datatype Option<+T> = None | Some(value: T)

  /** The outcome of a fallible call that leaves no trace worth observing. */
  datatype Result<+T> = Ok(value: T) | Fail(code: HResult) {
    predicate IsFailure() { Fail? }

    function PropagateFailure<U>(): Result<U>
      requires Fail?
    {
      Fail(code)
    }

    function Extract(): T
      requires Ok?
    {
      value
    }
  }
}
