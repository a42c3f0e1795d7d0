/**
 * COM status codes and the error-carrying return type shared by the
 * marshalling layer (the `anyhow::Result` values of src/main.rs).
 */
module Com {

  /** An HRESULT: a signed 32-bit status word; negative values are failures. */
  type HResult = c: int | -0x8000_0000 <= c < 0x8000_0000

  /** The code carried by a failed call: always a failing HRESULT. */
  type FailCode = c: int | -0x8000_0000 <= c < 0 witness -1

  predicate Succeeded(hr: HResult) { hr >= 0 }

  /** 0x80041002 read as an i32: the WMI provider has no such property. */
  const WBEM_E_NOT_FOUND: FailCode := -0x7FFB_EFFE

  /** 0x80020005 read as an i32: the value's type cannot be converted. */
  const DISP_E_TYPEMISMATCH: FailCode := -0x7FFD_FFFB

  /** Success codes of IEnumWbemClassObject::Next. */
  const WBEM_S_NO_ERROR: HResult := 0
  const WBEM_S_FALSE: HResult := 1

  /** What an `anyhow::Error` in this program can carry. */
  datatype Error =
    | Hr(code: FailCode)      // a `windows::core::Error` with its HRESULT
    | InvalidUtf16            // a `FromUtf16Error` from `String::from_utf16`

  datatype Option<+T> = None | Some(value: T)

  /** `Result<T>` with `?` propagation written as Dafny's `:-`. */
  datatype Result<+T> = Ok(value: T) | Err(error: Error) {
    predicate IsFailure() { Err? }

    function PropagateFailure<U>(): Result<U>
      requires Err?
    {
      Err(error)
    }

    function Extract(): T
      requires Ok?
    {
      value
    }
  }
}
