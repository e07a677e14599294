/** Shared result types and the integer widths the Rust sources rely on. */
module Prelude {

  datatype Option<+T> = None | Some(value: T)

  /** The sources return `anyhow::Result`; callers branch on success only, so the
      error text is not carried. */
  datatype Result<+T> = Ok(value: T) | Err {
    predicate IsFailure() {
      Err?
    }
    function PropagateFailure<U>(): Result<U>
      requires Err?
    {
      Err
    }
    function Extract(): T
      requires Ok?
    {
      value
    }
  }

  const I64_MAX: nat := 0x7FFF_FFFF_FFFF_FFFF
  const U64_MAX: nat := 0xFFFF_FFFF_FFFF_FFFF

  function Min(a: int, b: int): int {
    if a <= b then a else b
  }
}
