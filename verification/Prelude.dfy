/** Wrappers and constants shared by every component. */
module Prelude {

  type byte = x: int | 0 <= x < 256

  const U16_MAX: nat := 0xFFFF
  const U32_MAX: nat := 0xFFFF_FFFF
  const U64_MAX: nat := 0xFFFF_FFFF_FFFF_FFFF

  const EPERM := "permission denied"
  const ENOENT := "file does not exist"
  const ENOTDIR := "not a directory"
  const EBADFID := "unknown fid"

  datatype Option<+T> = None | Some(value: T)

  /** A value, or the message of the error the operation reports. */
  datatype Result<+T> = Ok(value: T) | Err(error: string)

  /** A u64 counter that stops at the top. */
  function Succ(n: nat): nat {
    if n < U64_MAX then n + 1 else U64_MAX
  }

  function Min(a: int, b: int): int {
    if a <= b then a else b
  }

  function Max(a: int, b: int): int {
    if a <= b then b else a
  }
}
