/** Vocabulary shared by the modules. */
module Basics {
  datatype Option<T> = None | Some(value: T)

  const U64_MAX: nat := 0xFFFF_FFFF_FFFF_FFFF

  function Min(a: nat, b: nat): nat { if a < b then a else b }

  /** Addition of two 64-bit numbers that stops at the greatest one. */
  function SatAdd(a: nat, b: nat): nat { if a + b > U64_MAX then U64_MAX else a + b }

  /** An absolute path on a POSIX system. */
  predicate Absolute(path: string) { path != "" && path[0] == '/' }
}
