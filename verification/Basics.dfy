/** Vocabulary shared by all modules. */
module Basics {

  datatype Option<+T> = None | Some(value: T)

  /** An error code; 0 is success. */
  type ErrorCode = nat

  /** What a completion handler is called with. */
  datatype Completion = Completion(ec: ErrorCode, len: nat)

  /** Number of values of a 16-bit length (USHORT). */
  const USHORT_RANGE: nat := 0x1_0000

  /** Number of values of a 32-bit length (DWORD, ULONG). */
  const DWORD_RANGE: nat := 0x1_0000_0000
}
