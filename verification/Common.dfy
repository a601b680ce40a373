/** C scalar types, the unified result codes, and the option type shared by every module. */
module Common {

  datatype Option<+T> = None | Some(value: T)

  /** A C int on every supported target. */
  type CInt = i: int | -0x8000_0000 <= i < 0x8000_0000

  /** A 64-bit size_t. */
  type SizeT = n: int | 0 <= n < 0x1_0000_0000_0000_0000

  type Byte = b: int | 0 <= b < 0x100

  /** A data address; 0 is the null pointer. */
  type Address = nat

  /** The C conversion (size_t)n, which wraps a negative int. */
  function ToSizeT(n: CInt): (r: SizeT)
    ensures n >= 0 ==> r == n
    ensures n < 0 ==> r - n == 0x1_0000_0000_0000_0000
  {
    if n < 0 then n + 0x1_0000_0000_0000_0000 else n
  }

  const OK: CInt := 0
  const ERR_NO_BACKEND: CInt := -1
  const ERR_BACKEND_LOAD: CInt := -2
  const ERR_BACKEND_INIT_FAILED: CInt := -3
  const ERR_SYMBOL_NOT_FOUND: CInt := -4
  const ERR_NOT_INITIALIZED: CInt := -5
  const ERR_ALREADY_INITIALIZED: CInt := -6
  const ERR_INVALID_ARGUMENT: CInt := -8
  const ERR_NOT_SUPPORTED: CInt := -9
  const ERR_UNHANDLED_BACKEND: CInt := -10
  const ERR_BACKEND_NOT_SUPPORTED: CInt := -11

  const UNIQUE_ID_BYTES: nat := 128
  const ONECCL_UNIQUE_ID_BYTES: nat := 4096
  const COMM_ID_MAX: nat := 4112
  const LIB_PATH_CAPACITY: nat := 256
  const SYMBOL_CAPACITY: nat := 96

  /** What snprintf leaves in a buffer of the given capacity, terminator excluded. */
  function Formatted(s: string, capacity: nat): (f: string)
    requires capacity > 0
    ensures f <= s && |f| < capacity
    ensures f == s || |f| == capacity - 1
  {
    if |s| < capacity then s else s[..capacity - 1]
  }
}
