/** Shared vocabulary of the model: optional values, the abort path of the C
    assertion macros, fixed-width integers, C strings and errno codes. */
module Common {

  /** A pointer that may be NULL. */
  datatype Option<+T> = None | Some(value: T)

  /** What a call does when the C code can abort (PJDLOG_ASSERT, xpc_assert,
      xpc_api_misuse): either it returns a value or the process aborts. */
  datatype Outcome<+T> = Ret(value: T) | Abort

  /** An unsigned 8-bit C byte, as its numeric value. */
  type byte = x: int | 0 <= x < 0x100

  type uint16 = x: int | 0 <= x < 0x1_0000
  type uint32 = x: int | 0 <= x < 0x1_0000_0000
  type uint64 = x: int | 0 <= x < 0x1_0000_0000_0000_0000
  type int64 = x: int | -0x8000_0000_0000_0000 <= x < 0x8000_0000_0000_0000

  /** Errno values of Darwin's <sys/errno.h>. */
  const EPERM := 1
  const ENOENT := 2
  const ENOMEM := 12
  const EEXIST := 17
  const EINVAL := 22
  const EAGAIN := 35
  const ECONNABORTED := 53
  const ECONNRESET := 54
  const EBADRPC := 72
  const EOPNOTSUPP := 102

  /** `strncmp(s, p, strlen(p)) == 0`. */
  predicate HasPrefix(s: string, p: string) {
    |p| <= |s| && s[..|p|] == p
  }

  /** The bytes `strlen` counts: everything before the first NUL. */
  function CStringLength(s: seq<byte>): (n: nat)
    ensures n <= |s|
    ensures forall i :: 0 <= i < n ==> s[i] != 0
    ensures n < |s| ==> s[n] == 0
  {
    if s == [] || s[0] == 0 then 0 else 1 + CStringLength(s[1..])
  }

  /** A C `char` holds one byte; a model character stands for its low byte. */
  function CharByte(c: char): byte {
    (c as int) % 256
  }

  function StringBytes(s: string): (b: seq<byte>)
    ensures |b| == |s|
    ensures forall i :: 0 <= i < |s| ==> b[i] == CharByte(s[i])
  {
    if s == [] then [] else [CharByte(s[0])] + StringBytes(s[1..])
  }
}
