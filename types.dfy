/** Machine types of the C++ library and the small wrappers the model uses. */
module Types {

  /** uint8_t */
  type byte = b: int | 0 <= b < 0x100

  /** __u32, the width of the `len` field of a transfer record */
  type u32 = n: int | 0 <= n < 0x1_0000_0000

  /** int on the target (32-bit two's complement) */
  type int32 = n: int | -0x8000_0000 <= n < 0x8000_0000

  /** size_t on a 64-bit target */
  type size_t = n: int | 0 <= n < 0x1_0000_0000_0000_0000

  datatype Option<+T> = None | Some(value: T)

  datatype Result<+T, +E> = Ok(value: T) | Err(error: E)

  /** The implicit conversion of an int to uint8_t: the value modulo 256. */
  function ToUint8(x: int): (r: byte)
    ensures (x - r) % 0x100 == 0
    ensures 0 <= x < 0x100 ==> r == x
  {
    x % 0x100
  }

  /** The implicit conversion of a size_t to __u32: the value modulo 2^32. */
  function ToU32(n: nat): (r: u32)
    ensures (n - r) % 0x1_0000_0000 == 0
    ensures n < 0x1_0000_0000 ==> r == n
    ensures r <= n
  {
    n % 0x1_0000_0000
  }

  /** Returning -1 through uint8_t yields 255. */
  lemma MinusOneAsUint8()
    ensures ToUint8(-1) == 255
  {
  }
}
