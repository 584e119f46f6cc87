/** Values and integer conventions of the Linux kernel C code that the rest of
    the model shares: bytes, error numbers, and the narrowing conversions and
    truncating division that C performs where Dafny's integers are unbounded. */
module KernelTypes {

  /** One octet of a USB transfer or of a PCM buffer. */
  newtype byte = x: int | 0 <= x < 256

  datatype Option<T> = None | Some(value: T)

  // Error numbers (asm-generic/errno-base.h and asm-generic/errno.h);
  // driver functions return their negations.
  const ENOENT: int := 2
  const ENOMEM: int := 12
  const EFAULT: int := 14
  const ENODEV: int := 19
  const EINVAL: int := 22
  const ECONNRESET: int := 104
  const ESHUTDOWN: int := 108

  const U32_MODULUS: int := 0x1_0000_0000
  const U16_MODULUS: int := 0x1_0000

  /** The value an `unsigned int` holds after an assignment of `x`. */
  function U32(x: int): (r: nat)
    ensures r < U32_MODULUS
    ensures 0 <= x < U32_MODULUS ==> r == x
  {
    x % U32_MODULUS
  }

  predicate IsInt16(x: int)
  {
    -0x8000 <= x < 0x8000
  }

  /** The value an `int16_t` holds after an assignment of `x`: two's
      complement wrap-around, as every narrowing in the driver is modular. */
  function Int16(x: int): (r: int)
    ensures IsInt16(r)
    ensures IsInt16(x) ==> r == x
    ensures (x - r) % U16_MODULUS == 0
  {
    (x + 0x8000) % U16_MODULUS - 0x8000
  }

  predicate IsInt32(x: int)
  {
    -0x8000_0000 <= x < 0x8000_0000
  }

  /** The value an `int` holds after an assignment of `x` (a `long`, say):
      two's complement wrap-around modulo 2^32. */
  function Int32(x: int): (r: int)
    ensures IsInt32(r)
    ensures IsInt32(x) ==> r == x
    ensures (x - r) % U32_MODULUS == 0
    ensures r == 0 <==> x % U32_MODULUS == 0
  {
    (x + 0x8000_0000) % U32_MODULUS - 0x8000_0000
  }

  /** C's `/` on signed integers, which truncates toward zero (Dafny's `/`
      is Euclidean). */
  function CDiv(a: int, b: int): (q: int)
    requires b != 0
    ensures a >= 0 && b > 0 ==> q == a / b
    ensures a < 0 && b > 0 ==> q == -((-a) / b) && q <= 0
  {
    if a >= 0 then
      (if b > 0 then a / b else -(a / -b))
    else
      (if b > 0 then -((-a) / b) else (-a) / (-b))
  }
}
