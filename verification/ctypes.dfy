/**
 C integer conventions the models need: fixed-width unsigned types, the
 conversion of an arbitrary integer into one of them (two's complement
 wrap-around), C's truncating division, and the errno codes the modelled
 functions return.
 */
module CTypes {

  const U8Mod: int := 0x100
  const U16Mod: int := 0x1_0000
  const U32Mod: int := 0x1_0000_0000

  type uint8 = x: int | 0 <= x < U8Mod
  type uint16 = x: int | 0 <= x < U16Mod
  type uint32 = x: int | 0 <= x < U32Mod

  /** A signed C `int` (32 bits). */
  type int32 = x: int | -0x8000_0000 <= x < 0x8000_0000

  /** Conversion of any integer value to `uint32`, as C performs it on
      assignment and on unsigned arithmetic: reduction modulo 2^32. */
  function ToU32(x: int): (r: uint32)
    ensures (r - x) % U32Mod == 0
    ensures 0 <= x < U32Mod ==> r == x
  {
    x % U32Mod
  }

  /** C's `/` on signed operands with a positive divisor: the quotient is
      truncated toward zero (Dafny's `/` floors for a positive divisor). */
  function TruncDiv(a: int, b: int): (q: int)
    requires b > 0
    ensures a >= 0 ==> q * b <= a < (q + 1) * b
    ensures a < 0 ==> (q - 1) * b < a <= q * b
  {
    if a >= 0 then a / b else -((-a) / b)
  }

  /** Reducing an intermediate product modulo 2^32 does not change the
      final reduction: wrapping after each multiplication, as C does, is
      wrapping the exact product once. */
  lemma ToU32MulAbsorbs(a: int, b: int)
    requires a >= 0 && b >= 0
    ensures ToU32(ToU32(a) * b) == ToU32(a * b)
  {
    var q := a / U32Mod;
    var r := a % U32Mod;
    assert a * b == (q * b) * U32Mod + r * b by {
      assert a == q * U32Mod + r;
    }
    ModAddMultiple(r * b, q * b);
  }

  /** Adding a multiple of 2^32 does not change the reduction. */
  lemma {:induction false} ModAddMultiple(x: int, k: int)
    requires x >= 0 && k >= 0
    ensures (k * U32Mod + x) % U32Mod == x % U32Mod
    decreases k
  {
    if k > 0 {
      ModAddMultiple(x, k - 1);
      assert k * U32Mod + x == ((k - 1) * U32Mod + x) + U32Mod;
    }
  }

  /** C's conversion of a `double` to `int`: the fraction is dropped,
      rounding toward zero (range overflow is not modelled). */
  function TruncToInt(d: real): (i: int)
    ensures d >= 0.0 ==> i as real <= d < i as real + 1.0
    ensures d < 0.0 ==> i as real - 1.0 < d <= i as real
  {
    if d >= 0.0 then d.Floor else -((-d).Floor)
  }

  /** The least integer at or above `d`. */
  function Ceil(d: real): (i: int)
    ensures i as real - 1.0 < d <= i as real
  {
    -((-d).Floor)
  }

  /** Integer division of a non-negative value by a larger one is 0. */
  lemma DivBelowDivisor(a: int, b: int)
    requires 0 <= a < b
    ensures a / b == 0
  {
  }

  /** Multiplying a non-negative value by a positive integer does not
      decrease it. */
  lemma MulGrows(a: int, k: int)
    requires a >= 0 && k >= 1
    ensures a <= a * k
  {
  }

  /** Multiplication of non-negative values is monotone in both factors. */
  lemma MulMono(a: int, b: int, c: int, d: int)
    requires 0 <= a <= c && 0 <= b <= d
    ensures a * b <= c * d
  {
    MulMonoLeft(a, b, d);
    MulMonoLeft(d, a, c);
    assert a * d == d * a && c * d == d * c;
  }

  lemma MulMonoLeft(a: int, b: int, d: int)
    requires a >= 0 && b <= d
    ensures a * b <= a * d
  {
    assert a * d - a * b == a * (d - b);
  }

  /** The errno values returned by the modelled functions. */
  datatype Errno = EINVAL | ENOTSUP | ENOENT

  /** A C error return: 0 (`Ok`) or an errno. `Foreign` carries the status
      code of a collaborator that is not part of this model. */
  datatype Status = Ok | Err(errno: Errno) | Foreign(code: int)

  /** An optional value: a C pointer that may be null, a setting that may be absent. */
  datatype Option<T> = None | Some(value: T)

  function Max(a: int, b: int): int { if a >= b then a else b }

  function Min(a: int, b: int): int { if a <= b then a else b }
}
