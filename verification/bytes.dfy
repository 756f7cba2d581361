/**
  Machine-level values shared by every component: bytes, fixed-width integers, big-endian
  fields, and powers of two standing for bit shifts.  Bit tests and masks of the source are
  written arithmetically: `b & 0x7f` is `b % 128`, `b & 0x80 != 0` is `b >= 128`, and or-ing a
  flag into bits that are zero is an addition.
*/
module Bytes {
  type byte = x: int | 0 <= x < 0x100
  type u16 = x: int | 0 <= x < 0x1_0000
  type u32 = x: int | 0 <= x < 0x1_0000_0000
  type i32 = x: int | -0x8000_0000 <= x < 0x8000_0000
  type Data = seq<byte>

  datatype Option<+T> = None | Some(value: T)

  const TWO_31: int := 0x8000_0000
  const TWO_32: int := 0x1_0000_0000
  const TWO_63: int := 0x8000_0000_0000_0000
  const TWO_64: int := 0x1_0000_0000_0000_0000

  /** The unbounded shift `x << m`. */
  function Shl(x: nat, m: nat): nat
  {
    if m == 0 then x else 2 * Shl(x, m - 1)
  }

  lemma {:induction false} ShlAdd(x: nat, y: nat, m: nat)
    ensures Shl(x + y, m) == Shl(x, m) + Shl(y, m)
  {
    if m > 0 {
      ShlAdd(x, y, m - 1);
    }
  }

  lemma {:induction false} ShlDouble(x: nat, m: nat)
    ensures Shl(2 * x, m) == Shl(x, m + 1)
  {
    if m > 0 {
      ShlDouble(x, m - 1);
    }
  }

  lemma ShlSeven(x: nat, m: nat)
    ensures Shl(x, m + 7) == Shl(128 * x, m)
  {
    ShlDouble(64 * x, m);
    ShlDouble(32 * x, m + 1);
    ShlDouble(16 * x, m + 2);
    ShlDouble(8 * x, m + 3);
    ShlDouble(4 * x, m + 4);
    ShlDouble(2 * x, m + 5);
    ShlDouble(x, m + 6);
  }

  lemma {:induction false} ShlMonotone(x: nat, y: nat, m: nat)
    requires x <= y
    ensures Shl(x, m) <= Shl(y, m)
  {
    if m > 0 {
      ShlMonotone(x, y, m - 1);
    }
  }

  lemma {:induction false} ShlWidens(a: nat, b: nat)
    requires a <= b
    ensures Shl(1, a) <= Shl(1, b)
    decreases b - a
  {
    if a < b {
      ShlWidens(a, b - 1);
    }
  }

  lemma ShlSixtyFour()
    ensures Shl(1, 64) == TWO_64
  {
    assert Shl(1, 8) == 0x100 by { assert Shl(1, 4) == 16; }
    assert Shl(1, 16) == 0x1_0000 by { assert Shl(1, 12) == 0x1000; }
    assert Shl(1, 24) == 0x100_0000 by { assert Shl(1, 20) == 0x10_0000; }
    assert Shl(1, 32) == 0x1_0000_0000 by { assert Shl(1, 28) == 0x1000_0000; }
    assert Shl(1, 40) == 0x100_0000_0000 by { assert Shl(1, 36) == 0x10_0000_0000; }
    assert Shl(1, 48) == 0x1_0000_0000_0000 by { assert Shl(1, 44) == 0x1000_0000_0000; }
    assert Shl(1, 56) == 0x100_0000_0000_0000 by { assert Shl(1, 52) == 0x10_0000_0000_0000; }
    assert Shl(1, 60) == 0x1000_0000_0000_0000;
  }

  function Min(a: int, b: int): int { if a <= b then a else b }

  function Max(a: int, b: int): int { if a >= b then a else b }

  /** An unchecked 64-bit result. */
  function Wrap64(x: nat): (w: nat)
    ensures w < TWO_64
  {
    if x < TWO_64 then x else x % TWO_64
  }

  // ---- 32-bit signed arithmetic -------------------------------------------------------

  /** The cast `x as i32` and every unchecked i32 operation: reduction modulo 2^32. */
  function WrapI32(x: int): (r: i32)
    ensures (r - x) % TWO_32 == 0
  {
    if -TWO_31 <= x < TWO_31 then x
    else
      var m := x % TWO_32;
      if m < TWO_31 then m else m - TWO_32
  }

  /** `a.saturating_add(b)` on i32. */
  function SaturatingAdd(a: i32, b: i32): (r: i32)
    ensures -TWO_31 <= a + b < TWO_31 ==> r == a + b
  {
    if a + b >= TWO_31 then TWO_31 - 1 else if a + b < -TWO_31 then -TWO_31 else a + b
  }

  /** It stops at the bounds of i32, on both sides. */
  lemma SaturatingAddStops(a: i32, b: i32)
    ensures a + b > 2147483647 ==> SaturatingAdd(a, b) == 2147483647
    ensures a + b < -2147483648 ==> SaturatingAdd(a, b) == -2147483648
  {
  }

  lemma WrapShift(x: int, k: int)
    ensures WrapI32(x + k * TWO_32) == WrapI32(x)
  {
    assert (x + k * TWO_32) % TWO_32 == x % TWO_32;
  }

  /** Wrapping is a homomorphism: intermediate casts do not matter. */
  lemma WrapSub(x: int, y: int)
    ensures WrapI32(WrapI32(x) - WrapI32(y)) == WrapI32(x - y)
  {
    hide WrapI32;
    var a := (x - WrapI32(x)) / TWO_32;
    var b := (y - WrapI32(y)) / TWO_32;
    WrapShift(x - y, b - a);
  }

  // ---- big-endian fields ----------------------------------------------------------------

  function U16Bytes(v: u16): Data { [v / 0x100, v % 0x100] }

  function U16Of(a: byte, b: byte): u16 { a * 0x100 + b }

  function U24Bytes(v: nat): (d: Data)
    ensures |d| == 3
  {
    [v / 0x1_0000 % 0x100] + U16Bytes(v % 0x1_0000)
  }

  function U24Of(a: byte, b: byte, c: byte): (v: nat)
    ensures v < 0x100_0000
  {
    a * 0x1_0000 + U16Of(b, c)
  }

  lemma U24RoundTrip(v: nat)
    requires v < 0x100_0000
    ensures U24Of(U24Bytes(v)[0], U24Bytes(v)[1], U24Bytes(v)[2]) == v
  {
  }

  function U32Bytes(v: u32): (d: Data)
    ensures |d| == 4
  {
    U16Bytes(v / 0x1_0000) + U16Bytes(v % 0x1_0000)
  }

  function U32Of(a: byte, b: byte, c: byte, d: byte): u32 { U16Of(a, b) * 0x1_0000 + U16Of(c, d) }

  // ---- sequences -----------------------------------------------------------------------

  lemma DropConcat<T>(a: seq<T>, b: seq<T>, n: nat)
    requires n <= |a|
    ensures (a + b)[n..] == a[n..] + b
  {
  }

  /** The concatenation of a list of sequences. */
  function Concat<T>(parts: seq<seq<T>>): seq<T>
  {
    if parts == [] then [] else parts[0] + Concat(parts[1..])
  }
}
