/** Fixed-width unsigned integers, their bit operations and their byte encodings. */
module Bytes {
  import opened Bits

  const TWO_32: int := 0x1_0000_0000

  type byte = x: int | 0 <= x < 0x100
  type u16 = x: int | 0 <= x < 0x1_0000
  type u32 = x: int | 0 <= x < 0x1_0000_0000
  type i32 = x: int | -0x8000_0000 <= x < 0x8000_0000

  datatype Option<+T> = None | Some(value: T)

  /** `x as u32` for a wider unsigned value. */
  function Low32(x: nat): u32 { x % TWO_32 }

  lemma Low32Count(n: nat)
    ensures Low32(n) as int == n % TWO_32 && Low32(Low32(n) + 1) == Low32(n + 1)
  {
  }

  /** A 16-bit counter that wraps around. */
  function Low16(x: nat): u16 { x % 0x1_0000 }

  lemma Low16Add(x: nat, d: nat)
    ensures Low16(Low16(x) + d) == Low16(x + d)
  {
  }

  lemma Low16Exact(x: nat)
    ensures x < 0x1_0000 ==> Low16(x) == x
  {
  }

  /** `x as u32` and `x as i32`: two's complement reinterpretation. */
  function AsU32(x: i32): u32 { if x < 0 then x + TWO_32 else x }

  function AsI32(x: u32): i32 { if x >= 0x8000_0000 then x - TWO_32 else x }

  function Or32(a: u32, b: u32): u32 {
    Fits32(a, b);
    OrBits(a, b, 32)
  }

  function And32(a: u32, b: u32): u32 {
    Fits32(a, b);
    AndBits(a, b, 32)
  }

  function Xor32(a: u32, b: u32): u32 {
    Fits32(a, b);
    XorBits(a, b, 32)
  }

  lemma Fits32(a: u32, b: u32)
    ensures AndBits(a, b, 32) < TWO_32 && OrBits(a, b, 32) < TWO_32 && XorBits(a, b, 32) < TWO_32
    ensures Pow2(32) == TWO_32
  {
    BitsBound(a, b, 32);
    Pow2Of32();
  }

  function Shl32(a: u32, k: nat): u32 {
    Fits32(a, 0);
    ShiftLeft(a, k, 32)
  }

  function Shr32(a: u32, k: nat): u32 {
    ShiftRightIs(a, k);
    ShiftRight(a, k)
  }

  /** `to_be_bytes` when `big`, `to_le_bytes` otherwise. */
  function Put16(big: bool, x: u16): (s: seq<byte>)
    ensures |s| == 2
  {
    var hi, lo := x / 0x100, x % 0x100;
    if big then [hi, lo] else [lo, hi]
  }

  function Put32(big: bool, x: u32): (s: seq<byte>)
    ensures |s| == 4
  {
    var q1 := x / 0x100;
    var q2 := q1 / 0x100;
    var b0, b1, b2, b3 := q2 / 0x100, q2 % 0x100, q1 % 0x100, x % 0x100;
    if big then [b0, b1, b2, b3] else [b3, b2, b1, b0]
  }

  function Word(b0: byte, b1: byte, b2: byte, b3: byte): u32 {
    ((b0 as int * 0x100 + b1 as int) * 0x100 + b2 as int) * 0x100 + b3 as int
  }

  /** `from_be_bytes` when `big`, `from_le_bytes` otherwise. */
  function Get16(big: bool, s: seq<byte>): u16
    requires |s| == 2
  {
    if big then s[0] as int * 0x100 + s[1] as int else s[1] as int * 0x100 + s[0] as int
  }

  function Get32(big: bool, s: seq<byte>): u32
    requires |s| == 4
  {
    if big then Word(s[0], s[1], s[2], s[3]) else Word(s[3], s[2], s[1], s[0])
  }

  lemma GetPut16(big: bool, x: u16)
    ensures Get16(big, Put16(big, x)) == x
  {
  }

  lemma GetPut32(big: bool, x: u32)
    ensures Get32(big, Put32(big, x)) == x
  {
  }

  lemma WordIsInjective(a0: byte, a1: byte, a2: byte, a3: byte, b0: byte, b1: byte, b2: byte, b3: byte)
    requires Word(a0, a1, a2, a3) == Word(b0, b1, b2, b3)
    ensures a0 == b0 && a1 == b1 && a2 == b2 && a3 == b3
  {
  }

  lemma Get32IsInjective(big: bool, s: seq<byte>, t: seq<byte>)
    requires |s| == |t| == 4
    requires Get32(big, s) == Get32(big, t)
    ensures s == t
  {
    if big {
      WordIsInjective(s[0], s[1], s[2], s[3], t[0], t[1], t[2], t[3]);
    } else {
      WordIsInjective(s[3], s[2], s[1], s[0], t[3], t[2], t[1], t[0]);
    }
  }
}
