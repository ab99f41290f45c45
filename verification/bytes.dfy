/** Machine integers and the big-endian byte layouts the MOV code writes with
    `to_be_bytes` and reads with `from_u8_vec_macro!(u32, …, Big)`. */
module Bytes {

  type uint8 = x: int | 0 <= x < 0x100
  type uint16 = x: int | 0 <= x < 0x1_0000
  type uint32 = x: int | 0 <= x < 0x1_0000_0000
  type uint64 = x: int | 0 <= x < 0x1_0000_0000_0000_0000
  type int32 = x: int | -0x8000_0000 <= x < 0x8000_0000

  /** Rust's `n as u32` for a non-negative `usize`: keep the low 32 bits. */
  function Trunc32(n: nat): (r: uint32)
    ensures n < 0x1_0000_0000 ==> r == n
  {
    n % 0x1_0000_0000
  }

  function BE16(x: uint16): (r: seq<uint8>)
    ensures |r| == 2
  {
    [x / 0x100, x % 0x100]
  }

  function FromBE16(s: seq<uint8>): uint16
    requires |s| == 2
  {
    (s[0] as int) * 0x100 + (s[1] as int)
  }

  function BE32(x: uint32): (r: seq<uint8>)
    ensures |r| == 4
  {
    BE16(x / 0x1_0000) + BE16(x % 0x1_0000)
  }

  function FromBE32(s: seq<uint8>): uint32
    requires |s| == 4
  {
    (FromBE16(s[..2]) as int) * 0x1_0000 + (FromBE16(s[2..]) as int)
  }

  function BE64(x: uint64): (r: seq<uint8>)
    ensures |r| == 8
  {
    BE32(x / 0x1_0000_0000) + BE32(x % 0x1_0000_0000)
  }

  function FromBE64(s: seq<uint8>): uint64
    requires |s| == 8
  {
    (FromBE32(s[..4]) as int) * 0x1_0000_0000 + (FromBE32(s[4..]) as int)
  }

  /** The bit pattern of a two's-complement `i32`, as `i32::to_be_bytes` lays it out. */
  function I32Bits(v: int32): (r: uint32)
    ensures v >= 0 ==> r == v
    ensures v < 0 ==> r >= 0x8000_0000
  {
    if v < 0 then v + 0x1_0000_0000 else v
  }

  /** Reading a 32-bit pattern back as a signed `i32`. */
  function FromI32Bits(u: uint32): int32
  {
    if u >= 0x8000_0000 then u - 0x1_0000_0000 else u
  }

  function BE32Signed(v: int32): (r: seq<uint8>)
    ensures |r| == 4
  {
    BE32(I32Bits(v))
  }

  function Zeros(n: nat): (r: seq<uint8>)
    ensures |r| == n
    ensures forall i | 0 <= i < n :: r[i] == 0
  {
    seq(n, _ => 0)
  }

  predicate IsAscii(s: string)
  {
    forall i | 0 <= i < |s| :: s[i] as int < 0x80
  }

  /** The bytes of an ASCII string literal such as Rust's `b"moov"`. */
  function Ascii(s: string): (r: seq<uint8>)
    requires IsAscii(s)
    ensures |r| == |s|
    ensures forall i | 0 <= i < |s| :: r[i] == s[i] as int
  {
    seq(|s|, i requires 0 <= i < |s| => s[i] as int)
  }

  lemma BE16RoundTrip(x: uint16)
    ensures FromBE16(BE16(x)) == x
  {
  }

  lemma BE32RoundTrip(x: uint32)
    ensures FromBE32(BE32(x)) == x
  {
    var hi, lo := BE16(x / 0x1_0000), BE16(x % 0x1_0000);
    assert BE32(x)[..2] == hi && BE32(x)[2..] == lo;
    BE16RoundTrip(x / 0x1_0000);
    BE16RoundTrip(x % 0x1_0000);
  }

  lemma BE64RoundTrip(x: uint64)
    ensures FromBE64(BE64(x)) == x
  {
    var hi, lo := BE32(x / 0x1_0000_0000), BE32(x % 0x1_0000_0000);
    assert BE64(x)[..4] == hi && BE64(x)[4..] == lo;
    BE32RoundTrip(x / 0x1_0000_0000);
    BE32RoundTrip(x % 0x1_0000_0000);
  }

  lemma I32BitsRoundTrip(v: int32)
    ensures FromI32Bits(I32Bits(v)) == v
  {
  }

  /** Two 32-bit values have the same big-endian bytes only if they are equal. */
  lemma BE32Injective(x: uint32, y: uint32)
    requires BE32(x) == BE32(y)
    ensures x == y
  {
    BE32RoundTrip(x);
    BE32RoundTrip(y);
  }

  /** Every four-byte sequence is the big-endian layout of the value read from it. */
  lemma FromBE32Inverse(s: seq<uint8>)
    requires |s| == 4
    ensures BE32(FromBE32(s)) == s
  {
    var hi, lo := FromBE16(s[..2]), FromBE16(s[2..]);
    assert FromBE32(s) / 0x1_0000 == hi && FromBE32(s) % 0x1_0000 == lo;
    assert BE16(hi) == s[..2];
    assert BE16(lo) == s[2..];
  }
}
