/** Fixed-width integers in byte buffers, and the 4-byte padding of netlink. */
module Bytes {
  import opened Address
  import opened Policy

  type u32 = x: int | 0 <= x < 0x1_0000_0000

  /** Native order is taken to be little-endian. */
  function ReadU16(buf: seq<byte>, off: nat): u16
    requires off + 2 <= |buf|
  {
    (buf[off] as int) + 0x100 * (buf[off + 1] as int)
  }

  function ReadU32(buf: seq<byte>, off: nat): u32
    requires off + 4 <= |buf|
  {
    (buf[off] as int) + 0x100 * (buf[off + 1] as int)
    + 0x1_0000 * (buf[off + 2] as int) + 0x100_0000 * (buf[off + 3] as int)
  }

  /** Two's complement. */
  function ReadI32(buf: seq<byte>, off: nat): (r: int)
    requires off + 4 <= |buf|
    ensures -0x8000_0000 <= r < 0x8000_0000
  {
    var u := ReadU32(buf, off);
    if u < 0x8000_0000 then u else u - 0x1_0000_0000
  }

  function WriteU16(n: u16): (b: seq<byte>)
    ensures |b| == 2 && ReadU16(b, 0) == n
  {
    [n % 0x100, n / 0x100]
  }

  function WriteU32(n: u32): (b: seq<byte>)
    ensures |b| == 4 && ReadU32(b, 0) == n
  {
    var q1 := n / 0x100;
    var q2 := q1 / 0x100;
    var q3 := q2 / 0x100;
    [n % 0x100, q1 % 0x100, q2 % 0x100, q3]
  }

  /** Two's complement of any 32-bit number is read back. */
  function WriteI32(n: int): (b: seq<byte>)
    requires -0x8000_0000 <= n < 0x8000_0000
    ensures |b| == 4 && ReadI32(b, 0) == n
  {
    WriteU32(if n < 0 then n + 0x1_0000_0000 else n)
  }

  lemma ZeroBytes(buf: seq<byte>, off: nat)
    requires off + 4 <= |buf|
    ensures ReadI32(buf, off) == 0 <==> forall i | off <= i < off + 4 :: buf[i] == 0
  {
    if ReadI32(buf, off) == 0 {
      forall i | off <= i < off + 4 ensures buf[i] == 0 {
        assert i == off || i == off + 1 || i == off + 2 || i == off + 3;
      }
    }
  }

  function ReadU16Be(buf: seq<byte>, off: nat): u16
    requires off + 2 <= |buf|
  {
    0x100 * (buf[off] as int) + (buf[off + 1] as int)
  }

  /** Big-endian. */
  function WriteU16Be(n: u16): (b: seq<byte>)
    ensures |b| == 2 && ReadU16Be(b, 0) == n
  {
    [n / 0x100, n % 0x100]
  }

  /** Big-endian, as a number of any width is spelled. */
  function WriteBe(n: nat, width: nat): (b: seq<byte>)
    ensures |b| == width
  {
    if width == 0 then [] else WriteBe(n / 256, width - 1) + [n % 256]
  }

  lemma {:induction false} BeRoundTrip(n: nat, width: nat)
    requires n < Pow2(8 * width)
    ensures Value(WriteBe(n, width)) == n
  {
    if width == 0 {
    } else {
      Pow2Add(8 * (width - 1), 8);
      assert Pow2(8) == 256;
      BeRoundTrip(n / 256, width - 1);
      assert WriteBe(n, width)[..width - 1] == WriteBe(n / 256, width - 1);
    }
  }

  function WriteU64Be(n: nat): (b: seq<byte>)
    requires n < 0x1_0000_0000_0000_0000
    ensures |b| == 8 && Value(b) == n
  {
    Pow2Of64();
    BeRoundTrip(n, 8);
    WriteBe(n, 8)
  }

  lemma Pow2Of64()
    ensures Pow2(64) == 0x1_0000_0000_0000_0000
  {
    SmallPow2();
    hide Pow2;
    Pow2Add(8, 8);
    Pow2Add(16, 16);
    Pow2Add(32, 32);
  }

  /** A length rounded up to a multiple of four: what `(n + 3) & !3` computes. */
  function Align4(n: nat): (r: nat)
    ensures n <= r < n + 4 && r % 4 == 0
  {
    (n + 3) / 4 * 4
  }

  function Padding(n: nat): (p: seq<byte>)
    ensures |p| == n
  {
    seq(n, _ => 0)
  }

  /** The bytes past the next aligned boundary, or none. */
  function Rest(buf: seq<byte>, len: nat): (r: seq<byte>)
    requires 0 < len <= |buf|
    ensures |r| < |buf|
  {
    if Align4(len) <= |buf| then buf[Align4(len)..] else []
  }

  /** The buffer from an offset on; a walker may step up to three bytes past the end. */
  function From(buf: seq<byte>, off: nat): seq<byte> {
    if off <= |buf| then buf[off..] else []
  }

  lemma RestAt(buf: seq<byte>, off: nat, len: nat)
    requires off <= |buf| && 0 < len <= |buf| - off
    ensures Rest(From(buf, off), len) == From(buf, off + Align4(len))
  {}
}
