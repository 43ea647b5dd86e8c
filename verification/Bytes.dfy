/** Bytes, little-endian words and in-place overwrites, shared by every component that touches raw memory. */
module Bytes {

  type byte = n: int | 0 <= n < 256

  /** The `width` low bytes of `v`, least significant first. */
  function LittleEndian(v: nat, width: nat): (s: seq<byte>)
    ensures |s| == width
  {
    if width == 0 then [] else [v % 256] + LittleEndian(v / 256, width - 1)
  }

  /** The number a little-endian byte string stands for. */
  function FromLittleEndian(s: seq<byte>): nat
  {
    if s == [] then 0 else s[0] + 256 * FromLittleEndian(s[1..])
  }

  /** The bytes of words of two and four bytes, low byte first. */
  lemma LowByteFirst(v: nat)
    ensures LittleEndian(v, 2) == [v % 256, v / 256 % 256]
    ensures LittleEndian(v, 4) == [v % 256, v / 256 % 256, v / 65536 % 256, v / 0x100_0000 % 256]
  {
    assert v / 256 / 256 == v / 65536 && v / 65536 / 256 == v / 0x100_0000;
    assert LittleEndian(v / 65536, 2) == [v / 65536 % 256] + LittleEndian(v / 0x100_0000, 1);
    assert LittleEndian(v / 256, 3) == [v / 256 % 256] + LittleEndian(v / 65536, 2);
  }

  /** The number of values a `width`-byte word can hold. */
  function Radix(width: nat): (r: nat)
    ensures r > 0
  {
    if width == 0 then 1 else 256 * Radix(width - 1)
  }

  const WORD32 := 0x1_0000_0000
  const WORD64 := 0x1_0000_0000_0000_0000

  /** A machine word of the target. */
  type Word64 = n: nat | n < WORD64

  lemma RadixValues()
    ensures Radix(4) == WORD32 && Radix(8) == WORD64
  {
    assert Radix(1) == 256;
    assert Radix(2) == 65536;
    assert Radix(3) == 0x100_0000;
    assert Radix(4) == WORD32;
    assert Radix(5) == 0x100_0000_0000;
    assert Radix(6) == 0x1_0000_0000_0000;
    assert Radix(7) == 0x100_0000_0000_0000;
  }

  lemma {:induction false} LittleEndianRoundTrip(v: nat, width: nat)
    requires v < Radix(width)
    ensures FromLittleEndian(LittleEndian(v, width)) == v
  {
    if width > 0 {
      LittleEndianRoundTrip(v / 256, width - 1);
      assert LittleEndian(v, width)[1..] == LittleEndian(v / 256, width - 1);
    }
  }

  lemma {:induction false} FromLittleEndianRoundTrip(s: seq<byte>)
    ensures FromLittleEndian(s) < Radix(|s|)
    ensures LittleEndian(FromLittleEndian(s), |s|) == s
  {
    if s != [] {
      FromLittleEndianRoundTrip(s[1..]);
      var high := FromLittleEndian(s[1..]);
      assert (s[0] + 256 * high) % 256 == s[0] && (s[0] + 256 * high) / 256 == high;
    }
  }

  /** `w` with `bytes` written over the positions from `offset` on. */
  function Overwrite(w: seq<byte>, offset: nat, bytes: seq<byte>): (r: seq<byte>)
    requires offset + |bytes| <= |w|
    ensures |r| == |w|
    ensures forall i :: 0 <= i < |w| ==>
      r[i] == if offset <= i < offset + |bytes| then bytes[i - offset] else w[i]
  {
    w[..offset] + bytes + w[offset + |bytes|..]
  }

  /** Two adjoining copies are one copy. */
  lemma OverwriteAdjoining(w: seq<byte>, offset: nat, a: seq<byte>, b: seq<byte>)
    requires offset + |a| + |b| <= |w|
    ensures Overwrite(Overwrite(w, offset, a), offset + |a|, b) == Overwrite(w, offset, a + b)
  {
  }
}
