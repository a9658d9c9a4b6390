/**
 * Fixed-width unsigned integers and their network-byte-order (big-endian)
 * wire images, as written by `WriteBytesExt::write_u16/write_u32::<NetworkEndian>`
 * and read back by `ReadBytesExt::read_u16::<NetworkEndian>`.
 */
module Bytes {

  type u8 = x: int | 0 <= x < 0x100
  type u16 = x: int | 0 <= x < 0x1_0000
  type u32 = x: int | 0 <= x < 0x1_0000_0000

  /** The u16 whose big-endian image is the two octets `hi`, `lo`. */
  function U16Value(hi: u8, lo: u8): u16
  {
    hi * 0x100 + lo
  }

  /** The u32 whose big-endian image is the four octets of `s`. */
  function U32Value(s: seq<u8>): u32
    requires |s| == 4
  {
    U16Value(s[0], s[1]) * 0x1_0000 + U16Value(s[2], s[3])
  }

  /** Big-endian image of a u16: most significant octet first. */
  function U16Bytes(x: u16): (r: seq<u8>)
    ensures |r| == 2
    ensures U16Value(r[0], r[1]) == x
  {
    [x / 0x100, x % 0x100]
  }

  /** Big-endian image of a u32: most significant octet first. */
  function U32Bytes(x: u32): (r: seq<u8>)
    ensures |r| == 4
    ensures U32Value(r) == x
  {
    U16Bytes(x / 0x1_0000) + U16Bytes(x % 0x1_0000)
  }

  /** Reading two octets and writing the u16 back gives the same two octets. */
  lemma U16BytesOfValue(hi: u8, lo: u8)
    ensures U16Bytes(U16Value(hi, lo)) == [hi, lo]
  {
  }

  /** Reading four octets and writing the u32 back gives the same four octets. */
  lemma U32BytesOfValue(s: seq<u8>)
    requires |s| == 4
    ensures U32Bytes(U32Value(s)) == s
  {
    var hi := U16Value(s[0], s[1]);
    var lo := U16Value(s[2], s[3]);
    assert U32Value(s) / 0x1_0000 == hi;
    assert U32Value(s) % 0x1_0000 == lo;
    U16BytesOfValue(s[0], s[1]);
    U16BytesOfValue(s[2], s[3]);
  }

  /** The octets written by a run of `write_u16::<NetworkEndian>` calls. */
  function U16sBytes(xs: seq<u16>): (r: seq<u8>)
    ensures |r| == 2 * |xs|
  {
    if |xs| == 0 then [] else U16Bytes(xs[0]) + U16sBytes(xs[1..])
  }

  /**
   * Writing, in order, the u16s read pairwise from an even-length octet
   * sequence reproduces that octet sequence.
   */
  lemma {:induction false} U16sBytesOfPairs(o: seq<u8>, xs: seq<u16>)
    requires |o| == 2 * |xs|
    requires forall i :: 0 <= i < |xs| ==> xs[i] == U16Value(o[2 * i], o[2 * i + 1])
    ensures U16sBytes(xs) == o
  {
    if |xs| > 0 {
      forall i | 0 <= i < |xs[1..]|
        ensures xs[1..][i] == U16Value(o[2..][2 * i], o[2..][2 * i + 1])
      {
        assert xs[1..][i] == xs[i + 1];
        assert 2 * (i + 1) == 2 * i + 2;
      }
      U16sBytesOfPairs(o[2..], xs[1..]);
      U16BytesOfValue(o[0], o[1]);
      assert o == o[..2] + o[2..];
    }
  }
}
