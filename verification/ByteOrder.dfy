/** Integers as bytes, and the byte swaps of a little-endian host. */
module ByteOrder {
  type byte = bv8

  function Reverse<T>(s: seq<T>): (r: seq<T>)
    ensures |r| == |s|
    ensures forall i :: 0 <= i < |s| ==> r[i] == s[|s| - 1 - i]
  {
    if s == [] then [] else Reverse(s[1..]) + [s[0]]
  }

  // What memcpy copies out of a variable, and into one.

  function Bytes16(x: bv16): (r: seq<byte>)
    ensures |r| == 2
  {
    [(x & 0xFF) as byte, (x >> 8) as byte]
  }

  function Bytes32(x: bv32): (r: seq<byte>)
    ensures |r| == 4
  {
    [(x & 0xFF) as byte, ((x >> 8) & 0xFF) as byte, ((x >> 16) & 0xFF) as byte, (x >> 24) as byte]
  }

  function Bytes64(x: bv64): (r: seq<byte>)
    ensures |r| == 8
  {
    [(x & 0xFF) as byte, ((x >> 8) & 0xFF) as byte, ((x >> 16) & 0xFF) as byte, ((x >> 24) & 0xFF) as byte,
     ((x >> 32) & 0xFF) as byte, ((x >> 40) & 0xFF) as byte, ((x >> 48) & 0xFF) as byte, (x >> 56) as byte]
  }

  function Word16(b: seq<byte>): bv16
    requires |b| == 2
  {
    (b[0] as bv16) | (b[1] as bv16 << 8)
  }

  function Word32(b: seq<byte>): bv32
    requires |b| == 4
  {
    (b[0] as bv32) | (b[1] as bv32 << 8) | (b[2] as bv32 << 16) | (b[3] as bv32 << 24)
  }

  function Word64(b: seq<byte>): bv64
    requires |b| == 8
  {
    (b[0] as bv64) | (b[1] as bv64 << 8) | (b[2] as bv64 << 16) | (b[3] as bv64 << 24)
    | (b[4] as bv64 << 32) | (b[5] as bv64 << 40) | (b[6] as bv64 << 48) | (b[7] as bv64 << 56)
  }

  /** Least significant byte first: the first byte is the low one, and a shift by 8 drops it. */
  lemma LowByteFirst16(x: bv16)
    ensures Bytes16(x)[0] == (x % 0x100) as byte
    ensures Bytes16(x >> 8) == Bytes16(x)[1..] + [0]
  {
  }

  lemma LowByteFirst32(x: bv32)
    ensures Bytes32(x)[0] == (x % 0x100) as byte
    ensures Bytes32(x >> 8) == Bytes32(x)[1..] + [0]
  {
  }

  lemma LowByteFirst64(x: bv64)
    ensures Bytes64(x)[0] == (x % 0x100) as byte
    ensures Bytes64(x >> 8) == Bytes64(x)[1..] + [0]
  {
  }

  lemma RoundTrip16(x: bv16)
    ensures Word16(Bytes16(x)) == x
  {
  }

  lemma RoundTrip32(x: bv32)
    ensures Word32(Bytes32(x)) == x
  {
  }

  lemma RoundTrip64(x: bv64)
    ensures Word64(Bytes64(x)) == x
  {
  }

  lemma TripRound32(b: seq<byte>)
    requires |b| == 4
    ensures Bytes32(Word32(b)) == b
  {
  }

  lemma TripRound64(b: seq<byte>)
    requires |b| == 8
    ensures Bytes64(Word64(b)) == b
  {
  }

  /** `htonl` and `ntohl` on a little-endian host. */
  function SwapLong(x: bv32): bv32 {
    (x << 24) | ((x << 8) & 0x00FF_0000) | ((x >> 8) & 0x0000_FF00) | (x >> 24)
  }

  /** `swap_byte_order`, lines 62-68. */
  function SwapByteOrder(val: bv64): bv64 {
    var pairs := ((val << 8) & 0xFF00_FF00_FF00_FF00) | ((val >> 8) & 0x00FF_00FF_00FF_00FF);
    var quads := ((pairs << 16) & 0xFFFF_0000_FFFF_0000) | ((pairs >> 16) & 0x0000_FFFF_0000_FFFF);
    (quads << 32) | (quads >> 32)
  }

  lemma SwapTwice64(x: bv64)
    ensures SwapByteOrder(SwapByteOrder(x)) == x
  {
  }

  /** Swapping reverses the bytes, and swapping twice does nothing. */
  lemma SwapReverses64(x: bv64)
    ensures Bytes64(SwapByteOrder(x)) == Reverse(Bytes64(x))
    ensures SwapByteOrder(SwapByteOrder(x)) == x
  {
    SwapTwice64(x);
    SwappedBytes64(x);
    hide SwapByteOrder, Bytes64;
    var c := Bytes64(x);
    assert [c[7], c[6], c[5], c[4], c[3], c[2], c[1], c[0]] == Reverse(c);
  }

  lemma SwappedBytes64(x: bv64)
    ensures var b, c := Bytes64(SwapByteOrder(x)), Bytes64(x);
            b == [c[7], c[6], c[5], c[4], c[3], c[2], c[1], c[0]]
  {
    var b, c := Bytes64(SwapByteOrder(x)), Bytes64(x);
    assert b == [c[7], c[6], c[5], c[4], c[3], c[2], c[1], c[0]];
  }

  lemma SwapReverses32(x: bv32)
    ensures Bytes32(SwapLong(x)) == Reverse(Bytes32(x))
    ensures SwapLong(SwapLong(x)) == x
  {
    var b, c := Bytes32(SwapLong(x)), Bytes32(x);
    assert b == [c[3], c[2], c[1], c[0]];
  }

  /** Loading bytes and swapping is loading the bytes in reverse. */
  lemma SwapAfterLoad32(b: seq<byte>)
    requires |b| == 4
    ensures SwapLong(Word32(b)) == Word32(Reverse(b))
  {
    TripRound32(b);
    SwapReverses32(Word32(b));
    RoundTrip32(SwapLong(Word32(b)));
  }

  lemma SwapAfterLoad64(b: seq<byte>)
    requires |b| == 8
    ensures SwapByteOrder(Word64(b)) == Word64(Reverse(b))
  {
    TripRound64(b);
    SwapReverses64(Word64(b));
    RoundTrip64(SwapByteOrder(Word64(b)));
  }
}
