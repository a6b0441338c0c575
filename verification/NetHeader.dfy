/** The 48-byte network header: `read_header`, `serialize_header` and `error_reply`. */
module NetHeaders {
  import opened Wrappers
  import opened ByteOrder
  import opened Sequences
  import opened Streams
  import opened Memory

  const NET_MAX_HEADER_SIZE: nat := 48
  const NET_FILE_NAME: nat := 32
  const NET_MAX_FILE_NAME: nat := 24

  /** The fields of a header. */
  datatype Fields = Fields(headerSize: bv32, nameLen: bv32, totalPayloadSize: bv64, fileName: seq<byte>)

  ghost predicate WellFormed(f: Fields) { |f.fileName| == NET_FILE_NAME }

  /** The wire format: each integer most significant byte first, then the name. */
  function Encode(f: Fields): (wire: seq<byte>)
    ensures |wire| == 16 + |f.fileName|
  {
    Reverse(Bytes32(f.headerSize)) + Reverse(Bytes32(f.nameLen)) + Reverse(Bytes64(f.totalPayloadSize)) + f.fileName
  }

  function Decode(wire: seq<byte>): Fields
    requires |wire| == NET_MAX_HEADER_SIZE
  {
    Fields(Word32(Reverse(wire[0..4])), Word32(Reverse(wire[4..8])), Word64(Reverse(wire[8..16])), wire[16..])
  }

  lemma {:induction false} ReverseTwice<T>(s: seq<T>)
    ensures Reverse(Reverse(s)) == s
  {
    assert forall i :: 0 <= i < |s| ==> Reverse(Reverse(s))[i] == Reverse(s)[|s| - 1 - i] == s[i];
  }

  /** What is printed is read back, for every header. */
  lemma DecodeEncode(f: Fields)
    requires WellFormed(f)
    ensures Decode(Encode(f)) == f
  {
    hide Reverse, Bytes32, Bytes64, Word32, Word64;
    var wire := Encode(f);
    assert wire[0..4] == Reverse(Bytes32(f.headerSize));
    assert wire[4..8] == Reverse(Bytes32(f.nameLen));
    assert wire[8..16] == Reverse(Bytes64(f.totalPayloadSize));
    assert wire[16..] == f.fileName;
    ReverseTwice(Bytes32(f.headerSize));
    ReverseTwice(Bytes32(f.nameLen));
    ReverseTwice(Bytes64(f.totalPayloadSize));
    RoundTrip32(f.headerSize);
    RoundTrip32(f.nameLen);
    RoundTrip64(f.totalPayloadSize);
  }

  /** Every 48 bytes are some header's wire format. */
  lemma EncodeDecode(wire: seq<byte>)
    requires |wire| == NET_MAX_HEADER_SIZE
    ensures WellFormed(Decode(wire)) && Encode(Decode(wire)) == wire
  {
    hide Reverse, Bytes32, Bytes64, Word32, Word64;
    TripRound32(Reverse(wire[0..4]));
    TripRound32(Reverse(wire[4..8]));
    TripRound64(Reverse(wire[8..16]));
    ReverseTwice(wire[0..4]);
    ReverseTwice(wire[4..8]);
    ReverseTwice(wire[8..16]);
    assert wire == wire[0..4] + wire[4..8] + wire[8..16] + wire[16..];
  }

  class NetHeader {
    var headerSize: bv32
    var nameLen: bv32
    var totalPayloadSize: bv64
    const fileName: array<byte>

    constructor ()
      ensures fresh(fileName) && fileName.Length == NET_FILE_NAME
    {
      headerSize, nameLen, totalPayloadSize := 0, 0, 0;
      fileName := new byte[NET_FILE_NAME];
    }

    ghost function Value(): Fields
      reads this, fileName
    {
      Fields(headerSize, nameLen, totalPayloadSize, fileName[..])
    }
  }

  /** `memcpy(buffer + offset, bytes, |bytes|)`. */
  method Copy(buffer: array<byte>, offset: nat, bytes: seq<byte>)
    requires offset + |bytes| <= buffer.Length
    modifies buffer
    ensures buffer[..] == old(buffer[..offset]) + bytes + old(buffer[offset + |bytes|..])
  {
    forall i | 0 <= i < |bytes| {
      buffer[offset + i] := bytes[i];
    }
  }

  /** `read_stream` with `free_header`: the header is freed if the bytes do not come. */
  method ReadOrFree(fd: Stream, header: NetHeader, heap: Heap, size: nat) returns (bytes: Option<seq<byte>>)
    requires size > 0 && heap.Live(header)
    modifies fd, heap
    ensures old(fd.pos) + size <= |fd.data| ==>
              && bytes == Some(fd.data[old(fd.pos)..old(fd.pos) + size])
              && fd.pos == old(fd.pos) + size
              && heap.obtained == old(heap.obtained) && heap.freed == old(heap.freed)
    ensures old(fd.pos) + size > |fd.data| ==>
              && bytes == None
              && heap.obtained == old(heap.obtained) && heap.freed == old(heap.freed) + [header]
  {
    bytes := ReadStream(fd, size);
    if bytes == None {
      heap.Free(header);
    }
  }

  /** Where the fields of a header lie in the stream. */
  lemma WireFields(data: seq<byte>, p: nat)
    requires p + NET_MAX_HEADER_SIZE <= |data|
    ensures var wire := data[p..p + NET_MAX_HEADER_SIZE];
            && wire[0..4] == data[p..p + 4]
            && wire[4..8] == data[p + 4..p + 8]
            && wire[8..16] == data[p + 8..p + 16]
            && wire[16..] == data[p + 16..p + 48]
  {
    SubrangeOfSubrange(data, p, p + NET_MAX_HEADER_SIZE, 0, 4);
    SubrangeOfSubrange(data, p, p + NET_MAX_HEADER_SIZE, 4, 8);
    SubrangeOfSubrange(data, p, p + NET_MAX_HEADER_SIZE, 8, 16);
    SubrangeOfSubrange(data, p, p + NET_MAX_HEADER_SIZE, 16, 48);
  }

  /** Lines 19-55: a header read off the wire, or NULL with its memory given back. */
  method ReadHeader(fd: Stream, heap: Heap) returns (header: NetHeader?)
    modifies fd, heap
    ensures old(fd.pos) + NET_MAX_HEADER_SIZE <= |fd.data| ==>
              && header != null && fresh(header) && fresh(header.fileName)
              && header.Value() == Decode(fd.data[old(fd.pos)..old(fd.pos) + NET_MAX_HEADER_SIZE])
              && fd.pos == old(fd.pos) + NET_MAX_HEADER_SIZE
              && heap.obtained == old(heap.obtained) + [header] && heap.freed == old(heap.freed)
    ensures old(fd.pos) + NET_MAX_HEADER_SIZE > |fd.data| ==>
              && header == null
              && |heap.obtained| == |old(heap.obtained)| + 1
              && heap.obtained[..|old(heap.obtained)|] == old(heap.obtained)
              && heap.freed == old(heap.freed) + [heap.obtained[|old(heap.obtained)|]]
  {
    hide Reverse, Word32, Word64;
    var h := new NetHeader();
    heap.Allocate(h);
    ghost var start := fd.pos;

    var res := ReadOrFree(fd, h, heap, 4);
    if res == None {
      return null;
    }
    SwapAfterLoad32(res.value);
    h.headerSize := SwapLong(Word32(res.value));

    res := ReadOrFree(fd, h, heap, 4);
    if res == None {
      return null;
    }
    SwapAfterLoad32(res.value);
    h.nameLen := SwapLong(Word32(res.value));

    res := ReadOrFree(fd, h, heap, 8);
    if res == None {
      return null;
    }
    SwapAfterLoad64(res.value);
    h.totalPayloadSize := SwapByteOrder(Word64(res.value));

    res := ReadOrFree(fd, h, heap, NET_FILE_NAME);
    if res == None {
      return null;
    }
    Copy(h.fileName, 0, res.value);

    assert h.fileName[..] == res.value;
    WireFields(fd.data, start);
    return h;
  }

  /** Lines 189-207: the header laid out in the buffer, field after field. */
  method SerializeHeader(header: NetHeader, buffer: array<byte>)
    requires header.fileName.Length == NET_FILE_NAME && buffer.Length == NET_MAX_HEADER_SIZE
    requires buffer != header.fileName
    modifies buffer
    ensures buffer[..] == Encode(header.Value())
  {
    hide Reverse, Bytes32, Bytes64, SwapLong, SwapByteOrder;
    var offset := 0;
    SwapReverses32(header.headerSize);
    Copy(buffer, 0, Bytes32(SwapLong(header.headerSize)));
    offset := offset + 4;
    assert buffer[..offset] == Reverse(Bytes32(header.headerSize));

    ghost var done := buffer[..offset];
    SwapReverses32(header.nameLen);
    Copy(buffer, offset, Bytes32(SwapLong(header.nameLen)));
    offset := offset + 4;
    assert buffer[..offset] == done + Reverse(Bytes32(header.nameLen));

    done := buffer[..offset];
    SwapReverses64(header.totalPayloadSize);
    Copy(buffer, offset, Bytes64(SwapByteOrder(header.totalPayloadSize)));
    offset := offset + 8;
    assert buffer[..offset] == done + Reverse(Bytes64(header.totalPayloadSize));

    done := buffer[..offset];
    Copy(buffer, offset, header.fileName[..]);
    assert buffer[..] == done + header.fileName[..];
  }

  /** What an error reply says: the same header, without the name. */
  function ErrorFields(f: Fields): Fields
    requires |f.fileName| == NET_FILE_NAME
  {
    f.(nameLen := 0, fileName := seq(NET_MAX_FILE_NAME, i => 0) + f.fileName[NET_MAX_FILE_NAME..])
  }

  /** Lines 164-187: the header is blanked in place, sent, and freed. */
  method ErrorReply(header: NetHeader, heap: Heap) returns (wire: seq<byte>)
    requires header.fileName.Length == NET_FILE_NAME && heap.Live(header)
    modifies header, header.fileName, heap
    ensures wire == Encode(ErrorFields(old(header.Value())))
    ensures heap.obtained == old(heap.obtained) && heap.freed == old(heap.freed) + [header]
  {
    header.nameLen := 0;
    Copy(header.fileName, 0, seq(NET_MAX_FILE_NAME, i => 0));
    var buffer := new byte[NET_MAX_HEADER_SIZE];
    SerializeHeader(header, buffer);
    wire := buffer[..];
    heap.Free(header);
  }

  /** The 48 bytes of a header, each integer most significant byte first. */
  lemma HeaderLayout(f: Fields)
    requires WellFormed(f)
    ensures var wire := Encode(f);
            && |wire| == 48
            && Reverse(wire[0..4]) == Bytes32(f.headerSize)
            && Reverse(wire[4..8]) == Bytes32(f.nameLen)
            && Reverse(wire[8..16]) == Bytes64(f.totalPayloadSize)
            && wire[16..48] == f.fileName
  {
    hide Reverse, Bytes32, Bytes64;
    var wire := Encode(f);
    assert wire[0..4] == Reverse(Bytes32(f.headerSize));
    assert wire[4..8] == Reverse(Bytes32(f.nameLen));
    assert wire[8..16] == Reverse(Bytes64(f.totalPayloadSize));
    ReverseTwice(Bytes32(f.headerSize));
    ReverseTwice(Bytes32(f.nameLen));
    ReverseTwice(Bytes64(f.totalPayloadSize));
  }

  /** The bytes of an error reply: 4 to 7, the name length, and 16 to 39, of the name, are zero; all others are
      those of the header. */
  lemma ErrorReplyBytes(f: Fields, k: nat)
    requires WellFormed(f) && k < 48
    ensures Encode(ErrorFields(f))[k] == if 4 <= k < 8 || 16 <= k < 40 then 0 else Encode(f)[k]
  {
    hide Reverse;
    var zero := Reverse(Bytes32(0));
    assert zero == [0, 0, 0, 0];
  }

  /** An error reply read back: no name length, 24 zeroed name bytes, every other field and the last 8
      name bytes as they came. */
  lemma ErrorReplyReadBack(f: Fields)
    requires WellFormed(f)
    ensures var g := Decode(Encode(ErrorFields(f)));
            && g.nameLen == 0
            && (forall i :: 0 <= i < 24 ==> g.fileName[i] == 0)
            && g.fileName[24..] == f.fileName[24..]
            && g.headerSize == f.headerSize && g.totalPayloadSize == f.totalPayloadSize
  {
    DecodeEncode(ErrorFields(f));
  }
}
