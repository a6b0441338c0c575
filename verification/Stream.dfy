/** A file descriptor being read. */
module Streams {
  import opened Wrappers
  import opened ByteOrder

  class Stream {
    const data: seq<byte>  // all there is to read before the end of the file, an error or a timeout
    var pos: nat           // may lie past the end after a seek

    constructor (data: seq<byte>)
      ensures this.data == data && pos == 0
    {
      this.data := data;
      pos := 0;
    }

    /** `read(fd, buffer, count)` on a file: as many bytes as there are, up to count. */
    method Read(count: nat) returns (bytes: seq<byte>)
      modifies this
      ensures old(pos) <= pos <= old(pos) + count
      ensures if old(pos) + count <= |data| then pos == old(pos) + count
              else if old(pos) <= |data| then pos == |data|
              else pos == old(pos)
      ensures bytes == if old(pos) <= |data| then data[old(pos)..pos] else []
    {
      if pos + count <= |data| {
        bytes := data[pos..pos + count];
        pos := pos + count;
      } else if pos <= |data| {
        bytes := data[pos..];
        pos := |data|;
      } else {
        bytes := [];
      }
    }

    /** `lseek(fd, count, SEEK_CUR)`, which may go past the end. */
    method Skip(count: nat)
      modifies this
      ensures pos == old(pos) + count
    {
      pos := pos + count;
    }
  }

  /** `read_stream`, lines 220-278, up to the freeing of the caller's object: exactly `size` bytes, read
      one at a time into a buffer, or nothing. */
  method ReadStream(fd: Stream, size: nat) returns (bytes: Option<seq<byte>>)
    requires size > 0
    modifies fd
    ensures old(fd.pos) + size <= |fd.data| ==>
              bytes == Some(fd.data[old(fd.pos)..old(fd.pos) + size]) && fd.pos == old(fd.pos) + size
    ensures old(fd.pos) + size > |fd.data| ==> bytes == None
  {
    var payload := new byte[size];
    var total := 0;
    var keepReading := true;
    while keepReading
      invariant 0 <= total <= size && (keepReading <==> total < size)
      invariant total > 0 ==> old(fd.pos) + total <= |fd.data|
      invariant fd.pos == old(fd.pos) + total
      invariant forall i :: 0 <= i < total ==> payload[i] == fd.data[old(fd.pos) + i]
      decreases size - total
    {
      var buffer := fd.Read(1);
      if buffer == [] {
        return None;
      }
      payload[total] := buffer[0];
      total := total + 1;
      if total == size {
        keepReading := false;
      }
    }
    assert payload[..] == fd.data[old(fd.pos)..old(fd.pos) + size];
    return Some(payload[..]);
  }
}
