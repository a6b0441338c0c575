/** The EQU file: its layout, its printer in the Python script, and what a reader must find in it. */
module EquFormat {
  import opened Wrappers
  import opened ByteOrder
  import opened Sequences

  const MAGIC_VALUE: bv32 := 0xDD77_BB55
  const HEADER_SIZE: nat := 27
  const RECORD_SIZE: nat := 32
  const PADDING_SIZE: nat := 10
  const INT_MAX: nat := 0x7FFF_FFFF

  datatype Header = Header(fileId: bv64, count: bv64, flags: byte, offset: bv32, numOpts: bv16)
  datatype Equation = Equation(eqId: bv32, flags: byte, left: bv64, opt: byte, right: bv64)
  datatype EquFile = EquFile(header: Header, equations: seq<Equation>)

  // ----- reading by position

  function Slice(data: seq<byte>, p: nat, size: nat): (r: seq<byte>)
    requires p + size <= |data|
    ensures |r| == size
  {
    data[p..p + size]
  }

  /** The header of a file that starts at p. */
  function HeaderAt(data: seq<byte>, p: nat): Header
    requires p + HEADER_SIZE <= |data|
  {
    Header(Word64(Slice(data, p + 4, 8)), Word64(Slice(data, p + 12, 8)), data[p + 20],
           Word32(Slice(data, p + 21, 4)), Word16(Slice(data, p + 25, 2)))
  }

  /** The record at p, which needs no padding after its 22 bytes. */
  function EquationAt(data: seq<byte>, p: nat): Equation
    requires p + RECORD_SIZE - PADDING_SIZE <= |data|
  {
    Equation(Word32(Slice(data, p, 4)), data[p + 4], Word64(Slice(data, p + 5, 8)), data[p + 13],
             Word64(Slice(data, p + 14, 8)))
  }

  /** Where record k of a file that starts at p begins. */
  function RecordStart(p: nat, k: nat): nat { p + HEADER_SIZE + RECORD_SIZE * k }

  /** The number of equations the header announces. */
  function Announced(data: seq<byte>, p: nat): nat
    requires p + HEADER_SIZE <= |data|
  {
    HeaderAt(data, p).count as nat
  }

  predicate MagicAt(data: seq<byte>, p: nat) {
    p + 4 <= |data| && Word32(Slice(data, p, 4)) == MAGIC_VALUE
  }

  /** The files that parse: the magic, the header, and every record down to its last padding. */
  predicate Accepts(data: seq<byte>, p: nat) {
    && MagicAt(data, p)
    && p + HEADER_SIZE <= |data|
    && (Announced(data, p) > 0 ==> RecordStart(p, Announced(data, p)) - PADDING_SIZE <= |data|)
  }

  /** What parses to what. */
  function Parse(data: seq<byte>, p: nat): Option<EquFile> {
    if Accepts(data, p) then
      Some(EquFile(HeaderAt(data, p), Equations(data, p, Announced(data, p))))
    else
      None
  }

  /** The first n records of a file that starts at p. */
  function Equations(data: seq<byte>, p: nat, n: nat): (r: seq<Equation>)
    requires n > 0 ==> RecordStart(p, n) - PADDING_SIZE <= |data|
    ensures |r| == n
  {
    seq(n, k requires 0 <= k < n =>
             assert RecordStart(p, k) + RECORD_SIZE <= RecordStart(p, n);
             EquationAt(data, RecordStart(p, k)))
  }

  /** The C loop counter is an int: it must not be asked to count past INT_MAX. */
  predicate CounterSuffices(data: seq<byte>, p: nat) {
    p + HEADER_SIZE <= |data| ==>
      Announced(data, p) <= INT_MAX || |data| < RecordStart(p, INT_MAX + 1) - PADDING_SIZE
  }

  /** The counter is too small exactly for files that announce more than 2147483647 equations and hold
      2147483648, the last padding aside. */
  lemma CounterOverflows(data: seq<byte>, p: nat)
    ensures !CounterSuffices(data, p) <==>
            && p + 27 <= |data|
            && Announced(data, p) > 2147483647
            && p + 27 + 32 * 2147483648 - 10 <= |data|
  {
    hide Announced;
  }

  // ----- printing

  function PrintHeader(h: Header): (r: seq<byte>)
    ensures |r| == HEADER_SIZE
  {
    Bytes32(MAGIC_VALUE) + Bytes64(h.fileId) + Bytes64(h.count) + [h.flags] + Bytes32(h.offset) + Bytes16(h.numOpts)
  }

  function Padding(): (r: seq<byte>)
    ensures |r| == PADDING_SIZE
  {
    seq(PADDING_SIZE, i => 0)
  }

  function PrintEquation(e: Equation): (r: seq<byte>)
    ensures |r| == RECORD_SIZE
  {
    Bytes32(e.eqId) + [e.flags] + (Bytes64(e.left) + [e.opt] + Bytes64(e.right)) + Padding()
  }

  function PrintEquations(es: seq<Equation>): (r: seq<byte>)
    ensures |r| == RECORD_SIZE * |es|
  {
    if es == [] then [] else PrintEquation(es[0]) + PrintEquations(es[1..])
  }

  function Print(h: Header, es: seq<Equation>): seq<byte> {
    PrintHeader(h) + PrintEquations(es)
  }

  // ----- the layout, in numbers

  /** A file begins with the bytes 55 BB 77 DD. */
  lemma MagicBytes(data: seq<byte>, p: nat)
    ensures MagicAt(data, p) <==> p + 4 <= |data| && data[p..p + 4] == [0x55, 0xBB, 0x77, 0xDD]
  {
    if p + 4 <= |data| {
      var b := Slice(data, p, 4);
      TripRound32(b);
      RoundTrip32(MAGIC_VALUE);
      assert Bytes32(MAGIC_VALUE) == [0x55, 0xBB, 0x77, 0xDD];
    }
  }

  /** The 27 bytes of a header. */
  lemma HeaderBytes(h: Header)
    ensures var b := PrintHeader(h);
            && |b| == 27
            && b[0..4] == [0x55, 0xBB, 0x77, 0xDD]
            && b[4..12] == Bytes64(h.fileId)
            && b[12..20] == Bytes64(h.count)
            && b[20] == h.flags
            && b[21..25] == Bytes32(h.offset)
            && b[25..27] == Bytes16(h.numOpts)
  {
  }

  /** The 32 bytes of a record. */
  lemma RecordBytes(e: Equation)
    ensures var b := PrintEquation(e);
            && |b| == 32
            && b[0..4] == Bytes32(e.eqId)
            && b[4] == e.flags
            && b[5..13] == Bytes64(e.left)
            && b[13] == e.opt
            && b[14..22] == Bytes64(e.right)
            && b[22..32] == [0, 0, 0, 0, 0, 0, 0, 0, 0, 0]
  {
    hide Bytes32, Bytes64;
    var head := Bytes32(e.eqId) + [e.flags];
    var body := Bytes64(e.left) + [e.opt] + Bytes64(e.right);
    assert PrintEquation(e) == head + body + Padding();
    assert (head + body + Padding())[14..22] == body[9..17] == Bytes64(e.right);
  }

  // ----- round trip

  lemma HeaderReadBack(h: Header, rest: seq<byte>)
    ensures var data := PrintHeader(h) + rest;
            HeaderAt(data, 0) == h && MagicAt(data, 0)
  {
    var data := PrintHeader(h) + rest;
    assert Slice(data, 0, 4) == Bytes32(MAGIC_VALUE);
    assert Slice(data, 4, 8) == Bytes64(h.fileId);
    assert Slice(data, 12, 8) == Bytes64(h.count);
    assert Slice(data, 21, 4) == Bytes32(h.offset);
    assert Slice(data, 25, 2) == Bytes16(h.numOpts);
    RoundTrip32(MAGIC_VALUE);
    RoundTrip64(h.fileId);
    RoundTrip64(h.count);
    RoundTrip32(h.offset);
    RoundTrip16(h.numOpts);
  }

  lemma SliceOfSlice(data: seq<byte>, p: nat, size: nat, i: nat, n: nat)
    requires p + size <= |data| && i + n <= size
    ensures Slice(data, p + i, n) == Slice(data, p, size)[i..i + n]
  {
    SubrangeOfSubrange(data, p, p + size, i, i + n);
  }

  lemma EquationReadBack(data: seq<byte>, p: nat, e: Equation)
    requires p + RECORD_SIZE <= |data| && Slice(data, p, RECORD_SIZE) == PrintEquation(e)
    ensures EquationAt(data, p) == e
  {
    hide Bytes32, Bytes64, Word32, Word64;
    var r := PrintEquation(e);
    SliceOfSlice(data, p, RECORD_SIZE, 0, 4);
    SliceOfSlice(data, p, RECORD_SIZE, 5, 8);
    SliceOfSlice(data, p, RECORD_SIZE, 14, 8);
    assert r[0..4] == Bytes32(e.eqId) && r[5..13] == Bytes64(e.left) && r[14..22] == Bytes64(e.right);
    assert data[p + 4] == r[4] == e.flags && data[p + 13] == r[13] == e.opt;
    RoundTrip32(e.eqId);
    RoundTrip64(e.left);
    RoundTrip64(e.right);
  }

  /** Record k of the printed list lies at byte 32k. */
  lemma {:induction false} RecordPlace(es: seq<Equation>, k: nat)
    requires k < |es|
    ensures RECORD_SIZE * k + RECORD_SIZE <= |PrintEquations(es)|
    ensures Slice(PrintEquations(es), RECORD_SIZE * k, RECORD_SIZE) == PrintEquation(es[k])
  {
    var first, rest := PrintEquation(es[0]), PrintEquations(es[1..]);
    if k > 0 {
      RecordPlace(es[1..], k - 1);
      assert Slice(first + rest, RECORD_SIZE * k, RECORD_SIZE) == Slice(rest, RECORD_SIZE * (k - 1), RECORD_SIZE);
    } else {
      assert Slice(first + rest, 0, RECORD_SIZE) == first;
    }
  }

  lemma PrintedRecord(h: Header, es: seq<Equation>, k: nat)
    requires k < |es|
    ensures RecordStart(0, k) + RECORD_SIZE <= |Print(h, es)|
    ensures EquationAt(Print(h, es), RecordStart(0, k)) == es[k]
  {
    hide PrintHeader, PrintEquation, EquationAt;
    var data := Print(h, es);
    RecordPlace(es, k);
    assert Slice(data, RecordStart(0, k), RECORD_SIZE) == Slice(PrintEquations(es), RECORD_SIZE * k, RECORD_SIZE);
    EquationReadBack(data, RecordStart(0, k), es[k]);
  }

  /** A printed file parses to the header and the equations that were printed. */
  lemma ParsePrinted(h: Header, es: seq<Equation>)
    requires h.count as nat == |es|
    ensures Parse(Print(h, es), 0) == Some(EquFile(h, es))
  {
    hide PrintHeader, PrintEquations, HeaderAt, MagicAt, EquationAt;
    var data := Print(h, es);
    HeaderReadBack(h, PrintEquations(es));
    assert |data| == RecordStart(0, |es|);
    forall k | 0 <= k < |es| ensures Equations(data, 0, |es|)[k] == es[k] {
      PrintedRecord(h, es, k);
    }
    assert Equations(data, 0, |es|) == es;
  }

  /** The length a file announcing n equations needs: all of it but the last padding. */
  function NeededLength(n: nat): nat {
    if n == 0 then HEADER_SIZE else HEADER_SIZE + RECORD_SIZE * n - PADDING_SIZE
  }

  lemma AcceptedLength(data: seq<byte>, n: nat)
    requires HEADER_SIZE <= |data| && MagicAt(data, 0) && Announced(data, 0) == n
    ensures Accepts(data, 0) <==> |data| >= NeededLength(n)
  {
    hide HeaderAt, MagicAt, Announced;
  }

  lemma SliceOfPrefix(data: seq<byte>, size: nat, p: nat, n: nat)
    requires p + n <= size <= |data|
    ensures Slice(data[..size], p, n) == Slice(data, p, n)
  {
  }

  /** A prefix that holds the header shows the same header. */
  lemma HeaderOfPrefix(data: seq<byte>, size: nat)
    requires HEADER_SIZE <= size <= |data|
    ensures HeaderAt(data[..size], 0) == HeaderAt(data, 0)
    ensures MagicAt(data[..size], 0) == MagicAt(data, 0)
  {
    SliceOfPrefix(data, size, 0, 4);
    SliceOfPrefix(data, size, 4, 8);
    SliceOfPrefix(data, size, 12, 8);
    SliceOfPrefix(data, size, 21, 4);
    SliceOfPrefix(data, size, 25, 2);
  }

  lemma EquationOfPrefix(data: seq<byte>, size: nat, p: nat)
    requires p + RECORD_SIZE - PADDING_SIZE <= size <= |data|
    ensures EquationAt(data[..size], p) == EquationAt(data, p)
  {
    SliceOfPrefix(data, size, p, 4);
    SliceOfPrefix(data, size, p + 5, 8);
    SliceOfPrefix(data, size, p + 14, 8);
  }

  /** Cutting any file that parses changes nothing down to the needed length, and is fatal below it. */
  lemma TruncationExactly(data: seq<byte>, size: nat)
    requires Accepts(data, 0) && size <= |data|
    ensures Parse(data[..size], 0) == if size >= NeededLength(Announced(data, 0)) then Parse(data, 0) else None
  {
    hide HeaderAt, MagicAt, EquationAt;
    if size >= HEADER_SIZE {
      var n := Announced(data, 0);
      HeaderOfPrefix(data, size);
      AcceptedLength(data[..size], n);
      if size >= NeededLength(n) {
        forall k | 0 <= k < n
          ensures EquationAt(data[..size], RecordStart(0, k)) == EquationAt(data, RecordStart(0, k))
        {
          EquationOfPrefix(data, size, RecordStart(0, k));
        }
        assert Equations(data[..size], 0, n) == Equations(data, 0, n);
      }
    }
  }

  lemma PrintedHeader(h: Header, es: seq<Equation>, size: nat)
    requires HEADER_SIZE <= size <= |Print(h, es)|
    ensures var cut := Print(h, es)[..size];
            MagicAt(cut, 0) && Announced(cut, 0) == h.count as nat
  {
    hide PrintHeader, PrintEquations, HeaderAt, MagicAt;
    var cut := Print(h, es)[..size];
    assert cut == PrintHeader(h) + cut[HEADER_SIZE..];
    HeaderReadBack(h, cut[HEADER_SIZE..]);
  }

  /** Of the prefixes of a printed file, exactly those missing no more than the last padding parse. */
  lemma PrefixesThatParse(h: Header, es: seq<Equation>, size: nat)
    requires h.count as nat == |es| && size <= |Print(h, es)|
    ensures Accepts(Print(h, es)[..size], 0) <==>
            size >= NeededLength(|es|)
  {
    hide Print, HeaderAt, MagicAt, Announced;
    if size >= HEADER_SIZE {
      PrintedHeader(h, es, size);
      AcceptedLength(Print(h, es)[..size], |es|);
    }
  }

  // ----- the Python script's own reader

  /** `Equation.__init__`: the offsets at which the Python script unpacks a record. */
  function ScriptUnpack(bytes: seq<byte>): Equation
    requires |bytes| >= RECORD_SIZE - PADDING_SIZE
  {
    Equation(Word32(bytes[0..4]), bytes[4], Word64(bytes[5..13]), bytes[13], Word64(bytes[14..22]))
  }

  /** Python's `data[p:p + size]` for a p within the data: cut off at its end. */
  function Cut(data: seq<byte>, p: nat, size: nat): seq<byte>
    requires p <= |data|
  {
    if p + size <= |data| then data[p..p + size] else data[p..]
  }

  function BytesIn(offset: bv32): nat { offset as nat }

  /** Where the Python script looks for record i: the header's offset counts, which the parser ignores. */
  function ScriptStart(offset: nat, i: nat): nat { i * RECORD_SIZE + offset }

  /** A file with that offset in its header that is long enough for both to read record i, which needs no
      padding. */
  predicate Readable(data: seq<byte>, offset: bv32, i: nat) {
    && HEADER_SIZE <= |data|
    && HeaderAt(data, 0).offset == offset
    && RecordStart(0, i) + RECORD_SIZE - PADDING_SIZE <= |data|
    && ScriptStart(BytesIn(offset), i) + RECORD_SIZE - PADDING_SIZE <= |data|
  }

  /** The Python script and the parser read the same record i. */
  predicate ReadAlike(data: seq<byte>, offset: bv32, i: nat)
    requires Readable(data, offset, i)
  {
    ScriptUnpack(Cut(data, ScriptStart(BytesIn(offset), i), RECORD_SIZE)) == EquationAt(data, RecordStart(0, i))
  }

  lemma UnpackIsEquation(data: seq<byte>, p: nat)
    requires p + RECORD_SIZE - PADDING_SIZE <= |data|
    ensures ScriptUnpack(Cut(data, p, RECORD_SIZE)) == EquationAt(data, p)
  {
    var end := p + |Cut(data, p, RECORD_SIZE)|;
    assert Cut(data, p, RECORD_SIZE) == data[p..end];
    SubrangeOfSubrange(data, p, end, 0, 4);
    SubrangeOfSubrange(data, p, end, 5, 13);
    SubrangeOfSubrange(data, p, end, 14, 22);
  }

  /** A header, then zeros, but for the flags byte of the parser's record i: that differs from the byte the
      Python script takes for it. */
  function Diverging(header: seq<byte>, offset: nat, i: nat): (data: seq<byte>)
    requires |header| == HEADER_SIZE
    ensures |data| == HEADER_SIZE + RECORD_SIZE * (i + 1) + offset
    ensures data[..HEADER_SIZE] == header
  {
    var base := header + seq(RECORD_SIZE * (i + 1) + offset, k => 0);
    base[RecordStart(0, i) + 4 := base[ScriptStart(offset, i) + 4] + 1]
  }

  lemma DivergingBytes(header: seq<byte>, offset: nat, i: nat)
    requires |header| == HEADER_SIZE && offset != HEADER_SIZE
    ensures var data := Diverging(header, offset, i);
            data[ScriptStart(offset, i) + 4] != data[RecordStart(0, i) + 4]
  {
    assert ScriptStart(offset, i) != RecordStart(0, i);
  }

  /** The file that has the offset in its header and diverges at record i. */
  function TwoWays(offset: bv32, i: nat): seq<byte> {
    Diverging(PrintHeader(Header(0, 1, 0, offset, 0)), BytesIn(offset), i)
  }

  lemma TwoWaysHeader(offset: bv32, i: nat)
    ensures var data := TwoWays(offset, i);
            && |data| == HEADER_SIZE + RECORD_SIZE * (i + 1) + BytesIn(offset)
            && HeaderAt(data, 0) == Header(0, 1, 0, offset, 0) && MagicAt(data, 0)
  {
    hide PrintHeader, HeaderAt, MagicAt, Diverging, BytesIn;
    var data, header := TwoWays(offset, i), Header(0, 1, 0, offset, 0);
    HeaderReadBack(header, data[HEADER_SIZE..]);
    assert data == data[..HEADER_SIZE] + data[HEADER_SIZE..];
  }

  lemma FlagsDiffer(data: seq<byte>, p: nat, q: nat)
    requires p + RECORD_SIZE - PADDING_SIZE <= |data| && q + RECORD_SIZE - PADDING_SIZE <= |data|
    requires data[p + 4] != data[q + 4]
    ensures ScriptUnpack(Cut(data, q, RECORD_SIZE)) != EquationAt(data, p)
  {
    assert Cut(data, q, RECORD_SIZE)[4] == data[q + 4];
  }

  /** With an offset other than 27 that file is read in two ways. */
  lemma ReadTwoWays(offset: bv32, i: nat)
    requires BytesIn(offset) != HEADER_SIZE
    ensures Readable(TwoWays(offset, i), offset, i) && !ReadAlike(TwoWays(offset, i), offset, i)
  {
    hide PrintHeader, HeaderAt, Diverging, ScriptUnpack, EquationAt, Slice, Cut, BytesIn;
    var header := PrintHeader(Header(0, 1, 0, offset, 0));
    var o := BytesIn(offset);
    TwoWaysHeader(offset, i);
    DivergingBytes(header, o, i);
    FlagsDiffer(TwoWays(offset, i), RecordStart(0, i), ScriptStart(o, i));
  }

  /** For one: a file of one equation whose header says that it begins at byte 59. The parser accepts it
      and reads the flags 1 where the Python script reads 0. */
  lemma OffsetIsIgnored()
    ensures Accepts(TwoWays(59, 0), 0)
    ensures Readable(TwoWays(59, 0), 59, 0) && !ReadAlike(TwoWays(59, 0), 59, 0)
  {
    hide HeaderAt, MagicAt, TwoWays, Readable, ReadAlike;
    TwoWaysHeader(59, 0);
    ReadTwoWays(59, 0);
  }

  /** The two readers agree on record i of every file with a given offset exactly when it is 27, which is
      what the writer stores and the parser assumes. */
  lemma ReadersAgreeExactly(offset: bv32, i: nat)
    ensures (forall data :: Readable(data, offset, i) ==> ReadAlike(data, offset, i))
            <==> BytesIn(offset) == HEADER_SIZE
  {
    hide Readable, ScriptUnpack, EquationAt, TwoWays, BytesIn;
    if BytesIn(offset) == HEADER_SIZE {
      forall data | Readable(data, offset, i) ensures ReadAlike(data, offset, i) {
        AlignedReadersAgree(data, offset, i);
      }
    } else {
      ReadTwoWays(offset, i);
    }
  }

  lemma AlignedReadersAgree(data: seq<byte>, offset: bv32, i: nat)
    requires Readable(data, offset, i) && BytesIn(offset) == HEADER_SIZE
    ensures ReadAlike(data, offset, i)
  {
    UnpackIsEquation(data, RecordStart(0, i));
  }
}
