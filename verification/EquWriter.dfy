/** `EquFile` of the Python script: the generator and writer of EQU files. */
module EquWriter {
  import opened Wrappers
  import opened ByteOrder
  import opened EquFormat
  import opened Sequences

  function Records(es: seq<Equation>): seq<seq<byte>> {
    seq(|es|, k requires 0 <= k < |es| => PrintEquation(es[k]))
  }

  lemma {:induction false} JoinedRecords(es: seq<Equation>)
    ensures Joined(Records(es)) == PrintEquations(es)
  {
    if es != [] {
      assert Records(es)[1..] == Records(es[1..]);
      JoinedRecords(es[1..]);
    }
  }

  lemma HeaderLayout(fileId: seq<byte>, count: bv64, flags: byte)
    requires |fileId| == 8
    ensures PrintHeader(Header(Word64(fileId), count, flags, 27, 0))
            == Bytes32(MAGIC_VALUE) + fileId + Bytes64(count) + [flags] + Bytes32(27) + Bytes16(0)
  {
    hide Bytes16, Bytes32, Bytes64, Word64;
    TripRound64(fileId);
  }

  /** One draw for each equation. */
  predicate DrawnFor(numEqu: bv64, draws: seq<Equation>) { numEqu as nat == |draws| }

  /** What the generator concatenates for an equation. */
  lemma RecordLayout(e: Equation)
    ensures Bytes32(e.eqId) + [e.flags] + (Bytes64(e.left) + [e.opt] + Bytes64(e.right)) + Padding() == PrintEquation(e)
  {
  }

  class EquFile {
    const fileId: seq<byte>
    var flags: byte
    var numEqu: bv64
    var equations: seq<seq<byte>>

    /** Lines 54-68; the random file id is a parameter. */
    constructor (fileId: seq<byte>)
      requires |fileId| == 8
      ensures this.fileId == fileId && flags == 0 && numEqu == 0 && equations == []
    {
      this.fileId := fileId;
      flags, numEqu, equations := 0, 0, [];
    }

    /** The header the writer stores: equations right after the header, no optional headers. */
    function Stored(): Header
      reads this
      requires |fileId| == 8
    {
      Header(Word64(fileId), numEqu, flags, 27, 0)
    }

    /** Lines 71-91; what random draws for each equation is a parameter. */
    method GenEquations(numEqu: bv64, draws: seq<Equation>)
      requires DrawnFor(numEqu, draws)
      requires forall k :: 0 <= k < |draws| ==> draws[k].flags == 0
      modifies this`numEqu, this`equations
      ensures this.numEqu == numEqu && equations == old(equations) + Records(draws)
    {
      hide DrawnFor;
      this.numEqu := numEqu;
      ghost var made: seq<seq<byte>> := [];
      for x := 0 to |draws|
        invariant this.numEqu == numEqu
        invariant |made| == x && forall k :: 0 <= k < x ==> made[k] == PrintEquation(draws[k])
        invariant equations == old(equations) + made
      {
        hide PrintEquation, Bytes32, Bytes64;
        var d := draws[x];
        var equ := Bytes32(d.eqId) + [0] + (Bytes64(d.left) + [d.opt] + Bytes64(d.right)) + Padding();
        RecordLayout(d);
        equations := equations + [equ];
        made := made + [equ];
      }
      assert made == Records(draws);
    }

    /** Lines 94-104. */
    method WriteFile() returns (file: seq<byte>)
      requires |fileId| == 8
      ensures file == PrintHeader(Stored()) + Joined(equations)
    {
      hide Bytes16, Bytes32, Bytes64, Word64, PrintHeader;
      file := Bytes32(MAGIC_VALUE);
      file := file + fileId;
      file := file + Bytes64(numEqu);
      file := file + [flags];
      file := file + Bytes32(27);
      file := file + Bytes16(0);
      HeaderLayout(fileId, numEqu, flags);
      for i := 0 to |equations|
        invariant file == PrintHeader(Stored()) + Joined(equations[..i])
      {
        assert equations[..i + 1] == equations[..i] + [equations[i]];
        JoinedAppend(equations[..i], equations[i]);
        file := file + equations[i];
      }
      assert equations[..|equations|] == equations;
    }
  }

  /** A generated file parses to exactly the equations drawn for it, whatever they are. */
  method GenerateFile(fileId: seq<byte>, numEqu: bv64, draws: seq<Equation>) returns (file: seq<byte>)
    requires |fileId| == 8 && DrawnFor(numEqu, draws)
    requires forall k :: 0 <= k < |draws| ==> draws[k].flags == 0
    ensures Parse(file, 0) == Some(EquFormat.EquFile(Header(Word64(fileId), numEqu, 0, 27, 0), draws))
  {
    hide PrintHeader, PrintEquations, PrintEquation, Parse, Bytes16, Bytes32, Bytes64, Word64;
    var equFile := new EquFile(fileId);
    equFile.GenEquations(numEqu, draws);
    file := equFile.WriteFile();
    JoinedRecords(draws);
    assert equFile.equations == Records(draws);
    ParsePrinted(equFile.Stored(), draws);
  }
}
