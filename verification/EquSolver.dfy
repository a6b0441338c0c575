/** A parsed file solved node by node and freed, as tests/gtest_header_parser.cpp does it. */
module EquSolver {
  import opened ByteOrder
  import opened Streams
  import opened Memory
  import opened Sequences
  import opened EquParser
  import EquFormat
  import Int64
  import Calculation

  // The fields of an equation as the solver takes them.
  function Operand(x: bv64): Int64.U64 { x as nat }
  function Opcode(x: byte): nat { x as nat }
  function Id(x: bv32): nat { x as nat }

  /** The solver's verdict on the equation in a node. */
  function VerdictOn(e: EquFormat.Equation): Calculation.Outcome {
    Calculation.Evaluate(Operand(e.left), Opcode(e.opt), Operand(e.right))
  }

  /** The one multiplication that C does not define. */
  predicate IsUndefined(e: EquFormat.Equation) {
    && Opcode(e.opt) == 0x03
    && Calculation.MulUndefined(Int64.Signed(Operand(e.left)), Int64.Signed(Operand(e.right)))
  }

  /** The solution carries the fields of the equation. */
  predicate IsOf(sol: Calculation.Solution, e: EquFormat.Equation) {
    && sol.eqId == Id(e.eqId) && sol.opt == Opcode(e.opt)
    && sol.lOperand == Operand(e.left) && sol.rOperand == Operand(e.right)
  }

  /** What solving a node obtained: its solution and the solution's message. */
  ghost predicate Obtained(n: UnsolvedEq, piece: seq<object>)
    reads n`solution, n.solution
  {
    && n.solution != null
    && piece == if n.solution.errorMsg == null then [n.solution] else [n.solution] + [n.solution.errorMsg]
  }

  /** One node solved, and what that obtained recorded. */
  method SolveNode(node: UnsolvedEq, heap: Heap) returns (defined: bool, ghost piece: seq<object>)
    modifies node`solution, heap
    ensures defined <==> !IsUndefined(node.Value())
    ensures node.solution != null && fresh(node.solution)
    ensures node.solution.errorMsg != null ==> fresh(node.solution.errorMsg)
    ensures IsOf(node.solution, node.Value())
    ensures defined ==> node.solution.Verdict() == VerdictOn(node.Value())
    ensures Obtained(node, piece) && NewTo(old(heap.obtained), old(heap.freed), piece)
    ensures heap.obtained == old(heap.obtained) + piece && heap.freed == old(heap.freed)
  {
    hide Operand, Opcode, Id;
    var sol;
    sol, defined := Calculation.GetEquation(Id(node.eqId), Operand(node.left), Opcode(node.opt), Operand(node.right));
    heap.Allocate(sol);
    piece := [sol];
    if sol.errorMsg != null {
      heap.Allocate(sol.errorMsg);
      piece := [sol] + [sol.errorMsg];
    }
    node.solution := sol;
  }

  // ----- what a solved list owns

  lemma OwnedHead(nodes: seq<UnsolvedEq>)
    requires nodes != []
    ensures Owned(nodes) == Own(nodes[0]) + Owned(nodes[1..])
  {
    assert Shares(nodes)[1..] == Shares(nodes[1..]);
  }

  lemma OwnIsObtained(n: UnsolvedEq, piece: seq<object>)
    requires Obtained(n, piece)
    ensures multiset(Own(n)) == multiset{n} + multiset(piece)
  {
  }

  /** Once each node has a solution, the list owns its nodes and what solving them obtained. */
  lemma {:induction false} OwnedSolved(nodes: seq<UnsolvedEq>, pieces: seq<seq<object>>)
    requires |pieces| == |nodes| && forall i :: 0 <= i < |nodes| ==> Obtained(nodes[i], pieces[i])
    ensures multiset(Owned(nodes)) == multiset(nodes) + multiset(Joined(pieces))
  {
    if nodes != [] {
      hide Owned, Own, Obtained;
      OwnedSolved(nodes[1..], pieces[1..]);
      OwnedHead(nodes);
      OwnIsObtained(nodes[0], pieces[0]);
      assert nodes == [nodes[0]] + nodes[1..];
      assert multiset(nodes) == multiset{nodes[0]} + multiset(nodes[1..]);
      assert multiset(Joined(pieces)) == multiset(pieces[0]) + multiset(Joined(pieces[1..]));
    }
  }

  // ----- all nodes

  /** The node has its solution, which obtained the piece. */
  ghost predicate IsSolved(n: UnsolvedEq, piece: seq<object>)
    reads n, n.solution
  {
    && Obtained(n, piece)
    && IsOf(n.solution, n.Value())
    && n.solution.Verdict() == VerdictOn(n.Value())
  }

  /** The first nodes are solved, as many as there are pieces. */
  ghost predicate Solved(nodes: seq<UnsolvedEq>, pieces: seq<seq<object>>)
    reads nodes, EquParser.Solutions(nodes)
  {
    |pieces| <= |nodes| && forall i :: 0 <= i < |pieces| ==> IsSolved(nodes[i], pieces[i])
  }

  /** One turn of the loop. */
  method SolveNext(ghost nodes: seq<UnsolvedEq>, node: UnsolvedEq, heap: Heap, ghost pieces: seq<seq<object>>)
    returns (defined: bool, ghost piece: seq<object>)
    requires |pieces| < |nodes| && node == nodes[|pieces|] && Solved(nodes, pieces)
    requires forall i, k :: 0 <= i < k < |nodes| ==> nodes[i] != nodes[k]
    modifies node`solution, heap
    ensures defined <==> !IsUndefined(node.Value())
    ensures defined ==> Solved(nodes, pieces + [piece])
    ensures NewTo(old(heap.obtained), old(heap.freed), piece)
    ensures heap.obtained == old(heap.obtained) + piece && heap.freed == old(heap.freed)
  {
    hide IsUndefined, VerdictOn, NewTo, Obtained, IsOf;
    defined, piece := SolveNode(node, heap);
    forall i | 0 <= i < |pieces| ensures IsSolved(nodes[i], pieces[i]) {
      assert old(IsSolved(nodes[i], pieces[i]));
    }
  }

  /** The nodes hold these equations. */
  ghost predicate Hold(nodes: seq<UnsolvedEq>, values: seq<EquFormat.Equation>)
    reads nodes`eqId, nodes`flags, nodes`left, nodes`opt, nodes`right
  {
    |values| == |nodes| && forall i :: 0 <= i < |nodes| ==> nodes[i].Value() == values[i]
  }

  /** The first k equations are defined. */
  ghost predicate DefinedUpTo(values: seq<EquFormat.Equation>, k: nat) {
    k <= |values| && forall i :: 0 <= i < k ==> !IsUndefined(values[i])
  }

  lemma OneMoreDefined(values: seq<EquFormat.Equation>, k: nat)
    requires DefinedUpTo(values, k) && k < |values|
    ensures !IsUndefined(values[k]) ==> DefinedUpTo(values, k + 1)
    ensures IsUndefined(values[k]) ==> exists e :: e in values && IsUndefined(e)
  {
    assert values[k] in values;
  }

  /** Since a time when this had been obtained and freed, the pieces were obtained and nothing was freed. */
  ghost predicate Made(obtained: seq<object>, freed: seq<object>, heap: Heap, pieces: seq<seq<object>>)
    reads heap
  {
    && heap.obtained == obtained + Joined(pieces) && heap.freed == freed
    && NewTo(obtained, freed, Joined(pieces))
  }

  lemma MadeMore(obtained: seq<object>, freed: seq<object>, heap: Heap, pieces: seq<seq<object>>, piece: seq<object>)
    requires NewTo(obtained, freed, Joined(pieces)) && NewTo(obtained + Joined(pieces), freed, piece)
    requires heap.obtained == obtained + Joined(pieces) + piece && heap.freed == freed
    ensures Made(obtained, freed, heap, pieces + [piece])
  {
    JoinedAppend(pieces, piece);
    NewToGrows(obtained, freed, Joined(pieces), piece);
  }

  /** Node k of a list and the node after it. */
  lemma NodeAt(eqs: Equations, k: nat)
    requires eqs.Valid() && k < |eqs.nodes|
    ensures eqs.nodes[k].next == if k + 1 == |eqs.nodes| then null else eqs.nodes[k + 1]
  {
  }

  /** The next node of the list gets its solution. */
  method SolveTurn(eqs: Equations, node: UnsolvedEq, heap: Heap, ghost obtained: seq<object>, ghost freed: seq<object>,
                   ghost pieces: seq<seq<object>>) returns (defined: bool, ghost piece: seq<object>)
    requires eqs.Valid() && |pieces| < |eqs.nodes| && node == eqs.nodes[|pieces|]
    requires Solved(eqs.nodes, pieces) && Made(obtained, freed, heap, pieces)
    modifies node`solution, heap
    ensures defined <==> !IsUndefined(node.Value())
    ensures eqs.Valid() && node.Value() == old(node.Value())
    ensures defined ==> Solved(eqs.nodes, pieces + [piece]) && Made(obtained, freed, heap, pieces + [piece])
  {
    hide IsUndefined, VerdictOn, NewTo, Joined, Solved;
    defined, piece := SolveNext(eqs.nodes, node, heap, pieces);
    MadeMore(obtained, freed, heap, pieces, piece);
  }

  /** How matters stand before the first turn. */
  lemma BeforeFirstTurn(nodes: seq<UnsolvedEq>, heap: Heap)
    ensures Hold(nodes, Values(nodes)) && DefinedUpTo(Values(nodes), 0)
    ensures Solved(nodes, []) && Made(heap.obtained, heap.freed, heap, [])
  {
    assert heap.obtained + [] == heap.obtained;
  }

  lemma AllDefined(values: seq<EquFormat.Equation>)
    requires DefinedUpTo(values, |values|)
    ensures forall e :: e in values ==> !IsUndefined(e)
  {
  }

  lemma ValueAt(nodes: seq<UnsolvedEq>, values: seq<EquFormat.Equation>, k: nat)
    requires Hold(nodes, values) && k < |nodes|
    ensures |values| == |nodes| && nodes[k].Value() == values[k]
  {
  }

  /** Each node of the list gets its solution, in list order. */
  method SolveAll(eqs: Equations, heap: Heap) returns (defined: bool, ghost pieces: seq<seq<object>>)
    requires eqs.Valid()
    modifies heap, eqs.nodes`solution
    ensures defined <==> forall e :: e in old(Values(eqs.nodes)) ==> !IsUndefined(e)
    ensures eqs.Valid()
    ensures defined ==> |pieces| == |eqs.nodes| && Solved(eqs.nodes, pieces)
    ensures defined ==> Made(old(heap.obtained), old(heap.freed), heap, pieces)
  {
    hide IsUndefined, Values, Hold, Solved, Made, DefinedUpTo;
    var node := eqs.eqs;
    ghost var nodes, values := eqs.nodes, Values(eqs.nodes);
    ghost var obtained, freed := heap.obtained, heap.freed;
    pieces := [];
    BeforeFirstTurn(nodes, heap);
    while node != null
      invariant eqs.Valid() && eqs.nodes == nodes && |pieces| <= |nodes| == |values|
      invariant node == (if |pieces| == |nodes| then null else nodes[|pieces|])
      invariant Hold(nodes, values) && DefinedUpTo(values, |pieces|)
      invariant Solved(nodes, pieces) && Made(obtained, freed, heap, pieces)
      decreases |nodes| - |pieces|
    {
      NodeAt(eqs, |pieces|);
      ValueAt(nodes, values, |pieces|);
      OneMoreDefined(values, |pieces|);
      hide Equations.Valid;
      ghost var piece;
      defined, piece := SolveTurn(eqs, node, heap, obtained, freed, pieces);
      if !defined {
        return;
      }
      pieces := pieces + [piece];
      node := node.next;
    }
    AllDefined(values);
    return true, pieces;
  }

  // ----- parse, solve, free

  /** What is freed once all nodes are solved is what was obtained for them. */
  lemma SolvedBag(eqs: Equations, pieces: seq<seq<object>>, nodes: seq<object>, owner: seq<object>)
    requires |pieces| == |eqs.nodes| && Solved(eqs.nodes, pieces) && nodes == eqs.nodes && owner == [eqs]
    ensures multiset(Owned(eqs.nodes) + owner) == multiset(owner + nodes + Joined(pieces))
  {
    hide Owned, Joined;
    forall i | 0 <= i < |pieces| ensures Obtained(eqs.nodes[i], pieces[i]) {
      assert IsSolved(eqs.nodes[i], pieces[i]);
    }
    OwnedSolved(eqs.nodes, pieces);
    assert multiset(nodes) == multiset(eqs.nodes);
  }

  /** A solved list can be freed. */
  lemma SolvedCanBeFreed(eqs: Equations, heap: Heap, obtained: seq<object>, pieces: seq<seq<object>>)
    requires eqs.Valid() && |pieces| == |eqs.nodes| && Solved(eqs.nodes, pieces)
    requires Made(obtained, heap.freed, heap, pieces)
    requires eqs in obtained && eqs !in heap.freed
    requires forall n :: n in eqs.nodes ==> n in obtained && n !in heap.freed
    ensures heap.CanFree(Owned(eqs.nodes) + [eqs])
  {
    hide Owned, Joined, Solved;
    var nodes: seq<object> := eqs.nodes;
    var owner: seq<object> := [eqs];
    DistinctPositions(owner + nodes);
    DistinctConcat(owner + nodes, Joined(pieces));
    SolvedBag(eqs, pieces, nodes, owner);
    DistinctReordered(owner + nodes + Joined(pieces), Owned(eqs.nodes) + owner);
  }

  /** A parsed list is solved and freed: with what solving obtained, everything it is made of is gone. */
  method SolveAndFree(eqs: Equations, heap: Heap) returns (defined: bool, ghost made: seq<object>)
    requires Building(eqs, heap)
    modifies heap, eqs.nodes`solution
    ensures defined <==> forall e :: e in old(Values(eqs.nodes)) ==> !IsUndefined(e)
    ensures defined ==> heap.obtained == old(heap.obtained) + made
    ensures defined ==>
              && old(heap.freed) <= heap.freed
              && multiset(heap.freed[|old(heap.freed)|..]) == old(multiset{eqs} + multiset(eqs.nodes)) + multiset(made)
  {
    hide Owned, Joined, Solved, IsUndefined, Values;
    ghost var pieces;
    defined, pieces := SolveAll(eqs, heap);
    if !defined {
      return false, [];
    }
    made := Joined(pieces);
    ghost var owner: seq<object> := [eqs];
    SolvedCanBeFreed(eqs, heap, old(heap.obtained), pieces);
    SolvedBag(eqs, pieces, eqs.nodes, owner);
    ghost var gone := Owned(eqs.nodes) + owner;
    hide Made, Freeable, NewTo;
    FreeEquation(eqs, heap);
    assert heap.freed[|old(heap.freed)|..] == gone;
  }

  /** After a parse that began at the given record of allocations, solving and freeing the list restores the
      balance. */
  method FinishParsed(eqs: Equations, heap: Heap, ghost obtained: seq<object>, ghost freed: seq<object>)
    returns (defined: bool)
    requires Building(eqs, heap)
    requires heap.obtained == obtained + [eqs] + eqs.nodes && heap.freed == freed
    modifies heap, eqs.nodes`solution
    ensures defined <==> forall e :: e in old(Values(eqs.nodes)) ==> !IsUndefined(e)
    ensures defined ==> Balanced(obtained, heap.obtained, freed, heap.freed)
  {
    hide Building, IsUndefined, Balanced, Values;
    ghost var nodes: seq<object> := eqs.nodes;
    ghost var owner: seq<object> := [eqs];
    ghost var made;
    defined, made := SolveAndFree(eqs, heap);
    if defined {
      ghost var gone := heap.freed[|freed|..];
      BalancedBags(obtained, owner + nodes + made, freed, gone);
      assert heap.freed == freed + gone;
      assert heap.obtained == obtained + (owner + nodes + made);
    }
  }

  lemma AcceptedIsParsed(data: seq<byte>, p: nat)
    ensures EquFormat.Parse(data, p).Some? <==> EquFormat.Accepts(data, p)
  {
  }

  /** `parse_stream`, `get_equation_struct` for each equation, `free_equation`: every allocation is undone. */
  method ParseSolveAndFree(fd: Stream, heap: Heap) returns (defined: bool, accepted: bool)
    modifies fd, heap
    ensures defined <==>
            && (!EquFormat.MagicAt(fd.data, old(fd.pos)) || EquFormat.CounterSuffices(fd.data, old(fd.pos)))
            && var file := EquFormat.Parse(fd.data, old(fd.pos));
               file.Some? ==> forall e :: e in file.value.equations ==> !IsUndefined(e)
    ensures defined ==> (accepted <==> EquFormat.Accepts(fd.data, old(fd.pos)))
    ensures defined ==> Undone(heap)
  {
    hide Building, IsUndefined, Balanced, Values, EquFormat.MagicAt, EquFormat.CounterSuffices, EquFormat.Accepts;
    AcceptedIsParsed(fd.data, fd.pos);
    hide EquFormat.Parse;
    var eqs;
    defined, eqs := ParseStream(fd, heap);
    if !defined || eqs == null {
      return defined, false;
    }
    forall i | 0 <= i < |eqs.nodes| ensures fresh(eqs.nodes[i]) {
      assert eqs.nodes[i] in eqs.nodes;
    }
    defined := FinishParsed(eqs, heap, old(heap.obtained), old(heap.freed));
    accepted := true;
  }
}
