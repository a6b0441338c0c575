/** `parse_stream` and `free_equation`: the parser that builds a linked list of equations. */
module EquParser {
  import opened Wrappers
  import opened ByteOrder
  import opened Streams
  import opened Memory
  import opened EquFormat
  import opened Sequences
  import Calculation

  class UnsolvedEq {
    var eqId: bv32
    var flags: byte
    var left: bv64
    var opt: byte
    var right: bv64
    var next: UnsolvedEq?
    var solution: Calculation.Solution?

    /** `calloc`: every field zero. */
    constructor ()
      ensures next == null && solution == null
    {
      eqId, flags, left, opt, right := 0, 0, 0, 0, 0;
      next, solution := null, null;
    }

    function Value(): Equation
      reads `eqId, `flags, `left, `opt, `right
    {
      Equation(eqId, flags, left, opt, right)
    }
  }

  class Equations {
    var magicId: bv32
    var fileId: bv64
    var numberOfEq: bv64
    var flags: byte
    var offset: bv32
    var numOfOpts: bv16
    var eqs: UnsolvedEq?
    var tail: UnsolvedEq?

    ghost var nodes: seq<UnsolvedEq>  // the list from eqs

    constructor ()
      ensures Valid() && nodes == []
    {
      magicId, fileId, numberOfEq, flags, offset, numOfOpts := 0, 0, 0, 0, 0, 0;
      eqs, tail := null, null;
      nodes := [];
    }

    /** The list from eqs is `nodes`: without a cycle, ended by NULL, and tail is its last node. */
    ghost predicate Valid()
      reads `eqs, `tail, `nodes, nodes`next
    {
      && (forall i, k :: 0 <= i < k < |nodes| ==> nodes[i] != nodes[k])
      && eqs == (if nodes == [] then null else nodes[0])
      && tail == (if nodes == [] then null else nodes[|nodes| - 1])
      && (forall i {:trigger nodes[i].next} :: 0 <= i < |nodes| - 1 ==> nodes[i].next == nodes[i + 1])
      && (nodes != [] ==> nodes[|nodes| - 1].next == null)
    }

    function HeaderValue(): Header
      reads this
    {
      Header(fileId, numberOfEq, flags, offset, numOfOpts)
    }

    /** The node that an append writes through. */
    ghost function Last(): set<UnsolvedEq>
      reads `tail
    {
      if tail == null then {} else {tail}
    }

    /** Lines 134-143: a node goes to the end of the list. */
    method Attach(node: UnsolvedEq)
      requires Valid() && node !in nodes && node.next == null
      modifies `eqs, `tail, `nodes, Last()`next
      ensures Valid() && nodes == old(nodes) + [node] && tail == node
    {
      if tail == null {
        eqs := node;
        tail := node;
      } else {
        tail.next := node;
        tail := node;
      }
      nodes := nodes + [node];
    }
  }

  /** What `free_equation_struct` frees: the message, if there is one, and the solution. */
  ghost function Parts(solution: Calculation.Solution): seq<object>
    reads solution
  {
    if solution.errorMsg == null then [solution] else [solution.errorMsg, solution]
  }

  /** What `free_equation` frees for one node, its solution first. */
  ghost function Own(node: UnsolvedEq): seq<object>
    reads node, node.solution
  {
    (if node.solution == null then [] else Parts(node.solution)) + [node]
  }

  /** The solutions of a list of nodes. */
  ghost function Solutions(nodes: seq<UnsolvedEq>): set<Calculation.Solution>
    reads nodes`solution
  {
    set n | n in nodes && n.solution != null :: n.solution
  }

  /** What it frees for each node of a list. */
  ghost function Shares(nodes: seq<UnsolvedEq>): (r: seq<seq<object>>)
    reads nodes, Solutions(nodes)
    ensures |r| == |nodes|
    ensures forall i :: 0 <= i < |nodes| ==> r[i] == Own(nodes[i])
  {
    if nodes == [] then [] else [Own(nodes[0])] + Shares(nodes[1..])
  }

  /** What it frees for all of them, in order. */
  ghost function Owned(nodes: seq<UnsolvedEq>): seq<object>
    reads nodes, Solutions(nodes)
  {
    Joined(Shares(nodes))
  }

  /** `free_equation_struct`, lines 65-72 of calculation.c. */
  method FreeSolution(solution: Calculation.Solution, heap: Heap)
    requires heap.CanFree(Parts(solution))
    modifies heap
    ensures heap.freed == old(heap.freed) + Parts(solution) && heap.obtained == old(heap.obtained)
    ensures solution.errorMsg == null ==> heap.freed == old(heap.freed) + [solution]
    ensures solution.errorMsg != null ==> heap.freed == old(heap.freed) + [solution.errorMsg] + [solution]
  {
    if solution.errorMsg != null {
      ghost var self: object := solution;
      assert multiset(Parts(solution))[self] == 1;
      heap.Free(solution.errorMsg);
    }
    heap.Free(solution);
  }

  /** Lines 193-199: one node and its solution. */
  method FreeNode(node: UnsolvedEq, heap: Heap)
    requires heap.CanFree(Own(node))
    modifies heap
    ensures heap.freed == old(heap.freed) + Own(node) && heap.obtained == old(heap.obtained)
    ensures node.solution == null ==> heap.freed == old(heap.freed) + [node]
    ensures node.solution != null && node.solution.errorMsg == null ==>
              heap.freed == old(heap.freed) + [node.solution] + [node]
    ensures node.solution != null && node.solution.errorMsg != null ==>
              heap.freed == old(heap.freed) + [node.solution.errorMsg] + [node.solution] + [node]
  {
    if node.solution != null {
      FreeableSplit(heap.obtained, heap.freed, Parts(node.solution), [node]);
      FreeSolution(node.solution, heap);
    }
    heap.Free(node);
  }

  /** Lines 186-201: the walk down the list. Piece i is what is freed for node i. */
  method FreeNodes(eq: Equations, heap: Heap, ghost pieces: seq<seq<object>>)
    requires eq.Valid() && Freeable(heap.obtained, heap.freed, Joined(pieces))
    requires |eq.nodes| <= |pieces|
    requires forall i :: 0 <= i < |eq.nodes| ==> pieces[i] == Own(eq.nodes[i])
    modifies heap
    ensures heap.freed == old(heap.freed) + Joined(pieces[..|eq.nodes|]) && heap.obtained == old(heap.obtained)
  {
    hide Own, Freeable;
    var node := eq.eqs;
    ghost var k := 0;
    assert pieces[..0] == [];
    while node != null
      invariant 0 <= k <= |eq.nodes|
      invariant node == (if k == |eq.nodes| then null else eq.nodes[k])
      invariant heap.freed == old(heap.freed) + Joined(pieces[..k]) && heap.obtained == old(heap.obtained)
      decreases |eq.nodes| - k
    {
      FreeableNext(heap.obtained, old(heap.freed), pieces, k);
      var freeTmp := node;
      node := node.next;
      FreeNode(freeTmp, heap);
      k := k + 1;
    }
  }

  /** The object o belongs to the node n: the node itself, its solution, or the solution's message. */
  ghost predicate BelongsTo(o: object, n: UnsolvedEq)
    reads n, n.solution
  {
    || o == n
    || (n.solution != null && o == n.solution)
    || (n.solution != null && n.solution.errorMsg != null && o == n.solution.errorMsg)
  }

  /** What a list owns is what belongs to its nodes. */
  lemma OwnedBelongs(nodes: seq<UnsolvedEq>, o: object)
    ensures o in Owned(nodes) <==> exists n :: n in nodes && BelongsTo(o, n)
  {
    var shares := Shares(nodes);
    InJoined(shares, o);
    if k :| 0 <= k < |shares| && o in shares[k] {
      assert o in Own(nodes[k]) && nodes[k] in nodes;
      assert BelongsTo(o, nodes[k]);
    }
    if n :| n in nodes && BelongsTo(o, n) {
      var k :| 0 <= k < |nodes| && nodes[k] == n;
      assert shares[k] == Own(nodes[k]) && o in shares[k];
    }
  }

  /** Lines 184-203, node by node and then the owner. */
  method FreeInOrder(eq: Equations, heap: Heap)
    requires eq.Valid() && heap.CanFree(Owned(eq.nodes) + [eq])
    modifies heap
    ensures heap.freed == old(heap.freed + Owned(eq.nodes)) + [eq] && heap.obtained == old(heap.obtained)
  {
    ghost var owner: seq<object> := [eq];
    ghost var shares := Shares(eq.nodes);
    ghost var pieces := shares + [owner];
    JoinedAppend(shares, owner);
    assert pieces[..|shares|] == shares;
    FreeableNext(heap.obtained, heap.freed, pieces, |shares|);
    hide Joined, Shares, Own;
    FreeNodes(eq, heap, pieces);
    heap.Free(eq);
  }

  /** Lines 184-203: every node, its solution, the solution's message, and the owner are freed, each exactly
      once, and nothing else is. */
  method FreeEquation(eq: Equations, heap: Heap)
    requires eq.Valid() && heap.CanFree(Owned(eq.nodes) + [eq])
    modifies heap
    ensures heap.freed == old(heap.freed + Owned(eq.nodes)) + [eq] && heap.obtained == old(heap.obtained)
    ensures var gone := multiset(heap.freed[|old(heap.freed)|..]);
            && gone[eq] == 1
            && (forall n :: n in eq.nodes ==> gone[n] == 1)
            && (forall n :: n in eq.nodes && n.solution != null ==> gone[n.solution] == 1)
            && (forall n :: n in eq.nodes && n.solution != null && n.solution.errorMsg != null ==>
                  gone[n.solution.errorMsg] == 1)
            && (forall o :: o in gone ==> o == eq || exists n :: n in eq.nodes && BelongsTo(o, n))
  {
    hide Owned, Freeable, BelongsTo;
    ghost var gone := Owned(eq.nodes) + [eq];
    Freed(heap, gone);
    EachOnce(eq, gone);
    FreeInOrder(eq, heap);
    assert heap.freed[|old(heap.freed)|..] == gone;
  }

  lemma Freed(heap: Heap, gone: seq<object>)
    requires heap.CanFree(gone)
    ensures Distinct(gone)
  {
  }

  lemma EachOnce(eq: Equations, gone: seq<object>)
    requires gone == Owned(eq.nodes) + [eq] && Distinct(gone)
    ensures multiset(gone)[eq] == 1
    ensures forall n :: n in eq.nodes ==> multiset(gone)[n] == 1
    ensures forall n :: n in eq.nodes && n.solution != null ==> multiset(gone)[n.solution] == 1
    ensures forall n :: n in eq.nodes && n.solution != null && n.solution.errorMsg != null ==>
                      multiset(gone)[n.solution.errorMsg] == 1
    ensures forall o :: o in multiset(gone) ==> o == eq || exists n :: n in eq.nodes && BelongsTo(o, n)
  {
    hide Owned;
    assert eq in gone;
    forall n: UnsolvedEq | n in eq.nodes
      ensures multiset(gone)[n] == 1
      ensures n.solution != null ==> multiset(gone)[n.solution] == 1
      ensures n.solution != null && n.solution.errorMsg != null ==> multiset(gone)[n.solution.errorMsg] == 1
    {
      BelongingIsGone(eq, gone, n, n);
      if n.solution != null {
        BelongingIsGone(eq, gone, n, n.solution);
        if n.solution.errorMsg != null {
          BelongingIsGone(eq, gone, n, n.solution.errorMsg);
        }
      }
    }
    forall o | o in multiset(gone) ensures o == eq || exists n :: n in eq.nodes && BelongsTo(o, n) {
      assert o in gone;
      OwnedBelongs(eq.nodes, o);
    }
  }

  lemma BelongingIsGone(eq: Equations, gone: seq<object>, n: UnsolvedEq, o: object)
    requires gone == Owned(eq.nodes) + [eq] && Distinct(gone) && n in eq.nodes && BelongsTo(o, n)
    ensures multiset(gone)[o] == 1
  {
    hide Owned;
    OwnedBelongs(eq.nodes, o);
    assert o in gone;
  }

  // ----- the parser

  /** The equations held by a list of nodes. */
  ghost function Values(nodes: seq<UnsolvedEq>): (r: seq<Equation>)
    reads nodes
    ensures |r| == |nodes|
    ensures forall i :: 0 <= i < |nodes| ==> r[i] == nodes[i].Value()
  {
    if nodes == [] then [] else [nodes[0].Value()] + Values(nodes[1..])
  }

  /** A well-formed list as the parser leaves it: no node has a solution yet, and nothing of it has been
      freed. */
  ghost predicate Building(eqs: Equations, heap: Heap)
    reads eqs`eqs, eqs`tail, eqs`nodes, eqs.nodes`next, eqs.nodes`solution, heap
  {
    && eqs.Valid()
    && heap.Live(eqs)
    && forall n :: n in eqs.nodes ==> n.solution == null && heap.Live(n)
  }

  /** Nodes without solutions own themselves only. */
  lemma {:induction false} OwnedUnsolved(nodes: seq<UnsolvedEq>)
    requires forall n :: n in nodes ==> n.solution == null
    ensures Owned(nodes) == nodes
  {
    if nodes != [] {
      OwnedUnsolved(nodes[1..]);
      assert Shares(nodes)[1..] == Shares(nodes[1..]);
      assert Own(nodes[0]) == [nodes[0]];
    }
  }

  lemma AllFreeable(nodes: seq<object>, owner: object, heap: Heap)
    requires forall i, k :: 0 <= i < k < |nodes| ==> nodes[i] != nodes[k]
    requires owner !in nodes && heap.Live(owner) && forall n :: n in nodes ==> heap.Live(n)
    ensures heap.CanFree(nodes + [owner])
  {
    DistinctPositions(nodes + [owner]);
  }

  /** What a failed `read_stream` does before it returns -1: the whole list is freed. */
  method Abandon(eqs: Equations, heap: Heap)
    requires Building(eqs, heap)
    modifies heap
    ensures heap.freed == old(heap.freed) + eqs.nodes + [eqs] && heap.obtained == old(heap.obtained)
  {
    OwnedUnsolved(eqs.nodes);
    AllFreeable(eqs.nodes, eqs, heap);
    FreeInOrder(eqs, heap);
  }

  lemma SliceOfOne(data: seq<byte>, p: nat)
    requires p < |data|
    ensures data[p..p + 1][0] == data[p]
  {
  }

  /** Lines 93-121: the header after the magic. */
  method ReadHeaderFields(fd: Stream, eqs: Equations) returns (ok: bool)
    requires fd.pos >= 4
    modifies fd, eqs`fileId, eqs`numberOfEq, eqs`flags, eqs`offset, eqs`numOfOpts
    ensures ok <==> old(fd.pos) + 23 <= |fd.data|
    ensures ok ==> eqs.HeaderValue() == HeaderAt(fd.data, old(fd.pos) - 4) && fd.pos == old(fd.pos) + 23
  {
    hide Word16, Word32, Word64;
    var res := ReadStream(fd, 8);
    if res == None {
      return false;
    }
    eqs.fileId := Word64(res.value);
    res := ReadStream(fd, 8);
    if res == None {
      return false;
    }
    eqs.numberOfEq := Word64(res.value);
    res := ReadStream(fd, 1);
    if res == None {
      return false;
    }
    SliceOfOne(fd.data, fd.pos - 1);
    eqs.flags := res.value[0];
    res := ReadStream(fd, 4);
    if res == None {
      return false;
    }
    eqs.offset := Word32(res.value);
    res := ReadStream(fd, 2);
    if res == None {
      return false;
    }
    eqs.numOfOpts := Word16(res.value);
    return true;
  }

  /** Lines 147-178: the five fields of a record, then the seek over its padding. */
  method ReadRecord(fd: Stream, node: UnsolvedEq) returns (ok: bool)
    modifies fd, node`eqId, node`flags, node`left, node`opt, node`right
    ensures ok <==> old(fd.pos) + RECORD_SIZE - PADDING_SIZE <= |fd.data|
    ensures ok ==> node.Value() == EquationAt(fd.data, old(fd.pos)) && fd.pos == old(fd.pos) + RECORD_SIZE
  {
    hide Word32, Word64;
    var res := ReadStream(fd, 4);
    if res == None {
      return false;
    }
    node.eqId := Word32(res.value);
    res := ReadStream(fd, 1);
    if res == None {
      return false;
    }
    SliceOfOne(fd.data, fd.pos - 1);
    node.flags := res.value[0];
    res := ReadStream(fd, 8);
    if res == None {
      return false;
    }
    node.left := Word64(res.value);
    res := ReadStream(fd, 1);
    if res == None {
      return false;
    }
    SliceOfOne(fd.data, fd.pos - 1);
    node.opt := res.value[0];
    res := ReadStream(fd, 8);
    if res == None {
      return false;
    }
    node.right := Word64(res.value);
    fd.Skip(PADDING_SIZE);
    return true;
  }

  /** The nodes hold the records that lie every 32 bytes from p on, each complete but for its padding. */
  ghost predicate Loaded(nodes: seq<UnsolvedEq>, data: seq<byte>, p: nat)
    reads nodes`eqId, nodes`flags, nodes`left, nodes`opt, nodes`right
  {
    && (nodes != [] ==> p + RECORD_SIZE * |nodes| - PADDING_SIZE <= |data|)
    && (forall k {:trigger nodes[k]} :: 0 <= k < |nodes| ==>
          nodes[k].Value() == EquationAt(data, p + RECORD_SIZE * k))
  }

  /** One more record, and the others as they were. */
  lemma LoadedNext(nodes: seq<UnsolvedEq>, node: UnsolvedEq, data: seq<byte>, p: nat)
    requires Loaded(nodes, data, p)
    requires p + RECORD_SIZE * (|nodes| + 1) - PADDING_SIZE <= |data|
    requires node.Value() == EquationAt(data, p + RECORD_SIZE * |nodes|)
    ensures Loaded(nodes + [node], data, p)
  {
    hide EquationAt;
  }

  /** Lines 125-178: a node attached at the tail and filled in, or the whole list freed. */
  method AddRecord(fd: Stream, eqs: Equations, heap: Heap, ghost p: nat) returns (ok: bool, ghost node: UnsolvedEq)
    requires Building(eqs, heap) && Loaded(eqs.nodes, fd.data, p)
    requires fd.pos == p + RECORD_SIZE * |eqs.nodes|
    modifies fd, heap, eqs`eqs, eqs`tail, eqs`nodes, eqs.Last()`next
    ensures ok <==> old(fd.pos) + RECORD_SIZE - PADDING_SIZE <= |fd.data|
    ensures fresh(node) && eqs.nodes == old(eqs.nodes) + [node] && eqs.tail == node
    ensures ok ==>
              && Building(eqs, heap) && Loaded(eqs.nodes, fd.data, p)
              && fd.pos == p + RECORD_SIZE * |eqs.nodes|
              && heap.freed == old(heap.freed)
    ensures !ok ==> heap.freed == old(heap.freed) + eqs.nodes + [eqs]
    ensures heap.obtained == old(heap.obtained) + [node]
  {
    hide Loaded, EquationAt, Distinct;
    var unEq := new UnsolvedEq();
    node := unEq;
    heap.Allocate(unEq);
    eqs.Attach(unEq);
    assert Building(eqs, heap);
    hide Building;
    ok := ReadRecord(fd, unEq);
    if ok {
      LoadedNext(old(eqs.nodes), unEq, fd.data, p);
    } else {
      Abandon(eqs, heap);
    }
  }

  /** Lines 123-179: record after record, at 32 bytes each, for as many as the header announces. The loop is
      not defined if its int counter has to go beyond INT_MAX. */
  method ReadRecords(fd: Stream, eqs: Equations, heap: Heap, n: nat) returns (defined: bool, ok: bool)
    requires Building(eqs, heap) && eqs.nodes == []
    modifies fd, heap, eqs`eqs, eqs`tail, eqs`nodes
    ensures defined <==> n <= INT_MAX || |fd.data| < old(fd.pos) + RECORD_SIZE * (INT_MAX + 1) - PADDING_SIZE
    ensures defined ==> (ok <==> n == 0 || old(fd.pos) + RECORD_SIZE * n - PADDING_SIZE <= |fd.data|)
    ensures !defined ==> !ok
    ensures forall n :: n in eqs.nodes ==> fresh(n)
    ensures ok ==>
              && Building(eqs, heap) && Loaded(eqs.nodes, fd.data, old(fd.pos)) && |eqs.nodes| == n
              && fd.pos == old(fd.pos) + RECORD_SIZE * n
              && heap.freed == old(heap.freed)
    ensures defined && !ok ==> heap.freed == old(heap.freed) + eqs.nodes + [eqs]
    ensures heap.obtained == old(heap.obtained) + eqs.nodes
  {
    var i := 0;
    while i < n
      invariant 0 <= i <= n && i <= INT_MAX
      invariant Building(eqs, heap) && |eqs.nodes| == i
      invariant Loaded(eqs.nodes, fd.data, old(fd.pos))
      invariant fd.pos == old(fd.pos) + RECORD_SIZE * i
      invariant i > 0 ==> fd.pos - PADDING_SIZE <= |fd.data|
      invariant forall n :: n in eqs.nodes ==> fresh(n)
      invariant eqs.tail != null ==> fresh(eqs.tail)
      invariant heap.obtained == old(heap.obtained) + eqs.nodes && heap.freed == old(heap.freed)
    {
      hide Loaded, Building;
      ghost var node;
      ok, node := AddRecord(fd, eqs, heap, old(fd.pos));
      if !ok {
        return true, false;
      }
      if i == INT_MAX {
        return false, false;
      }
      i := i + 1;
    }
    return true, true;
  }

  /** Everything obtained since the old state has been freed since, each object once, and nothing else. */
  twostate predicate Undone(heap: Heap)
    reads heap
  {
    Balanced(old(heap.obtained), heap.obtained, old(heap.freed), heap.freed)
  }

  /** Once all announced records are loaded, the list is the parsed file. */
  lemma LoadedIsParsed(nodes: seq<UnsolvedEq>, data: seq<byte>, p: nat)
    requires MagicAt(data, p) && p + HEADER_SIZE <= |data|
    requires Loaded(nodes, data, p + HEADER_SIZE) && |nodes| == Announced(data, p)
    ensures Parse(data, p) == Some(EquFile(HeaderAt(data, p), Values(nodes)))
  {
    hide HeaderAt, EquationAt;
    assert Values(nodes) == EquFormat.Equations(data, p, |nodes|);
  }

  /** Lines 79-81: a short read leaves the high bytes of the variable zero. */
  method ReadMagic(fd: Stream) returns (magicField: bv32)
    modifies fd
    ensures magicField == MAGIC_VALUE <==> MagicAt(fd.data, old(fd.pos))
    ensures MagicAt(fd.data, old(fd.pos)) ==> fd.pos == old(fd.pos) + 4
  {
    var bytes := fd.Read(4);
    magicField := Word32(bytes + seq(4 - |bytes|, i => 0));
    assert |bytes| == 4 ==> bytes + seq(4 - |bytes|, i => 0) == bytes;
  }

  /** Lines 79-121: the magic and the header, or NULL. */
  method ReadHead(fd: Stream, heap: Heap) returns (result: Equations?)
    modifies fd, heap
    ensures result != null <==> MagicAt(fd.data, old(fd.pos)) && old(fd.pos) + HEADER_SIZE <= |fd.data|
    ensures result != null ==>
              && fresh(result) && Building(result, heap) && result.nodes == []
              && result.HeaderValue() == HeaderAt(fd.data, old(fd.pos)) && result.magicId == MAGIC_VALUE
              && fd.pos == old(fd.pos) + HEADER_SIZE
              && heap.obtained == old(heap.obtained) + [result] && heap.freed == old(heap.freed)
    ensures result == null ==> Undone(heap)
  {
    hide HeaderAt, MagicAt;
    var magicField := ReadMagic(fd);
    if magicField != MAGIC_VALUE {
      return null;
    }
    var eqs := new Equations();
    heap.Allocate(eqs);
    eqs.magicId := magicField;
    var ok := ReadHeaderFields(fd, eqs);
    if !ok {
      Abandon(eqs, heap);
      PartsThenOwner(old(heap.obtained), old(heap.freed), eqs, []);
      return null;
    }
    return eqs;
  }

  /** Without a header there is nothing to accept and nothing to count. */
  lemma HeadDecides(data: seq<byte>, p: nat)
    requires !(MagicAt(data, p) && p + HEADER_SIZE <= |data|)
    ensures !Accepts(data, p) && (!MagicAt(data, p) || CounterSuffices(data, p))
  {
  }

  /** With one, the loop decides. */
  lemma LoopDecides(data: seq<byte>, p: nat, n: nat)
    requires MagicAt(data, p) && p + HEADER_SIZE <= |data| && Announced(data, p) == n
    ensures CounterSuffices(data, p) <==>
            n <= INT_MAX || |data| < p + HEADER_SIZE + RECORD_SIZE * (INT_MAX + 1) - PADDING_SIZE
    ensures Accepts(data, p) <==> n == 0 || p + HEADER_SIZE + RECORD_SIZE * n - PADDING_SIZE <= |data|
  {
    hide MagicAt, Announced;
  }

  /** Lines 77-182: the whole file as a list of equations, or NULL with every allocation undone. */
  method ParseStream(fd: Stream, heap: Heap) returns (defined: bool, result: Equations?)
    modifies fd, heap
    ensures defined <==> !MagicAt(fd.data, old(fd.pos)) || CounterSuffices(fd.data, old(fd.pos))
    ensures defined ==> (result != null <==> Accepts(fd.data, old(fd.pos)))
    ensures defined && result != null ==>
              && Building(result, heap) && fresh(result) && (forall n :: n in result.nodes ==> fresh(n))
              && Parse(fd.data, old(fd.pos)) == Some(EquFile(result.HeaderValue(), Values(result.nodes)))
              && result.magicId == MAGIC_VALUE
              && fd.pos == RecordStart(old(fd.pos), |result.nodes|)
              && heap.obtained == old(heap.obtained) + [result] + result.nodes
              && heap.freed == old(heap.freed)
    ensures defined && result == null ==> Undone(heap)
  {
    hide Building, Balanced, HeaderAt, MagicAt, Parse, Values, Loaded, EquationAt, Accepts, CounterSuffices;
    ghost var start := fd.pos;
    var eqs := ReadHead(fd, heap);
    if eqs == null {
      HeadDecides(fd.data, start);
      return true, null;
    }
    var n := eqs.numberOfEq as nat;
    assert n == Announced(fd.data, start);
    hide Announced;
    LoopDecides(fd.data, start, n);
    var ok;
    defined, ok := ReadRecords(fd, eqs, heap, n);
    if !ok {
      PartsThenOwner(old(heap.obtained), old(heap.freed), eqs, eqs.nodes);
      return defined, null;
    }
    LoadedIsParsed(eqs.nodes, fd.data, start);
    return true, eqs;
  }

  /** `parse_stream`, then `free_equation` on what it returned: every allocation is undone. */
  method ParseAndFree(fd: Stream, heap: Heap) returns (defined: bool, accepted: bool)
    modifies fd, heap
    ensures defined <==> !MagicAt(fd.data, old(fd.pos)) || CounterSuffices(fd.data, old(fd.pos))
    ensures defined ==> (accepted <==> Accepts(fd.data, old(fd.pos)))
    ensures defined ==> Undone(heap)
  {
    hide Accepts, MagicAt, CounterSuffices, Parse, Building, Balanced;
    var eqs;
    defined, eqs := ParseStream(fd, heap);
    if !defined || eqs == null {
      return defined, false;
    }
    Abandon(eqs, heap);
    PartsThenOwner(old(heap.obtained), old(heap.freed), eqs, eqs.nodes);
    return true, true;
  }
}
