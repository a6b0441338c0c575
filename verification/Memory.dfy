/** A record of what `malloc` and `free` have been asked to do. */
module Memory {
  import opened Sequences

  /** The objects are distinct, were obtained, and have not been freed. */
  ghost predicate Freeable(obtained: seq<object>, freed: seq<object>, objects: seq<object>) {
    Distinct(objects) && forall o :: o in objects ==> o in obtained && o !in freed
  }

  /** Once the pieces before it have been freed, piece k can be. */
  lemma FreeableNext(obtained: seq<object>, freed: seq<object>, pieces: seq<seq<object>>, k: nat)
    requires k < |pieces| && Freeable(obtained, freed, Joined(pieces))
    ensures Freeable(obtained, freed + Joined(pieces[..k]), pieces[k])
    ensures Joined(pieces[..k + 1]) == Joined(pieces[..k]) + pieces[k]
  {
    PieceIsNew(pieces, k);
  }

  /** What can be freed together can be freed in two parts. */
  lemma FreeableSplit(obtained: seq<object>, freed: seq<object>, first: seq<object>, rest: seq<object>)
    requires Freeable(obtained, freed, first + rest)
    ensures Freeable(obtained, freed, first)
    ensures Freeable(obtained, freed + first, rest)
  {
    var pieces := [first, rest];
    assert pieces[1..] == [rest];
    assert Joined([rest]) == rest;
    FreeableNext(obtained, freed, pieces, 0);
    FreeableNext(obtained, freed, pieces, 1);
    assert pieces[..0] == [] && pieces[..1] == [first];
    assert Joined([first]) == first;
  }

  /** From one point in time to another, exactly what was obtained was freed, each object once. */
  ghost predicate Balanced(obtained: seq<object>, obtained': seq<object>, freed: seq<object>, freed': seq<object>) {
    && obtained <= obtained'
    && freed <= freed'
    && multiset(freed'[|freed|..]) == multiset(obtained'[|obtained|..])
  }

  /** An owner obtained before its parts may be freed after them. */
  lemma PartsThenOwner(obtained: seq<object>, freed: seq<object>, owner: object, parts: seq<object>)
    ensures Balanced(obtained, obtained + [owner] + parts, freed, freed + parts + [owner])
  {
    assert (freed + parts + [owner])[|freed|..] == parts + [owner];
    assert (obtained + [owner] + parts)[|obtained|..] == [owner] + parts;
  }

  /** The objects are distinct, and neither obtained nor freed before. */
  ghost predicate NewTo(obtained: seq<object>, freed: seq<object>, made: seq<object>) {
    Distinct(made) && forall o :: o in made ==> o !in obtained && o !in freed
  }

  lemma NewToGrows(obtained: seq<object>, freed: seq<object>, made: seq<object>, more: seq<object>)
    requires NewTo(obtained, freed, made) && NewTo(obtained + made, freed, more)
    ensures NewTo(obtained, freed, made + more)
  {
    DistinctConcat(made, more);
  }

  lemma BalancedBags(obtained: seq<object>, extra: seq<object>, freed: seq<object>, gone: seq<object>)
    requires multiset(extra) == multiset(gone)
    ensures Balanced(obtained, obtained + extra, freed, freed + gone)
  {
    assert (freed + gone)[|freed|..] == gone;
    assert (obtained + extra)[|obtained|..] == extra;
  }

  class Heap {
    ghost var obtained: seq<object>  // every object returned by malloc, in order
    ghost var freed: seq<object>      // every object passed to free, in order

    constructor ()
      ensures obtained == [] && freed == []
    {
      obtained, freed := [], [];
    }

    ghost predicate Live(o: object)
      reads this
    {
      o in obtained && o !in freed
    }

    /** Each of the objects can be freed, one after the other. */
    ghost predicate CanFree(objects: seq<object>)
      reads this
    {
      Freeable(obtained, freed, objects)
    }

    ghost method Allocate(o: object)
      requires o !in obtained
      modifies this
      ensures obtained == old(obtained) + [o] && freed == old(freed)
    {
      obtained := obtained + [o];
    }

    /** Freeing twice, or freeing what was never allocated, is ruled out by the precondition. */
    ghost method Free(o: object)
      requires Live(o)
      modifies this
      ensures obtained == old(obtained) && freed == old(freed) + [o]
    {
      freed := freed + [o];
    }
  }
}
