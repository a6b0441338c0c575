/** Sequences of pieces laid end to end. */
module Sequences {
  function Joined<T>(pieces: seq<seq<T>>): seq<T> {
    if pieces == [] then [] else pieces[0] + Joined(pieces[1..])
  }

  lemma {:induction false} JoinedConcat<T>(a: seq<seq<T>>, b: seq<seq<T>>)
    ensures Joined(a + b) == Joined(a) + Joined(b)
  {
    if a == [] {
      assert a + b == b;
    } else {
      assert (a + b)[1..] == a[1..] + b;
      JoinedConcat(a[1..], b);
    }
  }

  lemma JoinedAppend<T>(pieces: seq<seq<T>>, piece: seq<T>)
    ensures Joined(pieces + [piece]) == Joined(pieces) + piece
  {
    JoinedConcat(pieces, [piece]);
    assert Joined([piece]) == piece;
  }

  lemma SubrangeOfSubrange<T>(s: seq<T>, from: nat, to: nat, i: nat, k: nat)
    requires from <= to <= |s| && i <= k <= to - from
    ensures s[from..to][i..k] == s[from + i..from + k]
  {
    var inner, outer := s[from..to][i..k], s[from + i..from + k];
    forall x | 0 <= x < k - i ensures inner[x] == outer[x] {
      assert inner[x] == s[from..to][i + x] == s[from + i + x];
    }
    assert inner == outer;
  }

  /** No element occurs twice. */
  ghost predicate Distinct<T>(s: seq<T>) {
    forall x :: x in s ==> multiset(s)[x] == 1
  }

  /** Whatever is in a piece is in the pieces joined, and the other way round. */
  lemma {:induction false} InJoined<T>(pieces: seq<seq<T>>, x: T)
    ensures x in Joined(pieces) <==> exists k :: 0 <= k < |pieces| && x in pieces[k]
  {
    if pieces != [] {
      InJoined(pieces[1..], x);
      if k :| 0 <= k < |pieces[1..]| && x in pieces[1..][k] {
        assert x in pieces[k + 1];
      }
      if k :| 0 <= k < |pieces| && x in pieces[k] {
        assert k == 0 || x in pieces[1..][k - 1];
      }
    }
  }

  lemma DistinctAppend<T>(s: seq<T>, x: T)
    requires Distinct(s) && x !in s
    ensures Distinct(s + [x])
  {
    forall y | y in s + [x] ensures multiset(s + [x])[y] == 1 {
      assert multiset(s + [x])[y] == multiset(s)[y] + multiset{x}[y];
    }
  }

  lemma DistinctConcat<T>(s: seq<T>, t: seq<T>)
    requires Distinct(s) && Distinct(t) && forall x :: x in t ==> x !in s
    ensures Distinct(s + t)
  {
    forall x | x in s + t ensures multiset(s + t)[x] == 1 {
      assert multiset(s + t)[x] == multiset(s)[x] + multiset(t)[x];
    }
  }

  lemma DistinctReordered<T>(s: seq<T>, t: seq<T>)
    requires Distinct(s) && multiset(s) == multiset(t)
    ensures Distinct(t) && forall x :: x in t <==> x in s
  {
    forall x ensures x in t <==> x in s {
      assert x in t <==> x in multiset(t);
      assert x in s <==> x in multiset(s);
    }
  }

  lemma DistinctIfCountedOnce(s: seq<nat>)
    requires forall x :: multiset(s)[x] <= 1
    ensures Distinct(s)
  {
    forall x | x in s ensures multiset(s)[x] == 1 {
      assert x in multiset(s);
    }
  }

  /** What is left of distinct elements without element i. */
  lemma DistinctWithout<T>(s: seq<T>, i: nat, rest: seq<T>)
    requires i < |s| && Distinct(s) && rest == s[..i] + s[i + 1..]
    ensures Distinct(rest) && forall x :: x in rest ==> x in s && x != s[i]
  {
    assert s == s[..i] + [s[i]] + s[i + 1..];
    forall x | x in rest ensures multiset(rest)[x] == 1 && x in s && x != s[i] {
      assert x in multiset(rest) && x in multiset(s);
      assert multiset(s)[x] == multiset(rest)[x] + multiset{s[i]}[x];
    }
  }

  /** A list of distinct numbers below n has at most n elements. */
  lemma {:induction false} DistinctBelow(s: seq<nat>, n: nat)
    requires Distinct(s)
    requires forall x :: x in s ==> x < n
    ensures |s| <= n
    decreases n
  {
    hide Distinct;
    assert s != [] ==> s[0] in s;
    if n == 0 {
    } else if n - 1 in s {
      var i :| 0 <= i < |s| && s[i] == n - 1;
      var rest := s[..i] + s[i + 1..];
      DistinctWithout(s, i, rest);
      DistinctBelow(rest, n - 1);
    } else {
      DistinctBelow(s, n - 1);
    }
  }

  lemma DistinctPositions<T>(s: seq<T>)
    requires forall i, k :: 0 <= i < k < |s| ==> s[i] != s[k]
    ensures Distinct(s)
  {
    if s != [] {
      var last := |s| - 1;
      DistinctPositions(s[..last]);
      assert s == s[..last] + [s[last]];
      forall x | x in s ensures multiset(s)[x] == 1 {
        assert multiset(s)[x] == multiset(s[..last])[x] + multiset{s[last]}[x];
      }
    }
  }

  /** What is distinct in the whole is distinct in the middle, and not in the part before it. */
  lemma MiddleIsNew<T>(before: seq<T>, middle: seq<T>, rest: seq<T>)
    requires Distinct(before + middle + rest)
    ensures Distinct(middle)
    ensures forall x :: x in middle ==> x in before + middle + rest && x !in before
  {
    var whole := before + middle + rest;
    assert multiset(whole) == multiset(before) + multiset(middle) + multiset(rest);
    forall x | x in middle
      ensures x in whole && x !in before && multiset(middle)[x] == 1
    {
      assert x in multiset(middle);
      assert x in whole;
    }
  }

  /** In distinct pieces, piece k has nothing in common with the pieces before it. */
  lemma PieceIsNew<T>(pieces: seq<seq<T>>, k: nat)
    requires k < |pieces| && Distinct(Joined(pieces))
    ensures Joined(pieces[..k + 1]) == Joined(pieces[..k]) + pieces[k]
    ensures Distinct(pieces[k])
    ensures forall x :: x in pieces[k] ==> x in Joined(pieces) && x !in Joined(pieces[..k])
  {
    hide Joined, Distinct;
    assert pieces[..k + 1] == pieces[..k] + [pieces[k]];
    JoinedAppend(pieces[..k], pieces[k]);
    assert pieces == pieces[..k + 1] + pieces[k + 1..];
    JoinedConcat(pieces[..k + 1], pieces[k + 1..]);
    MiddleIsNew(Joined(pieces[..k]), pieces[k], Joined(pieces[k + 1..]));
  }
}
