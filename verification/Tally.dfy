/** Totals over the workers of a pool, and how they move when one worker moves. */
module Tally {
  function Sum<T>(s: seq<T>, f: T -> nat): nat {
    if s == [] then 0 else f(s[0]) + Sum(s[1..], f)
  }

  ghost function Collect<T, X>(s: seq<T>, f: T -> multiset<X>): multiset<X> {
    if s == [] then multiset{} else f(s[0]) + Collect(s[1..], f)
  }

  lemma {:induction false} SumUpdate<T>(s: seq<T>, i: nat, x: T, f: T -> nat)
    requires i < |s|
    ensures Sum(s[i := x], f) + f(s[i]) == Sum(s, f) + f(x)
  {
    if i == 0 {
      assert s[0 := x][1..] == s[1..];
    } else {
      assert s[i := x][1..] == s[1..][i - 1 := x];
      SumUpdate(s[1..], i - 1, x, f);
    }
  }

  lemma {:induction false} CollectUpdate<T, X>(s: seq<T>, i: nat, x: T, f: T -> multiset<X>)
    requires i < |s|
    ensures Collect(s[i := x], f) + f(s[i]) == Collect(s, f) + f(x)
  {
    if i == 0 {
      assert s[0 := x][1..] == s[1..];
    } else {
      assert s[i := x][1..] == s[1..][i - 1 := x];
      CollectUpdate(s[1..], i - 1, x, f);
      var rest, rest' := Collect(s[1..], f), Collect(s[1..][i - 1 := x], f);
      assert f(s[0]) + rest' + f(s[i]) == f(s[0]) + (rest' + f(s[i]));
    }
  }

  lemma {:induction false} SumMonotone<T>(s: seq<T>, t: seq<T>, f: T -> nat, g: T -> nat)
    requires |s| == |t|
    requires forall i :: 0 <= i < |s| ==> f(s[i]) <= g(t[i])
    ensures Sum(s, f) <= Sum(t, g)
  {
    if s != [] {
      assert forall i :: 0 <= i < |s[1..]| ==> s[1..][i] == s[i + 1] && t[1..][i] == t[i + 1];
      SumMonotone(s[1..], t[1..], f, g);
    }
  }

  lemma {:induction false} CollectSame<T, X>(s: seq<T>, t: seq<T>, f: T -> multiset<X>)
    requires |s| == |t|
    requires forall i :: 0 <= i < |s| ==> f(s[i]) == f(t[i])
    ensures Collect(s, f) == Collect(t, f)
  {
    if s != [] {
      assert forall i :: 0 <= i < |s[1..]| ==> s[1..][i] == s[i + 1] && t[1..][i] == t[i + 1];
      CollectSame(s[1..], t[1..], f);
    }
  }

  lemma {:induction false} SumBound<T>(s: seq<T>, f: T -> nat, bound: nat)
    requires forall i :: 0 <= i < |s| ==> f(s[i]) <= bound
    ensures Sum(s, f) <= bound * |s|
  {
    if s != [] {
      assert forall i :: 0 <= i < |s[1..]| ==> s[1..][i] == s[i + 1];
      SumBound(s[1..], f, bound);
      assert bound * |s| == bound + bound * |s[1..]|;
    }
  }

  lemma {:induction false} SumMember<T>(s: seq<T>, i: nat, f: T -> nat)
    requires i < |s|
    ensures f(s[i]) <= Sum(s, f)
  {
    if i > 0 {
      SumMember(s[1..], i - 1, f);
    }
  }

  lemma {:induction false} CollectMember<T, X>(s: seq<T>, i: nat, f: T -> multiset<X>)
    requires i < |s|
    ensures f(s[i]) <= Collect(s, f)
  {
    if i > 0 {
      CollectMember(s[1..], i - 1, f);
    }
  }

  lemma {:induction false} CollectEmpty<T, X>(s: seq<T>, f: T -> multiset<X>)
    requires forall i :: 0 <= i < |s| ==> f(s[i]) == multiset{}
    ensures Collect(s, f) == multiset{}
  {
    if s != [] {
      assert forall i :: 0 <= i < |s[1..]| ==> s[1..][i] == s[i + 1];
      CollectEmpty(s[1..], f);
    }
  }

  lemma {:induction false} CollectPair<T, X>(s: seq<T>, i: nat, k: nat, f: T -> multiset<X>)
    requires i < k < |s|
    ensures f(s[i]) + f(s[k]) <= Collect(s, f)
  {
    if i == 0 {
      CollectMember(s[1..], k - 1, f);
    } else {
      CollectPair(s[1..], i - 1, k - 1, f);
    }
  }

  lemma {:induction false} SumZero<T>(s: seq<T>, f: T -> nat)
    requires Sum(s, f) == 0
    ensures forall i :: 0 <= i < |s| ==> f(s[i]) == 0
  {
    forall i | 0 <= i < |s| ensures f(s[i]) == 0 {
      SumMember(s, i, f);
    }
  }
}
