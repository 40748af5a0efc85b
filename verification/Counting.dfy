/** Counting over a table of threads: the sum of a weight over a sequence, and what one update does to it. */
module Counting {

  ghost function Sum<T(!new)>(s: seq<T>, w: T -> nat): nat
  {
    if s == [] then 0 else w(s[0]) + Sum(s[1..], w)
  }

  lemma {:induction false} SumUpdate<T(!new)>(s: seq<T>, i: nat, x: T, w: T -> nat)
    requires i < |s|
    ensures Sum(s[i := x], w) == Sum(s, w) - w(s[i]) + w(x)
  {
    if i == 0 {
      assert s[i := x][1..] == s[1..];
    } else {
      assert s[i := x][1..] == s[1..][i - 1 := x];
      SumUpdate(s[1..], i - 1, x, w);
    }
  }

  lemma {:induction false} SumIncludes<T(!new)>(s: seq<T>, i: nat, w: T -> nat)
    requires i < |s|
    ensures w(s[i]) <= Sum(s, w)
  {
    if i > 0 { SumIncludes(s[1..], i - 1, w); }
  }

  /** Two different entries never weigh more than the whole. */
  lemma {:induction false} SumIncludesTwo<T(!new)>(s: seq<T>, i: nat, j: nat, w: T -> nat)
    requires i < j < |s|
    ensures w(s[i]) + w(s[j]) <= Sum(s, w)
  {
    if i == 0 { SumIncludes(s[1..], j - 1, w); } else { SumIncludesTwo(s[1..], i - 1, j - 1, w); }
  }

  /** A positive sum has a positive entry. */
  lemma {:induction false} SumWitness<T(!new)>(s: seq<T>, w: T -> nat) returns (i: nat)
    requires Sum(s, w) > 0
    ensures i < |s| && w(s[i]) > 0
  {
    if w(s[0]) > 0 {
      i := 0;
    } else {
      i := SumWitness(s[1..], w);
      i := i + 1;
    }
  }

  lemma {:induction false} SumZero<T(!new)>(s: seq<T>, w: T -> nat)
    requires forall i :: 0 <= i < |s| ==> w(s[i]) == 0
    ensures Sum(s, w) == 0
  {
    if s != [] {
      assert w(s[0]) == 0;
      forall i | 0 <= i < |s[1..]| ensures w(s[1..][i]) == 0 { assert s[1..][i] == s[i + 1]; }
      SumZero(s[1..], w);
    }
  }

  lemma {:induction false} SumBound<T(!new)>(s: seq<T>, w: T -> nat, b: nat)
    requires forall x :: w(x) <= b
    ensures Sum(s, w) <= b * |s|
  {
    if s != [] {
      SumBound(s[1..], w, b);
      assert b * |s| == b * |s[1..]| + b;
    }
  }
}
