/** Where a sequence stands inside another. */
module Placing {
  predicate At<T(==)>(doc: seq<T>, p: nat, s: seq<T>)
  {
    p + |s| <= |doc| && doc[p..p + |s|] == s
  }

  lemma AtSlice<T>(doc: seq<T>, p: nat, s: seq<T>)
    requires At(doc, p, s)
    ensures p + |s| <= |doc| && doc[p..p + |s|] == s
  {
  }

  lemma AtSplit<T>(doc: seq<T>, p: nat, a: seq<T>, b: seq<T>)
    requires At(doc, p, a + b)
    ensures At(doc, p, a) && At(doc, p + |a|, b)
  {
    var s := doc[p..p + |a + b|];
    assert doc[p..p + |a|] == s[..|a|] == a;
    assert doc[p + |a|..p + |a| + |b|] == s[|a|..] == b;
  }

  lemma AtRest<T>(doc: seq<T>, p: nat, s: seq<T>)
    requires At(doc, p, s) && s != []
    ensures doc[p] == s[0] && At(doc, p + 1, s[1..])
  {
    var t := doc[p..p + |s|];
    assert doc[p] == t[0];
    assert doc[p + 1..p + |s|] == t[1..];
  }

  lemma AtChar<T>(doc: seq<T>, p: nat, s: seq<T>, i: nat)
    requires At(doc, p, s) && i < |s|
    ensures doc[p + i] == s[i]
  {
    assert doc[p..p + |s|][i] == doc[p + i];
  }
}
