/** Facts about sequences that several models share. */
module Sequences {

  /** The last element of a concatenation, and what stands before it. */
  lemma {:induction false} AppendSplit<T>(xs: seq<T>, ys: seq<T>)
    requires ys != []
    ensures (xs + ys)[..|xs + ys| - 1] == xs + ys[..|ys| - 1]
    ensures (xs + ys)[|xs + ys| - 1] == ys[|ys| - 1]
    ensures xs + ys == (xs + ys[..|ys| - 1]) + [ys[|ys| - 1]]
  {
  }

  /** A sequence as a multiset, with one position taken out. */
  lemma {:induction false} MultisetTakeOut<T>(s: seq<T>, k: nat)
    requires k < |s|
    ensures multiset(s) == multiset(s[..k] + s[k + 1..]) + multiset{s[k]}
  {
    assert s == s[..k] + ([s[k]] + s[k + 1..]);
  }

  lemma {:induction false} MultisetAssoc<T>(a: multiset<T>, b: multiset<T>, c: multiset<T>)
    ensures a + b + c == a + (b + c)
  {
  }

  lemma {:induction false} MultisetSwap<T>(a: multiset<T>, b: multiset<T>, c: multiset<T>)
    ensures a + b + c == a + c + b
  {
  }

  lemma {:induction false} MultisetCancel<T>(a: multiset<T>, b: multiset<T>, x: T)
    requires a + multiset{x} == b + multiset{x}
    ensures a == b
  {
    assert a == (a + multiset{x}) - multiset{x};
  }

  /** An element that stands at two positions counts twice. */
  lemma {:induction false} RepeatCounted<T>(s: seq<T>, i: nat, j: nat)
    requires i < j < |s| && s[i] == s[j]
    ensures multiset(s)[s[i]] >= 2
  {
    MultisetTakeOut(s, j);
    assert (s[..j] + s[j + 1..])[i] == s[i];
  }

  lemma {:induction false} SameLength<T>(s: seq<T>, t: seq<T>)
    requires multiset(s) == multiset(t)
    ensures |s| == |t|
  {
    assert |multiset(s)| == |s| && |multiset(t)| == |t|;
  }

  /** Where an element of `s` stands in a permutation of it, and that the rest is again a
      permutation. */
  lemma {:induction false} Match<T>(s: seq<T>, t: seq<T>, i: nat) returns (k: nat)
    requires i < |s| && multiset(s) == multiset(t)
    ensures k < |t| && t[k] == s[i]
    ensures multiset(s[..i] + s[i + 1..]) == multiset(t[..k] + t[k + 1..])
  {
    assert s[i] in multiset(t);
    k :| 0 <= k < |t| && t[k] == s[i];
    MultisetTakeOut(t, k);
    MultisetTakeOut(s, i);
    MultisetCancel(multiset(s[..i] + s[i + 1..]), multiset(t[..k] + t[k + 1..]), s[i]);
  }

  lemma {:induction false} SnocCount<T>(s: seq<T>, x: T, y: T)
    ensures multiset(s + [x])[y] == multiset(s)[y] + (if x == y then 1 else 0)
  {
  }

  lemma {:induction false} OccursCount<T>(s: seq<T>, x: T)
    ensures x in s <==> multiset(s)[x] > 0
  {
    assert x in s <==> x in multiset(s);
  }
}
