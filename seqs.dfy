/** Order-preserving sequence helpers shared by the task models. */
module Seqs {

  /** The elements of `s` that satisfy `p`, in their original order. */
  function Filter<T(!new)>(s: seq<T>, p: T -> bool): (r: seq<T>)
    ensures |r| <= |s|
    ensures forall x :: x in r <==> x in s && p(x)
  {
    if |s| == 0 then []
    else if p(s[0]) then [s[0]] + Filter(s[1..], p)
    else Filter(s[1..], p)
  }

  /** Filtering distributes over concatenation, so it keeps the relative order of what it keeps. */
  lemma {:induction false} FilterConcat<T(!new)>(a: seq<T>, b: seq<T>, p: T -> bool)
    ensures Filter(a + b, p) == Filter(a, p) + Filter(b, p)
  {
    if |a| == 0 {
      assert a + b == b;
    } else {
      assert (a + b)[1..] == a[1..] + b;
      FilterConcat(a[1..], b, p);
    }
  }

  /** Filtering one more element at the end: the step every loop over a prefix needs. */
  lemma FilterSnoc<T(!new)>(s: seq<T>, i: nat, p: T -> bool)
    requires i < |s|
    ensures Filter(s[..i + 1], p) == Filter(s[..i], p) + (if p(s[i]) then [s[i]] else [])
  {
    assert s[..i + 1] == s[..i] + [s[i]];
    FilterConcat(s[..i], [s[i]], p);
  }

  /** The element at position `i` of the middle part of a three-part sequence. */
  lemma PartAt<T>(before: seq<T>, part: seq<T>, after: seq<T>, i: int)
    requires 0 <= i < |part|
    ensures (before + part + after)[|before| + i] == part[i]
  {
  }

  /** `step` applied to each element of `xs` in turn, starting from `x`. */
  function FoldLeft<S, T>(x: S, step: (S, T) -> S, xs: seq<T>): S
  {
    if |xs| == 0 then x
    else step(FoldLeft(x, step, xs[..|xs| - 1]), xs[|xs| - 1])
  }

  /** Folding a concatenation is folding its second part from where the first part left off. */
  lemma {:induction false} FoldLeftConcat<S, T>(x: S, step: (S, T) -> S, a: seq<T>, b: seq<T>)
    ensures FoldLeft(x, step, a + b) == FoldLeft(FoldLeft(x, step, a), step, b)
  {
    if |b| == 0 {
      assert a + b == a;
    } else {
      var n := |b| - 1;
      FoldLeftConcat(x, step, a, b[..n]);
      assert (a + b)[..|a + b| - 1] == a + b[..n];
    }
  }

  /** A fold whose every step moves forward in a preorder ends no earlier than it starts. */
  lemma {:induction false} FoldLeftGrows<S, T>(x: S, step: (S, T) -> S, xs: seq<T>, le: (S, S) -> bool)
    requires forall y :: le(y, y)
    requires forall y, z, w :: le(y, z) && le(z, w) ==> le(y, w)
    requires forall y, a :: le(y, step(y, a))
    ensures le(x, FoldLeft(x, step, xs))
  {
    if |xs| != 0 {
      var prev := FoldLeft(x, step, xs[..|xs| - 1]);
      FoldLeftGrows(x, step, xs[..|xs| - 1], le);
      assert le(prev, step(prev, xs[|xs| - 1]));
    }
  }
}
