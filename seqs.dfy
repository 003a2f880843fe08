/** Order-preserving selection over sequences: the model of a pandas boolean-mask
    selection `df[mask]`, which keeps the rows whose mask entry is true, in order. */
module Seqs {

  /** The elements of `xs` that satisfy `p`, in their original order. */
  function Keep<T>(xs: seq<T>, p: T -> bool): (r: seq<T>)
    ensures |r| <= |xs|
  {
    if xs == [] then [] else (if p(xs[0]) then [xs[0]] else []) + Keep(xs[1..], p)
  }

  /** `xs` can be obtained from `ys` by deleting elements, without reordering. */
  predicate IsSubsequence<T(==)>(xs: seq<T>, ys: seq<T>)
    decreases |xs| + |ys|
  {
    if xs == [] then true
    else if ys == [] then false
    else (xs[0] == ys[0] && IsSubsequence(xs[1..], ys[1..])) || IsSubsequence(xs, ys[1..])
  }

  /** A selection is a subsequence of what it selects from. */
  lemma {:induction false} KeepIsSubsequence<T>(xs: seq<T>, p: T -> bool)
    ensures IsSubsequence(Keep(xs, p), xs)
  {
    if xs != [] {
      KeepIsSubsequence(xs[1..], p);
      if p(xs[0]) {
        assert Keep(xs, p) == [xs[0]] + Keep(xs[1..], p);
        assert Keep(xs, p)[1..] == Keep(xs[1..], p);
      } else {
        assert Keep(xs, p) == Keep(xs[1..], p);
        if Keep(xs, p) != [] {
          assert IsSubsequence(Keep(xs, p), xs[1..]);
        }
      }
    }
  }

  /** An element is selected exactly when it occurs in the input and satisfies `p`. */
  lemma {:induction false} KeepMembers<T>(xs: seq<T>, p: T -> bool, x: T)
    ensures x in Keep(xs, p) <==> x in xs && p(x)
  {
    if xs != [] {
      KeepMembers(xs[1..], p, x);
      assert xs == [xs[0]] + xs[1..];
    }
  }

  /** Every element of a selection satisfies the selecting predicate. */
  lemma {:induction false} KeepSound<T>(xs: seq<T>, p: T -> bool)
    ensures forall i :: 0 <= i < |Keep(xs, p)| ==> p(Keep(xs, p)[i])
  {
    forall i | 0 <= i < |Keep(xs, p)|
      ensures p(Keep(xs, p)[i])
    {
      KeepMembers(xs, p, Keep(xs, p)[i]);
    }
  }

  /** Selecting with two predicates that agree on the input gives the same result. */
  lemma {:induction false} KeepExt<T>(xs: seq<T>, p: T -> bool, q: T -> bool)
    requires forall i :: 0 <= i < |xs| ==> p(xs[i]) == q(xs[i])
    ensures Keep(xs, p) == Keep(xs, q)
  {
    if xs != [] {
      KeepExt(xs[1..], p, q);
    }
  }

  /** Selecting with a predicate that every element satisfies changes nothing. */
  lemma {:induction false} KeepAll<T>(xs: seq<T>, p: T -> bool)
    requires forall i :: 0 <= i < |xs| ==> p(xs[i])
    ensures Keep(xs, p) == xs
  {
    if xs != [] {
      KeepAll(xs[1..], p);
    }
  }

  /** Two successive selections are one selection by the conjunction. */
  lemma {:induction false} KeepKeep<T>(xs: seq<T>, p: T -> bool, q: T -> bool, pq: T -> bool)
    requires forall i :: 0 <= i < |xs| ==> pq(xs[i]) == (p(xs[i]) && q(xs[i]))
    ensures Keep(Keep(xs, p), q) == Keep(xs, pq)
  {
    if xs != [] {
      KeepKeep(xs[1..], p, q, pq);
      if p(xs[0]) {
        assert Keep(xs, p) == [xs[0]] + Keep(xs[1..], p);
        assert Keep(xs, p)[0] == xs[0];
        assert Keep(xs, p)[1..] == Keep(xs[1..], p);
      } else {
        assert Keep(xs, p) == Keep(xs[1..], p);
      }
    }
  }

  /** Selection distributes over concatenation. */
  lemma {:induction false} KeepAppend<T>(xs: seq<T>, ys: seq<T>, p: T -> bool)
    ensures Keep(xs + ys, p) == Keep(xs, p) + Keep(ys, p)
  {
    if xs == [] {
      assert xs + ys == ys;
    } else {
      var head := if p(xs[0]) then [xs[0]] else [];
      assert (xs + ys)[0] == xs[0];
      assert (xs + ys)[1..] == xs[1..] + ys;
      calc {
        Keep(xs + ys, p);
        head + Keep(xs[1..] + ys, p);
        { KeepAppend(xs[1..], ys, p); }
        head + (Keep(xs[1..], p) + Keep(ys, p));
        (head + Keep(xs[1..], p)) + Keep(ys, p);
      }
    }
  }
}
