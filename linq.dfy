/** The two LINQ operators the registries are queried with: `Select` and `Where(...).ToList()`. */
module Linq {

  /** `xs.Select(f)`. */
  function Select<T, U>(xs: seq<T>, f: T -> U): (r: seq<U>)
    ensures |r| == |xs| && forall i :: 0 <= i < |xs| ==> r[i] == f(xs[i])
  {
    seq(|xs|, i requires 0 <= i < |xs| => f(xs[i]))
  }

  /** `xs.Where(p).ToList()`: the elements satisfying `p`, in their original order. */
  function Where<T>(xs: seq<T>, p: T -> bool): (r: seq<T>)
    ensures |r| <= |xs|
    ensures forall i :: 0 <= i < |r| ==> p(r[i]) && r[i] in xs
  {
    if xs == [] then []
    else if p(xs[0]) then [xs[0]] + Where(xs[1..], p)
    else Where(xs[1..], p)
  }

  /** Every element satisfying `p` is kept: `Where` loses nothing it should keep. */
  lemma {:induction false} WhereKeeps<T>(xs: seq<T>, p: T -> bool, x: T)
    requires x in xs && p(x)
    ensures x in Where(xs, p)
  {
    if xs[0] != x {
      WhereKeeps(xs[1..], p, x);
    }
  }

  /** `Where` yields nothing exactly when no element satisfies the predicate. */
  lemma WhereEmpty<T>(xs: seq<T>, p: T -> bool)
    ensures Where(xs, p) == [] <==> forall x :: x in xs ==> !p(x)
  {
    if exists x :: x in xs && p(x) {
      var x :| x in xs && p(x);
      WhereKeeps(xs, p, x);
    }
  }

  /** Two predicates that agree on the elements select the same list. */
  lemma {:induction false} WhereCongruent<T>(xs: seq<T>, p: T -> bool, q: T -> bool)
    requires forall x :: x in xs ==> p(x) == q(x)
    ensures Where(xs, p) == Where(xs, q)
  {
    if xs != [] {
      WhereCongruent(xs[1..], p, q);
    }
  }

  /** Filtering twice is filtering once by the conjunction. */
  lemma {:induction false} WhereWhere<T>(xs: seq<T>, p: T -> bool, q: T -> bool, pq: T -> bool)
    requires forall x :: x in xs ==> pq(x) == (p(x) && q(x))
    ensures Where(Where(xs, p), q) == Where(xs, pq)
  {
    if xs != [] {
      WhereWhere(xs[1..], p, q, pq);
    }
  }

  /** Filtering with a predicate every element satisfies changes nothing (`ToList()` is a copy). */
  lemma {:induction false} WhereAll<T>(xs: seq<T>, p: T -> bool)
    requires forall x :: x in xs ==> p(x)
    ensures Where(xs, p) == xs
  {
    if xs != [] {
      WhereAll(xs[1..], p);
    }
  }
}
