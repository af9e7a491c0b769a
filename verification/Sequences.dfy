// Sequences taken apart from the end, and permutations of them.
module Sequences {
  function Without<T>(s: seq<T>, i: nat): seq<T>
    requires i < |s|
  {
    s[..i] + s[i + 1..]
  }

  ghost predicate Distinct<T>(s: seq<T>) {
    s == [] || (Distinct(s[..|s| - 1]) && s[|s| - 1] !in s[..|s| - 1])
  }

  /** Applies `f` to each element and joins the results in order. */
  function Flat<A, B>(xs: seq<A>, f: A -> seq<B>): seq<B> {
    if xs == [] then [] else Flat(xs[..|xs| - 1], f) + f(xs[|xs| - 1])
  }

  lemma WithoutUnsnoc<T>(s: seq<T>, i: nat)
    requires i < |s|
    ensures i == |s| - 1 ==> Without(s, i) == s[..|s| - 1]
    ensures i < |s| - 1 ==> Without(s, i) == Without(s[..|s| - 1], i) + [s[|s| - 1]]
    ensures i < |s| - 1 ==> Without(s, i)[..|Without(s, i)| - 1] == Without(s[..|s| - 1], i)
  {
  }

  /** A permutation of `a` has `a`'s last element somewhere, and permutes the rest
      around it. */
  lemma FindLast<T>(a: seq<T>, b: seq<T>) returns (i: nat)
    requires multiset(a) == multiset(b) && a != []
    ensures i < |b| && b[i] == a[|a| - 1]
    ensures multiset(a[..|a| - 1]) == multiset(Without(b, i))
  {
    var x := a[|a| - 1];
    assert x in multiset(b) by {
      assert x in a;
    }
    i :| i < |b| && b[i] == x;
    RemoveFromMultiset(a, |a| - 1);
    RemoveFromMultiset(b, i);
    WithoutUnsnoc(a, |a| - 1);
  }

  lemma RemoveFromMultiset<T>(s: seq<T>, i: nat)
    requires i < |s|
    ensures multiset(Without(s, i)) == multiset(s) - multiset{s[i]}
  {
    assert s == s[..i] + [s[i]] + s[i + 1..];
  }

  lemma EmptyPermutation<T>(b: seq<T>)
    requires multiset(b) == multiset{}
    ensures b == []
  {
    assert |multiset(b)| == |b|;
  }

  lemma {:induction false} FlatMove<A, B>(xs: seq<A>, i: nat, f: A -> seq<B>)
    requires i < |xs|
    ensures multiset(Flat(xs, f)) == multiset(Flat(Without(xs, i), f)) + multiset(f(xs[i]))
  {
    WithoutUnsnoc(xs, i);
    if i < |xs| - 1 {
      FlatMove(xs[..|xs| - 1], i, f);
    }
  }

  lemma {:induction false} FlatPermutes<A, B>(a: seq<A>, b: seq<A>, f: A -> seq<B>)
    requires multiset(a) == multiset(b)
    ensures multiset(Flat(a, f)) == multiset(Flat(b, f))
    decreases |a|
  {
    if a == [] {
      EmptyPermutation(b);
    } else {
      var i := FindLast(a, b);
      FlatPermutes(a[..|a| - 1], Without(b, i), f);
      FlatMove(b, i, f);
    }
  }

  lemma {:induction false} FlatPointwise<A, B>(xs: seq<A>, f: A -> seq<B>, g: A -> seq<B>)
    requires forall x :: x in xs ==> multiset(f(x)) == multiset(g(x))
    ensures multiset(Flat(xs, f)) == multiset(Flat(xs, g))
  {
    if xs != [] {
      assert forall x :: x in xs[..|xs| - 1] ==> x in xs;
      FlatPointwise(xs[..|xs| - 1], f, g);
    }
  }
}
