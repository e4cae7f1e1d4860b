/** Reordering and mapping of sequences. */
module Sequences {
  import opened Wrappers

  function Without<T>(s: seq<T>, k: nat): (r: seq<T>)
    requires k < |s|
    ensures |r| == |s| - 1
    ensures forall i | 0 <= i < |r| :: r[i] == if i < k then s[i] else s[i + 1]
  {
    s[..k] + s[k + 1..]
  }

  lemma MultisetWithout<T>(s: seq<T>, k: nat)
    requires k < |s|
    ensures multiset(s) == multiset(Without(s, k)) + multiset{s[k]}
  {
    assert s == s[..k] + [s[k]] + s[k + 1..];
  }

  /** A permutation of a non-empty sequence has the first element somewhere, and the rest around it. */
  lemma FindInPermutation<T>(a: seq<T>, b: seq<T>) returns (k: nat)
    requires a != [] && multiset(a) == multiset(b)
    ensures k < |b| && b[k] == a[|a| - 1]
    ensures multiset(a[..|a| - 1]) == multiset(Without(b, k))
  {
    var n := |a| - 1;
    assert a == a[..n] + [a[n]];
    assert a[n] in multiset(b);
    k :| 0 <= k < |b| && b[k] == a[n];
    MultisetWithout(b, k);
    assert multiset(a[..n]) == multiset(b) - multiset{b[k]};
  }

  function Image<A, B>(f: A -> B, s: seq<A>): (r: seq<B>)
    ensures |r| == |s| && forall k | 0 <= k < |s| :: r[k] == f(s[k])
  {
    seq(|s|, k requires 0 <= k < |s| => f(s[k]))
  }

  /** The images of a permutation are a permutation of the images. */
  lemma {:induction false} ImageOfPermutation<A, B>(f: A -> B, a: seq<A>, b: seq<A>)
    requires multiset(a) == multiset(b)
    ensures multiset(Image(f, a)) == multiset(Image(f, b))
    decreases |a|
  {
    if a == [] {
      assert |multiset(b)| == 0;
    } else {
      var n := |a| - 1;
      var k := FindInPermutation(a, b);
      ImageOfPermutation(f, a[..n], Without(b, k));
      assert Image(f, a) == Image(f, a[..n]) + [f(a[n])];
      MultisetWithout(Image(f, b), k);
      assert Without(Image(f, b), k) == Image(f, Without(b, k));
    }
  }

  /** The results of `f` on the elements of `s` that have one, in order. */
  function FilterMap<A, B>(f: A -> Option<B>, s: seq<A>): seq<B> {
    if s == [] then []
    else
      FilterMap(f, s[..|s| - 1]) + match f(s[|s| - 1]) case None => [] case Some(y) => [y]
  }

  /** A sequence of fixed points is kept as it is. */
  lemma {:induction false} FilterMapFixed<A>(f: A -> Option<A>, s: seq<A>)
    requires forall i | 0 <= i < |s| :: f(s[i]) == Some(s[i])
    ensures FilterMap(f, s) == s
  {
    if s != [] {
      FilterMapFixed(f, s[..|s| - 1]);
      assert s == s[..|s| - 1] + [s[|s| - 1]];
    }
  }

  lemma {:induction false} FilterMapNothing<A, B>(f: A -> Option<B>, s: seq<A>)
    requires forall i | 0 <= i < |s| :: f(s[i]) == None
    ensures FilterMap(f, s) == []
  {
    if s != [] {
      FilterMapNothing(f, s[..|s| - 1]);
    }
  }

  /** Every element of the result is the result of some element. */
  lemma {:induction false} FilterMapOrigin<A, B>(f: A -> Option<B>, s: seq<A>, j: nat) returns (i: nat)
    requires j < |FilterMap(f, s)|
    ensures i < |s| && f(s[i]) == Some(FilterMap(f, s)[j])
  {
    var n := |s| - 1;
    if j < |FilterMap(f, s[..n])| {
      i := FilterMapOrigin(f, s[..n], j);
    } else {
      i := n;
    }
  }

  /** `f` applied `n` times. */
  function Iterate<T>(f: T -> T, x: T, n: nat): T {
    if n == 0 then x else f(Iterate(f, x, n - 1))
  }

  lemma {:induction false} IterateAdds<T>(f: T -> T, x: T, a: nat, b: nat)
    ensures Iterate(f, Iterate(f, x, a), b) == Iterate(f, x, a + b)
    decreases b
  {
    if b > 0 {
      IterateAdds(f, x, a, b - 1);
    }
  }

  lemma Associative<T>(a: seq<T>, b: seq<T>, c: seq<T>)
    ensures (a + b) + c == a + (b + c)
  {
  }

  predicate Distinct<T(==)>(s: seq<T>) {
    forall i, j | 0 <= i < j < |s| :: s[i] != s[j]
  }

  /** Some order of a set's elements, each once. */
  ghost predicate Enumerates<T(!new)>(s: seq<T>, all: set<T>) {
    Distinct(s) && forall x :: x in s <==> x in all
  }

  lemma {:induction false} EnumerationIsSet<T(!new)>(s: seq<T>, all: set<T>)
    requires Enumerates(s, all)
    ensures multiset(s) == multiset(all)
  {
    if s == [] {
      assert all == {};
    } else {
      var n := |s| - 1;
      assert s == s[..n] + [s[n]];
      EnumerationIsSet(s[..n], all - {s[n]});
    }
  }
}
