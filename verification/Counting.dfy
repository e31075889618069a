/** Counting the elements of a list that satisfy a test, as Python's Counter and sum do. */
module Counting {
  import opened Ordering

  function CountIf<T>(p: T -> bool, s: seq<T>): nat {
    if s == [] then 0 else (if p(s[0]) then 1 else 0) + CountIf(p, s[1..])
  }

  lemma {:induction false} CountIfAppend<T>(p: T -> bool, a: seq<T>, b: seq<T>)
    ensures CountIf(p, a + b) == CountIf(p, a) + CountIf(p, b)
  {
    if a == [] {
      assert a + b == b;
    } else {
      assert (a + b)[1..] == a[1..] + b;
      CountIfAppend(p, a[1..], b);
    }
  }

  lemma CountIfInsert<T>(p: T -> bool, left: seq<T>, x: T, right: seq<T>)
    ensures CountIf(p, left + [x] + right) == (if p(x) then 1 else 0) + CountIf(p, left + right)
  {
    CountIfAppend(p, left, right);
    CountIfAppend(p, left + [x], right);
    CountIfAppend(p, left, [x]);
  }

  lemma TakeOut<T>(s: seq<T>, x: T) returns (left: seq<T>, right: seq<T>)
    requires x in multiset(s)
    ensures s == left + [x] + right
    ensures multiset(left + right) == multiset(s) - multiset{x}
  {
    var k :| 0 <= k < |s| && s[k] == x;
    left, right := s[..k], s[k + 1..];
    assert s == left + [x] + right;
  }

  lemma {:induction false} CountIfPermutation<T>(p: T -> bool, a: seq<T>, b: seq<T>)
    requires multiset(a) == multiset(b)
    ensures CountIf(p, a) == CountIf(p, b)
  {
    if a == [] {
      assert |multiset(b)| == 0;
    } else {
      var x, rest := a[0], a[1..];
      assert a == [x] + rest;
      var left, right := TakeOut(b, x);
      CountIfPermutation(p, rest, left + right);
      CountIfInsert(p, left, x, right);
    }
  }

  lemma {:induction false} CountIfSame<T>(p: T -> bool, q: T -> bool, s: seq<T>)
    requires forall x :: x in s ==> p(x) == q(x)
    ensures CountIf(p, s) == CountIf(q, s)
  {
    if s != [] {
      CountIfSame(p, q, s[1..]);
    }
  }

  lemma {:induction false} CountIfNone<T>(p: T -> bool, s: seq<T>)
    requires forall x :: x in s ==> !p(x)
    ensures CountIf(p, s) == 0
  {
    if s != [] {
      CountIfNone(p, s[1..]);
    }
  }

  lemma {:induction false} CountIfAtMost<T>(p: T -> bool, s: seq<T>)
    ensures CountIf(p, s) <= |s|
  {
    if s != [] {
      CountIfAtMost(p, s[1..]);
    }
  }

  function Map<T, U>(f: T -> U, s: seq<T>): (r: seq<U>)
    ensures |r| == |s|
    ensures forall i :: 0 <= i < |s| ==> r[i] == f(s[i])
  {
    seq(|s|, i requires 0 <= i < |s| => f(s[i]))
  }

  lemma MapTake<T, U>(f: T -> U, s: seq<T>, i: nat)
    requires i < |s|
    ensures Map(f, s)[..i + 1] == Map(f, s)[..i] + [f(s[i])]
  {
  }

  lemma MapInsert<T, U>(f: T -> U, left: seq<T>, x: T, right: seq<T>)
    ensures multiset(Map(f, left + [x] + right)) == multiset{f(x)} + multiset(Map(f, left + right))
  {
    assert Map(f, left + [x] + right) == Map(f, left) + [f(x)] + Map(f, right);
    assert Map(f, left + right) == Map(f, left) + Map(f, right);
  }

  lemma {:induction false} MapPermutation<T, U>(f: T -> U, a: seq<T>, b: seq<T>)
    requires multiset(a) == multiset(b)
    ensures multiset(Map(f, a)) == multiset(Map(f, b))
  {
    if a == [] {
      assert |multiset(b)| == 0;
    } else {
      var x, rest := a[0], a[1..];
      assert a == [x] + rest;
      var left, right := TakeOut(b, x);
      MapPermutation(f, rest, left + right);
      MapInsert(f, left, x, right);
      MapFirst(f, a);
    }
  }

  lemma {:induction false} MapFirst<T, U>(f: T -> U, a: seq<T>)
    requires a != []
    ensures multiset(Map(f, a)) == multiset{f(a[0])} + multiset(Map(f, a[1..]))
  {
    assert Map(f, a) == [f(a[0])] + Map(f, a[1..]);
  }

  // The first occurrence of every element, in order: the keys of a dict filled from the list.
  function Dedup<T(==)>(s: seq<T>): seq<T> {
    if s == [] then []
    else
      var init := Dedup(s[..|s| - 1]);
      if s[|s| - 1] in s[..|s| - 1] then init else init + [s[|s| - 1]]
  }

  lemma {:induction false} DedupIsDistinct<T>(s: seq<T>)
    ensures Distinct(Dedup(s))
    ensures forall x :: x in Dedup(s) <==> x in s
  {
    if s != [] {
      DedupIsDistinct(s[..|s| - 1]);
      assert s == s[..|s| - 1] + [s[|s| - 1]];
    }
  }

  lemma {:induction false} InDedup<T>(s: seq<T>, x: T)
    ensures x in Dedup(s) <==> x in s
  {
    DedupIsDistinct(s);
    var found := x in s;
  }

  lemma {:induction false} DedupGrows<T>(s: seq<T>, n: nat)
    requires n <= |s|
    ensures Dedup(s[..n]) <= Dedup(s)
  {
    if n < |s| {
      DedupGrows(s[..|s| - 1], n);
      assert s[..|s| - 1][..n] == s[..n];
    } else {
      assert s[..n] == s;
    }
  }

  /** Lists without repetition that have the same elements are permutations of each other. */
  lemma {:induction false} DistinctSameElements<T>(a: seq<T>, b: seq<T>)
    requires Distinct(a) && Distinct(b)
    requires forall x :: x in a <==> x in b
    ensures multiset(a) == multiset(b) && |a| == |b|
  {
    DistinctMultiset(a);
    DistinctMultiset(b);
    forall x ensures multiset(a)[x] == multiset(b)[x] {
      assert x in multiset(a) <==> x in a;
      assert x in multiset(b) <==> x in b;
    }
    assert |multiset(a)| == |a| && |multiset(b)| == |b|;
  }

  /** The pigeonhole principle: distinct elements of a list that has no more places fill it. */
  lemma {:induction false} Pigeonhole<T>(a: seq<T>, b: seq<T>)
    requires Distinct(a) && |a| >= |b|
    requires forall x :: x in a ==> x in b
    ensures |a| == |b| && multiset(a) == multiset(b)
  {
    if a == [] {
    } else {
      var x, rest := a[0], a[1..];
      assert a == [x] + rest;
      assert x in b;
      var left, right := TakeOut(b, x);
      forall y | y in rest ensures y in left + right {
        assert y in b && y != x;
      }
      Pigeonhole(rest, left + right);
    }
  }

  function Cross<A, B>(a: seq<A>, b: seq<B>): seq<(A, B)> {
    if a == [] then [] else Map(PairWith<A, B>(a[0]), b) + Cross(a[1..], b)
  }

  function PairWith<A, B>(x: A): B -> (A, B) {
    (y: B) => (x, y)
  }

  lemma {:induction false} CrossProperties<A, B>(a: seq<A>, b: seq<B>)
    ensures |Cross(a, b)| == |a| * |b|
    ensures forall x, y :: (x, y) in Cross(a, b) <==> x in a && y in b
    ensures Distinct(a) && Distinct(b) ==> Distinct(Cross(a, b))
  {
    if a != [] {
      CrossProperties(a[1..], b);
      assert a == [a[0]] + a[1..];
      OneMoreTimes(|a[1..]|, |b|);
      InFirstRow(a[0], b, Cross(a[1..], b));
      if Distinct(a) && Distinct(b) {
        RowsAreApart(a[0], b, Cross(a[1..], b));
      }
    }
  }

  lemma {:induction false} InFirstRow<A, B>(first: A, b: seq<B>, rest: seq<(A, B)>)
    ensures forall x, y :: (x, y) in Map(PairWith<A, B>(first), b) + rest <==> (x == first && y in b) || (x, y) in rest
  {
    forall x, y ensures (x, y) in Map(PairWith<A, B>(first), b) <==> x == first && y in b {
      InRow(first, b, x, y);
    }
  }

  lemma {:induction false} RowsAreApart<A, B>(first: A, b: seq<B>, rest: seq<(A, B)>)
    requires Distinct(b) && Distinct(rest) && forall y :: (first, y) !in rest
    ensures Distinct(Map(PairWith<A, B>(first), b) + rest)
  {
    var row := Map(PairWith<A, B>(first), b);
    forall pair | pair in row ensures pair !in rest {
      InRow(first, b, pair.0, pair.1);
      assert pair == (pair.0, pair.1);
    }
    DistinctAppend(row, rest);
  }

  lemma {:induction false} InRow<A, B>(first: A, b: seq<B>, x: A, y: B)
    ensures (x, y) in Map(PairWith<A, B>(first), b) <==> x == first && y in b
  {
    var row := Map(PairWith<A, B>(first), b);
    if x == first && y in b {
      var i :| 0 <= i < |b| && b[i] == y;
      assert row[i] == (x, y);
    }
  }

  lemma {:induction false} DistinctAppend<T>(a: seq<T>, b: seq<T>)
    requires Distinct(a) && Distinct(b) && forall x :: x in a ==> x !in b
    ensures Distinct(a + b)
  {
    forall i, j | 0 <= i < j < |a + b| ensures (a + b)[i] != (a + b)[j] {
      if i < |a| <= j {
        assert a[i] !in b;
      }
    }
  }

  lemma {:induction false} InCross<A, B>(a: seq<A>, b: seq<B>, x: A, y: B)
    ensures (x, y) in Cross(a, b) <==> x in a && y in b
  {
    CrossProperties(a, b);
  }

  lemma {:induction false} CountIfAll<T>(p: T -> bool, s: seq<T>)
    requires forall x :: x in s ==> p(x)
    ensures CountIf(p, s) == |s|
  {
    if s != [] {
      CountIfAll(p, s[1..]);
    }
  }

  /** In a list without repetition, a test that one element passes counts one. */
  lemma {:induction false} CountIfUnique<T>(p: T -> bool, s: seq<T>, x: T)
    requires Distinct(s) && x in s && forall y :: p(y) <==> y == x
    ensures CountIf(p, s) == 1
  {
    var left, right := TakeOut(s, x);
    CountIfInsert(p, left, x, right);
    assert s[|left|] == x;
    forall y | y in left + right ensures !p(y) {
      var i :| 0 <= i < |left + right| && (left + right)[i] == y;
      assert y == s[if i < |left| then i else i + 1];
    }
    CountIfNone(p, left + right);
  }

  lemma {:induction false} CountIfMap<T, U>(p: U -> bool, q: T -> bool, f: T -> U, s: seq<T>)
    requires forall x :: q(x) == p(f(x))
    ensures CountIf(p, Map(f, s)) == CountIf(q, s)
  {
    if s != [] {
      assert Map(f, s)[1..] == Map(f, s[1..]);
      CountIfMap(p, q, f, s[1..]);
    }
  }

  lemma {:induction false} OneMoreTimes(m: nat, n: nat)
    ensures (1 + m) * n == n + m * n
  {
  }

  lemma {:induction false} CountIfCross<A, B>(both: ((A, B)) -> bool, p: A -> bool, q: B -> bool, a: seq<A>, b: seq<B>)
    requires forall x, y :: both((x, y)) == (p(x) && q(y))
    ensures CountIf(both, Cross(a, b)) == CountIf(p, a) * CountIf(q, b)
  {
    if a != [] {
      CountIfCross(both, p, q, a[1..], b);
      CountIfRow(both, p, q, a[0], b);
      CountIfAppend(both, Map(PairWith<A, B>(a[0]), b), Cross(a[1..], b));
      OneMoreTimes(CountIf(p, a[1..]), CountIf(q, b));
    }
  }

  lemma {:induction false} CountIfRow<A, B>(both: ((A, B)) -> bool, p: A -> bool, q: B -> bool, x: A, b: seq<B>)
    requires forall x, y :: both((x, y)) == (p(x) && q(y))
    ensures CountIf(both, Map(PairWith<A, B>(x), b)) == if p(x) then CountIf(q, b) else 0
  {
    if b != [] {
      assert Map(PairWith<A, B>(x), b)[1..] == Map(PairWith<A, B>(x), b[1..]);
      CountIfRow(both, p, q, x, b[1..]);
    }
  }
}
