/** Python's `sorted`: a stable sort by an order that is given as a function. */
module Ordering {

  /** Order of strings, character by character; a proper prefix comes first. */
  predicate StringLe(a: string, b: string) {
    a == [] || (b != [] && (a[0] < b[0] || (a[0] == b[0] && StringLe(a[1..], b[1..]))))
  }

  lemma StringLeTotal(a: string, b: string)
    ensures StringLe(a, b) || StringLe(b, a)
  {
  }

  lemma {:induction false} StringLeAntisymmetric(a: string, b: string)
    requires StringLe(a, b) && StringLe(b, a)
    ensures a == b
  {
    if a != [] && b != [] {
      StringLeAntisymmetric(a[1..], b[1..]);
      assert a == [a[0]] + a[1..] && b == [b[0]] + b[1..];
    }
  }

  lemma {:induction false} StringLeTransitive(a: string, b: string, c: string)
    requires StringLe(a, b) && StringLe(b, c)
    ensures StringLe(a, c)
  {
    if a != [] && a[0] == b[0] && b[0] == c[0] {
      StringLeTransitive(a[1..], b[1..], c[1..]);
    }
  }

  lemma {:induction false} StringLeIsTotalOrder()
    ensures TotalPreorder(StringLe)
    ensures Antisymmetric(StringLe)
  {
    forall a, b ensures StringLe(a, b) || StringLe(b, a) { StringLeTotal(a, b); }
    forall a, b | StringLe(a, b) && StringLe(b, a) ensures a == b { StringLeAntisymmetric(a, b); }
    forall a, b, c | StringLe(a, b) && StringLe(b, c) ensures StringLe(a, c) { StringLeTransitive(a, b, c); }
  }

  // The strings agree up to some place, where the first one ends or has the smaller character.
  ghost predicate ComesBefore(a: string, b: string) {
    exists n: nat :: PartAt(a, b, n)
  }

  ghost predicate PartAt(a: string, b: string, n: nat) {
    n <= |a| && n < |b| && a[..n] == b[..n] && (n == |a| || a[n] < b[n])
  }

  lemma {:induction false} PartLater(a: string, b: string, n: nat)
    requires a != [] && b != [] && a[0] == b[0]
    ensures PartAt(a[1..], b[1..], n) <==> PartAt(a, b, n + 1)
  {
    if n < |a| && n < |b| {
      assert a[..n + 1] == [a[0]] + a[1..][..n] && b[..n + 1] == [b[0]] + b[1..][..n];
      assert a[1..][..n] == a[..n + 1][1..] && b[1..][..n] == b[..n + 1][1..];
    }
  }

  /** The order of strings is that of the first place where they differ. */
  lemma {:induction false} StringLeIff(a: string, b: string)
    ensures StringLe(a, b) <==> a == b || ComesBefore(a, b)
  {
    if a == [] {
      assert b != [] ==> PartAt(a, b, 0);
    } else if b != [] && a[0] == b[0] {
      StringLeIff(a[1..], b[1..]);
      assert a == [a[0]] + a[1..] && b == [b[0]] + b[1..];
      ComesBeforeLater(a, b);
    } else if b != [] && a[0] < b[0] {
      assert PartAt(a, b, 0);
    } else if ComesBefore(a, b) {
      var n: nat :| PartAt(a, b, n);
      PartAgrees(a, b, n);
    }
  }

  lemma {:induction false} PartAgrees(a: string, b: string, n: nat)
    requires PartAt(a, b, n)
    ensures n > 0 ==> a != [] && a[0] == b[0]
  {
    if n > 0 {
      assert a[..n][0] == a[0] && b[..n][0] == b[0];
    }
  }

  lemma {:induction false} ComesBeforeLater(a: string, b: string)
    requires a != [] && b != [] && a[0] == b[0]
    ensures ComesBefore(a, b) <==> ComesBefore(a[1..], b[1..])
  {
    if ComesBefore(a, b) {
      var n: nat :| PartAt(a, b, n);
      if n > 0 {
        PartLater(a, b, n - 1);
      }
    }
    if ComesBefore(a[1..], b[1..]) {
      var n: nat :| PartAt(a[1..], b[1..], n);
      PartLater(a, b, n);
    }
  }

  /** Of two different strings exactly one comes before the other. */
  lemma {:induction false} OneComesBefore(a: string, b: string)
    ensures StringLe(a, b) <==> !ComesBefore(b, a)
    ensures !ComesBefore(a, a)
  {
    StringLeIff(a, b);
    StringLeIff(b, a);
    StringLeTotal(a, b);
    if ComesBefore(b, a) && StringLe(a, b) {
      StringLeAntisymmetric(a, b);
    }
    NotBeforeItself(a);
    NotBeforeItself(b);
  }

  lemma {:induction false} NotBeforeItself(a: string)
    ensures !ComesBefore(a, a)
  {
  }

  ghost predicate TotalPreorder<T(!new)>(le: (T, T) -> bool) {
    && (forall x, y :: le(x, y) || le(y, x))
    && (forall x, y, z :: le(x, y) && le(y, z) ==> le(x, z))
  }

  ghost predicate Antisymmetric<T(!new)>(le: (T, T) -> bool) {
    forall x, y :: le(x, y) && le(y, x) ==> x == y
  }

  ghost predicate SortedBy<T>(le: (T, T) -> bool, s: seq<T>) {
    forall i, j :: 0 <= i < j < |s| ==> le(s[i], s[j])
  }

  function Insert<T>(le: (T, T) -> bool, x: T, s: seq<T>): (r: seq<T>)
    ensures |r| == |s| + 1
    ensures multiset(r) == multiset{x} + multiset(s)
  {
    if s == [] || le(x, s[0]) then [x] + s
    else
      assert s == [s[0]] + s[1..];
      [s[0]] + Insert(le, x, s[1..])
  }

  function Sort<T>(le: (T, T) -> bool, s: seq<T>): (r: seq<T>)
    ensures |r| == |s|
    ensures multiset(r) == multiset(s)
  {
    if s == [] then []
    else
      assert s == [s[0]] + s[1..];
      Insert(le, s[0], Sort(le, s[1..]))
  }

  lemma {:induction false} InsertSorted<T(!new)>(le: (T, T) -> bool, x: T, s: seq<T>)
    requires TotalPreorder(le) && SortedBy(le, s)
    ensures SortedBy(le, Insert(le, x, s))
  {
    if s == [] || le(x, s[0]) {
      assert forall i | 0 <= i < |s| :: le(s[0], s[i]) || i == 0;
    } else {
      InsertSorted(le, x, s[1..]);
      var t := Insert(le, x, s[1..]);
      forall i | 0 <= i < |t| ensures le(s[0], t[i]) {
        assert t[i] in multiset(t);
        assert t[i] == x || t[i] in s[1..];
      }
    }
  }

  lemma {:induction false} SortSorted<T(!new)>(le: (T, T) -> bool, s: seq<T>)
    requires TotalPreorder(le)
    ensures SortedBy(le, Sort(le, s))
  {
    if s != [] {
      SortSorted(le, s[1..]);
      InsertSorted(le, s[0], Sort(le, s[1..]));
    }
  }

  lemma {:induction false} InSort<T>(le: (T, T) -> bool, s: seq<T>)
    ensures forall x :: x in Sort(le, s) <==> x in s
  {
    forall x ensures x in Sort(le, s) <==> x in s {
      assert x in multiset(Sort(le, s)) <==> x in multiset(s);
    }
  }

  // No two different elements of the list are equal in the order.
  ghost predicate AntisymmetricOn<T>(le: (T, T) -> bool, s: seq<T>) {
    forall x, y :: x in s && y in s && le(x, y) && le(y, x) ==> x == y
  }

  /** A sorted list is determined by its multiset when the order is antisymmetric on it. */
  lemma {:induction false} SortedUnique<T(!new)>(le: (T, T) -> bool, a: seq<T>, b: seq<T>)
    requires TotalPreorder(le) && AntisymmetricOn(le, a)
    requires SortedBy(le, a) && SortedBy(le, b)
    requires multiset(a) == multiset(b)
    ensures a == b
  {
    if a == [] {
      assert |multiset(b)| == 0;
    } else {
      SameHead(le, a, b);
      assert a == [a[0]] + a[1..] && b == [b[0]] + b[1..];
      assert multiset(a[1..]) == multiset(a) - multiset{a[0]};
      assert multiset(b[1..]) == multiset(b) - multiset{b[0]};
      SortedUnique(le, a[1..], b[1..]);
    }
  }

  lemma {:induction false} SameHead<T(!new)>(le: (T, T) -> bool, a: seq<T>, b: seq<T>)
    requires TotalPreorder(le) && AntisymmetricOn(le, a)
    requires SortedBy(le, a) && SortedBy(le, b)
    requires multiset(a) == multiset(b) && a != []
    ensures b != [] && a[0] == b[0]
  {
    assert |multiset(b)| == |a|;
    assert a[0] in multiset(b) && b[0] in multiset(a);
    assert a[0] in b && b[0] in a;
    assert le(a[0], b[0]) && le(b[0], a[0]);
  }

  /** Sorting ignores the order in which the elements are given. */
  lemma {:induction false} SortOfPermutation<T(!new)>(le: (T, T) -> bool, a: seq<T>, b: seq<T>)
    requires TotalPreorder(le) && AntisymmetricOn(le, a)
    requires multiset(a) == multiset(b)
    ensures Sort(le, a) == Sort(le, b)
  {
    InSort(le, a);
    SortSorted(le, a);
    SortSorted(le, b);
    SortedUnique(le, Sort(le, a), Sort(le, b));
  }

  lemma {:induction false} SortOfSorted<T(!new)>(le: (T, T) -> bool, s: seq<T>)
    requires SortedBy(le, s)
    ensures Sort(le, s) == s
  {
    if s != [] {
      SortOfSorted(le, s[1..]);
      assert s == [s[0]] + s[1..];
    }
  }

  // The elements that the order does not tell apart from `x`.
  function Alike<T>(le: (T, T) -> bool, x: T, s: seq<T>): seq<T> {
    if s == [] then [] else OnlyAlike(le, x, s[0]) + Alike(le, x, s[1..])
  }

  function OnlyAlike<T>(le: (T, T) -> bool, x: T, y: T): seq<T> {
    if le(x, y) && le(y, x) then [y] else []
  }

  lemma {:induction false} AlikeFirst<T>(le: (T, T) -> bool, y: T, x: T, s: seq<T>)
    ensures Alike(le, y, [x] + s) == OnlyAlike(le, y, x) + Alike(le, y, s)
  {
    assert ([x] + s)[1..] == s;
  }

  lemma {:induction false} AtMostOneIsAlike<T(!new)>(le: (T, T) -> bool, x: T, z: T, y: T)
    requires TotalPreorder(le) && !le(x, z)
    ensures OnlyAlike(le, y, x) == [] || OnlyAlike(le, y, z) == []
  {
    assert le(x, y) && le(y, z) ==> le(x, z);
  }

  lemma {:induction false} InsertIsStable<T(!new)>(le: (T, T) -> bool, x: T, s: seq<T>, y: T)
    requires TotalPreorder(le)
    ensures Alike(le, y, Insert(le, x, s)) == Alike(le, y, [x] + s)
  {
    if s != [] && !le(x, s[0]) {
      InsertIsStable(le, x, s[1..], y);
      AtMostOneIsAlike(le, x, s[0], y);
      AlikeFirst(le, y, s[0], Insert(le, x, s[1..]));
      AlikeFirst(le, y, x, s[1..]);
      AlikeFirst(le, y, x, s);
      OneIsEmpty(OnlyAlike(le, y, x), OnlyAlike(le, y, s[0]), Alike(le, y, s[1..]));
    } else {
      assert Insert(le, x, s) == [x] + s;
    }
  }

  lemma {:induction false} OneIsEmpty<T>(a: seq<T>, b: seq<T>, rest: seq<T>)
    requires a == [] || b == []
    ensures a + (b + rest) == b + (a + rest)
  {
  }

  /** Sorting keeps the order of elements that are alike. */
  lemma {:induction false} SortIsStable<T(!new)>(le: (T, T) -> bool, s: seq<T>, y: T)
    requires TotalPreorder(le)
    ensures Alike(le, y, Sort(le, s)) == Alike(le, y, s)
  {
    if s != [] {
      SortIsStable(le, s[1..], y);
      InsertIsStable(le, s[0], Sort(le, s[1..]), y);
      AlikeFirst(le, y, s[0], Sort(le, s[1..]));
    }
  }

  ghost predicate Distinct<T>(s: seq<T>) {
    forall i, j :: 0 <= i < j < |s| ==> s[i] != s[j]
  }

  lemma {:induction false} DistinctMultiset<T>(s: seq<T>)
    ensures Distinct(s) <==> forall x :: multiset(s)[x] <= 1
  {
    if s != [] {
      DistinctMultiset(s[1..]);
      assert s == [s[0]] + s[1..];
      if Distinct(s) {
        forall x ensures multiset(s)[x] <= 1 {
          if x == s[0] {
            assert x !in s[1..];
          }
        }
      } else {
        var i, j :| 0 <= i < j < |s| && s[i] == s[j];
        if i == 0 {
          assert s[0] in s[1..];
          assert multiset(s)[s[0]] >= 2;
        } else {
          assert s[1..][i - 1] == s[1..][j - 1];
          assert !Distinct(s[1..]);
          var x :| multiset(s[1..])[x] > 1;
          assert multiset(s)[x] > 1;
        }
      }
    }
  }

  /** The first `n` of a sorted list after one more element arrives. */
  lemma {:induction false} TakeOfInsert<T(!new)>(le: (T, T) -> bool, x: T, s: seq<T>, n: nat)
    requires TotalPreorder(le) && SortedBy(le, s) && 0 < n <= |s|
    ensures Insert(le, x, s)[..n] == if le(x, s[n - 1]) then Insert(le, x, s[..n - 1]) else s[..n]
  {
    if n == 1 {
      assert s[..0] == [];
    } else if le(x, s[0]) {
      assert le(s[0], s[n - 1]);
      assert s[..n - 1][0] == s[0];
    } else {
      TakeOfInsert(le, x, s[1..], n - 1);
      assert s[..n - 1][1..] == s[1..][..n - 2];
      assert s[..n] == [s[0]] + s[1..][..n - 1];
      assert s[1..][n - 2] == s[n - 1];
    }
  }
}
