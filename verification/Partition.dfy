/** What the list of connected components is: the linked classes of queries, each once. */
module Partition {
  import opened Contracts
  import opened Ordering
  import opened Counting
  import opened Components

  function Flatten<T>(lists: seq<seq<T>>): seq<T> {
    if lists == [] then [] else lists[0] + Flatten(lists[1..])
  }

  ghost predicate Covers(indices: seq<nat>, n: nat) {
    && |indices| == n
    && Distinct(indices)
    && (forall i :: 0 <= i < n ==> indices[i] < n)
    && (forall i: nat :: i < n ==> i in indices)
  }

  /** A stable sort is a rearrangement of positions. */
  lemma {:induction false} InsertIsPick<T>(le: (T, T) -> bool, x: T, s: seq<T>, items: seq<T>, from: seq<nat>)
    returns (indices: seq<nat>)
    requires forall i :: 0 <= i < |from| ==> from[i] < |items|
    requires s == Pick(items, from)
    ensures forall i :: 0 <= i < |indices| ==> indices[i] < |[x] + items|
    ensures Insert(le, x, s) == Pick([x] + items, indices)
    ensures multiset(indices) == multiset([0]) + multiset(Shifted(from))
  {
    if s == [] || le(x, s[0]) {
      indices := [0] + Shifted(from);
    } else {
      assert s[1..] == Pick(items, from[1..]);
      var rest := InsertIsPick(le, x, s[1..], items, from[1..]);
      indices := [from[0] + 1] + rest;
      assert Pick([x] + items, indices) == [s[0]] + Pick([x] + items, rest);
      ShiftedFirst(from);
    }
  }

  lemma {:induction false} ShiftedFirst(indices: seq<nat>)
    requires indices != []
    ensures multiset(Shifted(indices)) == multiset([indices[0] + 1]) + multiset(Shifted(indices[1..]))
  {
    assert Shifted(indices) == [indices[0] + 1] + Shifted(indices[1..]);
  }

  function Shifted(indices: seq<nat>): seq<nat> {
    seq(|indices|, i requires 0 <= i < |indices| => indices[i] + 1)
  }

  lemma {:induction false} SortIsPick<T>(le: (T, T) -> bool, s: seq<T>) returns (indices: seq<nat>)
    ensures Covers(indices, |s|)
    ensures Sort(le, s) == Pick(s, indices)
  {
    if s == [] {
      indices := [];
    } else {
      var rest := SortIsPick(le, s[1..]);
      indices := InsertCovers(le, s[0], Sort(le, s[1..]), s[1..], rest);
      assert [s[0]] + s[1..] == s;
    }
  }

  lemma {:induction false} InsertCovers<T>(le: (T, T) -> bool, x: T, s: seq<T>, items: seq<T>, from: seq<nat>)
    returns (indices: seq<nat>)
    requires Covers(from, |items|) && s == Pick(items, from)
    ensures Covers(indices, |items| + 1)
    ensures Insert(le, x, s) == Pick([x] + items, indices)
  {
    indices := InsertIsPick(le, x, s, items, from);
    CoversShifted(from, indices, |items|);
  }

  lemma {:induction false} CoversShifted(rest: seq<nat>, indices: seq<nat>, n: nat)
    requires Covers(rest, n)
    requires multiset(indices) == multiset([0]) + multiset(Shifted(rest))
    ensures Covers(indices, n + 1)
  {
    var all := [0] + Shifted(rest);
    assert multiset(indices) == multiset(all);
    assert Distinct(all);
    DistinctMultiset(all);
    DistinctMultiset(indices);
    assert |multiset(indices)| == |indices|;
    assert |multiset(all)| == |all|;
    forall i: nat ensures i in indices <==> i < n + 1 {
      assert i in multiset(indices) <==> i in all;
      if 0 < i < n + 1 {
        var p: nat := i - 1;
        assert p in rest;
        var k :| 0 <= k < n && rest[k] == p;
        assert all[k + 1] == i;
      }
    }
    forall i | 0 <= i < |indices| ensures indices[i] < n + 1 {
      assert indices[i] in indices;
    }
  }

  /******* Every linked class is one component, and every component is one *******/

  ghost predicate AreClasses(queries: seq<Query>, components: seq<seq<Query>>, classes: seq<seq<nat>>) {
    && |classes| == |components|
    && (forall c: nat :: c < |classes| ==> IsClassAt(queries, components, classes, c))
    && (forall a: nat :: a < |queries| ==> IsIn(classes, a))
    && (forall c: nat, d: nat :: c < |classes| && d < |classes| ==> AreApart(queries, classes, c, d))
  }

  ghost predicate IsIn(classes: seq<seq<nat>>, a: nat) {
    exists c: nat :: c < |classes| && a in classes[c]
  }

  ghost predicate AreApart(queries: seq<Query>, classes: seq<seq<nat>>, c: nat, d: nat)
    requires c < |classes| && d < |classes|
  {
    forall a: nat, b: nat :: a in classes[c] && b in classes[d] ==> (c == d <==> Linked(queries, a, b))
  }

  ghost predicate IsClassAt(queries: seq<Query>, components: seq<seq<Query>>, classes: seq<seq<nat>>, c: nat)
    requires c < |classes| == |components|
  {
    && classes[c] != []
    && Distinct(classes[c])
    && (forall k :: 0 <= k < |classes[c]| ==> classes[c][k] < |queries|)
    && components[c] == Sort(ById, Pick(queries, classes[c]))
  }

  lemma {:induction false} EveryQueryHasLeader(queries: seq<Query>, a: nat)
    requires a < |queries|
    ensures exists i: nat :: i < |queries| && Leads(queries, i) && Linked(queries, i, a)
  {
    if Leads(queries, a) {
      LinkedReflexive(queries, a);
    } else {
      var j: nat :| j < a && Linked(queries, j, a);
      EveryQueryHasLeader(queries, j);
      var i: nat :| i < |queries| && Leads(queries, i) && Linked(queries, i, j);
      LinkedTransitive(queries, i, j, a);
    }
  }

  lemma {:induction false} LeadersAreApart(queries: seq<Query>, i: nat, j: nat, a: nat, b: nat)
    requires i < |queries| && j < |queries| && Leads(queries, i) && Leads(queries, j)
    requires Linked(queries, i, a) && Linked(queries, j, b)
    ensures i == j <==> Linked(queries, a, b)
  {
    LinkedSymmetric(queries, i, a);
    LinkedSymmetric(queries, j, b);
    if i == j {
      LinkedTransitive(queries, a, i, b);
    } else if Linked(queries, a, b) {
      LinkedTransitive(queries, i, a, b);
      LinkedTransitive(queries, i, b, j);
      LinkedSymmetric(queries, i, j);
      assert false;
    }
  }

  lemma {:induction false} LeaderClass(queries: seq<Query>, i: nat, component: seq<Query>)
    requires i < |queries| && component == ComponentOf(queries, i)
    ensures IsClassAt(queries, [component], [Members(queries, i, |queries|)], 0)
  {
    MembersAreLinked(queries, i, |queries|);
    LinkedReflexive(queries, i);
    assert i in Members(queries, i, |queries|);
  }

  ghost function LeaderClasses(queries: seq<Query>): (classes: seq<seq<nat>>)
    ensures |classes| == |Leaders(queries, |queries|)|
    ensures forall l :: 0 <= l < |classes| ==> classes[l] == Members(queries, Leaders(queries, |queries|)[l], |queries|)
  {
    var leaders := Leaders(queries, |queries|);
    seq(|leaders|, l requires 0 <= l < |leaders| => Members(queries, leaders[l], |queries|))
  }

  lemma {:induction false} LeaderClassesCover(queries: seq<Query>, a: nat)
    requires a < |queries|
    ensures IsIn(LeaderClasses(queries), a)
  {
    var leaders := Leaders(queries, |queries|);
    LeadersLead(queries, |queries|);
    EveryQueryHasLeader(queries, a);
    var i: nat :| i < |queries| && Leads(queries, i) && Linked(queries, i, a);
    var c :| 0 <= c < |leaders| && leaders[c] == i;
    MembersAreLinked(queries, i, |queries|);
    assert a in LeaderClasses(queries)[c];
  }

  lemma {:induction false} LeaderClassesAreApart(queries: seq<Query>, c: nat, d: nat)
    requires c < |LeaderClasses(queries)| && d < |LeaderClasses(queries)|
    ensures AreApart(queries, LeaderClasses(queries), c, d)
  {
    var leaders := Leaders(queries, |queries|);
    LeadersLead(queries, |queries|);
    MembersAreLinked(queries, leaders[c], |queries|);
    MembersAreLinked(queries, leaders[d], |queries|);
    assert leaders[c] in leaders && leaders[d] in leaders;
    forall a: nat, b: nat | a in LeaderClasses(queries)[c] && b in LeaderClasses(queries)[d]
      ensures c == d <==> Linked(queries, a, b)
    {
      LeadersAreApart(queries, leaders[c], leaders[d], a, b);
    }
  }

  lemma {:induction false} LeaderClassesAreClasses(queries: seq<Query>)
    ensures AreClasses(queries, ComponentsInOrderOfLeaders(queries), LeaderClasses(queries))
  {
    var components, classes := ComponentsInOrderOfLeaders(queries), LeaderClasses(queries);
    forall c: nat | c < |classes| ensures IsClassAt(queries, components, classes, c) {
      LeaderClass(queries, Leaders(queries, |queries|)[c], components[c]);
    }
    forall a: nat | a < |queries| ensures IsIn(classes, a) { LeaderClassesCover(queries, a); }
    forall c: nat, d: nat | c < |classes| && d < |classes| ensures AreApart(queries, classes, c, d) {
      LeaderClassesAreApart(queries, c, d);
    }
  }

  lemma {:induction false} RearrangedClasses(queries: seq<Query>, components: seq<seq<Query>>, classes: seq<seq<nat>>,
                                             indices: seq<nat>)
    requires AreClasses(queries, components, classes) && Covers(indices, |components|)
    ensures AreClasses(queries, Pick(components, indices), Pick(classes, indices))
  {
    var components', classes' := Pick(components, indices), Pick(classes, indices);
    forall c: nat | c < |classes'| ensures IsClassAt(queries, components', classes', c) {
      assert IsClassAt(queries, components, classes, indices[c]);
    }
    forall a: nat | a < |queries| ensures IsIn(classes', a) {
      assert IsIn(classes, a);
      var l: nat :| l < |classes| && a in classes[l];
      assert l in indices;
      var c: nat :| c < |indices| && indices[c] == l;
      assert a in classes'[c];
    }
    forall c: nat, d: nat | c < |classes'| && d < |classes'| ensures AreApart(queries, classes', c, d) {
      assert AreApart(queries, classes, indices[c], indices[d]);
      assert indices[c] == indices[d] <==> c == d;
    }
  }

  /** Main result: two queries are in one component exactly when a chain of shared keys links them. */
  lemma {:induction false} ComponentsAreLinkedClasses(queries: seq<Query>) returns (classes: seq<seq<nat>>)
    ensures AreClasses(queries, ConnectedComponents(queries), classes)
  {
    LeaderClassesAreClasses(queries);
    var indices := SortIsPick(LargerFirst, ComponentsInOrderOfLeaders(queries));
    RearrangedClasses(queries, ComponentsInOrderOfLeaders(queries), LeaderClasses(queries), indices);
    classes := Pick(LeaderClasses(queries), indices);
  }

  /** Larger components come first, equal sizes by first ID; inside a component queries are in ID order. */
  lemma {:induction false} ComponentsAreOrdered(queries: seq<Query>)
    ensures var components := ConnectedComponents(queries);
            forall i, j :: 0 <= i < j < |components| ==> MayPrecede(components[i], components[j])
    ensures forall component :: component in ConnectedComponents(queries) ==> AscendsById(component)
  {
    OrdersAreTotal();
    SortSorted(LargerFirst, ComponentsInOrderOfLeaders(queries));
    var classes := ComponentsAreLinkedClasses(queries);
    forall component | component in ConnectedComponents(queries) ensures AscendsById(component) && component != [] {
      var c: nat :| c < |classes| && ConnectedComponents(queries)[c] == component;
      assert IsClassAt(queries, ConnectedComponents(queries), classes, c);
      SortedAscends(Pick(queries, classes[c]));
    }
    var components := ConnectedComponents(queries);
    forall i, j | 0 <= i < j < |components| ensures MayPrecede(components[i], components[j]) {
      assert LargerFirst(components[i], components[j]);
      assert components[i] in components && components[j] in components;
      OneComesBefore(components[i][0].id, components[j][0].id);
    }
  }

  // Larger, or as large and with a first ID that is not larger.
  ghost predicate MayPrecede(a: seq<Query>, b: seq<Query>) {
    a != [] && b != [] && (|a| > |b| || (|a| == |b| && !ComesBefore(b[0].id, a[0].id)))
  }

  ghost predicate AscendsById(component: seq<Query>) {
    forall i, j :: 0 <= i < j < |component| ==> !ComesBefore(component[j].id, component[i].id)
  }

  lemma {:induction false} SortedAscends(queries: seq<Query>)
    ensures AscendsById(Sort(ById, queries))
  {
    var sorted := Sort(ById, queries);
    OrdersAreTotal();
    SortSorted(ById, queries);
    forall i, j | 0 <= i < j < |sorted| ensures !ComesBefore(sorted[j].id, sorted[i].id) {
      assert ById(sorted[i], sorted[j]);
      OneComesBefore(sorted[i].id, sorted[j].id);
    }
  }

  /******* No query is lost or repeated *******/

  lemma {:induction false} FlattenHas<T>(lists: seq<seq<T>>)
    ensures forall x :: x in Flatten(lists) <==> exists c :: 0 <= c < |lists| && x in lists[c]
  {
    if lists != [] {
      FlattenHas(lists[1..]);
      forall x | x in lists[0] || x in Flatten(lists[1..]) ensures exists c :: 0 <= c < |lists| && x in lists[c] {
        if x !in lists[0] {
          var c :| 0 <= c < |lists[1..]| && x in lists[1..][c];
          assert x in lists[c + 1];
        }
      }
      forall x | exists c :: 0 <= c < |lists| && x in lists[c] ensures x in Flatten(lists) {
        var c :| 0 <= c < |lists| && x in lists[c];
        if c > 0 {
          assert x in lists[1..][c - 1];
        }
      }
    }
  }

  lemma {:induction false} FlattenAppend<T>(a: seq<seq<T>>, b: seq<seq<T>>)
    ensures Flatten(a + b) == Flatten(a) + Flatten(b)
  {
    if a == [] {
      assert a + b == b;
    } else {
      assert (a + b)[1..] == a[1..] + b;
      FlattenAppend(a[1..], b);
    }
  }

  lemma {:induction false} FlattenPermutation<T>(a: seq<seq<T>>, b: seq<seq<T>>)
    requires multiset(a) == multiset(b)
    ensures multiset(Flatten(a)) == multiset(Flatten(b))
  {
    if a == [] {
      assert |multiset(b)| == 0;
    } else {
      var x, rest := a[0], a[1..];
      assert a == [x] + rest;
      var left, right := TakeOut(b, x);
      FlattenPermutation(rest, left + right);
      FlattenAppend(left, right);
      FlattenAppend(left + [x], right);
      FlattenAppend(left, [x]);
      assert Flatten([x]) == x;
    }
  }

  lemma {:induction false} FlattenDistinct<T>(lists: seq<seq<T>>)
    requires forall c :: 0 <= c < |lists| ==> Distinct(lists[c])
    requires forall c, d, x :: 0 <= c < d < |lists| && x in lists[c] ==> x !in lists[d]
    ensures Distinct(Flatten(lists))
  {
    if lists != [] {
      FlattenDistinct(lists[1..]);
      FlattenHas(lists[1..]);
      assert forall x, c :: x in lists[0] && 0 <= c < |lists[1..]| ==> x !in lists[1..][c];
      assert forall x :: x in lists[0] ==> x !in Flatten(lists[1..]);
      var first, rest := lists[0], Flatten(lists[1..]);
      forall i, j | 0 <= i < j < |first + rest| ensures (first + rest)[i] != (first + rest)[j] {
        if i < |first| <= j {
          assert first[i] !in rest;
        }
      }
    }
  }

  lemma {:induction false} PickSplit<T>(items: seq<T>, left: seq<nat>, k: nat, right: seq<nat>)
    requires Below(left, |items|) && k < |items| && Below(right, |items|)
    ensures Below(left + [k] + right, |items|) && Below(left + right, |items|)
    ensures multiset(Pick(items, left + [k] + right)) == multiset{items[k]} + multiset(Pick(items, left + right))
  {
    assert Pick(items, left + [k] + right) == Pick(items, left) + [items[k]] + Pick(items, right);
    assert Pick(items, left + right) == Pick(items, left) + Pick(items, right);
  }

  lemma {:induction false} PickOfPermutation<T>(items: seq<T>, a: seq<nat>, b: seq<nat>)
    requires Below(a, |items|) && Below(b, |items|)
    requires multiset(a) == multiset(b)
    ensures multiset(Pick(items, a)) == multiset(Pick(items, b))
  {
    if a == [] {
      assert |multiset(b)| == 0;
    } else {
      var x, rest := a[0], a[1..];
      assert a == [x] + rest;
      var left, right := TakeOut<nat>(b, x);
      assert forall i :: 0 <= i < |left| ==> left[i] == b[i];
      assert forall i :: 0 <= i < |right| ==> right[i] == b[|left| + 1 + i];
      PickSplit(items, left, x, right);
      PickOfPermutation(items, rest, left + right);
      PickCons(items, x, rest);
    }
  }

  lemma {:induction false} PickCons<T>(items: seq<T>, x: nat, rest: seq<nat>)
    requires x < |items| && Below(rest, |items|)
    ensures Below([x] + rest, |items|) && Pick(items, [x] + rest) == [items[x]] + Pick(items, rest)
  {
  }

  ghost predicate Below(indices: seq<nat>, n: nat) {
    forall i :: 0 <= i < |indices| ==> indices[i] < n
  }

  lemma {:induction false} FlattenOfClasses(queries: seq<Query>, components: seq<seq<Query>>, classes: seq<seq<nat>>)
    requires |classes| == |components|
    requires forall c :: 0 <= c < |classes| ==> IsClassAt(queries, components, classes, c)
    ensures Below(Flatten<nat>(classes), |queries|)
    ensures multiset(Flatten(components)) == multiset(Pick(queries, Flatten<nat>(classes)))
  {
    if classes != [] {
      forall c: nat | c < |classes[1..]| ensures IsClassAt(queries, components[1..], classes[1..], c) {
        assert IsClassAt(queries, components, classes, c + 1);
      }
      FlattenOfClasses(queries, components[1..], classes[1..]);
      assert IsClassAt(queries, components, classes, 0);
      var first, rest := classes[0], Flatten<nat>(classes[1..]);
      assert Flatten<nat>(classes) == first + rest;
      assert Pick(queries, first + rest) == Pick(queries, first) + Pick(queries, rest);
    }
  }

  lemma {:induction false} ClassesCover(queries: seq<Query>, components: seq<seq<Query>>, classes: seq<seq<nat>>)
    requires AreClasses(queries, components, classes)
    ensures Distinct(Flatten<nat>(classes))
    ensures forall a: nat :: a in Flatten<nat>(classes) <==> a < |queries|
  {
    forall c: nat | c < |classes| ensures Distinct(classes[c]) && forall a: nat :: a in classes[c] ==> a < |queries| {
      assert IsClassAt(queries, components, classes, c);
    }
    forall c: nat, d: nat, a: nat | c < d < |classes| && a in classes[c] ensures a !in classes[d] {
      LinkedReflexive(queries, a);
      assert AreApart(queries, classes, c, d);
    }
    FlattenDistinct<nat>(classes);
    FlattenHas<nat>(classes);
    var flat := Flatten<nat>(classes);
    forall a: nat | a < |queries| ensures a in flat {
      assert IsIn(classes, a);
      var c: nat :| c < |classes| && a in classes[c];
      assert 0 <= c < |classes| && a in classes[c];
    }
    forall a: nat | a in flat ensures a < |queries| {
      var c :| 0 <= c < |classes| && a in classes[c];
    }
  }

  lemma {:induction false} CoverIsPermutation(flat: seq<nat>, n: nat)
    requires Distinct(flat) && (forall a: nat :: a in flat <==> a < n)
    ensures multiset(flat) == multiset(Range(n))
  {
    var all := Range(n);
    DistinctMultiset(flat);
    DistinctMultiset(all);
    forall a: nat ensures multiset(flat)[a] == multiset(all)[a] {
      assert a in multiset(flat) <==> a in flat;
      assert a in multiset(all) <==> a in all;
      assert a < n ==> all[a] == a;
    }
  }

  function Range(n: nat): (range: seq<nat>)
    ensures |range| == n && forall i :: 0 <= i < n ==> range[i] == i
  {
    seq(n, i => i)
  }

  /** Conservation: the components hold the queries that were given, with the same multiplicities. */
  lemma {:induction false} ComponentsConserveQueries(queries: seq<Query>)
    ensures multiset(Flatten(ConnectedComponents(queries))) == multiset(queries)
  {
    var classes := ComponentsAreLinkedClasses(queries);
    FlattenOfClasses(queries, ConnectedComponents(queries), classes);
    ClassesCover(queries, ConnectedComponents(queries), classes);
    CoverIsPermutation(Flatten<nat>(classes), |queries|);
    PickOfPermutation(queries, Flatten<nat>(classes), Range(|queries|));
    assert Pick(queries, Range(|queries|)) == queries;
  }

  lemma {:induction false} MemberIsInComponent(queries: seq<Query>, components: seq<seq<Query>>, classes: seq<seq<nat>>,
                                               c: nat, a: nat)
    requires c < |classes| == |components| && IsClassAt(queries, components, classes, c) && a in classes[c]
    ensures a < |queries| && queries[a] in components[c]
  {
    var i :| 0 <= i < |classes[c]| && classes[c][i] == a;
    assert Pick(queries, classes[c])[i] == queries[a];
    InSort(ById, Pick(queries, classes[c]));
  }

  /** Queries that share a key are in one component. */
  lemma {:induction false} SharingQueriesShareComponent(queries: seq<Query>, a: nat, b: nat)
    requires a < |queries| && b < |queries| && Share(queries, a, b)
    ensures exists c :: 0 <= c < |ConnectedComponents(queries)|
              && queries[a] in ConnectedComponents(queries)[c] && queries[b] in ConnectedComponents(queries)[c]
  {
    var classes := ComponentsAreLinkedClasses(queries);
    assert IsIn(classes, a) && IsIn(classes, b);
    var c: nat :| c < |classes| && a in classes[c];
    var d: nat :| d < |classes| && b in classes[d];
    LinkedByShare(queries, a, b);
    assert AreApart(queries, classes, c, d);
    MemberIsInComponent(queries, ConnectedComponents(queries), classes, c, a);
    MemberIsInComponent(queries, ConnectedComponents(queries), classes, c, b);
  }
}
