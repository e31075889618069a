/** Connected components of queries over shared group keys. */
module Components {
  import opened Contracts
  import opened Ordering
  import opened DisjointSets

  /******* Linked by a chain of shared keys *******/

  ghost predicate Share(queries: seq<Query>, a: nat, b: nat)
    requires a < |queries| && b < |queries|
  {
    exists key :: key in queries[a].keys && key in queries[b].keys
  }

  ghost predicate IsChain(queries: seq<Query>, chain: seq<nat>) {
    && chain != []
    && (forall i :: 0 <= i < |chain| ==> chain[i] < |queries|)
    && (forall i :: 0 < i < |chain| ==> Share(queries, chain[i - 1], chain[i]))
  }

  ghost predicate Linked(queries: seq<Query>, a: nat, b: nat) {
    exists chain :: IsChain(queries, chain) && chain[0] == a && chain[|chain| - 1] == b
  }

  lemma {:induction false} LinkedReflexive(queries: seq<Query>, a: nat)
    requires a < |queries|
    ensures Linked(queries, a, a)
  {
    assert IsChain(queries, [a]);
  }

  lemma {:induction false} LinkedByShare(queries: seq<Query>, a: nat, b: nat)
    requires a < |queries| && b < |queries| && Share(queries, a, b)
    ensures Linked(queries, a, b)
  {
    assert IsChain(queries, [a, b]);
  }

  lemma {:induction false} LinkedSymmetric(queries: seq<Query>, a: nat, b: nat)
    requires Linked(queries, a, b)
    ensures Linked(queries, b, a)
  {
    var chain :| IsChain(queries, chain) && chain[0] == a && chain[|chain| - 1] == b;
    var back := seq(|chain|, i requires 0 <= i < |chain| => chain[|chain| - 1 - i]);
    forall i | 0 < i < |back| ensures Share(queries, back[i - 1], back[i]) {
      assert Share(queries, chain[|chain| - 1 - i], chain[|chain| - i]);
    }
    assert IsChain(queries, back);
  }

  lemma {:induction false} LinkedTransitive(queries: seq<Query>, a: nat, b: nat, c: nat)
    requires Linked(queries, a, b) && Linked(queries, b, c)
    ensures Linked(queries, a, c)
  {
    var there :| IsChain(queries, there) && there[0] == a && there[|there| - 1] == b;
    var on :| IsChain(queries, on) && on[0] == b && on[|on| - 1] == c;
    var joined := there + on[1..];
    forall i | 0 < i < |joined| ensures Share(queries, joined[i - 1], joined[i]) {
      if i >= |there| {
        assert joined[i] == on[i - |there| + 1] && joined[i - 1] == on[i - |there|];
      }
    }
    assert IsChain(queries, joined);
  }

  /******* The forest's classes against chains *******/

  // Two elements of one class are linked.
  ghost predicate Sound(queries: seq<Query>, root: seq<nat>)
    requires |root| == |queries|
  {
    forall a, b :: 0 <= a < |root| && 0 <= b < |root| && root[a] == root[b] ==> Linked(queries, a, b)
  }

  // Every key seen has an owner in the class of each query that carries it.
  ghost predicate Owned(queries: seq<Query>, root: seq<nat>, owner: map<string, nat>, a: nat, upTo: nat)
    requires |root| == |queries| && a < |queries| && upTo <= |queries[a].keys|
    requires forall key :: key in owner ==> owner[key] < |queries|
  {
    forall j :: 0 <= j < upTo ==> queries[a].keys[j] in owner && root[owner[queries[a].keys[j]]] == root[a]
  }

  lemma {:induction false} MergeKeepsSound(queries: seq<Query>, root: seq<nat>, left: nat, right: nat)
    requires |root| == |queries| && left < |root| && right < |root|
    requires Sound(queries, root) && Share(queries, left, right)
    ensures Sound(queries, Merged(root, left, right))
  {
    var merged := Merged(root, left, right);
    LinkedByShare(queries, left, right);
    LinkedSymmetric(queries, left, right);
    forall a, b | 0 <= a < |root| && 0 <= b < |root| && merged[a] == merged[b] ensures Linked(queries, a, b) {
      if root[a] != root[b] {
        if root[a] == root[right] {
          LinkedTransitive(queries, a, right, left);
          LinkedTransitive(queries, a, left, b);
        } else {
          LinkedTransitive(queries, a, left, right);
          LinkedTransitive(queries, a, right, b);
        }
      }
    }
  }

  lemma {:induction false} SharingQueriesAreTogether(queries: seq<Query>, root: seq<nat>, owner: map<string, nat>,
                                                     a: nat, b: nat)
    requires |root| == |queries| && a < |queries| && b < |queries|
    requires forall key :: key in owner ==> owner[key] < |queries|
    requires Owned(queries, root, owner, a, |queries[a].keys|)
    requires Owned(queries, root, owner, b, |queries[b].keys|)
    requires Share(queries, a, b)
    ensures root[a] == root[b]
  {
    var key :| key in queries[a].keys && key in queries[b].keys;
    var j :| 0 <= j < |queries[a].keys| && queries[a].keys[j] == key;
    var k :| 0 <= k < |queries[b].keys| && queries[b].keys[k] == key;
    assert root[owner[key]] == root[a] && root[owner[key]] == root[b];
  }

  lemma {:induction false} ChainedQueriesAreTogether(queries: seq<Query>, root: seq<nat>, chain: seq<nat>)
    requires |root| == |queries| && IsChain(queries, chain)
    requires forall a, b :: 0 <= a < |queries| && 0 <= b < |queries| && Share(queries, a, b) ==> root[a] == root[b]
    ensures root[chain[0]] == root[chain[|chain| - 1]]
  {
    if |chain| > 1 {
      assert IsChain(queries, chain[1..]) by {
        forall i | 0 < i < |chain| - 1 ensures Share(queries, chain[1..][i - 1], chain[1..][i]) {
          assert Share(queries, chain[i], chain[i + 1]);
        }
      }
      ChainedQueriesAreTogether(queries, root, chain[1..]);
      assert Share(queries, chain[0], chain[1]);
    }
  }

  // Classes and chains agree, both ways.
  ghost predicate RootsAreLinks(queries: seq<Query>, root: seq<nat>) {
    && |root| == |queries|
    && forall a: nat, b: nat :: a < |root| && b < |root| ==> RootsAreLinksAt(queries, root, a, b)
  }

  ghost predicate RootsAreLinksAt(queries: seq<Query>, root: seq<nat>, a: nat, b: nat)
    requires a < |root| && b < |root|
  {
    root[a] == root[b] <==> Linked(queries, a, b)
  }

  lemma {:induction false} SoundAndOwnedIsExact(queries: seq<Query>, root: seq<nat>, owner: map<string, nat>)
    requires |root| == |queries| && Sound(queries, root)
    requires forall key :: key in owner ==> owner[key] < |queries|
    requires forall a :: 0 <= a < |queries| ==> Owned(queries, root, owner, a, |queries[a].keys|)
    ensures RootsAreLinks(queries, root)
  {
    forall a, b | 0 <= a < |queries| && 0 <= b < |queries| && Share(queries, a, b) ensures root[a] == root[b] {
      SharingQueriesAreTogether(queries, root, owner, a, b);
    }
    forall a: nat, b: nat | a < |root| && b < |root| ensures RootsAreLinksAt(queries, root, a, b) {
      if Linked(queries, a, b) {
        var chain :| IsChain(queries, chain) && chain[0] == a && chain[|chain| - 1] == b;
        ChainedQueriesAreTogether(queries, root, chain);
      }
    }
  }

  // The state of the first loop: all keys of the queries before `index`, and `done` keys of it, are joined.
  ghost predicate Joined(queries: seq<Query>, root: seq<nat>, owner: map<string, nat>, index: nat, done: nat) {
    && |root| == |queries| && index <= |queries|
    && (index < |queries| ==> done <= |queries[index].keys|)
    && Sound(queries, root)
    && (forall key :: key in owner ==> owner[key] < |queries| && key in queries[owner[key]].keys)
    && (forall a :: 0 <= a < index ==> Owned(queries, root, owner, a, |queries[a].keys|))
    && (index < |queries| ==> Owned(queries, root, owner, index, done))
  }

  lemma {:induction false} JoinNextKey(queries: seq<Query>, root: seq<nat>, owner: map<string, nat>, index: nat,
                                       done: nat)
    requires index < |queries| && done < |queries[index].keys|
    requires Joined(queries, root, owner, index, done)
    ensures
      var key := queries[index].keys[done];
      var owner' := if key in owner then owner else owner[key := index];
      Joined(queries, Merged(root, index, owner'[key]), owner', index, done + 1)
  {
    var key := queries[index].keys[done];
    var owner' := if key in owner then owner else owner[key := index];
    assert key in queries[index].keys && key in queries[owner'[key]].keys;
    MergeKeepsSound(queries, root, index, owner'[key]);
    forall a | 0 <= a < index
      ensures Owned(queries, Merged(root, index, owner'[key]), owner', a, |queries[a].keys|)
    {
      StaysOwned(queries, root, owner, index, key, a, |queries[a].keys|);
    }
    StaysOwned(queries, root, owner, index, key, index, done);
    OwnedNext(queries, Merged(root, index, owner'[key]), owner', index, done);
  }

  // A class only grows, and a key keeps its first owner.
  lemma {:induction false} StaysOwned(queries: seq<Query>, root: seq<nat>, owner: map<string, nat>, index: nat,
                                      key: string, a: nat, upTo: nat)
    requires |root| == |queries| && index < |queries| && a < |queries| && upTo <= |queries[a].keys|
    requires forall k :: k in owner ==> owner[k] < |queries|
    requires Owned(queries, root, owner, a, upTo)
    ensures
      var owner' := if key in owner then owner else owner[key := index];
      Owned(queries, Merged(root, index, owner'[key]), owner', a, upTo)
  {
  }

  lemma {:induction false} OwnedNext(queries: seq<Query>, root: seq<nat>, owner: map<string, nat>, a: nat, done: nat)
    requires |root| == |queries| && a < |queries| && done < |queries[a].keys|
    requires forall k :: k in owner ==> owner[k] < |queries|
    requires Owned(queries, root, owner, a, done)
    requires queries[a].keys[done] in owner && root[owner[queries[a].keys[done]]] == root[a]
    ensures Owned(queries, root, owner, a, done + 1)
  {
  }

  /** The first loop: one class per connected component. */
  method BuildForest(queries: seq<Query>) returns (sets: UnionFind)
    ensures fresh(sets) && sets.Valid() && |sets.parent| == |queries|
    ensures RootsAreLinks(queries, sets.root)
  {
    sets := new UnionFind(|queries|);
    var owner: map<string, nat> := map[];
    assert Sound(queries, sets.root) by {
      forall a | 0 <= a < |queries| ensures Linked(queries, a, a) { LinkedReflexive(queries, a); }
    }
    for index := 0 to |queries|
      invariant fresh(sets) && sets.Valid() && |sets.parent| == |queries|
      invariant Joined(queries, sets.root, owner, index, 0)
    {
      var keys := queries[index].keys;
      for j := 0 to |keys|
        invariant fresh(sets) && sets.Valid() && |sets.parent| == |queries|
        invariant Joined(queries, sets.root, owner, index, j)
      {
        JoinNextKey(queries, sets.root, owner, index, j);
        if keys[j] !in owner {
          owner := owner[keys[j] := index];
        }
        sets.Union(index, owner[keys[j]]);
      }
      assert Owned(queries, sets.root, owner, index, |keys|);
    }
    SoundAndOwnedIsExact(queries, sets.root, owner);
  }

  /******* Components as lists, defined by chains alone *******/

  predicate ById(a: Query, b: Query) {
    StringLe(a.id, b.id)
  }

  function FirstId(component: seq<Query>): string {
    if component == [] then "" else component[0].id
  }

  predicate LargerFirst(a: seq<Query>, b: seq<Query>) {
    |a| > |b| || (|a| == |b| && StringLe(FirstId(a), FirstId(b)))
  }

  lemma {:induction false} OrdersAreTotal()
    ensures TotalPreorder(ById) && TotalPreorder(LargerFirst)
  {
    StringLeIsTotalOrder();
  }

  function Pick<T>(items: seq<T>, indices: seq<nat>): (picked: seq<T>)
    requires forall i :: 0 <= i < |indices| ==> indices[i] < |items|
  {
    seq(|indices|, i requires 0 <= i < |indices| => items[indices[i]])
  }

  // The indices below `n` linked to `i`, ascending.
  ghost function Members(queries: seq<Query>, i: nat, n: nat): (members: seq<nat>)
    requires n <= |queries|
    ensures forall k :: 0 <= k < |members| ==> members[k] < n
  {
    if n == 0 then []
    else if Linked(queries, i, n - 1) then Members(queries, i, n - 1) + [n - 1]
    else Members(queries, i, n - 1)
  }

  ghost predicate Leads(queries: seq<Query>, i: nat) {
    forall j: nat :: j < i ==> !Linked(queries, j, i)
  }

  // The least index of every component met below `n`, ascending.
  ghost function Leaders(queries: seq<Query>, n: nat): (leaders: seq<nat>)
    requires n <= |queries|
    ensures forall k :: 0 <= k < |leaders| ==> leaders[k] < n
  {
    if n == 0 then []
    else if Leads(queries, n - 1) then Leaders(queries, n - 1) + [n - 1]
    else Leaders(queries, n - 1)
  }

  lemma {:induction false} MembersAreLinked(queries: seq<Query>, i: nat, n: nat)
    requires n <= |queries|
    ensures forall j: nat :: j in Members(queries, i, n) <==> j < n && Linked(queries, i, j)
    ensures forall k, l :: 0 <= k < l < |Members(queries, i, n)|
                           ==> Members(queries, i, n)[k] < Members(queries, i, n)[l]
  {
    if n > 0 {
      MembersAreLinked(queries, i, n - 1);
    }
  }

  lemma {:induction false} LeadersLead(queries: seq<Query>, n: nat)
    requires n <= |queries|
    ensures forall i: nat :: i in Leaders(queries, n) <==> i < n && Leads(queries, i)
    ensures forall k, l :: 0 <= k < l < |Leaders(queries, n)| ==> Leaders(queries, n)[k] < Leaders(queries, n)[l]
  {
    if n > 0 {
      LeadersLead(queries, n - 1);
    }
  }

  ghost function ComponentOf(queries: seq<Query>, i: nat): seq<Query> {
    Sort(ById, Pick(queries, Members(queries, i, |queries|)))
  }

  ghost function ComponentsInOrderOfLeaders(queries: seq<Query>): (components: seq<seq<Query>>)
    ensures |components| == |Leaders(queries, |queries|)|
    ensures forall l :: 0 <= l < |components| ==> components[l] == ComponentOf(queries, Leaders(queries, |queries|)[l])
  {
    var leaders := Leaders(queries, |queries|);
    seq(|leaders|, l requires 0 <= l < |leaders| => ComponentOf(queries, leaders[l]))
  }

  ghost function ConnectedComponents(queries: seq<Query>): seq<seq<Query>> {
    Sort(LargerFirst, ComponentsInOrderOfLeaders(queries))
  }

  /******* The same lists, read off the forest's representatives *******/

  function RootMembers(root: seq<nat>, r: nat, n: nat): (members: seq<nat>)
    requires n <= |root|
    ensures forall k :: 0 <= k < |members| ==> members[k] < n
  {
    if n == 0 then []
    else if root[n - 1] == r then RootMembers(root, r, n - 1) + [n - 1]
    else RootMembers(root, r, n - 1)
  }

  function RootLeaders(root: seq<nat>, n: nat): (leaders: seq<nat>)
    requires n <= |root|
    ensures forall k :: 0 <= k < |leaders| ==> leaders[k] < n
  {
    if n == 0 then []
    else if root[n - 1] !in root[..n - 1] then RootLeaders(root, n - 1) + [n - 1]
    else RootLeaders(root, n - 1)
  }

  lemma {:induction false} RootMembersAreMembers(queries: seq<Query>, root: seq<nat>, i: nat, n: nat)
    requires RootsAreLinks(queries, root) && i < |root| && n <= |root|
    ensures RootMembers(root, root[i], n) == Members(queries, i, n)
  {
    if n > 0 {
      RootMembersAreMembers(queries, root, i, n - 1);
      assert RootsAreLinksAt(queries, root, i, n - 1);
    }
  }

  lemma {:induction false} RootLeadersAreLeaders(queries: seq<Query>, root: seq<nat>, n: nat)
    requires RootsAreLinks(queries, root) && n <= |root|
    ensures RootLeaders(root, n) == Leaders(queries, n)
  {
    if n > 0 {
      var last := n - 1;
      RootLeadersAreLeaders(queries, root, last);
      NewRootIffLeads(queries, root, last);
    }
  }

  lemma {:induction false} NewRootIffLeads(queries: seq<Query>, root: seq<nat>, last: nat)
    requires RootsAreLinks(queries, root) && last < |root|
    ensures root[last] !in root[..last] <==> Leads(queries, last)
  {
    var before := root[..last];
    forall j: nat | j < last ensures Linked(queries, j, last) <==> before[j] == root[last] {
      assert RootsAreLinksAt(queries, root, j, last);
    }
    if root[last] in before {
      var j: nat :| j < last && before[j] == root[last];
      assert Linked(queries, j, last);
    }
  }

  // The state of the second loop after `n` queries: the roots met, and the queries met of each.
  ghost predicate Grouped(queries: seq<Query>, root: seq<nat>, order: seq<nat>, grouped: map<nat, seq<Query>>, n: nat)
    requires n <= |queries| == |root|
  {
    && order == Pick(root, RootLeaders(root, n))
    && (forall r: nat :: r in grouped <==> r in root[..n])
    && (forall r: nat :: r in grouped ==> grouped[r] == Pick(queries, RootMembers(root, r, n)))
  }

  function Extend(queries: seq<Query>, grouped: map<nat, seq<Query>>, r: nat, n: nat): map<nat, seq<Query>>
    requires n < |queries|
  {
    grouped[r := (if r in grouped then grouped[r] else []) + [queries[n]]]
  }

  lemma {:induction false} NoMembersBeforeFirst(root: seq<nat>, r: nat, n: nat)
    requires n <= |root| && r !in root[..n]
    ensures RootMembers(root, r, n) == []
  {
    if n > 0 {
      assert root[n - 1] == root[..n][n - 1];
      assert root[..n - 1] == root[..n][..n - 1];
      NoMembersBeforeFirst(root, r, n - 1);
    }
  }

  lemma {:induction false} GroupNext(queries: seq<Query>, root: seq<nat>, order: seq<nat>,
                                     grouped: map<nat, seq<Query>>, n: nat)
    requires n < |queries| == |root|
    requires Grouped(queries, root, order, grouped, n)
    ensures Grouped(queries, root, if root[n] in grouped then order else order + [root[n]],
                    Extend(queries, grouped, root[n], n), n + 1)
  {
    assert root[..n + 1] == root[..n] + [root[n]];
    var r, grouped' := root[n], Extend(queries, grouped, root[n], n);
    if r !in grouped {
      NoMembersBeforeFirst(root, r, n);
    }
    assert grouped'[r] == Pick(queries, RootMembers(root, r, n)) + [queries[n]];
    assert forall q: nat :: q in grouped' && q != r ==> RootMembers(root, q, n + 1) == RootMembers(root, q, n);
  }

  /** The second loop: queries by representative, in the order the representatives are met. */
  method GroupByRoot(queries: seq<Query>, sets: UnionFind) returns (order: seq<nat>, grouped: map<nat, seq<Query>>)
    requires sets.Valid() && |sets.parent| == |queries|
    modifies sets`parent
    ensures Grouped(queries, sets.root, order, grouped, |queries|)
  {
    order, grouped := [], map[];
    for n := 0 to |queries|
      invariant sets.Valid() && |sets.parent| == |queries|
      invariant Grouped(queries, sets.root, order, grouped, n)
    {
      var r := sets.Find(n);
      GroupNext(queries, sets.root, order, grouped, n);
      if r !in grouped {
        order := order + [r];
      }
      grouped := Extend(queries, grouped, r, n);
    }
  }

  lemma {:induction false} LeaderRootsAreMet(root: seq<nat>, n: nat, l: nat)
    requires n <= |root| && l < |RootLeaders(root, n)|
    ensures root[RootLeaders(root, n)[l]] in root[..n]
  {
    assert root[RootLeaders(root, n)[l]] == root[..n][RootLeaders(root, n)[l]];
  }

  method SortGroups(order: seq<nat>, grouped: map<nat, seq<Query>>) returns (sorted: seq<seq<Query>>)
    requires forall l :: 0 <= l < |order| ==> order[l] in grouped
    ensures |sorted| == |order|
    ensures forall l :: 0 <= l < |order| ==> sorted[l] == Sort(ById, grouped[order[l]])
  {
    sorted := [];
    for l := 0 to |order|
      invariant |sorted| == l
      invariant forall k :: 0 <= k < l ==> sorted[k] == Sort(ById, grouped[order[k]])
    {
      sorted := sorted + [Sort(ById, grouped[order[l]])];
    }
  }

  lemma {:induction false} GroupsAreComponents(queries: seq<Query>, root: seq<nat>, order: seq<nat>,
                                               grouped: map<nat, seq<Query>>)
    requires RootsAreLinks(queries, root) && Grouped(queries, root, order, grouped, |queries|)
    ensures |order| == |ComponentsInOrderOfLeaders(queries)|
    ensures forall l :: 0 <= l < |order| ==>
              order[l] in grouped && Sort(ById, grouped[order[l]]) == ComponentsInOrderOfLeaders(queries)[l]
  {
    RootLeadersAreLeaders(queries, root, |queries|);
    forall l | 0 <= l < |order|
      ensures order[l] in grouped && Sort(ById, grouped[order[l]]) == ComponentsInOrderOfLeaders(queries)[l]
    {
      LeaderRootsAreMet(root, |queries|, l);
      RootMembersAreMembers(queries, root, Leaders(queries, |queries|)[l], |queries|);
    }
  }

  /** The components the union-find finds are those of the chains of shared keys. */
  method FindComponents(queries: seq<Query>) returns (components: seq<seq<Query>>)
    ensures components == ConnectedComponents(queries)
  {
    var sets := BuildForest(queries);
    var order, grouped := GroupByRoot(queries, sets);
    GroupsAreComponents(queries, sets.root, order, grouped);
    var sorted := SortGroups(order, grouped);
    assert sorted == ComponentsInOrderOfLeaders(queries);
    components := Sort(LargerFirst, sorted);
  }
}
