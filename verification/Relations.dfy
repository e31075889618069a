/** The dependency tree of a sentence: children by head, the tokens below a token, and the mentions found there. */
module Relations {
  import opened Wrappers
  import opened Ordering

  datatype Token = Token(index: int, head: int)

  // A mention spans tokens from start to end; its ID identifies it.
  datatype Mention = Mention(id: string, tokenStart: int, tokenEnd: int, startChar: int)

  type Children = map<int, seq<int>>

  predicate IntLe(a: int, b: int) {
    a <= b
  }

  lemma IntLeIsTotal()
    ensures TotalPreorder(IntLe) && Antisymmetric(IntLe)
  {
  }

  /******* Children by head *******/

  // The indices of the tokens below a head, in token order.
  function Below(tokens: seq<Token>, head: int): seq<int> {
    if tokens == [] then []
    else
      var last := tokens[|tokens| - 1];
      var before := Below(tokens[..|tokens| - 1], head);
      if last.head == head && last.index != head then before + [last.index] else before
  }

  // The tree has an edge from a head to a token that is not its own head.
  ghost predicate IsEdge(tokens: seq<Token>, head: int, index: int) {
    exists i :: 0 <= i < |tokens| && tokens[i] == Token(index, head) && index != head
  }

  lemma {:induction false} BelowMeans(tokens: seq<Token>, head: int, index: int)
    ensures index in Below(tokens, head) <==> IsEdge(tokens, head, index)
    decreases |tokens|
  {
    if tokens != [] {
      var before, last := tokens[..|tokens| - 1], tokens[|tokens| - 1];
      BelowMeans(before, head, index);
      if IsEdge(before, head, index) {
        var i :| 0 <= i < |before| && before[i] == Token(index, head) && index != head;
        assert tokens[i] == Token(index, head);
      }
      if IsEdge(tokens, head, index) {
        var i :| 0 <= i < |tokens| && tokens[i] == Token(index, head) && index != head;
        assert i < |before| ==> before[i] == Token(index, head);
      }
    }
  }

  // What the dictionary holds after some tokens.
  ghost predicate AreChildren(tokens: seq<Token>, children: Children) {
    && (forall head :: head in children <==> Below(tokens, head) != [])
    && (forall head :: head in children ==> children[head] == Below(tokens, head))
  }

  lemma {:induction false} AddChild(tokens: seq<Token>, n: nat, children: Children)
    requires n < |tokens| && AreChildren(tokens[..n], children)
    ensures var token := tokens[n];
            AreChildren(tokens[..n + 1],
                        if token.head == token.index then children
                        else
                          children[token.head :=
                            (if token.head in children then children[token.head] else []) + [token.index]])
  {
    var token := tokens[n];
    assert tokens[..n + 1][..n] == tokens[..n] && tokens[..n + 1][n] == token;
    forall head
      ensures Below(tokens[..n + 1], head)
              == if token.head == head && token.index != head then Below(tokens[..n], head) + [token.index]
                  else Below(tokens[..n], head)
    {
    }
  }

  // Each head's children in ascending order.
  ghost predicate AreSortedChildren(tokens: seq<Token>, children: Children) {
    && (forall head :: head in children <==> Below(tokens, head) != [])
    && (forall head :: head in children ==> children[head] == Sort(IntLe, Below(tokens, head)))
  }

  method ChildrenByHead(tokens: seq<Token>) returns (children: Children)
    ensures AreSortedChildren(tokens, children)
  {
    var collected: Children := map[];
    for n := 0 to |tokens|
      invariant AreChildren(tokens[..n], collected)
    {
      AddChild(tokens, n, collected);
      var token := tokens[n];
      if token.head != token.index {
        if token.head !in collected {
          collected := collected[token.head := []];
        }
        collected := collected[token.head := collected[token.head] + [token.index]];
      }
    }
    assert tokens[..|tokens|] == tokens;
    children := map head | head in collected :: Sort(IntLe, collected[head]);
  }

  // children.get(item, ())
  function ChildrenOf(children: Children, index: int): seq<int> {
    if index in children then children[index] else []
  }

  /** A token is listed below another exactly when the tree has that edge. */
  lemma {:induction false} ChildrenAreEdges(tokens: seq<Token>, children: Children, head: int, index: int)
    requires AreSortedChildren(tokens, children)
    ensures index in ChildrenOf(children, head) <==> IsEdge(tokens, head, index)
  {
    BelowMeans(tokens, head, index);
    if head in children {
      InSort(IntLe, Below(tokens, head));
    }
  }

  /******* Descendants *******/

  // A walk of child edges, one after the other.
  ghost predicate IsWalk(children: Children, walk: seq<int>) {
    |walk| >= 2 && forall i :: 0 <= i < |walk| - 1 ==> walk[i + 1] in ChildrenOf(children, walk[i])
  }

  ghost predicate IsReachable(children: Children, root: int, index: int) {
    exists walk :: IsWalk(children, walk) && walk[0] == root && walk[|walk| - 1] == index
  }

  lemma {:induction false} ChildIsReachable(children: Children, root: int, child: int)
    requires child in ChildrenOf(children, root)
    ensures IsReachable(children, root, child)
  {
    assert IsWalk(children, [root, child]);
  }

  lemma {:induction false} ReachFurther(children: Children, root: int, index: int, child: int)
    requires IsReachable(children, root, index) && child in ChildrenOf(children, index)
    ensures IsReachable(children, root, child)
  {
    var walk :| IsWalk(children, walk) && walk[0] == root && walk[|walk| - 1] == index;
    var further := walk + [child];
    forall i | 0 <= i < |further| - 1 ensures further[i + 1] in ChildrenOf(children, further[i]) {
      if i < |walk| - 1 {
        assert further[i + 1] == walk[i + 1];
      }
    }
    assert IsWalk(children, further);
  }

  // A set that holds the root's children and the children of its elements.
  ghost predicate IsClosed(children: Children, root: int, s: set<int>) {
    && (forall child :: child in ChildrenOf(children, root) ==> child in s)
    && (forall index, child :: index in s && child in ChildrenOf(children, index) ==> child in s)
  }

  lemma {:induction false} ClosedHoldsReachable(children: Children, root: int, s: set<int>, walk: seq<int>, i: nat)
    requires IsClosed(children, root, s) && IsWalk(children, walk) && walk[0] == root && 1 <= i < |walk|
    ensures walk[i] in s
    decreases i
  {
    var j, index := i - 1, walk[i];
    assert walk[j + 1] in ChildrenOf(children, walk[j]);
    assert index in ChildrenOf(children, walk[j]);
    if i > 1 {
      ClosedHoldsReachable(children, root, s, walk, j);
    }
  }

  // What the loop keeps: whoever is seen or pending is reachable, and whoever is not yet pending has its children seen.
  ghost predicate IsSearch(children: Children, root: int, pending: seq<int>, observed: set<int>) {
    && (forall index :: index in observed ==> IsReachable(children, root, index))
    && (forall index :: index in pending ==> IsReachable(children, root, index))
    && (forall child :: child in ChildrenOf(children, root) ==> child in observed || child in pending)
    && (forall index, child :: index in observed && child in ChildrenOf(children, index)
                               ==> child in observed || child in pending)
  }

  // Every token that is somebody's child.
  function AllChildren(children: Children): set<int> {
    set head, i | head in children && 0 <= i < |children[head]| :: children[head][i]
  }

  ghost predicate AreKnown(children: Children, pending: seq<int>) {
    forall index :: index in pending ==> index in AllChildren(children)
  }

  lemma {:induction false} ChildrenAreKnown(children: Children, index: int)
    ensures AreKnown(children, ChildrenOf(children, index))
  {
    forall child | child in ChildrenOf(children, index) ensures child in AllChildren(children) {
      var i :| 0 <= i < |children[index]| && children[index][i] == child;
    }
  }

  lemma {:induction false} SearchStarts(children: Children, root: int)
    ensures IsSearch(children, root, ChildrenOf(children, root), {})
  {
    forall child | child in ChildrenOf(children, root) ensures IsReachable(children, root, child) {
      ChildIsReachable(children, root, child);
    }
  }

  lemma {:induction false} SearchSkips(children: Children, root: int, rest: seq<int>, item: int, observed: set<int>)
    requires IsSearch(children, root, rest + [item], observed) && item in observed
    ensures IsSearch(children, root, rest, observed)
  {
    assert forall index :: index in rest + [item] <==> index in rest || index == item;
  }

  lemma {:induction false} SearchGoesOn(children: Children, root: int, rest: seq<int>, item: int, observed: set<int>)
    requires IsSearch(children, root, rest + [item], observed) && item !in observed
    ensures IsSearch(children, root, rest + ChildrenOf(children, item), observed + {item})
  {
    var pending, more := rest + [item], ChildrenOf(children, item);
    assert item in pending;
    assert forall index :: index in pending <==> index in rest || index == item;
    forall index | index in rest + more ensures IsReachable(children, root, index) {
      if index in more {
        ReachFurther(children, root, item, index);
      } else {
        assert index in pending;
      }
    }
  }

  lemma {:induction false} SearchEnds(children: Children, root: int, observed: set<int>)
    requires IsSearch(children, root, [], observed)
    ensures forall index :: index in observed <==> IsReachable(children, root, index)
  {
    forall index | IsReachable(children, root, index) ensures index in observed {
      var walk :| IsWalk(children, walk) && walk[0] == root && walk[|walk| - 1] == index;
      ClosedHoldsReachable(children, root, observed, walk, |walk| - 1);
    }
  }

  ghost predicate IsAscending(s: seq<int>) {
    forall i, j :: 0 <= i < j < |s| ==> s[i] < s[j]
  }

  lemma {:induction false} DistinctSortAscends(s: seq<int>)
    requires Distinct(s)
    ensures IsAscending(Sort(IntLe, s)) && forall x :: x in Sort(IntLe, s) <==> x in s
  {
    var sorted := Sort(IntLe, s);
    IntLeIsTotal();
    SortSorted(IntLe, s);
    InSort(IntLe, s);
    DistinctMultiset(s);
    DistinctMultiset(sorted);
    forall i, j | 0 <= i < j < |sorted| ensures sorted[i] < sorted[j] {
      assert IntLe(sorted[i], sorted[j]) && sorted[i] != sorted[j];
    }
  }

  /** Main result: the worklist ends on every assignment of heads, cyclic ones too, with exactly the tokens that one or
      more child edges lead to. */
  method Descendants(children: Children, root: int) returns (found: seq<int>)
    ensures IsAscending(found)
    ensures forall index :: index in found <==> IsReachable(children, root, index)
  {
    var pending, observed: set<int> := ChildrenOf(children, root), {};
    var elements: seq<int> := [];   // of observed
    SearchStarts(children, root);
    ChildrenAreKnown(children, root);
    while pending != []
      invariant IsSearch(children, root, pending, observed)
      invariant AreKnown(children, pending)
      invariant Distinct(elements) && forall index :: index in elements <==> index in observed
      decreases AllChildren(children) - observed, |pending|
    {
      var item, rest := pending[|pending| - 1], pending[..|pending| - 1];
      assert pending == rest + [item] && item in pending;
      if item in observed {
        SearchSkips(children, root, rest, item, observed);
        pending := rest;
      } else {
        SearchGoesOn(children, root, rest, item, observed);
        ChildrenAreKnown(children, item);
        assert item in AllChildren(children) - observed;
        observed, elements := observed + {item}, elements + [item];
        pending := rest + ChildrenOf(children, item);
      }
    }
    SearchEnds(children, root, observed);
    DistinctSortAscends(elements);
    found := Sort(IntLe, elements);
  }

  /******* Mentions *******/

  predicate Covers(mention: Mention, index: int) {
    mention.tokenStart <= index < mention.tokenEnd
  }

  // The key of the minimum: the shorter mention, then the earlier one.
  predicate Before(a: Mention, b: Mention) {
    var x, y := a.tokenEnd - a.tokenStart, b.tokenEnd - b.tokenStart;
    x < y || (x == y && a.startChar < b.startChar)
  }

  // Python's min keeps the first of several least elements.
  function Least(mentions: seq<Mention>, index: int): Option<Mention> {
    if mentions == [] then None
    else
      var before, last := Least(mentions[..|mentions| - 1], index), mentions[|mentions| - 1];
      if !Covers(last, index) then before
      else if before == None || Before(last, before.value) then Some(last)
      else before
  }

  ghost predicate IsLeast(mentions: seq<Mention>, index: int, k: nat) {
    && k < |mentions| && Covers(mentions[k], index)
    && (forall i :: 0 <= i < |mentions| && Covers(mentions[i], index) ==> !Before(mentions[i], mentions[k]))
    && (forall i :: 0 <= i < k && Covers(mentions[i], index) ==> Before(mentions[k], mentions[i]))
  }

  lemma {:induction false} LeastNext(mentions: seq<Mention>, index: int, k: nat)
    requires mentions != [] && IsLeast(mentions[..|mentions| - 1], index, k)
    ensures var n := |mentions| - 1;
            if Covers(mentions[n], index) && Before(mentions[n], mentions[k]) then IsLeast(mentions, index, n)
                else IsLeast(mentions, index, k)
  {
    var n := |mentions| - 1;
    var init := mentions[..n];
    forall i | 0 <= i < n && Covers(mentions[i], index) ensures !Before(mentions[i], mentions[k]) {
      assert init[i] == mentions[i];
    }
    forall i | 0 <= i < k && Covers(mentions[i], index) ensures Before(mentions[k], mentions[i]) {
      assert init[i] == mentions[i];
    }
  }

  lemma {:induction false} LeastAt(mentions: seq<Mention>, index: int) returns (k: nat)
    requires Least(mentions, index).Some?
    ensures IsLeast(mentions, index, k) && mentions[k] == Least(mentions, index).value
    decreases |mentions|
  {
    var n := |mentions| - 1;
    if Least(mentions[..n], index).Some? {
      k := LeastAt(mentions[..n], index);
      LeastNext(mentions, index, k);
      if Covers(mentions[n], index) && Before(mentions[n], mentions[k]) {
        k := n;
      }
    } else {
      LeastIsNone(mentions[..n], index);
      assert forall i :: 0 <= i < n ==> mentions[i] == mentions[..n][i];
      k := n;
    }
  }

  lemma {:induction false} LeastIsNone(mentions: seq<Mention>, index: int)
    ensures Least(mentions, index) == None <==> forall i :: 0 <= i < |mentions| ==> !Covers(mentions[i], index)
    decreases |mentions|
  {
    if mentions != [] {
      var n := |mentions| - 1;
      LeastIsNone(mentions[..n], index);
      assert forall i :: 0 <= i < n ==> mentions[i] == mentions[..n][i];
    }
  }

  // The mention's tokens include this one; of those that do, none is shorter, as short and earlier in the text, or both
  // alike and listed before it.
  ghost predicate IsChosenAt(mentions: seq<Mention>, index: int, k: nat) {
    && k < |mentions| && mentions[k].tokenStart <= index && index < mentions[k].tokenEnd
    && forall i :: 0 <= i < |mentions| && mentions[i].tokenStart <= index < mentions[i].tokenEnd ==>
         var mine, its := mentions[k].tokenEnd - mentions[k].tokenStart, mentions[i].tokenEnd - mentions[i].tokenStart;
         its > mine || (its == mine && (mentions[i].startChar > mentions[k].startChar
                                        || (mentions[i].startChar == mentions[k].startChar && i >= k)))
  }

  ghost predicate IsChosen(mentions: seq<Mention>, index: int, mention: Mention) {
    exists k: nat :: IsChosenAt(mentions, index, k) && mentions[k] == mention
  }

  /** The mention chosen at a token: the first of the shortest and earliest that cover it, if any does. */
  lemma {:induction false} LeastMeans(mentions: seq<Mention>, index: int, mention: Mention)
    ensures Least(mentions, index) == Some(mention) <==> IsChosen(mentions, index, mention)
    ensures Least(mentions, index) == None
            <==> forall i :: 0 <= i < |mentions| ==> !(mentions[i].tokenStart <= index < mentions[i].tokenEnd)
  {
    LeastIsNone(mentions, index);
    assert forall i :: 0 <= i < |mentions| ==>
                         (Covers(mentions[i], index) <==> mentions[i].tokenStart <= index < mentions[i].tokenEnd);
    if Least(mentions, index).Some? {
      var k := LeastAt(mentions, index);
      LeastIsChosen(mentions, index, k);
      forall j: nat | IsChosenAt(mentions, index, j) ensures j == k {
        OneIsChosen(mentions, index, j, k);
      }
    }
  }

  lemma {:induction false} LeastIsChosen(mentions: seq<Mention>, index: int, k: nat)
    requires IsLeast(mentions, index, k)
    ensures IsChosenAt(mentions, index, k)
  {
    forall i | 0 <= i < |mentions| && mentions[i].tokenStart <= index < mentions[i].tokenEnd
      ensures !Before(mentions[i], mentions[k]) && (i < k ==> Before(mentions[k], mentions[i]))
    {
      assert Covers(mentions[i], index);
    }
  }

  lemma {:induction false} OneIsChosen(mentions: seq<Mention>, index: int, j: nat, k: nat)
    requires IsChosenAt(mentions, index, j) && IsChosenAt(mentions, index, k)
    ensures j == k
  {
  }

  ghost predicate IsInSubtree(children: Children, root: int, index: int) {
    index == root || IsReachable(children, root, index)
  }

  predicate ById(a: Mention, b: Mention) {
    StringLe(a.id, b.id)
  }

  // What a dictionary of mentions by ID holds after some tokens.
  ghost predicate AreFound(mentions: seq<Mention>, indexes: seq<int>, found: map<string, Mention>) {
    && (forall id :: id in found ==> found[id].id == id && ChosenAmong(mentions, indexes, found[id]))
    && (forall k :: 0 <= k < |indexes| && Least(mentions, indexes[k]).Some?
                    ==> Least(mentions, indexes[k]).value.id in found)
  }

  ghost predicate ChosenAmong(mentions: seq<Mention>, indexes: seq<int>, mention: Mention) {
    exists k :: 0 <= k < |indexes| && Least(mentions, indexes[k]) == Some(mention)
  }

  lemma {:induction false} FindNext(mentions: seq<Mention>, indexes: seq<int>, n: nat, found: map<string, Mention>)
    requires n < |indexes| && AreFound(mentions, indexes[..n], found)
    ensures var chosen := Least(mentions, indexes[n]);
            AreFound(mentions, indexes[..n + 1], if chosen.Some? then found[chosen.value.id := chosen.value] else found)
  {
    var chosen := Least(mentions, indexes[n]);
    var after := if chosen.Some? then found[chosen.value.id := chosen.value] else found;
    var seen := indexes[..n + 1];
    assert forall k :: 0 <= k < n ==> seen[k] == indexes[..n][k];
    forall id | id in after ensures after[id].id == id && ChosenAmong(mentions, seen, after[id]) {
      if chosen.Some? && id == chosen.value.id {
        assert Least(mentions, seen[n]) == Some(after[id]);
      } else {
        assert ChosenAmong(mentions, indexes[..n], found[id]);
        var k :| 0 <= k < n && Least(mentions, indexes[..n][k]) == Some(found[id]);
        assert Least(mentions, seen[k]) == Some(after[id]);
      }
    }
  }

  // A mention's ID is the digest of its span, so no two mentions share one.
  ghost predicate HaveOwnIds(mentions: seq<Mention>) {
    forall i, j :: 0 <= i < |mentions| && 0 <= j < |mentions| && mentions[i].id == mentions[j].id
                   ==> mentions[i] == mentions[j]
  }

  lemma {:induction false} ChosenIsMention(mentions: seq<Mention>, index: int)
    ensures Least(mentions, index).Some? ==> Least(mentions, index).value in mentions
  {
    if Least(mentions, index).Some? {
      var k := LeastAt(mentions, index);
    }
  }

  lemma {:induction false} FoundAreChosen(mentions: seq<Mention>, indexes: seq<int>, found: map<string, Mention>,
                                          mention: Mention)
    requires HaveOwnIds(mentions) && AreFound(mentions, indexes, found)
    ensures ChosenAmong(mentions, indexes, mention) <==> mention.id in found && found[mention.id] == mention
  {
    if ChosenAmong(mentions, indexes, mention) {
      var k :| 0 <= k < |indexes| && Least(mentions, indexes[k]) == Some(mention);
      var other := found[mention.id];
      assert ChosenAmong(mentions, indexes, other);
      var j :| 0 <= j < |indexes| && Least(mentions, indexes[j]) == Some(other);
      ChosenIsMention(mentions, indexes[k]);
      ChosenIsMention(mentions, indexes[j]);
    }
  }

  // The values of a dictionary, in ascending order of their keys; `keys` are its keys in the order of insertion.
  method SortedMentions(keys: seq<string>, found: map<string, Mention>) returns (sorted: seq<Mention>)
    requires AreKeys(keys, found) && forall id :: id in found ==> found[id].id == id
    ensures forall i, j :: 0 <= i < j < |sorted| ==> ComesBefore(sorted[i].id, sorted[j].id)
    ensures forall mention :: mention in sorted <==> mention.id in found && found[mention.id] == mention
  {
    var values := seq(|keys|, k requires 0 <= k < |keys| => found[keys[k]]);
    forall mention ensures mention in values <==> mention.id in found && found[mention.id] == mention {
      if mention.id in found && found[mention.id] == mention {
        var k :| 0 <= k < |keys| && keys[k] == mention.id;
        assert values[k] == mention;
      }
    }
    forall i, j | 0 <= i < j < |values| ensures values[i] != values[j] {
      assert keys[i] != keys[j] && values[i].id == keys[i] && values[j].id == keys[j];
    }
    sorted := Sort(ById, values);
    SortedValues(values);
    forall i, j | 0 <= i < j < |sorted| ensures ComesBefore(sorted[i].id, sorted[j].id) {
      assert sorted[i] in sorted && sorted[j] in sorted && ById(sorted[i], sorted[j]);
      StringLeIff(sorted[i].id, sorted[j].id);
    }
  }

  lemma {:induction false} SortedValues(values: seq<Mention>)
    requires Distinct(values)
    ensures SortedBy(ById, Sort(ById, values)) && Distinct(Sort(ById, values))
    ensures forall mention :: mention in Sort(ById, values) <==> mention in values
  {
    ByIdIsTotal();
    SortSorted(ById, values);
    InSort(ById, values);
    DistinctMultiset(values);
    DistinctMultiset(Sort(ById, values));
  }

  ghost predicate AreKeys(keys: seq<string>, found: map<string, Mention>) {
    Distinct(keys) && forall id :: id in keys <==> id in found
  }

  lemma {:induction false} ByIdIsTotal()
    ensures TotalPreorder(ById)
  {
    StringLeIsTotalOrder();
  }

  /** The mentions of a subtree are chosen at its tokens, one for each ID that is chosen there, in the order of
      their IDs; when no two mentions share an ID, they are exactly the mentions chosen there. */
  method MentionsInSubtree(mentions: seq<Mention>, children: Children, root: int) returns (result: seq<Mention>)
    ensures forall i, j :: 0 <= i < j < |result| ==> ComesBefore(result[i].id, result[j].id)
    ensures forall mention :: mention in result ==> ChosenInSubtree(mentions, children, root, mention)
    ensures forall mention :: ChosenInSubtree(mentions, children, root, mention) ==> HasId(result, mention.id)
    ensures HaveOwnIds(mentions) ==> forall mention :: ChosenInSubtree(mentions, children, root, mention)
                                                       ==> mention in result
  {
    var below := Descendants(children, root);
    var indexes := [root] + below;
    var keys: seq<string>, found: map<string, Mention> := [], map[];
    for n := 0 to |indexes|
      invariant AreFound(mentions, indexes[..n], found) && AreKeys(keys, found)
    {
      FindNext(mentions, indexes, n, found);
      var chosen := Least(mentions, indexes[n]);
      if chosen.Some? {
        if chosen.value.id !in found {
          keys := keys + [chosen.value.id];
        }
        found := found[chosen.value.id := chosen.value];
      }
    }
    assert indexes[..|indexes|] == indexes;
    result := SortedMentions(keys, found);
    forall mention | mention in result ensures ChosenInSubtree(mentions, children, root, mention) {
      SubtreeIsIndexed(mentions, children, root, below, mention);
    }
    forall mention | ChosenInSubtree(mentions, children, root, mention)
      ensures HasId(result, mention.id) && (HaveOwnIds(mentions) ==> mention in result)
    {
      SubtreeIsIndexed(mentions, children, root, below, mention);
      ChosenIsFound(mentions, indexes, found, mention);
      assert found[mention.id] in result;
      if HaveOwnIds(mentions) {
        FoundAreChosen(mentions, indexes, found, mention);
      }
    }
  }

  ghost predicate HasId(mentions: seq<Mention>, id: string) {
    exists mention :: mention in mentions && mention.id == id
  }

  lemma {:induction false} ChosenIsFound(mentions: seq<Mention>, indexes: seq<int>, found: map<string, Mention>,
                                         mention: Mention)
    requires AreFound(mentions, indexes, found) && ChosenAmong(mentions, indexes, mention)
    ensures mention.id in found && found[mention.id].id == mention.id
  {
    var k :| 0 <= k < |indexes| && Least(mentions, indexes[k]) == Some(mention);
  }

  ghost predicate ChosenInSubtree(mentions: seq<Mention>, children: Children, root: int, mention: Mention) {
    exists index :: IsInSubtree(children, root, index) && IsChosen(mentions, index, mention)
  }

  lemma {:induction false} SubtreeIsIndexed(mentions: seq<Mention>, children: Children, root: int, below: seq<int>,
                                            mention: Mention)
    requires forall index :: index in below <==> IsReachable(children, root, index)
    ensures ChosenInSubtree(mentions, children, root, mention) <==> ChosenAmong(mentions, [root] + below, mention)
  {
    var indexes := [root] + below;
    if ChosenAmong(mentions, indexes, mention) {
      var k :| 0 <= k < |indexes| && Least(mentions, indexes[k]) == Some(mention);
      assert k > 0 ==> indexes[k] in below;
      LeastMeans(mentions, indexes[k], mention);
      assert IsInSubtree(children, root, indexes[k]);
    }
    if ChosenInSubtree(mentions, children, root, mention) {
      var index :| IsInSubtree(children, root, index) && IsChosen(mentions, index, mention);
      LeastMeans(mentions, index, mention);
      assert index in indexes;
      var k :| 0 <= k < |indexes| && indexes[k] == index;
    }
  }
}
