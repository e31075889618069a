/** The union-find forest over a parent list, with path halving and no balancing. */
module DisjointSets {

  /** `root` is constant along parent links, and `height` grows along them, so every walk up ends. */
  ghost predicate IsForest(parent: seq<nat>, root: seq<nat>, height: seq<nat>, top: nat) {
    && |root| == |height| == |parent|
    && forall i :: 0 <= i < |parent| ==> IsForestAt(parent, root, height, top, i)
  }

  ghost predicate IsForestAt(parent: seq<nat>, root: seq<nat>, height: seq<nat>, top: nat, i: nat)
    requires |root| == |height| == |parent| && i < |parent|
  {
    && parent[i] < |parent|
    && root[i] < |parent|
    && height[i] <= top
    && parent[root[i]] == root[i]
    && root[parent[i]] == root[i]
    && (if parent[i] == i then root[i] == i else height[i] < height[parent[i]])
  }

  lemma HalvingKeepsForest(parent: seq<nat>, root: seq<nat>, height: seq<nat>, top: nat, i: nat)
    requires IsForest(parent, root, height, top) && i < |parent| && parent[i] != i
    ensures IsForestAt(parent, root, height, top, i) && IsForestAt(parent, root, height, top, parent[i])
    ensures IsForest(parent[i := parent[parent[i]]], root, height, top)
  {
    assert IsForestAt(parent, root, height, top, i);
    var up := parent[i];
    assert IsForestAt(parent, root, height, top, up);
    assert IsForestAt(parent, root, height, top, parent[up]);
    var halved := parent[i := parent[up]];
    forall j | 0 <= j < |parent| ensures IsForestAt(halved, root, height, top, j) {
      assert IsForestAt(parent, root, height, top, j);
    }
  }

  /** Linking one root under another merges their two classes. */
  lemma LinkingKeepsForest(parent: seq<nat>, root: seq<nat>, height: seq<nat>, top: nat, left: nat, right: nat)
    requires IsForest(parent, root, height, top) && left < |parent| && right < |parent|
    requires parent[left] == left && parent[right] == right && left != right
    ensures IsForest(parent[right := left], Merged(root, left, right),
                     height[left := height[left] + height[right] + 1], top + top + 1)
  {
    assert IsForestAt(parent, root, height, top, left) && IsForestAt(parent, root, height, top, right);
    var linked, merged := parent[right := left], Merged(root, left, right);
    var raised, above := height[left := height[left] + height[right] + 1], top + top + 1;
    forall j | 0 <= j < |parent| ensures IsForestAt(linked, merged, raised, above, j) {
      assert IsForestAt(parent, root, height, top, j);
      assert IsForestAt(parent, root, height, top, root[j]);
    }
  }

  ghost function Merged(root: seq<nat>, left: nat, right: nat): (merged: seq<nat>)
    requires left < |root| && right < |root|
    ensures |merged| == |root|
    ensures forall i :: 0 <= i < |root| ==> merged[i] == if root[i] == root[right] then root[left] else root[i]
  {
    seq(|root|, i requires 0 <= i < |root| => if root[i] == root[right] then root[left] else root[i])
  }

  class UnionFind {
    var parent: seq<nat>
    // The representative of every element: what `Find` returns, and what only `Union` changes.
    ghost var root: seq<nat>
    ghost var height: seq<nat>
    ghost var top: nat

    ghost predicate Valid()
      reads this
    {
      IsForest(parent, root, height, top)
    }

    constructor (n: nat)
      ensures Valid() && |parent| == n
      ensures root == seq(n, i => i)
    {
      parent, root, height, top := seq(n, i => i), seq(n, i => i), seq(n, i => 0), 0;
    }

    /** Follow parent links to the end: the definition of a representative. */
    ghost function Chase(i: nat): (r: nat)
      requires Valid() && i < |parent|
      reads this
      ensures r < |parent| && parent[r] == r
      decreases top - height[i]
    {
      assert IsForestAt(parent, root, height, top, i);
      if parent[i] == i then i else
        assert IsForestAt(parent, root, height, top, parent[i]);
        Chase(parent[i])
    }

    lemma {:induction false} RootIsEndOfChain(i: nat)
      requires Valid() && i < |parent|
      ensures root[i] == Chase(i)
      decreases top - height[i]
    {
      assert IsForestAt(parent, root, height, top, i);
      if parent[i] != i {
        assert IsForestAt(parent, root, height, top, parent[i]);
        RootIsEndOfChain(parent[i]);
      }
    }

    /** Path halving rewrites parents and no representative. */
    method Find(start: nat) returns (r: nat)
      requires Valid() && start < |parent|
      modifies this`parent
      ensures Valid() && |parent| == old(|parent|)
      ensures r < |parent| && r == root[start] && parent[r] == r
      ensures forall i :: 0 <= i < |parent| && old(parent[i]) == i ==> parent[i] == i
    {
      var index: nat := start;
      while parent[index] != index
        invariant |parent| == old(|parent|) && Valid() && index < |parent|
        invariant root[index] == root[start]
        invariant forall i :: 0 <= i < |parent| && old(parent[i]) == i ==> parent[i] == i
        decreases top - height[index]
      {
        HalvingKeepsForest(parent, root, height, top, index);
        assert IsForestAt(parent, root, height, top, parent[parent[index]]);
        parent := parent[index := parent[parent[index]]];
        index := parent[index];
      }
      assert IsForestAt(parent, root, height, top, index);
      return index;
    }

    /** Afterwards the class of `right` has joined the class of `left`; no other class changed. */
    method Union(left: nat, right: nat)
      requires Valid() && left < |parent| && right < |parent|
      modifies this
      ensures Valid() && |parent| == old(|parent|)
      ensures root == Merged(old(root), left, right)
    {
      var leftRoot := Find(left);
      var rightRoot := Find(right);
      if leftRoot != rightRoot {
        assert IsForestAt(parent, root, height, top, leftRoot) && IsForestAt(parent, root, height, top, rightRoot);
        LinkingKeepsForest(parent, root, height, top, leftRoot, rightRoot);
        assert Merged(root, leftRoot, rightRoot) == Merged(root, left, right);
        parent := parent[rightRoot := leftRoot];
        root := Merged(root, left, right);
        height := height[leftRoot := height[leftRoot] + height[rightRoot] + 1];
        top := top + top + 1;
      } else {
        assert root == Merged(root, left, right);
      }
    }
  }
}
