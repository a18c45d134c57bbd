/**
 * The permission tree of the role editor. A role stores the full ancestor closure of the menu
 * nodes it grants; the editor shows only the leaves of that closure as checked, and on save turns
 * the checked leaves back into the closure. The tree is the forest built by `MenuService`.
 */
module RoleList {
  import opened Wrappers
  import opened Records
  import opened MenuService

  /** The ids of a node list, in order. */
  function Ids(ns: seq<TreeNode>): (r: seq<int>)
    ensures |r| == |ns|
    ensures forall i :: 0 <= i < |ns| ==> r[i] == ns[i].item.menuId
  {
    seq(|ns|, i requires 0 <= i < |ns| => ns[i].item.menuId)
  }

  predicate NoDup(s: seq<int>)
  {
    forall i, j :: 0 <= i < j < |s| ==> s[i] != s[j]
  }

  /**
   * A chain of nodes from a member of `ns` downwards: each node is a direct child of the one
   * before it.
   */
  ghost predicate IsChain(ns: seq<TreeNode>, c: seq<TreeNode>)
  {
    |c| > 0 && c[0] in ns && forall i :: 0 <= i < |c| - 1 ==> c[i + 1] in c[i].children
  }

  // ---------------------------------------------------------------------------------------------
  // Path search and closure (calculateFullMenuIds)

  /**
   * The search of `findAndAddParentPath`: scanning `nodes` in order, the first node whose id is
   * `target` wins, else the first child list that contains a match; the result is the list of ids
   * from the top node down to the match, or `None` when there is no match.
   */
  function FindPath(nodes: seq<TreeNode>, target: int): (r: Option<seq<int>>)
    ensures r.Some? ==> |r.value| > 0 && r.value[|r.value| - 1] == target
  {
    if nodes == [] then None
    else
      var node := nodes[0];
      if node.item.menuId == target then Some([target])
      else
        var sub := if |node.children| > 0 then FindPath(node.children, target) else None;
        if sub.Some? then Some([node.item.menuId] + sub.value)
        else FindPath(nodes[1..], target)
  }

  /** `x` lies on the path that the search for `target` reports. */
  predicate OnPath(tree: seq<TreeNode>, target: int, x: int)
  {
    FindPath(tree, target).Some? && x in FindPath(tree, target).value
  }

  /** `Set.add` of the elements of `xs`, one after the other, into the insertion-ordered `acc`. */
  function AddAll(acc: seq<int>, xs: seq<int>): (r: seq<int>)
    ensures forall x :: x in r <==> x in acc || x in xs
    ensures NoDup(acc) ==> NoDup(r)
    ensures |acc| <= |r| && r[..|acc|] == acc
    decreases |xs|
  {
    if xs == [] then acc
    else
      var a := AddAll(acc, xs[..|xs| - 1]);
      var x := xs[|xs| - 1];
      assert xs == xs[..|xs| - 1] + [x];
      if x in a then a else a + [x]
  }

  /**
   * The id set `calculateFullMenuIds(leafIds, tree)` collects, in insertion order: the search
   * path of every selected id that the tree contains.
   */
  function Closure(leafIds: seq<int>, tree: seq<TreeNode>): (r: seq<int>)
    ensures NoDup(r)
    ensures forall x :: x in r <==> exists i :: 0 <= i < |leafIds| && OnPath(tree, leafIds[i], x)
    decreases |leafIds|
  {
    if leafIds == [] then []
    else
      var init := leafIds[..|leafIds| - 1];
      var acc := Closure(init, tree);
      var found := FindPath(tree, leafIds[|leafIds| - 1]);
      assert forall i :: 0 <= i < |init| ==> init[i] == leafIds[i];
      if found.Some? then AddAll(acc, found.value) else acc
  }

  /** `calculateFullMenuIds`: one search per selected id, adding each found path to the id set. */
  method CalculateFullMenuIds(leafIds: seq<int>, treeData: seq<TreeNode>) returns (r: seq<int>)
    ensures r == Closure(leafIds, treeData)
  {
    var allIds: seq<int> := [];
    for i := 0 to |leafIds|
      invariant allIds == Closure(leafIds[..i], treeData)
    {
      assert leafIds[..i + 1][..i] == leafIds[..i];
      var found := FindPath(treeData, leafIds[i]);
      if found.Some? {
        var path := found.value;
        ghost var before := allIds;
        for j := 0 to |path|
          invariant allIds == AddAll(before, path[..j])
        {
          assert path[..j + 1][..j] == path[..j];
          if path[j] !in allIds {
            allIds := allIds + [path[j]];
          }
        }
        assert path[..|path|] == path;
      }
    }
    assert leafIds[..|leafIds|] == leafIds;
    r := allIds;
  }

  // ---------------------------------------------------------------------------------------------
  // Leaf extraction (getLeafMenuIds, getAllLeafKeys)

  /** The ids of the childless nodes of a node list, in order. */
  function LeafKeys(flat: seq<TreeNode>): seq<int>
  {
    if flat == [] then []
    else (if flat[0].children == [] then [flat[0].item.menuId] else []) + LeafKeys(flat[1..])
  }

  /** An id is a leaf key exactly when some childless node of the list carries it. */
  lemma {:induction false} LeafKeysMembers(flat: seq<TreeNode>)
    ensures forall x :: x in LeafKeys(flat) <==> exists n :: n in flat && n.children == [] && n.item.menuId == x
  {
    if flat != [] {
      LeafKeysMembers(flat[1..]);
      assert forall n :: n in flat <==> n == flat[0] || n in flat[1..];
    }
  }

  /** The elements of `xs` that also occur in `sel`, in the order of `xs`. */
  function KeepSelected(xs: seq<int>, sel: seq<int>): seq<int>
  {
    if xs == [] then []
    else (if xs[0] in sel then [xs[0]] else []) + KeepSelected(xs[1..], sel)
  }

  lemma {:induction false} KeepSelectedMembers(xs: seq<int>, sel: seq<int>)
    ensures forall x :: x in KeepSelected(xs, sel) <==> x in xs && x in sel
  {
    if xs != [] {
      KeepSelectedMembers(xs[1..], sel);
      assert forall x :: x in xs <==> x == xs[0] || x in xs[1..];
    }
  }

  /** The leaf ids of a forest, in pre-order: what `getAllLeafKeys` returns. */
  function TreeLeaves(tree: seq<TreeNode>): seq<int>
  {
    LeafKeys(Nodes(tree))
  }

  /** The selected leaf ids of a forest, in pre-order: what `getLeafMenuIds` returns. */
  function SelectedLeaves(tree: seq<TreeNode>, sel: seq<int>): seq<int>
  {
    KeepSelected(LeafKeys(Nodes(tree)), sel)
  }

  lemma {:induction false} LeafKeysAppend(a: seq<TreeNode>, b: seq<TreeNode>)
    ensures LeafKeys(a + b) == LeafKeys(a) + LeafKeys(b)
    decreases |a|
  {
    if a != [] {
      assert (a + b)[0] == a[0];
      assert (a + b)[1..] == a[1..] + b;
      LeafKeysAppend(a[1..], b);
    } else {
      assert a + b == b;
    }
  }

  lemma {:induction false} KeepSelectedAppend(a: seq<int>, b: seq<int>, sel: seq<int>)
    ensures KeepSelected(a + b, sel) == KeepSelected(a, sel) + KeepSelected(b, sel)
    decreases |a|
  {
    if a != [] {
      assert (a + b)[0] == a[0];
      assert (a + b)[1..] == a[1..] + b;
      KeepSelectedAppend(a[1..], b, sel);
    } else {
      assert a + b == b;
    }
  }

  /** The pre-order of the first `i + 1` top nodes extends that of the first `i` by one subtree. */
  lemma NodesPrefix(nodes: seq<TreeNode>, i: nat)
    requires i < |nodes|
    ensures Nodes(nodes[..i + 1]) == Nodes(nodes[..i]) + ([nodes[i]] + Nodes(nodes[i].children))
  {
    assert nodes[..i + 1] == nodes[..i] + [nodes[i]];
    NodesAppend(nodes[..i], [nodes[i]]);
    NodesCons(nodes[i], []);
  }

  /** The leaves gained by adding the `i`-th top node: its own id if childless, else its subtree's. */
  lemma LeafStep(nodes: seq<TreeNode>, i: nat)
    requires i < |nodes|
    ensures TreeLeaves(nodes[..i + 1]) == TreeLeaves(nodes[..i])
      + (if |nodes[i].children| > 0 then TreeLeaves(nodes[i].children) else [nodes[i].item.menuId])
  {
    var node := nodes[i];
    NodesPrefix(nodes, i);
    LeafKeysAppend(Nodes(nodes[..i]), [node] + Nodes(node.children));
    LeafKeysAppend([node], Nodes(node.children));
    assert LeafKeys([node]) == if node.children == [] then [node.item.menuId] else [];
  }

  lemma SelectedStep(nodes: seq<TreeNode>, i: nat, sel: seq<int>)
    requires i < |nodes|
    ensures SelectedLeaves(nodes[..i + 1], sel) == SelectedLeaves(nodes[..i], sel)
      + (if |nodes[i].children| > 0 then SelectedLeaves(nodes[i].children, sel)
         else if nodes[i].item.menuId in sel then [nodes[i].item.menuId] else [])
  {
    var node := nodes[i];
    LeafStep(nodes, i);
    var tail := if |node.children| > 0 then LeafKeys(Nodes(node.children)) else [node.item.menuId];
    KeepSelectedAppend(LeafKeys(Nodes(nodes[..i])), tail, sel);
    assert KeepSelected([node.item.menuId], sel) == if node.item.menuId in sel then [node.item.menuId] else [];
  }

  /**
   * The inner `traverse` of `getLeafMenuIds`: `out` is `acc` extended by the selected leaves of
   * `nodes`, in pre-order.
   */
  method TraverseSelected(nodes: seq<TreeNode>, selectedIds: seq<int>, acc: seq<int>) returns (out: seq<int>)
    ensures out == acc + SelectedLeaves(nodes, selectedIds)
    decreases nodes
  {
    out := acc;
    for i := 0 to |nodes|
      invariant out == acc + SelectedLeaves(nodes[..i], selectedIds)
    {
      var node := nodes[i];
      SelectedStep(nodes, i, selectedIds);
      ghost var done := SelectedLeaves(nodes[..i], selectedIds);
      ghost var gained := if |node.children| > 0 then SelectedLeaves(node.children, selectedIds)
                          else if node.item.menuId in selectedIds then [node.item.menuId] else [];
      if |node.children| > 0 {
        out := TraverseSelected(node.children, selectedIds, out);
      } else {
        if node.item.menuId in selectedIds {
          out := out + [node.item.menuId];
        }
      }
      assert out == (acc + done) + gained;
      assert (acc + done) + gained == acc + (done + gained);
    }
    assert nodes[..|nodes|] == nodes;
  }

  /** `getLeafMenuIds`: the selected ids that belong to childless nodes, in tree pre-order. */
  method GetLeafMenuIds(selectedIds: seq<int>, treeData: seq<TreeNode>) returns (leafIds: seq<int>)
    ensures leafIds == SelectedLeaves(treeData, selectedIds)
  {
    leafIds := TraverseSelected(treeData, selectedIds, []);
  }

  /** The inner `traverse` of `getAllLeafKeys`: `out` is `acc` extended by every leaf of `nodes`. */
  method TraverseAll(nodes: seq<TreeNode>, acc: seq<int>) returns (out: seq<int>)
    ensures out == acc + TreeLeaves(nodes)
    decreases nodes
  {
    out := acc;
    for i := 0 to |nodes|
      invariant out == acc + TreeLeaves(nodes[..i])
    {
      var node := nodes[i];
      LeafStep(nodes, i);
      ghost var done := TreeLeaves(nodes[..i]);
      ghost var gained := if |node.children| > 0 then TreeLeaves(node.children) else [node.item.menuId];
      if |node.children| > 0 {
        out := TraverseAll(node.children, out);
      } else {
        out := out + [node.item.menuId];
      }
      assert out == (acc + done) + gained;
      assert (acc + done) + gained == acc + (done + gained);
    }
    assert nodes[..|nodes|] == nodes;
  }

  /** `getAllLeafKeys` of the select-all button: every leaf of the tree, in pre-order. */
  method GetAllLeafKeys(treeNodes: seq<TreeNode>) returns (keys: seq<int>)
    ensures keys == LeafKeys(Nodes(treeNodes))
  {
    keys := TraverseAll(treeNodes, []);
  }

  /** Select-all checks exactly what leaf extraction keeps when every id of the tree is selected. */
  lemma SelectAllIsLeafExtraction(tree: seq<TreeNode>)
    ensures SelectedLeaves(tree, Ids(Nodes(tree))) == LeafKeys(Nodes(tree))
  {
    var flat := Nodes(tree);
    LeafKeysMembers(flat);
    forall x | x in LeafKeys(flat) ensures x in Ids(flat) {
      var n :| n in flat && n.children == [] && n.item.menuId == x;
      var k :| 0 <= k < |flat| && flat[k] == n;
      assert Ids(flat)[k] == x;
    }
    KeepAllSelected(LeafKeys(flat), Ids(flat));
  }

  lemma {:induction false} KeepAllSelected(xs: seq<int>, sel: seq<int>)
    requires forall i :: 0 <= i < |xs| ==> xs[i] in sel
    ensures KeepSelected(xs, sel) == xs
  {
    if xs != [] {
      KeepAllSelected(xs[1..], sel);
      assert [xs[0]] + xs[1..] == xs;
    }
  }

  // ---------------------------------------------------------------------------------------------
  // What the search finds

  /** Every node of a chain from `ns` occurs in the pre-order of `ns`. */
  lemma {:induction false} ChainInNodes(ns: seq<TreeNode>, c: seq<TreeNode>, k: nat)
    requires IsChain(ns, c) && k < |c|
    ensures c[k] in Nodes(ns)
  {
    if k == 0 {
      var i :| 0 <= i < |ns| && ns[i] == c[0];
      MemberInNodes(ns, i);
    } else {
      ChainInNodes(ns, c, k - 1);
      var i :| 0 <= i < |c[k - 1].children| && c[k - 1].children[i] == c[k];
      MemberInNodes(c[k - 1].children, i);
      SubtreeInNodes(ns, c[k - 1], c[k]);
    }
  }

  /** A chain below a top node, with that node put in front, is a chain of the top level. */
  lemma ChainCons(ns: seq<TreeNode>, node: TreeNode, c: seq<TreeNode>)
    requires node in ns && IsChain(node.children, c)
    ensures IsChain(ns, [node] + c)
  {
    var c2 := [node] + c;
    forall i | 0 <= i < |c2| - 1 ensures c2[i + 1] in c2[i].children {
      if i > 0 {
        assert c2[i] == c[i - 1] && c2[i + 1] == c[i];
      }
    }
  }

  /** A found path is the id list of a chain from the top level down to a node with the target id. */
  lemma {:induction false} FindPathChain(ns: seq<TreeNode>, t: int) returns (c: seq<TreeNode>)
    requires FindPath(ns, t).Some?
    ensures IsChain(ns, c) && Ids(c) == FindPath(ns, t).value
    ensures c[|c| - 1].item.menuId == t
  {
    var node := ns[0];
    if node.item.menuId == t {
      c := [node];
    } else if |node.children| > 0 && FindPath(node.children, t).Some? {
      var below := FindPathChain(node.children, t);
      c := ChainDown(ns, t, below);
    } else {
      c := FindPathChain(ns[1..], t);
      ChainLater(ns, t, c);
    }
  }

  /** The search step that descends into the first node's children. */
  lemma ChainDown(ns: seq<TreeNode>, t: int, below: seq<TreeNode>) returns (c: seq<TreeNode>)
    requires ns != [] && ns[0].item.menuId != t && |ns[0].children| > 0
    requires FindPath(ns[0].children, t).Some?
    requires IsChain(ns[0].children, below) && Ids(below) == FindPath(ns[0].children, t).value
    ensures c == [ns[0]] + below
    ensures IsChain(ns, c) && Ids(c) == FindPath(ns, t).value
  {
    c := [ns[0]] + below;
    ChainCons(ns, ns[0], below);
    assert Ids(c) == [ns[0].item.menuId] + Ids(below);
  }

  /** The search step that moves on to the later top nodes. */
  lemma ChainLater(ns: seq<TreeNode>, t: int, c: seq<TreeNode>)
    requires ns != [] && ns[0].item.menuId != t
    requires !(|ns[0].children| > 0 && FindPath(ns[0].children, t).Some?)
    requires FindPath(ns[1..], t).Some?
    requires IsChain(ns[1..], c) && Ids(c) == FindPath(ns[1..], t).value
    ensures IsChain(ns, c) && Ids(c) == FindPath(ns, t).value
  {
    var i :| 0 <= i < |ns[1..]| && ns[1..][i] == c[0];
    assert ns[i + 1] == c[0];
  }

  /** The search fails exactly when no node of the tree carries the target id. */
  lemma {:induction false} FindPathComplete(ns: seq<TreeNode>, t: int)
    ensures FindPath(ns, t).None? <==> t !in Ids(Nodes(ns))
    decreases ns
  {
    if FindPath(ns, t).Some? {
      var c := FindPathChain(ns, t);
      ChainInNodes(ns, c, |c| - 1);
      var k :| 0 <= k < |Nodes(ns)| && Nodes(ns)[k] == c[|c| - 1];
      assert Ids(Nodes(ns))[k] == t;
    } else if ns != [] {
      var node := ns[0];
      FindPathComplete(node.children, t);
      FindPathComplete(ns[1..], t);
      assert Ids(Nodes(ns)) == [node.item.menuId] + Ids(Nodes(node.children)) + Ids(Nodes(ns[1..]));
    }
  }

  // ---------------------------------------------------------------------------------------------
  // The round trip between closure and leaf extraction

  /** In a tree whose ids are unique, every node that is not the last of a chain has children. */
  lemma ChainInnerHasChildren(c: seq<TreeNode>, k: nat)
    requires |c| > 0 && (forall i :: 0 <= i < |c| - 1 ==> c[i + 1] in c[i].children)
    requires k < |c| - 1
    ensures c[k].children != []
  {
    assert c[k + 1] in c[k].children;
  }

  /** With unique ids, two nodes of the pre-order list with the same id are the same node. */
  lemma SameIdSameNode(flat: seq<TreeNode>, m: TreeNode, n: TreeNode)
    requires DistinctIds(flat) && m in flat && n in flat && m.item.menuId == n.item.menuId
    ensures m == n
  {
    var i :| 0 <= i < |flat| && flat[i] == m;
    var j :| 0 <= j < |flat| && flat[j] == n;
  }

  /**
   * Round trip: for a selection `L` of leaf ids of a tree with unique ids, extracting the leaves
   * of the closure of `L` gives back `L` as a set.
   */
  lemma LeavesOfClosure(L: seq<int>, tree: seq<TreeNode>)
    requires DistinctIds(Nodes(tree))
    requires forall l :: l in L ==> l in LeafKeys(Nodes(tree))
    ensures forall x :: x in SelectedLeaves(tree, Closure(L, tree)) <==> x in L
  {
    var flat := Nodes(tree);
    LeafKeysMembers(flat);
    KeepSelectedMembers(LeafKeys(flat), Closure(L, tree));
    forall x | x in L ensures x in Closure(L, tree) {
      var i :| 0 <= i < |L| && L[i] == x;
      var n :| n in flat && n.children == [] && n.item.menuId == x;
      var k :| 0 <= k < |flat| && flat[k] == n;
      assert Ids(flat)[k] == x;
      FindPathComplete(tree, x);
      assert OnPath(tree, L[i], x);
    }
    forall x | x in LeafKeys(flat) && x in Closure(L, tree) ensures x in L {
      var m :| m in flat && m.children == [] && m.item.menuId == x;
      var i :| 0 <= i < |L| && OnPath(tree, L[i], x);
      var c := FindPathChain(tree, L[i]);
      var k :| 0 <= k < |c| && Ids(c)[k] == x;
      ChainInNodes(tree, c, k);
      SameIdSameNode(flat, m, c[k]);
      if k < |c| - 1 {
        ChainInnerHasChildren(c, k);
      }
      assert k == |c| - 1;
    }
  }

  // ---------------------------------------------------------------------------------------------
  // Idempotence of the closure

  /** With unique ids, the pre-order of `ns` splits into three parts whose ids are disjoint. */
  lemma DistinctParts(ns: seq<TreeNode>)
    requires ns != [] && DistinctIds(Nodes(ns))
    ensures DistinctIds(Nodes(ns[0].children)) && DistinctIds(Nodes(ns[1..]))
    ensures forall m :: m in Nodes(ns[0].children) ==> m.item.menuId != ns[0].item.menuId
    ensures forall n :: n in Nodes(ns[1..]) ==> n.item.menuId != ns[0].item.menuId
    ensures forall m, n :: m in Nodes(ns[0].children) && n in Nodes(ns[1..]) ==> m.item.menuId != n.item.menuId
  {
    var a, b := Nodes(ns[0].children), Nodes(ns[1..]);
    assert Nodes(ns) == [ns[0]] + a + b;
    DistinctSplitMembers(ns[0], a, b);
  }

  /** `DistinctSplit`, stated by membership. */
  lemma DistinctSplitMembers(x: TreeNode, a: seq<TreeNode>, b: seq<TreeNode>)
    requires DistinctIds([x] + a + b)
    ensures DistinctIds(a) && DistinctIds(b)
    ensures forall m :: m in a ==> m.item.menuId != x.item.menuId
    ensures forall n :: n in b ==> n.item.menuId != x.item.menuId
    ensures forall m, n :: m in a && n in b ==> m.item.menuId != n.item.menuId
  {
    DistinctSplit(x, a, b);
    forall m | m in a ensures m.item.menuId != x.item.menuId {
      var j :| 0 <= j < |a| && a[j] == m;
    }
    forall n | n in b ensures n.item.menuId != x.item.menuId {
      var j :| 0 <= j < |b| && b[j] == n;
    }
    forall m, n | m in a && n in b ensures m.item.menuId != n.item.menuId {
      var i :| 0 <= i < |a| && a[i] == m;
      var j :| 0 <= j < |b| && b[j] == n;
    }
  }

  /** The three parts of a list `[x] + a + b` whose ids are distinct have distinct, disjoint ids. */
  lemma DistinctSplit(x: TreeNode, a: seq<TreeNode>, b: seq<TreeNode>)
    requires DistinctIds([x] + a + b)
    ensures DistinctIds(a) && DistinctIds(b)
    ensures forall i :: 0 <= i < |a| ==> a[i].item.menuId != x.item.menuId
    ensures forall j :: 0 <= j < |b| ==> b[j].item.menuId != x.item.menuId
    ensures forall i, j :: 0 <= i < |a| && 0 <= j < |b| ==> a[i].item.menuId != b[j].item.menuId
  {
    var all := [x] + a + b;
    assert all[0] == x;
    forall i | 0 <= i < |a| ensures all[1 + i] == a[i] && a[i].item.menuId != x.item.menuId {
      assert all[0].item.menuId != all[1 + i].item.menuId;
    }
    forall j | 0 <= j < |b| ensures all[1 + |a| + j] == b[j] && b[j].item.menuId != x.item.menuId {
      assert all[0].item.menuId != all[1 + |a| + j].item.menuId;
    }
    forall i, j | 0 <= i < |a| && 0 <= j < |b| ensures a[i].item.menuId != b[j].item.menuId {
      assert all[1 + i].item.menuId != all[1 + |a| + j].item.menuId;
    }
    forall i, j | 0 <= i < j < |a| ensures a[i].item.menuId != a[j].item.menuId {
      assert all[1 + i].item.menuId != all[1 + j].item.menuId;
    }
    forall i, j | 0 <= i < j < |b| ensures b[i].item.menuId != b[j].item.menuId {
      assert all[1 + |a| + i].item.menuId != all[1 + |a| + j].item.menuId;
    }
  }

  /**
   * With unique ids the search reaches every node along the only chain that leads to it: for any
   * chain from the top level, the search for the id of its `k`-th node reports the chain's first
   * `k + 1` ids.
   */
  lemma {:induction false} FindPathExact(ns: seq<TreeNode>, c: seq<TreeNode>, k: nat)
    requires DistinctIds(Nodes(ns)) && IsChain(ns, c) && k < |c|
    ensures FindPath(ns, c[k].item.menuId) == Some(Ids(c[..k + 1]))
    decreases ns
  {
    var t := c[k].item.menuId;
    var node := ns[0];
    DistinctParts(ns);
    if c[0] == node {
      if k > 0 {
        ChainTail(c);
        ChainInNodes(node.children, c[1..], k - 1);
        assert c[1..][k - 1] == c[k];
        assert c[k].item.menuId != node.item.menuId;
        FindPathExact(node.children, c[1..], k - 1);
        DescendStep(ns, c, k);
      } else {
        assert Ids(c[..1]) == [t];
      }
    } else {
      ChainSkip(ns, c);
      ChainInNodes(ns[1..], c, k);
      IdNotAmong(Nodes(node.children), c[k]);
      FindPathComplete(node.children, t);
      FindPathExact(ns[1..], c, k);
    }
  }

  lemma IdsCons(n: TreeNode, ns: seq<TreeNode>)
    ensures Ids([n] + ns) == [n.item.menuId] + Ids(ns)
  {
  }

  /** A chain of at least two nodes continues as a chain of its first node's children. */
  lemma ChainTail(c: seq<TreeNode>)
    requires |c| > 1 && forall i :: 0 <= i < |c| - 1 ==> c[i + 1] in c[i].children
    ensures IsChain(c[0].children, c[1..])
  {
    var c' := c[1..];
    assert c[1] in c[0].children;
    forall i | 0 <= i < |c'| - 1 ensures c'[i + 1] in c'[i].children {
      assert c'[i] == c[i + 1] && c'[i + 1] == c[i + 2];
    }
  }

  /** A chain that does not start at the first top node starts at a later one. */
  lemma ChainSkip(ns: seq<TreeNode>, c: seq<TreeNode>)
    requires ns != [] && IsChain(ns, c) && c[0] != ns[0]
    ensures IsChain(ns[1..], c)
  {
    var i :| 0 <= i < |ns| && ns[i] == c[0];
    assert ns[1..][i - 1] == c[0];
  }

  lemma IdNotAmong(a: seq<TreeNode>, n: TreeNode)
    requires forall m :: m in a ==> m.item.menuId != n.item.menuId
    ensures n.item.menuId !in Ids(a)
  {
    forall j | 0 <= j < |a|
      ensures Ids(a)[j] != n.item.menuId
    {
      assert a[j] in a;
    }
  }

  /** The search step into the first node's children, for a chain through that node. */
  lemma DescendStep(ns: seq<TreeNode>, c: seq<TreeNode>, k: nat)
    requires ns != [] && |c| > 1 && c[0] == ns[0] && 0 < k < |c|
    requires c[k].item.menuId != ns[0].item.menuId
    requires FindPath(ns[0].children, c[k].item.menuId) == Some(Ids(c[1..][..k]))
    ensures FindPath(ns, c[k].item.menuId) == Some(Ids(c[..k + 1]))
  {
    var node := ns[0];
    var t := c[k].item.menuId;
    assert |node.children| > 0;
    var below := c[1..][..k];
    assert FindPath(ns, t) == Some([node.item.menuId] + Ids(below));
    assert c[..k + 1] == [node] + below;
    IdsCons(node, below);
  }

  /**
   * With unique ids the closure is idempotent: closing the closure again adds nothing and loses
   * nothing.
   */
  lemma ClosureIdempotent(L: seq<int>, tree: seq<TreeNode>)
    requires DistinctIds(Nodes(tree))
    ensures forall x :: x in Closure(Closure(L, tree), tree) <==> x in Closure(L, tree)
  {
    var C := Closure(L, tree);
    forall x | x in C ensures x in Closure(C, tree) {
      ClosureKeeps(L, tree, x);
    }
    forall z | z in Closure(C, tree) ensures z in C {
      var j :| 0 <= j < |C| && OnPath(tree, C[j], z);
      ClosureAddsNothing(L, tree, C[j], z);
    }
  }

  /** An id of the closure lies on its own search path, so closing again keeps it. */
  lemma ClosureKeeps(L: seq<int>, tree: seq<TreeNode>, x: int)
    requires DistinctIds(Nodes(tree)) && x in Closure(L, tree)
    ensures x in Closure(Closure(L, tree), tree)
  {
    var C := Closure(L, tree);
    var i :| 0 <= i < |L| && OnPath(tree, L[i], x);
    var c := FindPathChain(tree, L[i]);
    var k :| 0 <= k < |c| && Ids(c)[k] == x;
    FindPathExact(tree, c, k);
    var j :| 0 <= j < |C| && C[j] == x;
    assert OnPath(tree, C[j], x);
  }

  /** The search path of an id of the closure lies inside the closure. */
  lemma ClosureAddsNothing(L: seq<int>, tree: seq<TreeNode>, y: int, z: int)
    requires DistinctIds(Nodes(tree)) && y in Closure(L, tree) && OnPath(tree, y, z)
    ensures z in Closure(L, tree)
  {
    var i :| 0 <= i < |L| && OnPath(tree, L[i], y);
    var c := FindPathChain(tree, L[i]);
    var k :| 0 <= k < |c| && Ids(c)[k] == y;
    FindPathExact(tree, c, k);
    assert forall w :: w in Ids(c[..k + 1]) ==> w in Ids(c);
    assert OnPath(tree, L[i], z);
  }

  /** Both laws hold for the forest the tree builder produces from records with unique ids. */
  lemma BuiltTreeLaws(all: seq<MenuItem>, L: seq<int>)
    requires UniqueIds(all) && NonZeroIds(all)
    requires forall l :: l in L ==> l in LeafKeys(Nodes(BuildTree(all)))
    ensures forall x :: x in SelectedLeaves(BuildTree(all), Closure(L, BuildTree(all))) <==> x in L
    ensures forall x :: x in Closure(Closure(L, BuildTree(all)), BuildTree(all)) <==> x in Closure(L, BuildTree(all))
  {
    BuildTreeDistinct(all);
    LeavesOfClosure(L, BuildTree(all));
    ClosureIdempotent(L, BuildTree(all));
  }

  /** Every id of the closure lies on the chain down to some selected id. */
  lemma ClosureOnlyAncestors(L: seq<int>, tree: seq<TreeNode>, x: int) returns (i: nat, c: seq<TreeNode>)
    requires x in Closure(L, tree)
    ensures i < |L| && IsChain(tree, c) && c[|c| - 1].item.menuId == L[i] && x in Ids(c)
  {
    var i0 :| 0 <= i0 < |L| && OnPath(tree, L[i0], x);
    i := i0;
    c := FindPathChain(tree, L[i]);
  }

  /** The closure depends only on the set of selected ids, not on their order or repetitions. */
  lemma ClosureSetBased(L1: seq<int>, L2: seq<int>, tree: seq<TreeNode>)
    requires forall x :: x in L1 <==> x in L2
    ensures forall x :: x in Closure(L1, tree) <==> x in Closure(L2, tree)
  {
    forall x | x in Closure(L1, tree) ensures x in Closure(L2, tree) {
      var i :| 0 <= i < |L1| && OnPath(tree, L1[i], x);
      assert L1[i] in L2;
      var j :| 0 <= j < |L2| && L2[j] == L1[i];
      assert OnPath(tree, L2[j], x);
    }
    forall x | x in Closure(L2, tree) ensures x in Closure(L1, tree) {
      var j :| 0 <= j < |L2| && OnPath(tree, L2[j], x);
      assert L2[j] in L1;
      var i :| 0 <= i < |L1| && L1[i] == L2[j];
      assert OnPath(tree, L1[i], x);
    }
  }

  /**
   * Editing a role whose stored ids are the closure of a leaf selection, and saving without
   * touching the checkboxes, stores the same id set again.
   */
  lemma EditSaveKeepsIds(L: seq<int>, tree: seq<TreeNode>)
    requires DistinctIds(Nodes(tree))
    requires forall l :: l in L ==> l in LeafKeys(Nodes(tree))
    ensures forall x :: x in Closure(SelectedLeaves(tree, Closure(L, tree)), tree) <==> x in Closure(L, tree)
  {
    LeavesOfClosure(L, tree);
    ClosureSetBased(SelectedLeaves(tree, Closure(L, tree)), L, tree);
  }

  // ---------------------------------------------------------------------------------------------
  // The role dialog

  /** The fields of the role form. */
  datatype RoleForm = RoleForm(roleName: string, roleDesc: string, status: int)

  /** What the dialog sends to the role service. */
  datatype RoleRequest =
    | SaveRole(form: RoleForm, menuIds: seq<int>)
    | UpdateRole(form: RoleForm, roleId: int, menuIds: seq<int>)

  /** The form as `resetFields` leaves it: only `status` has an initial value (1, active). */
  const EmptyRoleForm := RoleForm("", "", 1)

  /**
   * The dialog state of the role page: which role is edited (`None` for a new one), the checked
   * permission keys, the form, whether the dialog is open, and the loaded permission tree.
   */
  class RoleEditor {
    var editingId: Option<int>
    var checkedKeys: seq<int>
    var form: RoleForm
    var visible: bool
    var menuTree: seq<TreeNode>

    constructor(menuTree: seq<TreeNode>)
      ensures this.menuTree == menuTree
      ensures editingId == None && checkedKeys == [] && !visible && form == EmptyRoleForm
    {
      this.menuTree := menuTree;
      editingId := None;
      checkedKeys := [];
      visible := false;
      form := EmptyRoleForm;
    }

    /** `handleAdd`: a new role, a reset form, nothing checked, dialog open. */
    method HandleAdd()
      modifies this
      ensures editingId == None && checkedKeys == [] && form == EmptyRoleForm && visible
      ensures menuTree == old(menuTree)
    {
      editingId := None;
      form := EmptyRoleForm;
      checkedKeys := [];
      visible := true;
    }

    /** `handleEdit`: the role's fields in the form and only the leaves of its ids checked. */
    method HandleEdit(record: Role)
      modifies this
      ensures editingId == Some(record.roleId) && visible
      ensures form == RoleForm(record.roleName, record.roleDesc, record.status)
      ensures checkedKeys == SelectedLeaves(menuTree, record.menuIds)
      ensures menuTree == old(menuTree)
    {
      editingId := Some(record.roleId);
      form := RoleForm(record.roleName, record.roleDesc, record.status);
      var leafMenuIds := GetLeafMenuIds(record.menuIds, menuTree);
      checkedKeys := leafMenuIds;
      visible := true;
    }

    /** `handleSelectAll`: every leaf of the tree checked. */
    method HandleSelectAll()
      modifies this
      ensures checkedKeys == LeafKeys(Nodes(menuTree))
      ensures editingId == old(editingId) && form == old(form) && visible == old(visible) && menuTree == old(menuTree)
    {
      var allLeafKeys := GetAllLeafKeys(menuTree);
      checkedKeys := allLeafKeys;
    }

    /** `handleClearAll`: nothing checked. */
    method HandleClearAll()
      modifies this
      ensures checkedKeys == []
      ensures editingId == old(editingId) && form == old(form) && visible == old(visible) && menuTree == old(menuTree)
    {
      checkedKeys := [];
    }

    /**
     * `handleOk`. The form is valid when the required role name is filled in; then the request
     * carries the closure of the checked keys, as an update of `editingId` when that is truthy
     * and as a new role otherwise. `saved` is the outcome of the service call: on success the
     * dialog closes; on failure, or an invalid form, "Save failed" is shown and the dialog stays.
     */
    method HandleOk(saved: bool) returns (req: Option<RoleRequest>, msg: Message)
      modifies this
      ensures !NonEmpty(old(form).roleName) ==> req == None
      ensures NonEmpty(old(form).roleName) ==> req == Some(
        if Truthy(old(editingId)) then UpdateRole(old(form), old(editingId).value, Closure(old(checkedKeys), old(menuTree)))
        else SaveRole(old(form), Closure(old(checkedKeys), old(menuTree))))
      ensures msg == if NonEmpty(old(form).roleName) && saved then
                       Message(Success, if Truthy(old(editingId)) then "Updated successfully" else "Saved successfully")
                     else Message(Error, "Save failed")
      ensures visible == (old(visible) && !(NonEmpty(old(form).roleName) && saved))
      ensures editingId == old(editingId) && checkedKeys == old(checkedKeys) && form == old(form)
      ensures menuTree == old(menuTree)
    {
      if !NonEmpty(form.roleName) {
        req := None;
        msg := Message(Error, "Save failed");
        return;
      }
      var fullMenuIds := CalculateFullMenuIds(checkedKeys, menuTree);
      if Truthy(editingId) {
        req := Some(UpdateRole(form, editingId.value, fullMenuIds));
      } else {
        req := Some(SaveRole(form, fullMenuIds));
      }
      if saved {
        msg := Message(Success, if Truthy(editingId) then "Updated successfully" else "Saved successfully");
        visible := false;
      } else {
        msg := Message(Error, "Save failed");
      }
    }
  }
}
