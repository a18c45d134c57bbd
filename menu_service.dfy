/**
 * The tree builder inside `menuService.getMenuTree` (and its copy in the mock store): a recursive,
 * parent-first filter/map from the flat record list to a forest. Siblings keep input order (no
 * sorting by `orderNum`); records whose parent chain never reaches 0 are not reached.
 */
module MenuService {
  import opened Wrappers
  import opened Records
  import opened Hierarchy

  /** An output node: a copy of the record plus `key = menuId`, `title = name` and `children`. */
  datatype TreeNode = TreeNode(item: MenuItem, key: int, title: string, children: seq<TreeNode>)

  /** The records the nodes were copied from, in order. */
  function Items(ns: seq<TreeNode>): seq<MenuItem>
  {
    seq(|ns|, i requires 0 <= i < |ns| => ns[i].item)
  }

  /** All nodes of a forest in pre-order. */
  function Nodes(ns: seq<TreeNode>): seq<TreeNode>
  {
    if ns == [] then [] else [ns[0]] + Nodes(ns[0].children) + Nodes(ns[1..])
  }

  /** A node is a faithful copy of its record whose children are exactly that record's children. */
  ghost predicate NodeOk(all: seq<MenuItem>, n: TreeNode)
  {
    && n.key == n.item.menuId
    && n.title == n.item.name
    && Items(n.children) == WithParent(all, n.item.menuId)
  }

  /** The record `x` sits at a position of `all` that a root chain reaches. */
  ghost predicate RootedItem(all: seq<MenuItem>, x: MenuItem)
  {
    exists k: nat :: k < |all| && all[k] == x && Rooted(all, k)
  }

  lemma NodesCons(n: TreeNode, rest: seq<TreeNode>)
    ensures Nodes([n] + rest) == [n] + Nodes(n.children) + Nodes(rest)
  {
    assert ([n] + rest)[1..] == rest;
  }

  /** The pre-order of a concatenation is the concatenation of the pre-orders. */
  lemma {:induction false} NodesAppend(a: seq<TreeNode>, b: seq<TreeNode>)
    ensures Nodes(a + b) == Nodes(a) + Nodes(b)
    decreases |a|
  {
    if a != [] {
      assert (a + b)[0] == a[0];
      assert (a + b)[1..] == a[1..] + b;
      NodesAppend(a[1..], b);
    } else {
      assert a + b == b;
    }
  }

  lemma ItemsCons(n: TreeNode, rest: seq<TreeNode>)
    ensures Items([n] + rest) == [n.item] + Items(rest)
  {
  }

  /**
   * `buildTree(items, parentId)` restricted to the records at positions `from..`: one node per
   * record whose `parentId` matches, in input order, each with its own subtree. `path` is the
   * (ghost) root chain that leads to `parentId`; it only serves the termination argument.
   */
  function Level(all: seq<MenuItem>, parentId: int, from: nat, ghost path: seq<nat>): (r: seq<TreeNode>)
    requires UniqueIds(all) && NonZeroIds(all)
    requires IsRootPath(all, path) && parentId == PathEnd(all, path) && from <= |all|
    ensures Items(r) == WithParent(all[from..], parentId)
    ensures forall n :: n in Nodes(r) ==> NodeOk(all, n) && RootedItem(all, n.item)
    decreases Unvisited(all, path), |all| - from
  {
    if from == |all| then []
    else
      assert all[from..][1..] == all[from + 1..];
      var rest := Level(all, parentId, from + 1, path);
      if all[from].parentId == parentId then
        ExtendPath(all, path, from);
        var x := all[from];
        var node := TreeNode(x, x.menuId, x.name, Level(all, x.menuId, 0, path + [from]));
        NodesCons(node, rest);
        ItemsCons(node, rest);
        assert all[0..] == all;
        [node] + rest
      else
        rest
  }

  /** `buildTree(items)`: the forest hanging from parent id 0. */
  function BuildTree(all: seq<MenuItem>): (r: seq<TreeNode>)
    requires UniqueIds(all) && NonZeroIds(all)
    ensures Items(r) == WithParent(all, 0)
    ensures forall n :: n in Nodes(r) ==> NodeOk(all, n)
    ensures forall n :: n in Nodes(r) ==> RootedItem(all, n.item)
  {
    assert all[0..] == all;
    Level(all, 0, 0, [])
  }

  lemma {:induction false} MemberInNodes(ns: seq<TreeNode>, i: nat)
    requires i < |ns|
    ensures ns[i] in Nodes(ns)
  {
    if i > 0 {
      MemberInNodes(ns[1..], i - 1);
    }
  }

  lemma {:induction false} SubtreeInNodes(ns: seq<TreeNode>, m: TreeNode, c: TreeNode)
    requires m in Nodes(ns) && c in Nodes(m.children)
    ensures c in Nodes(ns)
  {
    if m != ns[0] {
      if m in Nodes(ns[0].children) {
        SubtreeInNodes(ns[0].children, m, c);
      } else {
        SubtreeInNodes(ns[1..], m, c);
      }
    }
  }

  /** Some node of `ns` is a copy of `x` when `x` is among the records the nodes came from. */
  lemma ItemHasNode(ns: seq<TreeNode>, x: MenuItem) returns (n: TreeNode)
    requires x in Items(ns)
    ensures n in ns && n.item == x
  {
    var i :| 0 <= i < |ns| && Items(ns)[i] == x;
    n := ns[i];
  }

  /**
   * Every record that a root chain reaches has a node in `buildTree(items)`: the chain's records
   * are found level by level, each among its parent's children.
   */
  lemma {:induction false} BuildTreeComplete(all: seq<MenuItem>, path: seq<nat>)
    requires UniqueIds(all) && NonZeroIds(all)
    requires IsRootPath(all, path) && |path| > 0
    ensures exists n :: n in Nodes(BuildTree(all)) && n.item == all[path[|path| - 1]]
  {
    var r := BuildTree(all);
    var x := all[path[|path| - 1]];
    if |path| == 1 {
      assert x in WithParent(all, 0);
      var n := ItemHasNode(r, x);
      var i :| 0 <= i < |r| && r[i] == n;
      MemberInNodes(r, i);
    } else {
      var up := path[..|path| - 1];
      assert IsRootPath(all, up);
      BuildTreeComplete(all, up);
      var m :| m in Nodes(r) && m.item == all[up[|up| - 1]];
      assert NodeOk(all, m);
      assert x in WithParent(all, m.item.menuId);
      var c := ItemHasNode(m.children, x);
      var i :| 0 <= i < |m.children| && m.children[i] == c;
      MemberInNodes(m.children, i);
      SubtreeInNodes(r, m, c);
    }
  }

  /** No two nodes of `ns` are copies of records with the same id. */
  ghost predicate DistinctIds(ns: seq<TreeNode>)
  {
    forall i, j :: 0 <= i < j < |ns| ==> ns[i].item.menuId != ns[j].item.menuId
  }

  /** `x` is a record reached by a root chain that runs through `path`, then a position `>= from`. */
  ghost predicate UnderPath(all: seq<MenuItem>, path: seq<nat>, from: nat, x: MenuItem)
  {
    exists q :: IsRootPath(all, q) && |q| > |path| && q[..|path|] == path && from <= q[|path|]
           && all[q[|q| - 1]] == x
  }

  lemma DistinctConcat(a: seq<TreeNode>, b: seq<TreeNode>)
    requires DistinctIds(a) && DistinctIds(b)
    requires forall m, n :: m in a && n in b ==> m.item.menuId != n.item.menuId
    ensures DistinctIds(a + b)
  {
    forall i, j | 0 <= i < j < |a + b| ensures (a + b)[i].item.menuId != (a + b)[j].item.menuId {
      if j < |a| {
      } else if i < |a| {
        assert (a + b)[i] in a && (a + b)[j] in b;
      } else {
        assert (a + b)[i] == b[i - |a|] && (a + b)[j] == b[j - |a|];
      }
    }
  }

  /** Two records reached through different positions after `path` are different records. */
  lemma Separated(all: seq<MenuItem>, path: seq<nat>, x: MenuItem, y: MenuItem, lo: nat, hi: nat)
    requires UniqueIds(all) && NonZeroIds(all)
    requires UnderPath(all, path + [lo], 0, x) && UnderPath(all, path, hi, y) && lo < hi
    ensures x.menuId != y.menuId
  {
    var q1 :| IsRootPath(all, q1) && |q1| > |path| + 1 && q1[..|path| + 1] == path + [lo]
              && all[q1[|q1| - 1]] == x;
    var q2 :| IsRootPath(all, q2) && |q2| > |path| && q2[..|path|] == path && hi <= q2[|path|]
              && all[q2[|q2| - 1]] == y;
    assert q1[|path|] == (path + [lo])[|path|] == lo;
    RootPathsDiffer(all, q1, q2);
  }

  /** Records below `path + [from]` are not the record at `from` itself. */
  lemma NotBelowSelf(all: seq<MenuItem>, path: seq<nat>, from: nat, y: MenuItem)
    requires UniqueIds(all) && NonZeroIds(all)
    requires from < |all| && IsRootPath(all, path + [from]) && UnderPath(all, path + [from], 0, y)
    ensures y.menuId != all[from].menuId
  {
    var down := path + [from];
    var q :| IsRootPath(all, q) && |q| > |down| && q[..|down|] == down && all[q[|q| - 1]] == y;
    RootPathsDiffer(all, q, down);
  }

  /** Records reached through a position after `from` are not the record at `from`. */
  lemma NotAfterSelf(all: seq<MenuItem>, path: seq<nat>, from: nat, y: MenuItem)
    requires UniqueIds(all) && NonZeroIds(all)
    requires from < |all| && IsRootPath(all, path + [from]) && UnderPath(all, path, from + 1, y)
    ensures y.menuId != all[from].menuId
  {
    var down := path + [from];
    var q :| IsRootPath(all, q) && |q| > |path| && q[..|path|] == path && from + 1 <= q[|path|]
             && all[q[|q| - 1]] == y;
    assert down[|path|] == from;
    RootPathsDiffer(all, q, down);
  }

  lemma LiftSub(all: seq<MenuItem>, path: seq<nat>, from: nat, y: MenuItem)
    requires UnderPath(all, path + [from], 0, y)
    ensures UnderPath(all, path, from, y)
  {
    var down := path + [from];
    var q :| IsRootPath(all, q) && |q| > |down| && q[..|down|] == down && all[q[|q| - 1]] == y;
    assert q[..|path|] == down[..|path|] == path;
    assert q[|path|] == down[|path|] == from;
  }

  lemma LiftRest(all: seq<MenuItem>, path: seq<nat>, from: nat, y: MenuItem)
    requires UnderPath(all, path, from + 1, y)
    ensures UnderPath(all, path, from, y)
  {
  }

  /**
   * The nodes `Level` produces are copies of pairwise different records, each reached by a root
   * chain through `path` and a position `>= from`.
   */
  lemma {:induction false} LevelShape(all: seq<MenuItem>, parentId: int, from: nat, path: seq<nat>)
    requires UniqueIds(all) && NonZeroIds(all)
    requires IsRootPath(all, path) && parentId == PathEnd(all, path) && from <= |all|
    ensures DistinctIds(Nodes(Level(all, parentId, from, path)))
    ensures forall n :: n in Nodes(Level(all, parentId, from, path)) ==> UnderPath(all, path, from, n.item)
    decreases Unvisited(all, path), |all| - from, 1
  {
    if from < |all| {
      if all[from].parentId == parentId {
        LevelShapeMatch(all, parentId, from, path);
      } else {
        var rest := Level(all, parentId, from + 1, path);
        assert Level(all, parentId, from, path) == rest;
        LevelShape(all, parentId, from + 1, path);
        forall n | n in Nodes(rest) ensures UnderPath(all, path, from, n.item) {
          LiftRest(all, path, from, n.item);
        }
      }
    }
  }

  /** `LevelShape` at a position whose record has the level's parent. */
  lemma {:induction false} LevelShapeMatch(all: seq<MenuItem>, parentId: int, from: nat, path: seq<nat>)
    requires UniqueIds(all) && NonZeroIds(all)
    requires IsRootPath(all, path) && parentId == PathEnd(all, path) && from < |all|
    requires all[from].parentId == parentId
    ensures DistinctIds(Nodes(Level(all, parentId, from, path)))
    ensures forall n :: n in Nodes(Level(all, parentId, from, path)) ==> UnderPath(all, path, from, n.item)
    decreases Unvisited(all, path), |all| - from, 0
  {
    var rest := Level(all, parentId, from + 1, path);
    LevelShape(all, parentId, from + 1, path);
    forall n | n in Nodes(rest) ensures UnderPath(all, path, from, n.item) {
      LiftRest(all, path, from, n.item);
    }
    ExtendPath(all, path, from);
    var x := all[from];
    var sub := Level(all, x.menuId, 0, path + [from]);
    LevelShape(all, x.menuId, 0, path + [from]);
    var node := TreeNode(x, x.menuId, x.name, sub);
    NodesCons(node, rest);
    assert Level(all, parentId, from, path) == [node] + rest;
    ShapeStep(all, path, from, node, Nodes(sub), Nodes(rest));
  }

  /** The step of `LevelShape` for a matching record at `from`, its subtree and its later siblings. */
  lemma ShapeStep(all: seq<MenuItem>, path: seq<nat>, from: nat, node: TreeNode, sub: seq<TreeNode>,
                  rest: seq<TreeNode>)
    requires UniqueIds(all) && NonZeroIds(all)
    requires from < |all| && IsRootPath(all, path + [from])
    requires DistinctIds(sub) && DistinctIds(rest)
    requires forall n :: n in sub ==> UnderPath(all, path + [from], 0, n.item)
    requires forall n :: n in rest ==> UnderPath(all, path, from, n.item)
    requires forall n :: n in rest ==> UnderPath(all, path, from + 1, n.item)
    requires node.item == all[from]
    ensures DistinctIds([node] + sub + rest)
    ensures forall n :: n in [node] + sub + rest ==> UnderPath(all, path, from, n.item)
  {
    var x := all[from];
    var down := path + [from];
    forall n | n in sub ensures UnderPath(all, path, from, n.item) && n.item.menuId != x.menuId {
      LiftSub(all, path, from, n.item);
      NotBelowSelf(all, path, from, n.item);
    }
    forall n | n in rest ensures n.item.menuId != x.menuId {
      NotAfterSelf(all, path, from, n.item);
    }
    forall m, n | m in sub && n in rest ensures m.item.menuId != n.item.menuId {
      Separated(all, path, m.item, n.item, from, from + 1);
    }
    assert down[..|path|] == path && down[|down| - 1] == from;
    assert UnderPath(all, path, from, x);
    DistinctConcat([node], sub);
    DistinctConcat([node] + sub, rest);
  }

  /**
   * Every record reached by a root chain appears exactly once in `buildTree(items)`: some node is a
   * copy of it, and any two nodes that are copies of it are the same pre-order position.
   */
  lemma BuildTreeExactlyOnce(all: seq<MenuItem>, path: seq<nat>)
    requires UniqueIds(all) && NonZeroIds(all)
    requires IsRootPath(all, path) && |path| > 0
    ensures exists n :: n in Nodes(BuildTree(all)) && n.item == all[path[|path| - 1]]
    ensures forall i, j ::
              (0 <= i < |Nodes(BuildTree(all))| && 0 <= j < |Nodes(BuildTree(all))|
               && Nodes(BuildTree(all))[i].item == all[path[|path| - 1]]
               && Nodes(BuildTree(all))[j].item == all[path[|path| - 1]]) ==> i == j
  {
    BuildTreeComplete(all, path);
    LevelShape(all, 0, 0, []);
  }

  /** No two nodes of the built forest are copies of records with the same id. */
  lemma BuildTreeDistinct(all: seq<MenuItem>)
    requires UniqueIds(all) && NonZeroIds(all)
    ensures DistinctIds(Nodes(BuildTree(all)))
  {
    LevelShape(all, 0, 0, []);
  }
}
