/**
 * The side navigation of the main layout: `getMenuItems` turns the session's flat menu list into
 * the nested entries of the navigation menu, leaving out Button records, choosing an icon by name
 * and making each entry either a group (with children) or a link (with a click handler).
 */
module MainLayout {
  import opened Wrappers
  import opened Records
  import opened Hierarchy
  import opened MenuService

  /**
   * One navigation entry. `icon` is the name of the icon shown; `children` is absent for a link;
   * `onClick` is the url a click navigates to, absent for a group.
   */
  datatype NavItem = NavItem(
    key: string,
    icon: string,
    title: string,
    children: Option<seq<NavItem>>,
    onClick: Option<string>)

  /** The names `iconMap` knows. */
  const IconMapNames: seq<string> := ["DashboardOutlined", "SettingOutlined", "UserOutlined", "TeamOutlined", "MenuOutlined"]

  /** The icon shown when the record's icon name is unknown or empty. */
  const DefaultIcon := "MenuOutlined"

  /** `iconMap[name] || <MenuOutlined />`. */
  function IconFor(name: string): (r: string)
    ensures r in IconMapNames
    ensures name in IconMapNames ==> r == name
    ensures name !in IconMapNames ==> r == DefaultIcon
  {
    if name in IconMapNames then name else DefaultIcon
  }

  /** The entry made for record `x` whose (sorted) non-button children are `children`. */
  function Entry(x: MenuItem, children: seq<NavItem>): (r: NavItem)
    ensures r.key == x.url && r.title == x.name && r.icon == IconFor(x.icon)
    ensures r.children.None? <==> children == []
    ensures r.children.Some? ==> r.children.value == children
    ensures r.onClick.Some? <==> r.children.None?
    ensures r.onClick.Some? ==> r.onClick.value == x.url
  {
    NavItem(x.url, IconFor(x.icon), x.name,
            if |children| > 0 then Some(children) else None,
            if |children| == 0 then Some(x.url) else None)
  }

  // ---------------------------------------------------------------------------------------------
  // The final sort

  /**
   * `(a.orderNum || 0)`: the entries built here carry no `orderNum` field, so the comparator of
   * the sort sees 0 for every entry.
   */
  function OrderKey(n: NavItem): int
  {
    0
  }

  /** Inserts `x` after every element whose key is not greater than its own. */
  function Insert(x: NavItem, sorted: seq<NavItem>, key: NavItem -> int): seq<NavItem>
  {
    if sorted == [] then [x]
    else if key(x) < key(sorted[0]) then [x] + sorted
    else [sorted[0]] + Insert(x, sorted[1..], key)
  }

  /** A stable sort by `key`: equal keys keep their input order. */
  function SortBy(xs: seq<NavItem>, key: NavItem -> int): (r: seq<NavItem>)
    decreases |xs|
  {
    if xs == [] then [] else Insert(xs[|xs| - 1], SortBy(xs[..|xs| - 1], key), key)
  }

  lemma {:induction false} InsertEqualKeys(x: NavItem, s: seq<NavItem>, key: NavItem -> int)
    requires forall a, b :: key(a) == key(b)
    ensures Insert(x, s, key) == s + [x]
  {
    if s != [] {
      InsertEqualKeys(x, s[1..], key);
      assert [s[0]] + (s[1..] + [x]) == s + [x];
    }
  }

  /** A stable sort under a comparator that finds all elements equal leaves the order as it is. */
  lemma {:induction false} SortEqualKeys(xs: seq<NavItem>, key: NavItem -> int)
    requires forall a, b :: key(a) == key(b)
    ensures SortBy(xs, key) == xs
    decreases |xs|
  {
    if xs != [] {
      SortEqualKeys(xs[..|xs| - 1], key);
      InsertEqualKeys(xs[|xs| - 1], xs[..|xs| - 1], key);
      assert xs[..|xs| - 1] + [xs[|xs| - 1]] == xs;
    }
  }

  /** The sort of `getMenuItems` keeps every level in input order. */
  lemma SortKeepsOrder(xs: seq<NavItem>)
    ensures SortBy(xs, OrderKey) == xs
  {
    SortEqualKeys(xs, OrderKey);
  }

  // ---------------------------------------------------------------------------------------------
  // getMenuItems

  /**
   * `getMenuItems(items, parentId)`: the filtered and mapped level under `parentId`, sorted. As in
   * the tree builder, `path` is the ghost root chain leading to `parentId`.
   */
  function GetMenuItems(all: seq<MenuItem>, parentId: int, ghost path: seq<nat>): seq<NavItem>
    requires UniqueIds(all) && NonZeroIds(all)
    requires IsRootPath(all, path) && parentId == PathEnd(all, path)
    decreases Unvisited(all, path), |all| + 1
  {
    SortBy(MapLevel(all, parentId, 0, path), OrderKey)
  }

  /**
   * The `filter`/`map` part of `getMenuItems` over the records at positions `from..`: an entry
   * per record with the wanted parent that is not a Button, in input order.
   */
  function MapLevel(all: seq<MenuItem>, parentId: int, from: nat, ghost path: seq<nat>): seq<NavItem>
    requires UniqueIds(all) && NonZeroIds(all)
    requires IsRootPath(all, path) && parentId == PathEnd(all, path) && from <= |all|
    decreases Unvisited(all, path), |all| - from
  {
    if from == |all| then []
    else
      var rest := MapLevel(all, parentId, from + 1, path);
      var x := all[from];
      if x.parentId == parentId && x.mtype != BUTTON then
        ExtendPath(all, path, from);
        [Entry(x, GetMenuItems(all, x.menuId, path + [from]))] + rest
      else
        rest
  }

  /** `getMenuItems(menus)`: the navigation of the session's menus. */
  function MenuItems(all: seq<MenuItem>): seq<NavItem>
    requires UniqueIds(all) && NonZeroIds(all)
  {
    GetMenuItems(all, 0, [])
  }

  // ---------------------------------------------------------------------------------------------
  // The reference: the menu forest without its Button subtrees

  /** The forest with every Button node removed together with its subtree. */
  function Prune(ns: seq<TreeNode>): seq<TreeNode>
  {
    if ns == [] then []
    else
      (if ns[0].item.mtype == BUTTON then [] else [ns[0].(children := Prune(ns[0].children))])
      + Prune(ns[1..])
  }

  /** The navigation entries of a forest, node by node. */
  function Project(ns: seq<TreeNode>): (r: seq<NavItem>)
    ensures |r| == |ns|
  {
    if ns == [] then [] else [Entry(ns[0].item, Project(ns[0].children))] + Project(ns[1..])
  }

  /** The records whose kind is not Button, in order. */
  function NonButtons(xs: seq<MenuItem>): (r: seq<MenuItem>)
    ensures forall x :: x in r <==> x in xs && x.mtype != BUTTON
  {
    if xs == [] then [] else (if xs[0].mtype != BUTTON then [xs[0]] else []) + NonButtons(xs[1..])
  }

  lemma ProjectCons(n: TreeNode, rest: seq<TreeNode>)
    ensures Project([n] + rest) == [Entry(n.item, Project(n.children))] + Project(rest)
  {
    assert ([n] + rest)[0] == n && ([n] + rest)[1..] == rest;
  }

  lemma PruneCons(n: TreeNode, rest: seq<TreeNode>)
    ensures Prune([n] + rest) == (if n.item.mtype == BUTTON then [] else [n.(children := Prune(n.children))]) + Prune(rest)
  {
    assert ([n] + rest)[0] == n && ([n] + rest)[1..] == rest;
  }

  /**
   * Level by level, `getMenuItems` produces the entries of the tree builder's forest with the
   * Button subtrees removed.
   */
  lemma {:induction false} MapLevelIsPrunedLevel(all: seq<MenuItem>, parentId: int, from: nat, path: seq<nat>)
    requires UniqueIds(all) && NonZeroIds(all)
    requires IsRootPath(all, path) && parentId == PathEnd(all, path) && from <= |all|
    ensures MapLevel(all, parentId, from, path) == Project(Prune(Level(all, parentId, from, path)))
    decreases Unvisited(all, path), |all| - from, 1
  {
    if from < |all| {
      if all[from].parentId != parentId {
        MapLevelIsPrunedLevel(all, parentId, from + 1, path);
        assert Level(all, parentId, from, path) == Level(all, parentId, from + 1, path);
        assert MapLevel(all, parentId, from, path) == MapLevel(all, parentId, from + 1, path);
      } else {
        MapLevelChild(all, parentId, from, path);
      }
    }
  }

  /** The step of the induction above for a record at `from` that lies under `parentId`. */
  lemma {:induction false} MapLevelChild(all: seq<MenuItem>, parentId: int, from: nat, path: seq<nat>)
    requires UniqueIds(all) && NonZeroIds(all)
    requires IsRootPath(all, path) && parentId == PathEnd(all, path) && from < |all|
    requires all[from].parentId == parentId
    ensures MapLevel(all, parentId, from, path) == Project(Prune(Level(all, parentId, from, path)))
    decreases Unvisited(all, path), |all| - from, 0
  {
    MapLevelIsPrunedLevel(all, parentId, from + 1, path);
    var x := all[from];
    var rest := Level(all, parentId, from + 1, path);
    var mrest := MapLevel(all, parentId, from + 1, path);
    ExtendPath(all, path, from);
    var sub := Level(all, x.menuId, 0, path + [from]);
    var node := TreeNode(x, x.menuId, x.name, sub);
    assert Level(all, parentId, from, path) == [node] + rest;
    PruneCons(node, rest);
    if x.mtype == BUTTON {
      assert Prune([node] + rest) == Prune(rest);
      assert MapLevel(all, parentId, from, path) == mrest;
    } else {
      var msub := MapLevel(all, x.menuId, 0, path + [from]);
      MapLevelIsPrunedLevel(all, x.menuId, 0, path + [from]);
      SortKeepsOrder(msub);
      assert GetMenuItems(all, x.menuId, path + [from]) == msub;
      var head := node.(children := Prune(sub));
      assert Prune([node] + rest) == [head] + Prune(rest);
      ProjectCons(head, Prune(rest));
      assert MapLevel(all, parentId, from, path) == [Entry(x, msub)] + mrest;
    }
  }

  /**
   * The navigation is the projection of the menu forest (from the tree builder) with every
   * Button subtree removed.
   */
  lemma MenuItemsArePrunedTree(all: seq<MenuItem>)
    requires UniqueIds(all) && NonZeroIds(all)
    ensures MenuItems(all) == Project(Prune(BuildTree(all)))
  {
    MapLevelIsPrunedLevel(all, 0, 0, []);
    SortKeepsOrder(MapLevel(all, 0, 0, []));
  }

  // ---------------------------------------------------------------------------------------------
  // What the pruned forest contains

  lemma ItemsSplit(ns: seq<TreeNode>)
    requires ns != []
    ensures Items(ns) == [ns[0].item] + Items(ns[1..])
  {
  }

  lemma ItemsAppend(a: seq<TreeNode>, b: seq<TreeNode>)
    ensures Items(a + b) == Items(a) + Items(b)
  {
  }

  lemma NonButtonsCons(x: MenuItem, xs: seq<MenuItem>)
    ensures NonButtons([x] + xs) == (if x.mtype != BUTTON then [x] else []) + NonButtons(xs)
  {
    assert ([x] + xs)[0] == x && ([x] + xs)[1..] == xs;
  }

  /** The records of the pruned top level are the non-Button records of the top level. */
  lemma {:induction false} PruneItems(ns: seq<TreeNode>)
    ensures Items(Prune(ns)) == NonButtons(Items(ns))
  {
    if ns != [] {
      var n := ns[0];
      var rest := ns[1..];
      PruneItems(rest);
      var head := if n.item.mtype == BUTTON then [] else [n.(children := Prune(n.children))];
      assert Prune(ns) == head + Prune(rest);
      ItemsAppend(head, Prune(rest));
      assert Items(head) == if n.item.mtype != BUTTON then [n.item] else [];
      ItemsSplit(ns);
      NonButtonsCons(n.item, Items(rest));
    }
  }

  /** Every node of the pruned forest is a non-Button node of the forest, with pruned children. */
  lemma {:induction false} PruneOrigin(ns: seq<TreeNode>, m: TreeNode) returns (n: TreeNode)
    requires m in Nodes(Prune(ns))
    ensures n in Nodes(ns) && n.item == m.item && n.item.mtype != BUTTON && m.children == Prune(n.children)
    decreases ns
  {
    var first := ns[0];
    PruneCons(first, ns[1..]);
    assert ns == [first] + ns[1..];
    NodesCons(first, ns[1..]);
    var head := if first.item.mtype == BUTTON then [] else [first.(children := Prune(first.children))];
    NodesAppend(head, Prune(ns[1..]));
    if m in Nodes(Prune(ns[1..])) {
      n := PruneOrigin(ns[1..], m);
    } else {
      var h := first.(children := Prune(first.children));
      assert head == [h];
      NodesCons(h, []);
      if m == h {
        n := first;
      } else {
        n := PruneOrigin(first.children, m);
      }
    }
  }

  /**
   * In the navigation forest no node is a Button, the top level is the non-Button records with
   * parent 0, and the children of every node are exactly the non-Button records under it, in
   * input order; so a record appears only when its whole parent chain does, all non-Button.
   */
  lemma PrunedTreeShape(all: seq<MenuItem>)
    requires UniqueIds(all) && NonZeroIds(all)
    ensures Items(Prune(BuildTree(all))) == NonButtons(WithParent(all, 0))
    ensures forall m :: m in Nodes(Prune(BuildTree(all))) ==>
              && m.item.mtype != BUTTON
              && Items(m.children) == NonButtons(WithParent(all, m.item.menuId))
              && RootedItem(all, m.item)
  {
    var t := BuildTree(all);
    PruneItems(t);
    forall m | m in Nodes(Prune(t))
      ensures m.item.mtype != BUTTON && Items(m.children) == NonButtons(WithParent(all, m.item.menuId))
      ensures RootedItem(all, m.item)
    {
      var n := PruneOrigin(t, m);
      PruneItems(n.children);
    }
  }

  /** A navigation entry is a link exactly when it has no non-Button children. */
  lemma {:induction false} ProjectEntries(ns: seq<TreeNode>, i: nat)
    requires i < |ns|
    ensures Project(ns)[i] == Entry(ns[i].item, Project(ns[i].children))
    ensures Project(ns)[i].children.None? <==> ns[i].children == []
    ensures Project(ns)[i].onClick == if ns[i].children == [] then Some(ns[i].item.url) else None
  {
    if i > 0 {
      ProjectEntries(ns[1..], i - 1);
    }
  }
}
