/**
 * `transformMenuToRoutes` in the menu utilities: a snake_case to camelCase rename of the backend
 * records, then `buildMenuTree`, an imperative two-pass link over shared objects. The objects are
 * modelled as an arena: object `i` is the i-th renamed record, its `children` array is the list of
 * positions `children[i]`, and `roots` lists the positions pushed onto the result.
 */
module MenuUtil {
  import opened Wrappers
  import opened Records

  /** A menu record as the backend sends it, with snake_case keys. */
  datatype RawMenu = RawMenu(
    menu_id: int,
    parent_id: int,
    name: string,
    url: string,
    perms: string,
    mtype: int,
    icon: string,
    order_num: int)

  /** The objects of the pass with their `children` arrays and the `roots` array. */
  datatype LinkedForest = LinkedForest(nodes: seq<MenuItem>, children: seq<seq<nat>>, roots: seq<nat>)

  /** The rename step for one record. */
  function Rename(r: RawMenu): MenuItem
  {
    MenuItem(r.menu_id, r.parent_id, r.name, r.url, r.perms, r.mtype, r.icon, r.order_num)
  }

  /** The backend form of a camelCase record: the inverse of `Rename`. */
  function ToRaw(m: MenuItem): RawMenu
  {
    RawMenu(m.menuId, m.parentId, m.name, m.url, m.perms, m.mtype, m.icon, m.orderNum)
  }

  /** The rename loses nothing: it is a bijection between the two record shapes. */
  lemma RenameRoundTrip(r: RawMenu, m: MenuItem)
    ensures ToRaw(Rename(r)) == r
    ensures Rename(ToRaw(m)) == m
    ensures Rename(r).menuId == r.menu_id && Rename(r).parentId == r.parent_id
    ensures Rename(r).orderNum == r.order_num
  {
  }

  /** The rename over the whole list: one output per input, each converting back to its input. */
  function RenameAll(raws: seq<RawMenu>): (ms: seq<MenuItem>)
    ensures |ms| == |raws|
    ensures forall i :: 0 <= i < |raws| ==> ToRaw(ms[i]) == raws[i]
  {
    seq(|raws|, i requires 0 <= i < |raws| => Rename(raws[i]))
  }

  /** The position `menuMap[id]` holds after the first `n` records were stored: the last one wins. */
  function LastIndexBelow(menus: seq<MenuItem>, id: int, n: nat): (r: Option<nat>)
    requires n <= |menus|
    ensures r.Some? ==> r.value < n && menus[r.value].menuId == id
    ensures r.Some? ==> forall k :: r.value < k < n ==> menus[k].menuId != id
    ensures r.None? ==> forall k :: 0 <= k < n ==> menus[k].menuId != id
  {
    if n == 0 then None
    else if menus[n - 1].menuId == id then Some(n - 1)
    else LastIndexBelow(menus, id, n - 1)
  }

  /** The position `menuMap[id]` refers to once the map is complete. */
  function LastIndexOf(menus: seq<MenuItem>, id: int): Option<nat>
  {
    LastIndexBelow(menus, id, |menus|)
  }

  /** The parent position the link pass finds for record `i`, if any. */
  function ParentSlot(menus: seq<MenuItem>, i: nat): Option<nat>
    requires i < |menus|
  {
    if menus[i].parentId == 0 then None else LastIndexOf(menus, menus[i].parentId)
  }

  /** `roots` after the link pass has visited the first `n` records. */
  function RootsBelow(menus: seq<MenuItem>, n: nat): (r: seq<nat>)
    requires n <= |menus|
    ensures forall k :: 0 <= k < |r| ==> r[k] < n
  {
    if n == 0 then []
    else RootsBelow(menus, n - 1) + (if menus[n - 1].parentId == 0 then [n - 1] else [])
  }

  /** `children` of object `j` after the link pass has visited the first `n` records. */
  function ChildrenBelow(menus: seq<MenuItem>, j: nat, n: nat): (r: seq<nat>)
    requires n <= |menus|
    ensures forall k :: 0 <= k < |r| ==> r[k] < n
  {
    if n == 0 then []
    else ChildrenBelow(menus, j, n - 1) + (if ParentSlot(menus, n - 1) == Some(j) then [n - 1] else [])
  }

  /** `menuMap` after the first pass has stored the first `n` records. */
  function IdMap(menus: seq<MenuItem>, n: nat): map<int, nat>
    requires n <= |menus|
  {
    if n == 0 then map[] else IdMap(menus, n - 1)[menus[n - 1].menuId := n - 1]
  }

  /** Looking an id up in `menuMap` finds the last record carrying it. */
  lemma {:induction false} IdMapLast(menus: seq<MenuItem>, n: nat, id: int)
    requires n <= |menus|
    ensures id in IdMap(menus, n) <==> LastIndexBelow(menus, id, n).Some?
    ensures id in IdMap(menus, n) ==> LastIndexBelow(menus, id, n) == Some(IdMap(menus, n)[id])
  {
    if n > 0 {
      IdMapLast(menus, n - 1, id);
    }
  }

  /**
   * `buildMenuTree(menus)`: the first pass resets every `children` array and fills `menuMap`; the
   * second pushes each root onto `roots` and appends every other record to the children of the
   * object its `parentId` names in `menuMap`, dropping it when there is none.
   */
  method BuildMenuTree(menus: seq<MenuItem>) returns (f: LinkedForest)
    ensures f.nodes == menus && |f.children| == |menus|
    ensures f.roots == RootsBelow(menus, |menus|)
    ensures forall j :: 0 <= j < |menus| ==> f.children[j] == ChildrenBelow(menus, j, |menus|)
  {
    var menuMap: map<int, nat> := map[];
    var children: seq<seq<nat>> := [];
    var i := 0;
    while i < |menus|
      invariant 0 <= i <= |menus|
      invariant |children| == i
      invariant forall j :: 0 <= j < i ==> children[j] == []
      invariant menuMap == IdMap(menus, i)
    {
      children := children + [[]];
      menuMap := menuMap[menus[i].menuId := i];
      i := i + 1;
    }
    var roots: seq<nat> := [];
    i := 0;
    while i < |menus|
      invariant 0 <= i <= |menus|
      invariant |children| == |menus|
      invariant roots == RootsBelow(menus, i)
      invariant forall j :: 0 <= j < |menus| ==> children[j] == ChildrenBelow(menus, j, i)
    {
      var menu := menus[i];
      IdMapLast(menus, |menus|, menu.parentId);
      if menu.parentId == 0 {
        roots := roots + [i];
      } else if menu.parentId in menuMap {
        var parent := menuMap[menu.parentId];
        children := children[parent := children[parent] + [i]];
      }
      i := i + 1;
    }
    f := LinkedForest(menus, children, roots);
  }

  /** `transformMenuToRoutes(menuList)`: rename every record, then link them. */
  method TransformMenuToRoutes(raws: seq<RawMenu>) returns (f: LinkedForest)
    ensures |f.nodes| == |raws| && |f.children| == |raws|
    ensures forall i :: 0 <= i < |raws| ==> ToRaw(f.nodes[i]) == raws[i]
    ensures f.roots == RootsBelow(f.nodes, |raws|)
    ensures forall j :: 0 <= j < |raws| ==> f.children[j] == ChildrenBelow(f.nodes, j, |raws|)
  {
    f := BuildMenuTree(RenameAll(raws));
  }

  /** A list of positions in strictly increasing order (input order, no repeats). */
  ghost predicate Increasing(s: seq<nat>)
  {
    forall a, b :: 0 <= a < b < |s| ==> s[a] < s[b]
  }

  /** The roots are exactly the records with `parentId == 0`. */
  lemma {:induction false} RootsExact(menus: seq<MenuItem>, n: nat)
    requires n <= |menus|
    ensures forall i: nat :: i in RootsBelow(menus, n) <==> i < n && menus[i].parentId == 0
  {
    if n > 0 {
      RootsExact(menus, n - 1);
    }
  }

  /** The roots come in input order. */
  lemma {:induction false} RootsIncreasing(menus: seq<MenuItem>, n: nat)
    requires n <= |menus|
    ensures Increasing(RootsBelow(menus, n))
  {
    if n > 0 {
      RootsIncreasing(menus, n - 1);
    }
  }

  /**
   * The children of object `j` are exactly the non-root records whose `parentId` names `j` in the
   * completed map.
   */
  lemma {:induction false} ChildrenExact(menus: seq<MenuItem>, j: nat, n: nat)
    requires n <= |menus|
    ensures forall i: nat :: i in ChildrenBelow(menus, j, n) <==> i < n && ParentSlot(menus, i) == Some(j)
  {
    if n > 0 {
      ChildrenExact(menus, j, n - 1);
    }
  }

  /** The children of an object come in input order. */
  lemma {:induction false} ChildrenIncreasing(menus: seq<MenuItem>, j: nat, n: nat)
    requires n <= |menus|
    ensures Increasing(ChildrenBelow(menus, j, n))
  {
    if n > 0 {
      ChildrenIncreasing(menus, j, n - 1);
    }
  }

  /**
   * Each record is linked at most once: a root is nobody's child, and a child sits in the
   * `children` of only one object.
   */
  lemma LinkedAtMostOnce(menus: seq<MenuItem>, i: nat, j: nat, j': nat)
    requires i < |menus|
    ensures i in RootsBelow(menus, |menus|) ==> i !in ChildrenBelow(menus, j, |menus|)
    ensures i in ChildrenBelow(menus, j, |menus|) && i in ChildrenBelow(menus, j', |menus|) ==> j == j'
  {
    RootsExact(menus, |menus|);
    ChildrenExact(menus, j, |menus|);
    ChildrenExact(menus, j', |menus|);
  }

  /** A non-root record whose `parentId` is no record's `menuId` is silently dropped. */
  lemma OrphanDropped(menus: seq<MenuItem>, i: nat, j: nat)
    requires i < |menus| && menus[i].parentId != 0
    requires forall k :: 0 <= k < |menus| ==> menus[k].menuId != menus[i].parentId
    ensures i !in RootsBelow(menus, |menus|)
    ensures i !in ChildrenBelow(menus, j, |menus|)
  {
    RootsExact(menus, |menus|);
    ChildrenExact(menus, j, |menus|);
  }

  /** With two records sharing an id, the later one receives the children. */
  lemma LaterDuplicateWins(menus: seq<MenuItem>, i: nat, k1: nat, k2: nat)
    requires i < |menus| && k1 < k2 < |menus|
    requires menus[k1].menuId == menus[k2].menuId == menus[i].parentId != 0
    requires forall k :: k2 < k < |menus| ==> menus[k].menuId != menus[k2].menuId
    ensures i in ChildrenBelow(menus, k2, |menus|)
    ensures i !in ChildrenBelow(menus, k1, |menus|)
  {
    ChildrenExact(menus, k1, |menus|);
    ChildrenExact(menus, k2, |menus|);
  }

  /** The records at the listed positions. */
  function Select(menus: seq<MenuItem>, ps: seq<nat>): seq<MenuItem>
    requires forall k :: 0 <= k < |ps| ==> ps[k] < |menus|
  {
    seq(|ps|, k requires 0 <= k < |ps| => menus[ps[k]])
  }

  lemma SelectSnoc(menus: seq<MenuItem>, ps: seq<nat>, q: seq<nat>)
    requires forall k :: 0 <= k < |ps| ==> ps[k] < |menus|
    requires |q| <= 1 && forall k :: 0 <= k < |q| ==> q[k] < |menus|
    ensures Select(menus, ps + q) == Select(menus, ps) + Select(menus, q)
  {
  }

  lemma {:induction false} WithParentSnoc(a: seq<MenuItem>, x: MenuItem, p: int)
    ensures WithParent(a + [x], p) == WithParent(a, p) + (if x.parentId == p then [x] else [])
  {
    if a != [] {
      assert (a + [x])[1..] == a[1..] + [x];
      WithParentSnoc(a[1..], x, p);
    }
  }

  /** The roots of the link pass are the records the parent filter selects for parent id 0. */
  lemma {:induction false} RootsMatchParentFilter(menus: seq<MenuItem>, n: nat)
    requires n <= |menus|
    ensures Select(menus, RootsBelow(menus, n)) == WithParent(menus[..n], 0)
  {
    if n > 0 {
      RootsMatchParentFilter(menus, n - 1);
      var x := menus[n - 1];
      var q: seq<nat> := if x.parentId == 0 then [n - 1] else [];
      SelectSnoc(menus, RootsBelow(menus, n - 1), q);
      assert Select(menus, q) == if x.parentId == 0 then [x] else [];
      assert menus[..n] == menus[..n - 1] + [x];
      WithParentSnoc(menus[..n - 1], x, 0);
      calc {
        Select(menus, RootsBelow(menus, n));
        Select(menus, RootsBelow(menus, n - 1) + q);
        Select(menus, RootsBelow(menus, n - 1)) + Select(menus, q);
        WithParent(menus[..n - 1], 0) + (if x.parentId == 0 then [x] else []);
        WithParent(menus[..n], 0);
      }
    }
  }

  /** With unique, non-zero ids a record's parent slot is the record whose id is its `parentId`. */
  lemma SlotOfParent(menus: seq<MenuItem>, i: nat, j: nat)
    requires UniqueIds(menus) && NonZeroIds(menus)
    requires i < |menus| && j < |menus|
    ensures ParentSlot(menus, i) == Some(j) <==> menus[i].parentId == menus[j].menuId
  {
    if menus[i].parentId == menus[j].menuId {
      var l := LastIndexOf(menus, menus[i].parentId);
      assert l.Some? && menus[l.value].menuId == menus[j].menuId;
    }
  }

  /**
   * With unique, non-zero ids the link pass and the recursive parent filter agree: the children
   * linked under object `j` are the records whose `parentId` is `j`'s id, in input order.
   */
  lemma {:induction false} ChildrenMatchParentFilter(menus: seq<MenuItem>, j: nat, n: nat)
    requires UniqueIds(menus) && NonZeroIds(menus)
    requires j < |menus| && n <= |menus|
    ensures Select(menus, ChildrenBelow(menus, j, n)) == WithParent(menus[..n], menus[j].menuId)
  {
    if n > 0 {
      ChildrenMatchParentFilter(menus, j, n - 1);
      var x := menus[n - 1];
      SlotOfParent(menus, n - 1, j);
      var q: seq<nat> := if x.parentId == menus[j].menuId then [n - 1] else [];
      SelectSnoc(menus, ChildrenBelow(menus, j, n - 1), q);
      assert Select(menus, q) == if x.parentId == menus[j].menuId then [x] else [];
      assert menus[..n] == menus[..n - 1] + [x];
      WithParentSnoc(menus[..n - 1], x, menus[j].menuId);
      calc {
        Select(menus, ChildrenBelow(menus, j, n));
        Select(menus, ChildrenBelow(menus, j, n - 1) + q);
        Select(menus, ChildrenBelow(menus, j, n - 1)) + Select(menus, q);
        WithParent(menus[..n - 1], menus[j].menuId) + (if x.parentId == menus[j].menuId then [x] else []);
        WithParent(menus[..n], menus[j].menuId);
      }
    }
  }
}
